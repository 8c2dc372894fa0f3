# A Dafny model of the switch-configuration webhook service

The repository holds three separate pieces. A Flask handler receives
GitHub push webhooks and authenticates them: it checks the signature and
answers `{"status": "success"}`, and does nothing more with the push
(app.py:48). A `GitRunner` (runner.py) keeps a checkout of a repository
up to date and runs an Ansible playbook from it. A `SlackNotifier`
(slack.py) posts Block Kit messages. The handler calls neither of the
other two; only a sample script (stub.py:35-36) posts a message. This
project models the deterministic core of each piece and proves properties
of it:

- `slack.py`. The modules `JsonTree` (jsontree.dfy) and `Slack` (slack.dfy)
  model `remove_none` on a JSON tree, and `asdict` on the Slack dataclasses.
  Each dataclass becomes a dict with its fields in declaration order and
  with `None` for unset optional fields, and then every `None` is pruned. The
  module also covers what `SlackNotifier.notify` posts and how the HTTP
  status decides its outcome.
- `github.py`. The module `Github` (github.dfy) models
  `GithubSignatureVerifier`: the secret is encoded as UTF-8 (`Utf8`,
  utf8.dfy), the `X-Hub-Signature-256` header is split at its first `=`
  (`Strings`, strings.dfy), and the error each check raises is modelled too.
  HMAC-SHA-256 (RFC 2104 over FIPS 180-4) is a parameter `hmac`, a function
  from key and message to a hex digest. Every property holds for any such
  function.
- `app.py`. The module `App` (app.dfy) models the `/hook/push` handler:
  five checks in a fixed order, each aborting with 400 and its own message.
  Proofs show that the first failing check picks the response. The handler
  gives the response matching the corrected signature check's outcome on
  every request once a secret is configured (`AppAgreesWithVerifier`). When the local digest is ASCII it also succeeds
  on exactly the requests that `verify_webhook_signature` as written accepts
  (`AppAgreesWithAsWrittenWhenAscii`). On a non-ASCII digest in the header
  the two differ: app.py answers 400 while github.py raises `TypeError`
  (`AppAndAsWrittenDisagreeOnNonAscii`, and "## Findings").
- `runner.py`. The module `Runner` (runner.dfy) models `GitRunner`: the
  default checkout name derived from the URL, the `limit` argument, and the
  order of the calls made to GitPython and `ansible_runner`. Those calls are
  recorded as a trace of effects, and `Execute` shows what an exception in
  one of them prevents.

The Flask configuration is a `map<string, string>`. A request is its header
map and `data`, the bytes Flask hands over as the request's data, which is
what both the handler and the verifier hash. Whether the checkout directory
exists, and which library calls raise, are parameters.

Three behaviours of the code are worth stating up front:

- A missing webhook secret is answered with 400, like the request errors
  (app.py:18-20).
- `run` and `updateRepository` default `ref` to `origin/HEAD` (runner.py:15, 25).
- The `limit` list is joined as given: it is not sorted and duplicates are
  kept (runner.py:29-30).

## Model

| member | source | states |
|---|---|---|
| JsonTree.RemoveNone | slack.py:8-18 | `None` stays `None`; anything else comes back with no `None` left at any depth; scalars are returned unchanged; a list stays a list and a dict a dict |
| JsonTree.PruneItems | slack.py:14 | the kept list elements hold no `None` at any depth, and the list does not grow |
| JsonTree.PruneMembers | slack.py:16 | the kept dict values hold no `None` at any depth, and the dict does not grow |
| JsonTree.PruneItemsIsFilterThenMap | slack.py:14 | pruning a list is filtering out `None` elements and then pruning each survivor; the result has one element per non-`None` input element |
| JsonTree.PruneMembersIsFilterThenMap | slack.py:16 | pruning a dict is dropping the `None`-valued keys and then pruning each value; the surviving keys are exactly the keys with non-`None` values, in order |
| JsonTree.ItemSurvivesIffNotNull | slack.py:14 | a pruned element is in the result if and only if some non-`None` input element prunes to it |
| JsonTree.MemberSurvivesIffNotNull | slack.py:16 | a key/value pair is in the result if and only if the key had a non-`None` value that prunes to that value |
| JsonTree.PrunedKeysComeFromInput | slack.py:16 | every key of the pruned dict is a key of the input dict |
| JsonTree.PruneMembersKeepsDistinctKeys | slack.py:16 | a dict with distinct keys still has distinct keys after pruning |
| JsonTree.NullFreeIsFixed | slack.py:8-18 | a value with no `None` in it is returned unchanged |
| JsonTree.RemoveNoneIdempotent | slack.py:8-18 | pruning twice is the same as pruning once |
| JsonTree.AllNoneEmpties | slack.py:13-16 | a list of nothing but `None` prunes to `[]`, and a dict of nothing but `None` values to `{}` |
| JsonTree.EmptyContainerKept | slack.py:13-16 | a dict value that is a list of `None`s or a dict of `None` values is not removed: it stays under its key as `[]` or `{}` |
| JsonTree.EmptyContainerKeptInList | slack.py:13-16 | a list element that is a list of `None`s or a dict of `None` values stays in the list as `[]` or `{}` |
| JsonTree.FalsyScalarsKept | slack.py:17-18 | `False`, `0` and `""` are not `None` and are kept |
| Slack.RawDict | slack.py:32 | `dataclasses.asdict` gives a dict with one key per dataclass field, unset fields included, in declaration order |
| Slack.AsDict | slack.py:30-35 | every dataclass serialises to a dict with no `None` at any depth |
| Slack.AsDictIgnoresFlag | slack.py:31-32 | `ignore_none` has no effect on the result |
| Slack.SlackTextType.Value | slack.py:25-27 | the enum members serialise to `plain_text` and `mrkdwn`, each string belonging to exactly one member |
| Slack.TextAndFieldFullyPresent | slack.py:38-69 | text objects serialise to `text` and `type`, and fields to `text`, `emoji` and `type`, with `mrkdwn` or `plain_text` as the type and `emoji` false by default |
| Slack.FieldsPruned | slack.py:13-14 | a list of fields serialises to the list of each field's own serialisation |
| Slack.BlocksPruned | slack.py:13-14 | a list of blocks serialises to the list of each block's own serialisation |
| Slack.AttachmentsPruned | slack.py:13-14 | a list of attachments serialises to the list of each attachment's own serialisation |
| Slack.SectionBlockJson | slack.py:72-76 | a section block has `text` only when set, `fields` only when set (an empty list is kept), and always `type` |
| Slack.HeaderAndDividerJson | slack.py:78-86 | a header block has `text` and `type`; a divider has only `type` |
| Slack.BlockTypeAlwaysPresent | slack.py:72-86 | every block's JSON carries its `type` discriminator |
| Slack.AttachmentJson | slack.py:89-93 | an attachment has exactly its set fields among `blocks`, `color` and `text`, in that order |
| Slack.MessageJson | slack.py:96-100 | a message has exactly its set fields among `text`, `attachments` and `blocks`, in that order |
| Slack.DefaultBlocks | slack.py:72-86 | `SlackSectionBlock()` is `{"type": "section"}` and `SlackDividerBlock()` is `{"type": "divider"}` |
| Slack.NotifyOutcome | slack.py:112-116 | a 4xx or 5xx reply fails with the response text; any other status succeeds |
| Slack.NotifyFailsOnErrorClasses | slack.py:113-116 | a reply fails exactly when its status is in the client-error or server-error class |
| Slack.NotifyRequest | slack.py:107-112 | the POST goes to the notifier's URL; its body is the message's pruned dict, whichever `ignore_none` is passed, holding exactly the message's set fields in declaration order |
| Slack.StubBlocksSerialise | stub.py:11-28 | the sample block list serialises block by block to sparse dicts |
| Slack.StubShapedSerialises | stub.py:7-31 | a message shaped like the sample serialises to a single attachment with `blocks` and `color`, and no `text` |
| Slack.StubMessageJson | stub.py:7-31 | the sample message serialises to the expected JSON tree |
| Strings.FindFirst | github.py:20 | finds the first occurrence of a character, or reports that there is none |
| Strings.SplitOnce | github.py:20 | `split("=", 1)` succeeds exactly when there is a `=`; the two parts joined by `=` give the input back, and the first part has no `=` |
| Strings.SplitOnceOfJoined | github.py:20 | splitting `a + "=" + b` at the first `=`, with no `=` in `a`, gives back `a` and `b` |
| Strings.Join | runner.py:30 | `sep.join(parts)` starts with the first part, and holds the separator when there are two parts or more |
| Strings.Split | runner.py:12 | `split("/")` gives at least one piece, and none of them contains the separator |
| Strings.JoinOfSplit | runner.py:12 | joining the pieces of a split gives the input back |
| Strings.SplitOfJoin | runner.py:30 | splitting the join of separator-free pieces gives the pieces back |
| Strings.LastPieceIsTail | runner.py:12 | the last piece of a split is a separator-free suffix, preceded by the separator if there is one, and the whole string if there is none |
| Utf8.EncodeChar | github.py:15 | one character takes 1 to 4 bytes: one byte exactly for ASCII, otherwise a lead byte and then continuation bytes |
| Utf8.DecodeEncodeChar | github.py:15 | decoding a character's bytes gives its code point back |
| Utf8.Utf8Encode | github.py:15 | the encoding is between one and four bytes per character |
| Utf8.AsciiEncodesBytewise | github.py:15 | an ASCII secret encodes to its own character codes |
| Utf8.Utf8EncodeInjective | github.py:15 | two strings with the same encoding are equal |
| Github.NewVerifier | github.py:14-15 | the key is the secret's UTF-8 encoding: one to four bytes per character, and byte for byte for an ASCII secret |
| Github.DistinctSecretsDistinctKeys | github.py:14-15 | different secrets give different keys |
| Github.VerifyWebhookSignature | github.py:17-42 | on success the result is `True`; missing header if and only if the header is absent, with the message "missing signature header"; unparsable if and only if there is no `=`, with "unable to parse signature header"; unknown type if and only if the name is not `sha256`, with "unknown signature type (…)" naming it; a bad signature carries the local digest and a request digest that differs from it, and its message names both |
| Github.WebhookSignatureError.Message | github.py:22-39 | each of the four exception texts: the two fixed texts belong to exactly their reason, and the other two name the offending token or both digests |
| Github.AcceptsExactlyExpectedHeader | github.py:17-42 | a request is accepted if and only if its header is exactly `sha256=` followed by the digest of the body |
| Github.DependsOnlyOnHeaderAndBody | github.py:17-42 | other headers have no effect on the verdict |
| Github.CompareDigest | github.py:37 | `compare_digest` on two strings raises `TypeError` unless both are ASCII, and otherwise tells equality |
| Github.VerifyAsWritten | github.py:17-42 | the code as written returns `True` whenever it does not raise |
| Github.NonAsciiDigestEscapesAsTypeError | github.py:37 | a `sha256=é` header makes the code as written raise `TypeError`, not `WebhookSignatureError` |
| Github.AsWrittenAgreesWhenAscii | github.py:17-42 | with ASCII digests the code as written and the corrected check agree |
| Github.AsWrittenAcceptsExactlyExpectedHeader | github.py:17-42 | when the local hex digest is ASCII, the code as written accepts exactly the header `sha256=` followed by the digest |
| App.HandlePushNotification | app.py:17-48 | every abort is a 400; success returns `{"status": "success"}`; the missing-secret, missing-header and unparsable-header cases get their messages |
| App.SecretCheckedFirst | app.py:18-20 | without a secret, the request has no effect on the response |
| App.SucceedsIffDigestMatches | app.py:18-48 | success if and only if a secret is configured and the header is `sha256=` followed by the digest of the body under the secret's UTF-8 bytes |
| App.FirstFailing | app.py:18-46 | returns no check exactly when every check passes, and otherwise a failing check before which every check passes |
| App.FirstFailingInOrder | app.py:18-46 | the checks are tried in order: secret, header present, parses, type known, digest matches |
| App.HandlerIsFirstFailingCheck | app.py:18-48 | the response is the abort message of the first failing check, or success when none fails |
| App.AppAgreesWithVerifier | app.py:18-48 | with a secret configured, the handler gives the response that matches the outcome of the corrected `verify_webhook_signature` (digests compared by equality), and succeeds exactly when it does |
| App.AppAgreesWithAsWrittenWhenAscii | app.py:18-48 | with a secret configured and an ASCII local digest, the handler succeeds exactly when `verify_webhook_signature` as written accepts |
| App.AppAndAsWrittenDisagreeOnNonAscii | app.py:40-46 | on `sha256=é` the handler aborts with 400 "Bad signature" while `verify_webhook_signature` as written raises `TypeError` |
| Runner.DefaultRepoDir | runner.py:11-12 | the default name has no `/`; it is a suffix of the URL preceded by `/`, or the whole URL when the URL has no `/` |
| Runner.DefaultRepoDirOfPath | runner.py:12 | for `prefix/name`, where `name` has no `/`, the default is `name` |
| Runner.TrailingSlashGivesEmptyName | runner.py:12 | a URL ending in `/` gives the empty name |
| Runner.ExampleCloneUrl | runner.py:12 | `https://github.com/example/switch-config.git` gives `switch-config.git` |
| Runner.NewGitRunner | runner.py:8-13 | the checkout is under `workdir`; its name is `repo_dir` when given, even an empty one, and otherwise the derived name, which has no `/` |
| Runner.OmittedRepoDirIsDerived | runner.py:11-13 | omitting `repo_dir` is the same as passing the derived name |
| Runner.UpdateRepository | runner.py:15-23 | three effects on the checkout directory: a clone exactly when the directory is absent, from the runner's URL, and otherwise an open; then a fetch; then a hard reset to `ref` |
| Runner.LimitArg | runner.py:29-32 | no limit exactly when `limit` is `None` or empty; a single host is passed as is |
| Runner.LimitArgListsHosts | runner.py:29-30 | for comma-free host names, the limit splits back into exactly the given hosts, in order, duplicates included |
| Runner.LimitArgKeepsOrder | runner.py:30 | `["switch2", "switch1"]` gives `"switch2,switch1"` |
| Runner.Run | runner.py:25-41 | the playbook run is last, with `ANSIBLE_NOCOLOR=1`, the checkout directory and the limit argument; every effect before it is the update, and it is the only effect when `update` is false |
| Runner.PlaybookRunsOnceAndLast | runner.py:25-41 | exactly one playbook run, and it is the last effect |
| Runner.NoUpdateTouchesNothing | runner.py:26-27 | with `update=False`, the only effect is the playbook run |
| Runner.Execute | runner.py:25-41 | the effects carried out are a prefix of the trace, and none of them raised; the call either completes or stops at the effect that raised |
| Runner.ExecuteStopsAtFirstFailure | runner.py:25-41 | something is raised if and only if some effect of the trace fails |
| Runner.PlaybookOnlyAfterSuccessfulUpdate | runner.py:25-41 | the playbook runs if and only if no effect of the trace fails; a failing clone, fetch or reset prevents it |

## Left out

- Flask application construction, routing, `from_prefixed_env` parsing of the environment, and the logger calls (app.py:1-16, 19, 22, 28, 32, 41-45, 50-53). Only the handler's decisions are modelled.
- Flask and HTTP header names are case-insensitive. The model uses a plain map with the exact name `X-Hub-Signature-256`.
- HMAC-SHA-256 is not computed. It is the parameter `hmac`, and the timing behaviour of `compare_digest` is not modelled.
- `json.dumps` text, indentation and `**kwargs` in `asjson` (slack.py:34-35). The model stops at the JSON tree that would be dumped.
- The `print` and the HTTP POST in `notify` (slack.py:110-112) are not performed. The POST is modelled as its URL and body, and the reply as its status and text.
- `SlackException` is modelled as a `Failure` carrying the response text.
- GitPython and `ansible_runner` behaviour: cloning, fetching, resetting, and the result object of `ansible_runner.run`. These calls are effect labels in a trace. A missing `ref`, which makes `repo.refs[ref]` raise, is one of the effects `Execute` lets fail.
- `pathlib` path joining: `workdir / repo_dir` is kept as its two parts. An absolute `repo_dir` replacing `workdir`, `..`, and the string form passed as `private_data_dir` are not modelled.
- A `limit` given as a string rather than a list (`','.join` over its characters) is not modelled: `limit` is a list of host names.
- `data` stands for Flask's `request.data` (github.py:33, app.py:37). Content types and form parsing are not modelled. For a form-encoded delivery, which GitHub offers, Flask parses the form and hands over `b""` instead of the signed bytes, so the digest of the empty body is compared and the handler answers 400 "Bad signature".
- `CONFIG_DEFAULTS` colours (app.py:5-7) are not used by the handler.
- Runner.LimitArg: the round trip `LimitArgListsHosts` is stated only for host names without commas, because a comma inside a name cannot be told apart from a separator.
- Utf8.Utf8Encode: a Python `str` can hold a lone surrogate (from a surrogate-escaped environment value, say), and `.encode()` then raises `UnicodeEncodeError` (github.py:15, app.py:36). A Dafny `char` cannot be a surrogate, so such a secret cannot be represented and that error path is not modelled.

## Findings

| source | as written | input that shows it | evidently intended | confidence | as-written member | corrected member |
|---|---|---|---|---|---|---|
| github.py:37 | the header's digest part and the local hex digest are compared as two `str` values with `hmac.compare_digest`, which raises `TypeError` when a `str` holds a non-ASCII character | header `X-Hub-Signature-256: sha256=é` | a bad signature raises `WebhookSignatureError("bad signature: …")`, which callers catch | not executed; medium (relies on the documented `compare_digest` behaviour for non-ASCII `str`) | Github.VerifyAsWritten, Github.NonAsciiDigestEscapesAsTypeError | Github.VerifyWebhookSignature, Github.AcceptsExactlyExpectedHeader |
