/**
 The Slack message model of slack.py and its sparse serialisation: each
 dataclass becomes a dict of its fields in declaration order
 (`dataclasses.asdict`, with unset optionals as `None`), and
 `jsonObject.asdict` then runs `remove_none` over it, so unset fields are
 absent while empty lists stay.
 */
module Slack {
  import opened Wrappers
  import opened JsonTree

  /** `SlackTextType`, a string enum. */
  datatype SlackTextType = PLAIN_TEXT | MARKDOWN {
    /** The enum's string value, which is what ends up in the JSON; each member has its own. */
    function Value(): (r: string)
      ensures r == "plain_text" <==> PLAIN_TEXT?
      ensures r == "mrkdwn" <==> MARKDOWN?
    {
      match this
      case PLAIN_TEXT => "plain_text"
      case MARKDOWN => "mrkdwn"
    }
  }

  /** `SlackMarkdown` and `SlackText`: a text object, whose `type` defaults per class. */
  datatype TextObject =
    | SlackMarkdown(text: string, textType: SlackTextType := MARKDOWN)
    | SlackText(text: string, textType: SlackTextType := PLAIN_TEXT)

  /** The `SlackField` subclasses `SlackMarkdownField` and `SlackTextField`. */
  datatype SlackField =
    | SlackMarkdownField(text: string, emoji: bool := false, textType: SlackTextType := MARKDOWN)
    | SlackTextField(text: string, emoji: bool := false, textType: SlackTextType := PLAIN_TEXT)

  /** The `SlackBlock` subclasses; `blockType` is the dataclass field `type`. */
  datatype SlackBlock =
    | SlackSectionBlock(sectionText: Option<TextObject> := None,
                        fields: Option<seq<SlackField>> := None,
                        blockType: string := "section")
    | SlackHeaderBlock(headerText: TextObject, blockType: string := "header")
    | SlackDividerBlock(blockType: string := "divider")

  datatype SlackAttachment = SlackAttachment(
    blocks: Option<seq<SlackBlock>> := None,
    color: Option<string> := None,
    text: Option<string> := None)

  datatype SlackMessage = SlackMessage(
    text: Option<string> := None,
    attachments: Option<seq<SlackAttachment>> := None,
    blocks: Option<seq<SlackBlock>> := None)

  datatype SlackNotifier = SlackNotifier(notifyUrl: string)

  /** Every class that inherits `jsonObject`. */
  datatype JsonObject =
    | Text(t: TextObject)
    | Field(f: SlackField)
    | Block(b: SlackBlock)
    | Attachment(a: SlackAttachment)
    | Message(m: SlackMessage)
    | Notifier(n: SlackNotifier)

  // ---------------------------------------------------------------------------
  // dataclasses.asdict: every field, in declaration order, None included

  function OptStr(o: Option<string>): Json {
    match o
    case None => JNull
    case Some(s) => JStr(s)
  }

  function TextDict(t: TextObject): Json {
    JObj([("text", JStr(t.text)), ("type", JStr(t.textType.Value()))])
  }

  function FieldDict(f: SlackField): Json {
    JObj([("text", JStr(f.text)), ("emoji", JBool(f.emoji)), ("type", JStr(f.textType.Value()))])
  }

  function FieldsDict(fs: seq<SlackField>): Json {
    JArr(seq(|fs|, i requires 0 <= i < |fs| => FieldDict(fs[i])))
  }

  function BlockDict(b: SlackBlock): Json {
    match b
    case SlackSectionBlock(t, fs, ty) =>
      JObj([("text", if t.Some? then TextDict(t.value) else JNull),
            ("fields", if fs.Some? then FieldsDict(fs.value) else JNull),
            ("type", JStr(ty))])
    case SlackHeaderBlock(t, ty) =>
      JObj([("text", TextDict(t)), ("type", JStr(ty))])
    case SlackDividerBlock(ty) =>
      JObj([("type", JStr(ty))])
  }

  function BlocksDict(bs: seq<SlackBlock>): Json {
    JArr(seq(|bs|, i requires 0 <= i < |bs| => BlockDict(bs[i])))
  }

  function AttachmentDict(a: SlackAttachment): Json {
    JObj([("blocks", if a.blocks.Some? then BlocksDict(a.blocks.value) else JNull),
          ("color", OptStr(a.color)),
          ("text", OptStr(a.text))])
  }

  function AttachmentsDict(atts: seq<SlackAttachment>): Json {
    JArr(seq(|atts|, i requires 0 <= i < |atts| => AttachmentDict(atts[i])))
  }

  function MessageDict(m: SlackMessage): Json {
    JObj([("text", OptStr(m.text)),
          ("attachments", if m.attachments.Some? then AttachmentsDict(m.attachments.value) else JNull),
          ("blocks", if m.blocks.Some? then BlocksDict(m.blocks.value) else JNull)])
  }

  /** The dataclass fields of each class, in declaration order. */
  function FieldNames(o: JsonObject): seq<string> {
    match o
    case Text(_) => ["text", "type"]
    case Field(_) => ["text", "emoji", "type"]
    case Block(SlackSectionBlock(_, _, _)) => ["text", "fields", "type"]
    case Block(SlackHeaderBlock(_, _)) => ["text", "type"]
    case Block(SlackDividerBlock(_)) => ["type"]
    case Attachment(_) => ["blocks", "color", "text"]
    case Message(_) => ["text", "attachments", "blocks"]
    case Notifier(_) => ["notify_url"]
  }

  /**
   `dataclasses.asdict(self)` for every `jsonObject`: a dict with one entry
   per dataclass field, unset ones included, in declaration order.
   */
  function RawDict(o: JsonObject): (r: Json)
    ensures r.JObj? && Keys(r.members) == FieldNames(o)
  {
    match o
    case Text(t) => TextDict(t)
    case Field(f) => FieldDict(f)
    case Block(b) => BlockDict(b)
    case Attachment(a) => AttachmentDict(a)
    case Message(m) => MessageDict(m)
    case Notifier(n) => JObj([("notify_url", JStr(n.notifyUrl))])
  }

  /**
   `jsonObject.asdict(ignore_none)`: the dataclass dict with every `None`
   removed. The `ignore_none` argument is accepted and ignored.
   */
  function AsDict(o: JsonObject, ignoreNone: bool := false): (r: Json)
    ensures r.JObj? && NullFree(r)
  {
    RemoveNone(RawDict(o))
  }

  // ---------------------------------------------------------------------------
  // Properties of the sparse serialisation

  /** The same tree comes out whichever `ignore_none` is passed. */
  lemma AsDictIgnoresFlag(o: JsonObject)
    ensures AsDict(o, true) == AsDict(o, false)
  {
  }

  /** The entry for an optional field: present with its value when set, absent when unset. */
  function EntryIf(name: string, value: Option<Json>): seq<(string, Json)> {
    if value.Some? then [(name, value.value)] else []
  }

  /** Each field, block or attachment serialised on its own. */
  function EachFieldAsDict(fs: seq<SlackField>): (r: seq<Json>)
    ensures |r| == |fs|
  {
    seq(|fs|, i requires 0 <= i < |fs| => AsDict(Field(fs[i])))
  }

  function EachBlockAsDict(bs: seq<SlackBlock>): (r: seq<Json>)
    ensures |r| == |bs|
  {
    seq(|bs|, i requires 0 <= i < |bs| => AsDict(Block(bs[i])))
  }

  function EachAttachmentAsDict(atts: seq<SlackAttachment>): (r: seq<Json>)
    ensures |r| == |atts|
  {
    seq(|atts|, i requires 0 <= i < |atts| => AsDict(Attachment(atts[i])))
  }

  /** One dataclass field: a `None` value drops the entry, any other is pruned in place. */
  lemma PruneEntry(name: string, raw: Json, pruned: Option<Json>)
    requires raw.JNull? <==> pruned.None?
    requires pruned.Some? ==> RemoveNone(raw) == pruned.value
    ensures PruneMembers([(name, raw)]) == EntryIf(name, pruned)
  {
    PruneOneMember(name, raw);
  }

  /** A two-field dict of set values prunes to the same keys with pruned values. */
  lemma PruneDict2(x: (string, Json), y: (string, Json))
    ensures PruneMembers([x, y]) == PruneMembers([x]) + PruneMembers([y])
  {
    assert [x, y] == [x] + [y];
    PruneMembersAppend([x], [y]);
  }

  /** A three-field dict prunes field by field. */
  lemma PruneDict3(x: (string, Json), y: (string, Json), z: (string, Json))
    ensures PruneMembers([x, y, z]) == PruneMembers([x]) + PruneMembers([y]) + PruneMembers([z])
  {
    assert [x, y, z] == [x] + [y] + [z];
    PruneMembersAppend([x] + [y], [z]);
    PruneMembersAppend([x], [y]);
  }

  /** Text objects and fields have no optional part: every field is serialised. */
  lemma TextAndFieldFullyPresent(t: TextObject, f: SlackField)
    ensures AsDict(Text(t)) == JObj([("text", JStr(t.text)), ("type", JStr(t.textType.Value()))])
    ensures AsDict(Field(f))
         == JObj([("text", JStr(f.text)), ("emoji", JBool(f.emoji)), ("type", JStr(f.textType.Value()))])
  {
    TextFullyPresent(t);
    FieldFullyPresent(f);
  }

  lemma TextFullyPresent(t: TextObject)
    ensures AsDict(Text(t)) == JObj([("text", JStr(t.text)), ("type", JStr(t.textType.Value()))])
  {
    var ts := TextDict(t).members;
    PruneDict2(ts[0], ts[1]);
    PruneOneMember(ts[0].0, ts[0].1);
    PruneOneMember(ts[1].0, ts[1].1);
  }

  lemma FieldFullyPresent(f: SlackField)
    ensures AsDict(Field(f))
         == JObj([("text", JStr(f.text)), ("emoji", JBool(f.emoji)), ("type", JStr(f.textType.Value()))])
  {
    var ms := FieldDict(f).members;
    PruneDict3(ms[0], ms[1], ms[2]);
    PruneOneMember(ms[0].0, ms[0].1);
    PruneOneMember(ms[1].0, ms[1].1);
    PruneOneMember(ms[2].0, ms[2].1);
  }

  /** Pruning a list of dataclass dicts prunes each one in place: none of them is `None`. */
  lemma FieldsPruned(fs: seq<SlackField>)
    ensures RemoveNone(FieldsDict(fs)) == JArr(EachFieldAsDict(fs))
  {
    var items := FieldsDict(fs).items;
    PruneItemsWithoutNulls(items);
  }

  lemma BlocksPruned(bs: seq<SlackBlock>)
    ensures RemoveNone(BlocksDict(bs)) == JArr(EachBlockAsDict(bs))
  {
    var items := BlocksDict(bs).items;
    forall i | 0 <= i < |bs|
      ensures !items[i].JNull?
    {
      assert items[i] == BlockDict(bs[i]);
    }
    PruneItemsWithoutNulls(items);
  }

  lemma AttachmentsPruned(atts: seq<SlackAttachment>)
    ensures RemoveNone(AttachmentsDict(atts)) == JArr(EachAttachmentAsDict(atts))
  {
    var items := AttachmentsDict(atts).items;
    forall i | 0 <= i < |atts|
      ensures !items[i].JNull?
    {
      assert items[i] == AttachmentDict(atts[i]);
    }
    PruneItemsWithoutNulls(items);
  }

  /**
   A section block serialises to its set fields plus the `type` discriminator,
   which is always there; nested objects appear in their own serialised form,
   and an empty `fields` list is kept (unset differs from empty).
   */
  lemma SectionBlockJson(t: Option<TextObject>, fs: Option<seq<SlackField>>, ty: string)
    ensures AsDict(Block(SlackSectionBlock(t, fs, ty)))
         == JObj(EntryIf("text", if t.Some? then Some(AsDict(Text(t.value))) else None)
                 + EntryIf("fields", if fs.Some? then Some(JArr(EachFieldAsDict(fs.value))) else None)
                 + [("type", JStr(ty))])
  {
    var ms := BlockDict(SlackSectionBlock(t, fs, ty)).members;
    PruneDict3(ms[0], ms[1], ms[2]);
    SectionTextEntry(t);
    SectionFieldsEntry(fs);
    PruneOneMember(ms[2].0, ms[2].1);
  }

  /** The optional `text` of a section block, on its own. */
  lemma SectionTextEntry(t: Option<TextObject>)
    ensures PruneMembers([("text", if t.Some? then TextDict(t.value) else JNull)])
         == EntryIf("text", if t.Some? then Some(AsDict(Text(t.value))) else None)
  {
    if t.Some? {
      TextFullyPresent(t.value);
    }
    PruneEntry("text", if t.Some? then TextDict(t.value) else JNull,
               if t.Some? then Some(AsDict(Text(t.value))) else None);
  }

  /** The optional `fields` of a section block, on its own. */
  lemma SectionFieldsEntry(fs: Option<seq<SlackField>>)
    ensures PruneMembers([("fields", if fs.Some? then FieldsDict(fs.value) else JNull)])
         == EntryIf("fields", if fs.Some? then Some(JArr(EachFieldAsDict(fs.value))) else None)
  {
    if fs.Some? {
      FieldsPruned(fs.value);
    }
    PruneEntry("fields", if fs.Some? then FieldsDict(fs.value) else JNull,
               if fs.Some? then Some(JArr(EachFieldAsDict(fs.value))) else None);
  }

  /** A header block serialises both its fields; a divider only its `type`. */
  lemma HeaderAndDividerJson(t: TextObject, ty: string, dty: string)
    ensures AsDict(Block(SlackHeaderBlock(t, ty))) == JObj([("text", AsDict(Text(t))), ("type", JStr(ty))])
    ensures AsDict(Block(SlackDividerBlock(dty))) == JObj([("type", JStr(dty))])
  {
    var ms := BlockDict(SlackHeaderBlock(t, ty)).members;
    PruneDict2(ms[0], ms[1]);
    PruneOneMember(ms[0].0, ms[0].1);
    PruneOneMember(ms[1].0, ms[1].1);
    PruneOneMember("type", JStr(dty));
  }

  /** The `type` discriminator of every block is present in its JSON, as given. */
  lemma BlockTypeAlwaysPresent(b: SlackBlock)
    ensures ("type", JStr(b.blockType)) in AsDict(Block(b)).members
  {
    match b
    case SlackSectionBlock(t, fs, ty) =>
      SectionBlockJson(t, fs, ty);
      var ms := AsDict(Block(b)).members;
      assert ms[|ms| - 1] == ("type", JStr(ty));
    case SlackHeaderBlock(t, ty) =>
      HeaderAndDividerJson(t, ty, ty);
    case SlackDividerBlock(ty) =>
      HeaderAndDividerJson(SlackText(""), ty, ty);
  }

  /** An attachment serialises to exactly its set fields, in declaration order. */
  lemma AttachmentJson(a: SlackAttachment)
    ensures AsDict(Attachment(a))
         == JObj(EntryIf("blocks", if a.blocks.Some? then Some(JArr(EachBlockAsDict(a.blocks.value))) else None)
                 + EntryIf("color", if a.color.Some? then Some(JStr(a.color.value)) else None)
                 + EntryIf("text", if a.text.Some? then Some(JStr(a.text.value)) else None))
  {
    var ms := AttachmentDict(a).members;
    PruneDict3(ms[0], ms[1], ms[2]);
    if a.blocks.Some? {
      BlocksPruned(a.blocks.value);
    }
    PruneEntry("blocks", ms[0].1, if a.blocks.Some? then Some(JArr(EachBlockAsDict(a.blocks.value))) else None);
    PruneEntry("color", ms[1].1, if a.color.Some? then Some(JStr(a.color.value)) else None);
    PruneEntry("text", ms[2].1, if a.text.Some? then Some(JStr(a.text.value)) else None);
  }

  /** A message serialises to exactly its set fields, in declaration order. */
  lemma MessageJson(m: SlackMessage)
    ensures AsDict(Message(m))
         == JObj(EntryIf("text", if m.text.Some? then Some(JStr(m.text.value)) else None)
                 + EntryIf("attachments",
                     if m.attachments.Some? then Some(JArr(EachAttachmentAsDict(m.attachments.value))) else None)
                 + EntryIf("blocks", if m.blocks.Some? then Some(JArr(EachBlockAsDict(m.blocks.value))) else None))
  {
    var ms := MessageDict(m).members;
    PruneDict3(ms[0], ms[1], ms[2]);
    if m.attachments.Some? {
      AttachmentsPruned(m.attachments.value);
    }
    if m.blocks.Some? {
      BlocksPruned(m.blocks.value);
    }
    PruneEntry("text", ms[0].1, if m.text.Some? then Some(JStr(m.text.value)) else None);
    PruneEntry("attachments", ms[1].1,
               if m.attachments.Some? then Some(JArr(EachAttachmentAsDict(m.attachments.value))) else None);
    PruneEntry("blocks", ms[2].1, if m.blocks.Some? then Some(JArr(EachBlockAsDict(m.blocks.value))) else None);
  }

  /** A section block and a divider built with no arguments serialise to their `type` alone. */
  lemma DefaultBlocks()
    ensures AsDict(Block(SlackSectionBlock())) == JObj([("type", JStr("section"))])
    ensures AsDict(Block(SlackDividerBlock())) == JObj([("type", JStr("divider"))])
  {
    SectionBlockJson(None, None, "section");
    HeaderAndDividerJson(SlackText(""), "header", "divider");
  }

  // ---------------------------------------------------------------------------
  // SlackNotifier.notify, without the network

  /**
   What `notify` posts: the message's pruned dict to the notifier's URL. The
   HTTP status of the reply decides the outcome: `raise_for_status` fails on
   4xx and 5xx, which `notify` re-raises as a `SlackException` carrying the
   reply's text.
   */
  function NotifyOutcome(status: int, responseText: string): (r: Result<(), string>)
    ensures r.Failure? <==> 400 <= status < 600
    ensures r.Failure? ==> r.error == responseText
  {
    if 400 <= status < 600 then Failure(responseText) else Success(())
  }

  /** `notify` fails exactly on the client-error and server-error classes, 4xx and 5xx. */
  lemma NotifyFailsOnErrorClasses(status: nat, responseText: string)
    ensures NotifyOutcome(status, responseText).Failure? <==> status / 100 == 4 || status / 100 == 5
  {
  }

  /** The POST `notify` makes: its URL and its JSON body, the message's pruned dict. */
  datatype Post = Post(url: string, body: Json)

  function NotifyRequest(n: SlackNotifier, m: SlackMessage): (p: Post)
    ensures p.url == n.notifyUrl
    ensures p.body.JObj? && NullFree(p.body)
    ensures p.body == AsDict(Message(m))
    ensures p.body
         == JObj(EntryIf("text", if m.text.Some? then Some(JStr(m.text.value)) else None)
                 + EntryIf("attachments",
                     if m.attachments.Some? then Some(JArr(EachAttachmentAsDict(m.attachments.value))) else None)
                 + EntryIf("blocks", if m.blocks.Some? then Some(JArr(EachBlockAsDict(m.blocks.value))) else None))
  {
    MessageJson(m);
    Post(n.notifyUrl, AsDict(Message(m), true))
  }

  // ---------------------------------------------------------------------------
  // The message stub.py builds, as a concrete serialisation vector

  /** The shape of stub.py's message: one coloured attachment with four blocks. */
  function StubShaped(headline: string, subhead: string, s1: string, s2: string, s3: string, color: string)
    : SlackMessage
  {
    SlackMessage(attachments := Some([
      SlackAttachment(color := Some(color), blocks := Some(StubBlocks(headline, subhead, s1, s2, s3)))]))
  }

  function StubBlocks(headline: string, subhead: string, s1: string, s2: string, s3: string)
    : seq<SlackBlock>
  {
    [SlackSectionBlock(sectionText := Some(SlackMarkdown(headline))),
     SlackDividerBlock(),
     SlackSectionBlock(sectionText := Some(SlackMarkdown(subhead))),
     SlackSectionBlock(fields := Some([SlackTextField(s1), SlackTextField(s2), SlackTextField(s3)]))]
  }

  const StubMessage: SlackMessage := StubShaped(
    "Changes detected in switch configuration", "Switches with configuration changes",
    "switch1", "switch2", "switch3", "#00ff00")

  function MarkdownJson(text: string): Json {
    JObj([("text", JStr(text)), ("type", JStr("mrkdwn"))])
  }

  function SwitchFieldJson(name: string): Json {
    JObj([("text", JStr(name)), ("emoji", JBool(false)), ("type", JStr("plain_text"))])
  }

  /** The JSON stub.py's message is expected to produce. */
  function StubShapedJson(headline: string, subhead: string, s1: string, s2: string, s3: string, color: string)
    : Json
  {
    JObj([("attachments", JArr([JObj([
      ("blocks", JArr(StubBlocksJson(headline, subhead, s1, s2, s3))),
      ("color", JStr(color))])]))])
  }

  function StubBlocksJson(headline: string, subhead: string, s1: string, s2: string, s3: string)
    : seq<Json>
  {
    [JObj([("text", MarkdownJson(headline)), ("type", JStr("section"))]),
     JObj([("type", JStr("divider"))]),
     JObj([("text", MarkdownJson(subhead)), ("type", JStr("section"))]),
     JObj([("fields", JArr([SwitchFieldJson(s1), SwitchFieldJson(s2), SwitchFieldJson(s3)])),
           ("type", JStr("section"))])]
  }

  lemma MarkdownSectionJson(text: string)
    ensures AsDict(Block(SlackSectionBlock(sectionText := Some(SlackMarkdown(text)))))
         == JObj([("text", MarkdownJson(text)), ("type", JStr("section"))])
  {
    SectionBlockJson(Some(SlackMarkdown(text)), None, "section");
    TextFullyPresent(SlackMarkdown(text));
  }

  lemma FieldSectionJson(a: string, b: string, c: string)
    ensures AsDict(Block(SlackSectionBlock(fields := Some([SlackTextField(a), SlackTextField(b), SlackTextField(c)]))))
         == JObj([("fields", JArr([SwitchFieldJson(a), SwitchFieldJson(b), SwitchFieldJson(c)])),
                  ("type", JStr("section"))])
  {
    var fs := [SlackTextField(a), SlackTextField(b), SlackTextField(c)];
    SectionBlockJson(None, Some(fs), "section");
    var out := EachFieldAsDict(fs);
    assert out[0] == SwitchFieldJson(a) by { FieldFullyPresent(fs[0]); }
    assert out[1] == SwitchFieldJson(b) by { FieldFullyPresent(fs[1]); }
    assert out[2] == SwitchFieldJson(c) by { FieldFullyPresent(fs[2]); }
    assert out == [SwitchFieldJson(a), SwitchFieldJson(b), SwitchFieldJson(c)];
  }

  /** The stub's four blocks: two sections with text, a divider, and a section of three fields. */
  lemma StubBlocksSerialise(headline: string, subhead: string, s1: string, s2: string, s3: string)
    ensures EachBlockAsDict(StubBlocks(headline, subhead, s1, s2, s3))
         == StubBlocksJson(headline, subhead, s1, s2, s3)
  {
    var bs := StubBlocks(headline, subhead, s1, s2, s3);
    EachOfFourBlocks(bs[0], bs[1], bs[2], bs[3]);
    assert bs == [bs[0], bs[1], bs[2], bs[3]];
    MarkdownSectionJson(headline);
    HeaderAndDividerJson(SlackText(""), "header", "divider");
    MarkdownSectionJson(subhead);
    FieldSectionJson(s1, s2, s3);
  }

  /** A four-block list serialises block by block. */
  lemma EachOfFourBlocks(b0: SlackBlock, b1: SlackBlock, b2: SlackBlock, b3: SlackBlock)
    ensures EachBlockAsDict([b0, b1, b2, b3])
         == [AsDict(Block(b0)), AsDict(Block(b1)), AsDict(Block(b2)), AsDict(Block(b3))]
  {
  }

  /** Every message of the stub's shape serialises to the expected sparse tree. */
  lemma StubShapedSerialises(headline: string, subhead: string, s1: string, s2: string, s3: string, color: string)
    ensures AsDict(Message(StubShaped(headline, subhead, s1, s2, s3, color)), true)
         == StubShapedJson(headline, subhead, s1, s2, s3, color)
  {
    var m := StubShaped(headline, subhead, s1, s2, s3, color);
    var att := m.attachments.value[0];
    StubBlocksSerialise(headline, subhead, s1, s2, s3);
    AttachmentJson(att);
    var attJson := JObj([("blocks", JArr(StubBlocksJson(headline, subhead, s1, s2, s3))), ("color", JStr(color))]);
    assert AsDict(Attachment(att)) == attJson;
    MessageJson(m);
    assert EachAttachmentAsDict([att]) == [attJson];
  }

  /** stub.py's message serialises with only the fields it sets, defaults included. */
  lemma StubMessageJson()
    ensures AsDict(Message(StubMessage), true) == StubShapedJson(
      "Changes detected in switch configuration", "Switches with configuration changes",
      "switch1", "switch2", "switch3", "#00ff00")
  {
    StubShapedSerialises(
      "Changes detected in switch configuration", "Switches with configuration changes",
      "switch1", "switch2", "switch3", "#00ff00");
  }
}
