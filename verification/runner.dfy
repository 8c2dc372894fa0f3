/**
 runner.py: `GitRunner`, which keeps a checkout of the configuration
 repository up to date and runs an Ansible playbook from it.

 GitPython and `ansible_runner` are not modelled; what the runner asks of
 them is recorded as a trace of `Effect`s, in the order the calls are made.
 Whether the checkout directory already exists is the parameter `dirExists`,
 and which effects raise is the parameter `fails` of `Execute`.
 */
module Runner {
  import opened Wrappers
  import opened Strings

  const DEFAULT_REF: string := "origin/HEAD"
  const DEFAULT_WORKDIR: string := "."
  const NOCOLOR_ENV: seq<(string, string)> := [("ANSIBLE_NOCOLOR", "1")]

  /** The checkout directory: `dir` under `workdir`, kept as its two parts. */
  datatype RepoPath = RepoPath(workdir: string, dir: string)

  datatype GitRunner = GitRunner(repoUrl: string, workdir: string, repoDir: RepoPath)

  /**
   The last piece of the URL split at `/`: what follows the last `/`, the whole
   URL when it has none, and the empty name when it ends in `/`.
   */
  function DefaultRepoDir(url: string): (r: string)
    ensures '/' !in r
    ensures |r| <= |url| && r == url[|url| - |r|..]
    ensures '/' in url ==> |r| < |url| && url[|url| - |r| - 1] == '/'
    ensures '/' !in url ==> r == url
  {
    LastPieceIsTail(url, '/');
    Last(Split(url, '/'))
  }

  /** The properties above pin the name down: it is the segment after the last `/`. */
  lemma DefaultRepoDirOfPath(prefix: string, name: string)
    requires '/' !in name
    ensures DefaultRepoDir(prefix + "/" + name) == name
  {
    var url := prefix + "/" + name;
    var r := DefaultRepoDir(url);
    assert url[|url| - |name| - 1] == '/';
    assert url[|url| - |name|..] == name;
  }

  /** A URL that ends in `/` gives the empty directory name. */
  lemma TrailingSlashGivesEmptyName(url: string)
    requires |url| > 0 && url[|url| - 1] == '/'
    ensures DefaultRepoDir(url) == ""
  {
    assert url == url[..|url| - 1] + "/" + "";
    DefaultRepoDirOfPath(url[..|url| - 1], "");
  }

  /** A typical clone URL: the checkout directory is the last path segment. */
  lemma ExampleCloneUrl()
    ensures DefaultRepoDir("https://github.com/example/switch-config.git") == "switch-config.git"
  {
    var url := "https://github.com/example/switch-config.git";
    assert url == "https://github.com/example" + "/" + "switch-config.git";
    DefaultRepoDirOfPath("https://github.com/example", "switch-config.git");
  }

  /**
   The `GitRunner` constructor, `workdir` defaulting to `.`: the checkout lives
   under `workdir`; its name is `repo_dir` when one is given (even an empty
   one), and otherwise derived from the URL.
   */
  function NewGitRunner(repoUrl: string, repoDir: Option<string>, workdir: string := DEFAULT_WORKDIR)
    : (g: GitRunner)
    ensures g.repoUrl == repoUrl && g.workdir == workdir && g.repoDir.workdir == workdir
    ensures repoDir.Some? ==> g.repoDir.dir == repoDir.value
    ensures repoDir.None? ==> '/' !in g.repoDir.dir && g.repoDir.dir == DefaultRepoDir(repoUrl)
  {
    var dir := match repoDir case Some(d) => d case None => DefaultRepoDir(repoUrl);
    GitRunner(repoUrl, workdir, RepoPath(workdir, dir))
  }

  /** Leaving `repo_dir` out is the same as passing the derived name. */
  lemma OmittedRepoDirIsDerived(repoUrl: string, workdir: string)
    ensures NewGitRunner(repoUrl, None, workdir) == NewGitRunner(repoUrl, Some(DefaultRepoDir(repoUrl)), workdir)
  {
  }

  // ---------------------------------------------------------------------------
  // Effects

  /** One call into GitPython or `ansible_runner`. */
  datatype Effect =
    | OpenRepo(dir: RepoPath)                    // open the existing checkout
    | CloneFrom(url: string, dir: RepoPath)      // clone the repository into the checkout directory
    | FetchOrigin(dir: RepoPath)                 // fetch from the `origin` remote
    | ResetHard(dir: RepoPath, ref: string)      // hard reset to the commit `ref` names
    | RunPlaybook(envvars: seq<(string, string)>, privateDataDir: RepoPath,
                  playbook: string, limit: Option<string>)  // run the playbook with Ansible Runner
  {
    /** The effects that touch the checkout, as opposed to running the playbook. */
    predicate IsSync() {
      !RunPlaybook?
    }
  }

  /**
   `updateRepository(ref)`: open the checkout if its directory exists, clone
   it otherwise; then fetch `origin` and hard-reset to `ref`.
   */
  function UpdateRepository(g: GitRunner, dirExists: bool, ref: string := DEFAULT_REF): (t: seq<Effect>)
    ensures |t| == 3
    ensures forall i :: 0 <= i < |t| ==> t[i].IsSync() && t[i].dir == g.repoDir
    ensures t[0].OpenRepo? <==> dirExists
    ensures t[0].CloneFrom? <==> !dirExists
    ensures t[0].CloneFrom? ==> t[0].url == g.repoUrl
    ensures t[1].FetchOrigin? && t[2] == ResetHard(g.repoDir, ref)
  {
    var first := if dirExists then OpenRepo(g.repoDir) else CloneFrom(g.repoUrl, g.repoDir);
    [first, FetchOrigin(g.repoDir), ResetHard(g.repoDir, ref)]
  }

  /**
   The `limit` argument passed to Ansible Runner: no limit for `None` and for the
   empty list, otherwise the hosts in the order given.
   */
  function LimitArg(limit: Option<seq<string>>): (r: Option<string>)
    ensures r.None? <==> limit.None? || |limit.value| == 0
    ensures r.Some? && |limit.value| == 1 ==> r.value == limit.value[0]
  {
    match limit
    case None => None
    case Some(hosts) => if |hosts| == 0 then None else Some(Join(hosts, ','))
  }

  /**
   The limit argument lists exactly the given hosts, in order, duplicates
   kept: splitting it at `,` gives the list back when no host name holds a
   comma.
   */
  lemma LimitArgListsHosts(hosts: seq<string>)
    requires |hosts| >= 1
    requires forall i :: 0 <= i < |hosts| ==> ',' !in hosts[i]
    ensures LimitArg(Some(hosts)).Some?
    ensures Split(LimitArg(Some(hosts)).value, ',') == hosts
  {
    SplitOfJoin(hosts, ',');
  }

  /** `limit=["switch2", "switch1"]` gives `"switch2,switch1"`: the order is kept. */
  lemma LimitArgKeepsOrder()
    ensures LimitArg(Some(["switch2", "switch1"])) == Some("switch2,switch1")
  {
    assert Join(["switch2", "switch1"], ',') == "switch2" + [','] + Join(["switch1"], ',');
    assert "switch2" + [','] + "switch1" == "switch2,switch1";
  }

  /**
   `run(playbook, ref, update, limit)`: the update's effects when `update` is
   set, then exactly one playbook run, always with `ANSIBLE_NOCOLOR=1`, in
   the checkout directory.
   */
  function Run(g: GitRunner, playbook: string, dirExists: bool, ref: string := DEFAULT_REF,
               update: bool := true, limit: Option<seq<string>> := None): (t: seq<Effect>)
    ensures |t| >= 1
    ensures Last(t) == RunPlaybook(NOCOLOR_ENV, g.repoDir, playbook, LimitArg(limit))
    ensures forall i :: 0 <= i < |t| - 1 ==> t[i].IsSync()
    ensures update ==> t[..|t| - 1] == UpdateRepository(g, dirExists, ref)
    ensures !update ==> |t| == 1
  {
    var sync := if update then UpdateRepository(g, dirExists, ref) else [];
    sync + [RunPlaybook(NOCOLOR_ENV, g.repoDir, playbook, LimitArg(limit))]
  }

  /** The playbook always runs last, after every effect on the checkout. */
  lemma PlaybookRunsOnceAndLast(g: GitRunner, playbook: string, dirExists: bool, ref: string,
                                update: bool, limit: Option<seq<string>>)
    ensures var t := Run(g, playbook, dirExists, ref, update, limit);
      forall i :: 0 <= i < |t| ==> (t[i].RunPlaybook? <==> i == |t| - 1)
  {
  }

  /** `update=False` leaves the checkout alone: no clone, no fetch, no reset. */
  lemma NoUpdateTouchesNothing(g: GitRunner, playbook: string, dirExists: bool, ref: string,
                               limit: Option<seq<string>>)
    ensures Run(g, playbook, dirExists, ref, false, limit)
         == [RunPlaybook(NOCOLOR_ENV, g.repoDir, playbook, LimitArg(limit))]
  {
  }

  // ---------------------------------------------------------------------------
  // Running a trace: an effect that raises ends the call

  /** The effects carried out, and the one that raised, if any. */
  datatype Outcome = Outcome(performed: seq<Effect>, raised: Option<Effect>)

  /**
   Carrying out a trace in order: an exception from one effect propagates
   out of `run`, so nothing after it happens.
   */
  function Execute(t: seq<Effect>, fails: Effect -> bool): (o: Outcome)
    ensures |o.performed| <= |t| && o.performed == t[..|o.performed|]
    ensures forall i :: 0 <= i < |o.performed| ==> !fails(o.performed[i])
    ensures o.raised.None? <==> o.performed == t
    ensures o.raised.Some? ==> o.raised.value == t[|o.performed|] && fails(o.raised.value)
  {
    if |t| == 0 then Outcome([], None)
    else if fails(t[0]) then Outcome([], Some(t[0]))
    else
      var rest := Execute(t[1..], fails);
      Outcome([t[0]] + rest.performed, rest.raised)
  }

  /** Execution stops at the first effect that raises, and at nothing else. */
  lemma {:induction false} ExecuteStopsAtFirstFailure(t: seq<Effect>, fails: Effect -> bool)
    ensures var o := Execute(t, fails);
      o.raised.Some? <==> exists i :: 0 <= i < |t| && fails(t[i])
  {
    if |t| > 0 && !fails(t[0]) {
      ExecuteStopsAtFirstFailure(t[1..], fails);
      if exists i :: 0 <= i < |t| && fails(t[i]) {
        var i :| 0 <= i < |t| && fails(t[i]);
        assert fails(t[1..][i - 1]);
      }
    }
  }

  /**
   If cloning, fetching or resetting raises, the playbook is never run; it is
   run exactly when every effect on the checkout succeeded and the run
   itself did not raise.
   */
  lemma PlaybookOnlyAfterSuccessfulUpdate(g: GitRunner, playbook: string, dirExists: bool, ref: string,
                                          update: bool, limit: Option<seq<string>>, fails: Effect -> bool)
    ensures var t := Run(g, playbook, dirExists, ref, update, limit);
      var o := Execute(t, fails);
      (exists i :: 0 <= i < |o.performed| && o.performed[i].RunPlaybook?)
        <==> (forall i :: 0 <= i < |t| ==> !fails(t[i]))
  {
    var t := Run(g, playbook, dirExists, ref, update, limit);
    var o := Execute(t, fails);
    ExecuteStopsAtFirstFailure(t, fails);
    if exists i :: 0 <= i < |o.performed| && o.performed[i].RunPlaybook? {
      var i :| 0 <= i < |o.performed| && o.performed[i].RunPlaybook?;
      assert o.performed[i] == t[i];
      PlaybookRunsOnceAndLast(g, playbook, dirExists, ref, update, limit);
      assert o.performed == t;
    }
    if forall i :: 0 <= i < |t| ==> !fails(t[i]) {
      assert o.performed == t;
      assert o.performed[|t| - 1].RunPlaybook?;
    }
  }
}
