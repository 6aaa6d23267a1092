/**
  The repository scan of the `spot` tool: find the git working copies among
  the current directory and its immediate entries, classify each as clean or
  dirty from two git queries, and render one status line per repository.

  Everything that touches the outside world (the working directory, the file
  system, the two git commands) is an oracle held in an `Env` value, so a scan
  is a deterministic function of its environment.
 */
module Command {
  import opened Wrappers
  import opened GoStrings

  /** The two display styles a record can carry (green and red in the terminal). */
  datatype Style = CleanStyle | DirtyStyle

  /** Result of classifying one working copy. */
  datatype DirtyInfo = DirtyInfo(path: string, reason: string)

  /** One entry of the scan report. */
  datatype RepoStatus = RepoStatus(path: string, reason: string, style: Style)

  /** What running one git command yields: whether it exited successfully, and how many bytes it wrote. */
  datatype QueryOutcome = QueryOutcome(succeeded: bool, outputLength: nat)

  /**
    The environment the scan observes:
    - cwd: the working directory, None when it cannot be obtained;
    - isDir: whether a path can be stat'ed and is a directory;
    - readDir: the names of a directory's entries in listing order, None when it cannot be read;
    - status: the outcome of `git status --porcelain` run in a directory;
    - log: the outcome of `git log --oneline --branches --not --remotes` run in a directory.
   */
  datatype Env = Env(
    cwd: Option<string>,
    isDir: string -> bool,
    readDir: string -> Option<seq<string>>,
    status: string -> QueryOutcome,
    log: string -> QueryOutcome)

  const GitDir: string := ".git"
  const UncommittedLabel: string := "uncommitted changes"
  const UnpushedLabel: string := "unpushed commits"
  const ReasonSeparator: string := " and "
  const CleanLabel: string := "clean"
  const HomeMark: string := "~"

  // ---------------------------------------------------------------------------
  // Classification of one working copy
  // ---------------------------------------------------------------------------

  /** A query signals its condition only when it succeeded and printed something. */
  predicate Signal(q: QueryOutcome)
  {
    q.succeeded && q.outputLength > 0
  }

  /** A path is a working copy when its `.git` entry exists and is a directory. */
  predicate IsGitRepo(env: Env, path: string)
  {
    env.isDir(JoinPath(path, GitDir))
  }

  /** The reason string for the two signals, case by case. */
  function Reason(uncommitted: bool, unpushed: bool): string
  {
    if uncommitted && unpushed then UncommittedLabel + ReasonSeparator + UnpushedLabel
    else if uncommitted then UncommittedLabel
    else if unpushed then UnpushedLabel
    else ""
  }

  /** The classification of the working copy at `path` under `env`. */
  function Classify(env: Env, path: string): DirtyInfo
  {
    DirtyInfo(path, Reason(Signal(env.status(path)), Signal(env.log(path))))
  }

  /**
    A reader recovers both signals from the reason alone: it starts with the
    uncommitted label exactly when the status signal holds, and ends with the
    unpushed label exactly when the log signal holds; it is empty exactly when
    neither holds.
   */
  lemma ReasonReports(uncommitted: bool, unpushed: bool)
    ensures HasPrefix(Reason(uncommitted, unpushed), UncommittedLabel) == uncommitted
    ensures HasSuffix(Reason(uncommitted, unpushed), UnpushedLabel) == unpushed
    ensures Reason(uncommitted, unpushed) == "" <==> !uncommitted && !unpushed
  {
  }

  /** Distinct pairs of signals give distinct reasons. */
  lemma ReasonInjective(a: bool, b: bool, c: bool, d: bool)
    requires Reason(a, b) == Reason(c, d)
    ensures a == c && b == d
  {
  }

  /**
    A failing query reads as its condition being absent whatever it printed,
    and each part of the reason depends on its own query only.
   */
  lemma QueryFailureReadsAsAbsent(env: Env, path: string)
    ensures !env.status(path).succeeded ==> !HasPrefix(Classify(env, path).reason, UncommittedLabel)
    ensures !env.log(path).succeeded ==> !HasSuffix(Classify(env, path).reason, UnpushedLabel)
    ensures HasPrefix(Classify(env, path).reason, UncommittedLabel) == Signal(env.status(path))
    ensures HasSuffix(Classify(env, path).reason, UnpushedLabel) == Signal(env.log(path))
  {
  }

  /** isDirty: run both queries in `repoPath`, collect the labels of the signals that hold, join them. */
  method IsDirty(env: Env, repoPath: string) returns (info: DirtyInfo)
    ensures info.path == repoPath
    ensures info.reason == Reason(Signal(env.status(repoPath)), Signal(env.log(repoPath)))
  {
    var outStatus := env.status(repoPath);
    var outLog := env.log(repoPath);

    var reasons: seq<string> := [];
    if outStatus.succeeded && outStatus.outputLength > 0 {
      reasons := reasons + [UncommittedLabel];
    }
    if outLog.succeeded && outLog.outputLength > 0 {
      reasons := reasons + [UnpushedLabel];
    }

    var reason := Join(reasons, ReasonSeparator);
    info := DirtyInfo(repoPath, reason);
  }

  // ---------------------------------------------------------------------------
  // The scan
  // ---------------------------------------------------------------------------

  /** The style given to a record: dirty for a non-empty reason. */
  function StyleFor(reason: string): Style
  {
    if reason != "" then DirtyStyle else CleanStyle
  }

  function ToStatus(info: DirtyInfo): RepoStatus
  {
    RepoStatus(info.path, info.reason, StyleFor(info.reason))
  }

  /** The paths of the listed entries that are working copies, in listing order. */
  function RepoEntries(env: Env, cwd: string, names: seq<string>): seq<string>
  {
    if names == [] then []
    else
      var path := JoinPath(cwd, names[|names| - 1]);
      RepoEntries(env, cwd, names[..|names| - 1]) + (if IsGitRepo(env, path) then [path] else [])
  }

  /** The entry names of `cwd`, or none when it cannot be listed. */
  function Listing(env: Env, cwd: string): seq<string>
  {
    match env.readDir(cwd)
    case None => []
    case Some(names) => names
  }

  /** Every path the scan reports, in report order. */
  function ReportedPaths(env: Env, cwd: string): seq<string>
  {
    (if IsGitRepo(env, cwd) then [cwd] else []) + RepoEntries(env, cwd, Listing(env, cwd))
  }

  function Statuses(env: Env, paths: seq<string>): seq<RepoStatus>
  {
    seq(|paths|, k requires 0 <= k < |paths| => ToStatus(Classify(env, paths[k])))
  }

  lemma StatusesAppend(env: Env, paths: seq<string>, extra: seq<string>)
    ensures Statuses(env, paths + extra) == Statuses(env, paths) + Statuses(env, extra)
  {
  }

  /** The report of a scan. */
  function Scan(env: Env): seq<RepoStatus>
  {
    match env.cwd
    case None => []
    case Some(cwd) => Statuses(env, ReportedPaths(env, cwd))
  }

  /**
    The record GetVCSInfos appends for a working copy: its classification,
    styled as dirty exactly when the reason is non-empty.
   */
  method ClassifiedStatus(env: Env, path: string) returns (status: RepoStatus)
    ensures status.path == path
    ensures status.reason == Classify(env, path).reason
    ensures status.style == DirtyStyle <==> status.reason != ""
  {
    var info := IsDirty(env, path);
    var style := CleanStyle;
    if info.reason != "" {
      style := DirtyStyle;
    }
    status := RepoStatus(info.path, info.reason, style);
  }

  /** GetVCSInfos: classify the working directory if it is a repository, then each listed entry that is one. */
  method GetVCSInfos(env: Env) returns (allRepos: seq<RepoStatus>)
    ensures allRepos == Scan(env)
  {
    allRepos := [];
    if env.cwd.None? {
      return;
    }
    var cwd := env.cwd.value;

    if IsGitRepo(env, cwd) {
      var status := ClassifiedStatus(env, cwd);
      assert Statuses(env, [cwd]) == [status];
      allRepos := allRepos + [status];
    }
    ghost var head := if IsGitRepo(env, cwd) then [cwd] else [];
    assert allRepos == Statuses(env, head);

    var listing := env.readDir(cwd);
    if listing.None? {
      assert ReportedPaths(env, cwd) == head;
      return;
    }
    var folders := listing.value;

    for i := 0 to |folders|
      invariant allRepos == Statuses(env, head + RepoEntries(env, cwd, folders[..i]))
    {
      var folderPath := JoinPath(cwd, folders[i]);
      ghost var added := if IsGitRepo(env, folderPath) then [folderPath] else [];
      assert folders[..i + 1][..i] == folders[..i];
      assert RepoEntries(env, cwd, folders[..i + 1]) == RepoEntries(env, cwd, folders[..i]) + added;
      assert head + RepoEntries(env, cwd, folders[..i + 1]) == (head + RepoEntries(env, cwd, folders[..i])) + added;
      StatusesAppend(env, head + RepoEntries(env, cwd, folders[..i]), added);
      if IsGitRepo(env, folderPath) {
        var status := ClassifiedStatus(env, folderPath);
        assert Statuses(env, added) == [status];
        allRepos := allRepos + [status];
      } else {
        assert Statuses(env, added) == [];
      }
    }
    assert folders[..|folders|] == folders;
  }

  // ---------------------------------------------------------------------------
  // Properties of the scan
  // ---------------------------------------------------------------------------

  /**
    No more entries are kept than there are listed names; each kept entry is a
    working copy and a direct child of `cwd` (RepoEntriesDistinct rules out repeats).
   */
  lemma {:induction false} RepoEntriesShape(env: Env, cwd: string, names: seq<string>)
    ensures |RepoEntries(env, cwd, names)| <= |names|
    ensures forall k :: 0 <= k < |RepoEntries(env, cwd, names)| ==>
      IsGitRepo(env, RepoEntries(env, cwd, names)[k]) &&
      exists n :: n in names && RepoEntries(env, cwd, names)[k] == JoinPath(cwd, n)
  {
    if names != [] {
      var front := names[..|names| - 1];
      RepoEntriesShape(env, cwd, front);
      forall k | 0 <= k < |RepoEntries(env, cwd, front)|
        ensures exists n :: n in names && RepoEntries(env, cwd, front)[k] == JoinPath(cwd, n)
      {
        var n :| n in front && RepoEntries(env, cwd, front)[k] == JoinPath(cwd, n);
        assert n in names;
      }
    }
  }

  /** Every listed name whose path is a working copy is kept. */
  lemma {:induction false} RepoEntriesComplete(env: Env, cwd: string, names: seq<string>, i: nat)
    requires i < |names| && IsGitRepo(env, JoinPath(cwd, names[i]))
    ensures
      exists k ::
        0 <= k < |RepoEntries(env, cwd, names)| &&
        RepoEntries(env, cwd, names)[k] == JoinPath(cwd, names[i])
  {
    var front := names[..|names| - 1];
    if i == |names| - 1 {
      assert RepoEntries(env, cwd, names)[|RepoEntries(env, cwd, front)|] == JoinPath(cwd, names[i]);
    } else {
      assert front[i] == names[i];
      RepoEntriesComplete(env, cwd, front, i);
      var k :| 0 <= k < |RepoEntries(env, cwd, front)| && RepoEntries(env, cwd, front)[k] == JoinPath(cwd, names[i]);
      assert RepoEntries(env, cwd, names)[k] == JoinPath(cwd, names[i]);
    }
  }

  /** Kept entries appear in listing order. */
  lemma {:induction false} RepoEntriesOrdered(env: Env, cwd: string, names: seq<string>, i: nat, j: nat)
    requires i < j < |names|
    requires IsGitRepo(env, JoinPath(cwd, names[i])) && IsGitRepo(env, JoinPath(cwd, names[j]))
    ensures
      exists p, q ::
        0 <= p < q < |RepoEntries(env, cwd, names)| &&
        RepoEntries(env, cwd, names)[p] == JoinPath(cwd, names[i]) &&
        RepoEntries(env, cwd, names)[q] == JoinPath(cwd, names[j])
  {
    var front := names[..|names| - 1];
    var entries := RepoEntries(env, cwd, names);
    assert front[i] == names[i];
    if j == |names| - 1 {
      RepoEntriesComplete(env, cwd, front, i);
      var p :| 0 <= p < |RepoEntries(env, cwd, front)| && RepoEntries(env, cwd, front)[p] == JoinPath(cwd, names[i]);
      var q := |RepoEntries(env, cwd, front)|;
      assert entries[p] == JoinPath(cwd, names[i]);
      assert entries[q] == JoinPath(cwd, names[j]);
    } else {
      assert front[j] == names[j];
      RepoEntriesOrdered(env, cwd, front, i, j);
      var p, q :| 0 <= p < q < |RepoEntries(env, cwd, front)| &&
        RepoEntries(env, cwd, front)[p] == JoinPath(cwd, names[i]) &&
        RepoEntries(env, cwd, front)[q] == JoinPath(cwd, names[j]);
      assert entries[p] == JoinPath(cwd, names[i]);
      assert entries[q] == JoinPath(cwd, names[j]);
    }
  }

  /** No name occurs twice in a listing, as holds for the entries of one directory. */
  predicate NoDuplicates(names: seq<string>)
  {
    forall i, j :: 0 <= i < j < |names| ==> names[i] != names[j]
  }

  /** From a listing without repeated names, no path is kept twice and none is the working directory itself. */
  lemma {:induction false} RepoEntriesDistinct(env: Env, cwd: string, names: seq<string>)
    requires NoDuplicates(names)
    ensures forall p, q :: 0 <= p < q < |RepoEntries(env, cwd, names)| ==>
      RepoEntries(env, cwd, names)[p] != RepoEntries(env, cwd, names)[q]
    ensures forall p :: 0 <= p < |RepoEntries(env, cwd, names)| ==> RepoEntries(env, cwd, names)[p] != cwd
  {
    RepoEntriesShape(env, cwd, names);
    if names != [] {
      var front := names[..|names| - 1];
      var last := names[|names| - 1];
      var kept := RepoEntries(env, cwd, front);
      RepoEntriesDistinct(env, cwd, front);
      RepoEntriesShape(env, cwd, front);
      forall p | 0 <= p < |kept|
        ensures kept[p] != JoinPath(cwd, last)
      {
        var n :| n in front && kept[p] == JoinPath(cwd, n);
        var i :| 0 <= i < |front| && front[i] == n;
        assert names[i] == n;
      }
      forall p | 0 <= p < |RepoEntries(env, cwd, names)|
        ensures RepoEntries(env, cwd, names)[p] != cwd
      {
        var n :| n in names && RepoEntries(env, cwd, names)[p] == JoinPath(cwd, n);
        assert |JoinPath(cwd, n)| > |cwd|;
      }
    }
  }

  /** When the working directory cannot be obtained, nothing is reported. */
  lemma ScanGetwdError(env: Env)
    requires env.cwd.None?
    ensures Scan(env) == []
  {
  }

  /** When the working directory cannot be listed, at most its own record is reported. */
  lemma ScanListingError(env: Env)
    requires env.cwd.Some? && env.readDir(env.cwd.value).None?
    ensures |Scan(env)| <= 1
    ensures |Scan(env)| == 1 <==> IsGitRepo(env, env.cwd.value)
    ensures forall k :: 0 <= k < |Scan(env)| ==> Scan(env)[k].path == env.cwd.value
  {
  }

  /**
    Every record carries the classification of its own path, and is styled as
    dirty exactly when its reason is non-empty, that is, exactly when one of
    the two git queries signalled.
   */
  lemma ScanRecordsClassified(env: Env, k: nat)
    requires k < |Scan(env)|
    ensures Scan(env)[k].reason == Classify(env, Scan(env)[k].path).reason
    ensures Scan(env)[k].style == DirtyStyle <==> Scan(env)[k].reason != ""
    ensures Scan(env)[k].style == DirtyStyle <==>
      Signal(env.status(Scan(env)[k].path)) || Signal(env.log(Scan(env)[k].path))
  {
  }

  /**
    The scan is one level deep: every reported path is a working copy and is
    either the working directory or a listed entry joined to it; the report
    holds at most one record more than the listing has entries.
   */
  lemma ScanShallow(env: Env)
    requires env.cwd.Some?
    ensures |Scan(env)| <= 1 + |Listing(env, env.cwd.value)|
    ensures forall k :: 0 <= k < |Scan(env)| ==>
      IsGitRepo(env, Scan(env)[k].path) &&
      (Scan(env)[k].path == env.cwd.value ||
       exists n :: n in Listing(env, env.cwd.value) && Scan(env)[k].path == JoinPath(env.cwd.value, n))
  {
    var cwd := env.cwd.value;
    var names := Listing(env, cwd);
    RepoEntriesShape(env, cwd, names);
    var head := if IsGitRepo(env, cwd) then [cwd] else [];
    forall k | 0 <= k < |Scan(env)|
      ensures IsGitRepo(env, Scan(env)[k].path)
      ensures Scan(env)[k].path == cwd || exists n :: n in names && Scan(env)[k].path == JoinPath(cwd, n)
    {
      if k >= |head| {
        assert Scan(env)[k].path == RepoEntries(env, cwd, names)[k - |head|];
      }
    }
  }

  /** The report starts with the working directory's record exactly when the working directory is a repository. */
  lemma ScanCwdFirst(env: Env)
    requires env.cwd.Some?
    ensures (|Scan(env)| > 0 && Scan(env)[0].path == env.cwd.value) <==> IsGitRepo(env, env.cwd.value)
  {
    var cwd := env.cwd.value;
    if !IsGitRepo(env, cwd) && |Scan(env)| > 0 {
      var names := Listing(env, cwd);
      RepoEntriesShape(env, cwd, names);
      assert Scan(env)[0].path == RepoEntries(env, cwd, names)[0];
      var n :| n in names && RepoEntries(env, cwd, names)[0] == JoinPath(cwd, n);
      assert |Scan(env)[0].path| > |cwd|;
    }
  }

  /** Every listed entry that is a working copy is reported, after the working directory's own record. */
  lemma ScanComplete(env: Env, i: nat)
    requires env.cwd.Some? && i < |Listing(env, env.cwd.value)|
    requires IsGitRepo(env, JoinPath(env.cwd.value, Listing(env, env.cwd.value)[i]))
    ensures
      exists k ::
        (if IsGitRepo(env, env.cwd.value) then 1 else 0) <= k < |Scan(env)| &&
        Scan(env)[k].path == JoinPath(env.cwd.value, Listing(env, env.cwd.value)[i])
  {
    var cwd := env.cwd.value;
    var names := Listing(env, cwd);
    var h := if IsGitRepo(env, cwd) then 1 else 0;
    RepoEntriesComplete(env, cwd, names, i);
    var k :| 0 <= k < |RepoEntries(env, cwd, names)| && RepoEntries(env, cwd, names)[k] == JoinPath(cwd, names[i]);
    assert Scan(env)[h + k].path == JoinPath(cwd, names[i]);
  }

  /** A scan has one record per reported path, in the same order, each the classification of its path. */
  lemma ScanPaths(env: Env)
    requires env.cwd.Some?
    ensures |Scan(env)| == |ReportedPaths(env, env.cwd.value)|
    ensures forall k :: 0 <= k < |Scan(env)| ==>
      Scan(env)[k] == ToStatus(Classify(env, ReportedPaths(env, env.cwd.value)[k]))
  {
  }

  /** Listed working copies are reported in listing order. */
  lemma ScanOrdered(env: Env, i: nat, j: nat)
    requires env.cwd.Some? && i < j < |Listing(env, env.cwd.value)|
    requires IsGitRepo(env, JoinPath(env.cwd.value, Listing(env, env.cwd.value)[i]))
    requires IsGitRepo(env, JoinPath(env.cwd.value, Listing(env, env.cwd.value)[j]))
    ensures
      exists p, q ::
        0 <= p < q < |Scan(env)| &&
        Scan(env)[p].path == JoinPath(env.cwd.value, Listing(env, env.cwd.value)[i]) &&
        Scan(env)[q].path == JoinPath(env.cwd.value, Listing(env, env.cwd.value)[j])
  {
    var cwd := env.cwd.value;
    var names := Listing(env, cwd);
    var h := if IsGitRepo(env, cwd) then 1 else 0;
    RepoEntriesOrdered(env, cwd, names, i, j);
    var p, q :| 0 <= p < q < |RepoEntries(env, cwd, names)| &&
      RepoEntries(env, cwd, names)[p] == JoinPath(cwd, names[i]) &&
      RepoEntries(env, cwd, names)[q] == JoinPath(cwd, names[j]);
    var paths := ReportedPaths(env, cwd);
    assert paths[h + p] == JoinPath(cwd, names[i]) && paths[h + q] == JoinPath(cwd, names[j]);
    ScanPaths(env);
    assert Scan(env)[h + p].path == JoinPath(cwd, names[i]);
    assert Scan(env)[h + q].path == JoinPath(cwd, names[j]);
  }

  /**
    When the listing repeats no name, no path is reported twice: together
    with ScanComplete and ScanOrdered, each listed working copy has exactly
    one record, in listing order.
   */
  lemma ScanDistinct(env: Env)
    requires env.cwd.Some? && NoDuplicates(Listing(env, env.cwd.value))
    ensures forall p, q :: 0 <= p < q < |Scan(env)| ==> Scan(env)[p].path != Scan(env)[q].path
  {
    var cwd := env.cwd.value;
    var names := Listing(env, cwd);
    var head := if IsGitRepo(env, cwd) then [cwd] else [];
    var kept := RepoEntries(env, cwd, names);
    RepoEntriesDistinct(env, cwd, names);
    forall p, q | 0 <= p < q < |Scan(env)|
      ensures Scan(env)[p].path != Scan(env)[q].path
    {
      assert Scan(env)[q].path == kept[q - |head|];
      if p >= |head| {
        assert Scan(env)[p].path == kept[p - |head|];
      }
    }
  }

  // ---------------------------------------------------------------------------
  // Rendering the report
  // ---------------------------------------------------------------------------

  /** One rendered report line: its style and its text. */
  datatype Line = Line(style: Style, text: string)

  /** A path under the home directory is shown with the home part replaced by `~`. */
  function DisplayPath(path: string, home: string): (r: string)
    ensures home != "" && HasPrefix(path, home) ==>
      HasPrefix(r, HomeMark) && home + r[|HomeMark|..] == path && |r| == |path| - |home| + 1
    ensures !(home != "" && HasPrefix(path, home)) ==> r == path
  {
    if home != "" && HasPrefix(path, home) then HomeMark + TrimPrefix(path, home) else path
  }

  /** The status shown in parentheses: the reason, or "clean" when there is none. */
  function StatusText(reason: string): string
  {
    if reason != "" then reason else CleanLabel
  }

  function RenderLine(status: RepoStatus, home: string): Line
  {
    Line(status.style, DisplayPath(status.path, home) + " (" + StatusText(status.reason) + ")")
  }

  /** The shown status is never empty, and reads "clean" exactly when neither git query signalled. */
  lemma StatusTextOfReason(uncommitted: bool, unpushed: bool)
    ensures StatusText(Reason(uncommitted, unpushed)) != ""
    ensures StatusText(Reason(uncommitted, unpushed)) == CleanLabel <==> !uncommitted && !unpushed
  {
  }

  /** A line showing a non-empty reason does not end in "(clean)". */
  lemma DirtyLineNotClean(display: string, uncommitted: bool, unpushed: bool)
    requires uncommitted || unpushed
    ensures !HasSuffix(display + " (" + Reason(uncommitted, unpushed) + ")", " (" + CleanLabel + ")")
  {
    var reason := Reason(uncommitted, unpushed);
    var text := display + " (" + reason + ")";
    assert reason[|reason| - 6] == 'h' || reason[|reason| - 6] == 'o' by {
      if unpushed {
        var both := UncommittedLabel + ReasonSeparator + UnpushedLabel;
        assert reason == UnpushedLabel || reason == both;
        assert both[|both| - 6] == UnpushedLabel[|UnpushedLabel| - 6];
      } else {
        assert reason == UncommittedLabel;
      }
    }
    assert text[|text| - 7] == reason[|reason| - 6];
  }

  /** A rendered line ends in "(clean)" exactly when its record, classified from two signals, is styled clean. */
  lemma RenderLineCleanIff(status: RepoStatus, home: string, uncommitted: bool, unpushed: bool)
    requires status.reason == Reason(uncommitted, unpushed)
    requires status.style == DirtyStyle <==> status.reason != ""
    ensures HasSuffix(RenderLine(status, home).text, " (" + CleanLabel + ")") <==> status.style == CleanStyle
  {
    var display := DisplayPath(status.path, home);
    var text := RenderLine(status, home).text;
    if uncommitted || unpushed {
      assert status.reason != "";
      assert text == display + " (" + Reason(uncommitted, unpushed) + ")";
      DirtyLineNotClean(display, uncommitted, unpushed);
    } else {
      assert text == display + " (" + CleanLabel + ")";
      assert text[|text| - |" (" + CleanLabel + ")"|..] == " (" + CleanLabel + ")";
    }
  }

  /** A line of the rendered report ends in "(clean)" exactly when its record is styled clean. */
  lemma RenderedCleanIff(env: Env, home: string, k: nat)
    requires k < |Scan(env)|
    ensures HasSuffix(RenderLine(Scan(env)[k], home).text, " (" + CleanLabel + ")") <==>
      RenderLine(Scan(env)[k], home).style == CleanStyle
  {
    var status := Scan(env)[k];
    ScanRecordsClassified(env, k);
    RenderLineCleanIff(status, home, Signal(env.status(status.path)), Signal(env.log(status.path)));
  }

  /** Run: scan, then render one line per record in report order; `home` is the user's home directory, or "" if unknown. */
  method Run(env: Env, home: string) returns (lines: seq<Line>)
    ensures |lines| == |Scan(env)|
    ensures forall k :: 0 <= k < |lines| ==> lines[k] == RenderLine(Scan(env)[k], home)
  {
    var repos := GetVCSInfos(env);
    lines := [];
    for i := 0 to |repos|
      invariant |lines| == i
      invariant forall k :: 0 <= k < i ==> lines[k] == RenderLine(repos[k], home)
    {
      var info := repos[i];
      var displayPath := DisplayPath(info.path, home);
      var status := StatusText(info.reason);
      lines := lines + [Line(info.style, displayPath + " (" + status + ")")];
    }
  }
}
