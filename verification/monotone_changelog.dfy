/**
 * getChangeLog: walks the history back from the revisions a selector
 * names, collecting at most `n` log entries of revisions that share a
 * branch with the first revision that has branches.
 *
 * The walk keeps a horizon of revisions still to visit. While it has more
 * than one revision it is put in topological order by `toposort`; the
 * first revision is then taken off, its certs decide whether it is logged,
 * and its parents are added to the horizon. Two list operations of the
 * source are PHP's key union `+`, and are kept as such:
 *   - the toposort command is `array("toposort") + $horizont`, so the
 *     first revision of the horizon is not sent (ToposortOmitsFirst);
 *   - `$horizont += parents` only adds the parents at positions at or
 *     beyond the horizon's length (ParentsBeyondHorizon).
 *
 * The source loops until the horizon is empty or `n` entries are logged;
 * the model bounds the number of steps by `fuel`.
 */
module MonotoneChangeLog {
  import opened PhpRuntime
  import opened Interpreters
  import opened MonotoneQueries

  /** One entry of the change log (dates are not modelled). */
  datatype LogEntry = LogEntry(author: string, title: string, fullMessage: string, commit: string)

  /** The index of the first line break (`\n` or `\r`) at or after `i`,
      or |s|. */
  function LineBreakFrom(s: string, i: nat): (k: nat)
    requires i <= |s|
    ensures i <= k <= |s|
    ensures k < |s| ==> s[k] == '\n' || s[k] == '\r'
    ensures forall j :: i <= j < k ==> s[j] != '\n' && s[j] != '\r'
    decreases |s| - i
  {
    if i == |s| || s[i] == '\n' || s[i] == '\r' then i else LineBreakFrom(s, i + 1)
  }

  /** preg_split("/[\n\r]/", s, 2): the text before the first line break,
      and the text after it when there is one. */
  function SplitTitle(s: string): (string, Option<string>) {
    var k := LineBreakFrom(s, 0);
    if k < |s| then (s[..k], Some(s[k + 1..])) else (s, None)
  }

  /** The title is the first line of the text and holds no line break; the
      rest is everything after that line break. */
  lemma TitleIsFirstLine(s: string)
    ensures var (title, rest) := SplitTitle(s);
      && '\n' !in title && '\r' !in title
      && (rest.None? ==> title == s)
      && (rest.Some? ==> |title| < |s| && (s[|title|] == '\n' || s[|title|] == '\r') && s == title + [s[|title|]] + rest.value)
  {
    var k := LineBreakFrom(s, 0);
    if k < |s| {
      assert s == s[..k] + [s[k]] + s[k + 1..];
    }
    var title := SplitTitle(s).0;
    assert forall j :: 0 <= j < |title| ==> title[j] != '\n' && title[j] != '\r';
  }

  /** The log entry of a revision, built from its certs: the authors, the
      first line of the joined change logs as title and the trimmed rest as
      message. */
  function LogEntryOf(rev: string, certs: CertMap): LogEntry {
    var split := SplitTitle(Implode("\n---\n", Lookup(certs, "changelog")));
    LogEntry(Implode(", ", Lookup(certs, "author")), split.0, if split.1.Some? then Trim(split.1.value) else "", rev)
  }

  /** The variables of the loop: `$horizont`, `$initialBranches`, `$logs`
      and `$n`, and the revisions taken off the horizon so far, in order
      (the source does not keep these; they let a contract name the
      revision the initial branches come from). */
  datatype Walk = Walk(horizont: seq<string>, initial: seq<string>, logs: seq<LogEntry>, n: int, visited: seq<string>)

  /** The horizon after the toposort of a step. */
  function Ordered(backend: Backend, horizont: seq<string>): Result<seq<string>> {
    if |horizont| > 1 then
      match backend(ListUnion(["toposort"], horizont), [])
      case Err(e) => Err(e)
      case Ok(out) => Ok(SplitLines(out))
    else Ok(horizont)
  }

  /** The variables after visiting `rev`, whose certs are `certs` and
      whose parents are `parents`: the first revision with branches sets
      the initial branches, `rev` is logged when it shares one of them, and
      the parents join the rest of the horizon. */
  function Advance(w: Walk, rest: seq<string>, rev: string, certs: CertMap, parents: seq<string>): Walk {
    var branches := Lookup(certs, "branch");
    var initial := if |w.initial| == 0 then branches else w.initial;
    var logged := Intersects(initial, branches);
    Walk(ListUnion(rest, parents), initial,
         if logged then w.logs + [LogEntryOf(rev, certs)] else w.logs,
         if logged then w.n - 1 else w.n,
         w.visited + [rev])
  }

  /** The rest of a step, on the ordered horizon `h`: array_shift() takes
      the first revision (null on an empty list, read as ""), then its
      certs and its parents are asked for. */
  function Visit(backend: Backend, w: Walk, h: seq<string>): Result<Walk> {
    var rev := if h == [] then "" else h[0];
    var rest := if h == [] then [] else h[1..];
    match CertsOf(backend, rev)
    case Err(e) => Err(e)
    case Ok(certs) =>
      match backend(["parents", rev], [])
      case Err(e) => Err(e)
      case Ok(out) => Ok(Advance(w, rest, rev, certs, SplitLines(out)))
  }

  /** One iteration of the loop. */
  function Step(backend: Backend, w: Walk): Result<Walk> {
    match Ordered(backend, w.horizont)
    case Err(e) => Err(e)
    case Ok(h) => Visit(backend, w, h)
  }

  /** The loop `while (!empty($horizont) and $n > 0)` with body `step`,
      for at most `fuel` iterations. */
  function Loop(step: Walk -> Result<Walk>, w: Walk, fuel: nat): Result<Walk>
    decreases fuel, 1
  {
    if w.horizont == [] || w.n <= 0 then Ok(w)
    else if fuel == 0 then Err(FuelExhausted)
    else LoopAfter(step, w, fuel)
  }

  /** One iteration of the loop, then the rest. */
  function LoopAfter(step: Walk -> Result<Walk>, w: Walk, fuel: nat): Result<Walk>
    requires fuel > 0
    decreases fuel, 0
  {
    match step(w)
    case Err(e) => Err(e)
    case Ok(w') => Loop(step, w', fuel - 1)
  }

  /** The loop of getChangeLog, for at most `fuel` iterations. */
  function Run(backend: Backend, w: Walk, fuel: nat): Result<Walk> {
    Loop(v => Step(backend, v), w, fuel)
  }

  /** One iteration of the loop of getChangeLog, when the loop goes on. */
  lemma RunStepOf(backend: Backend, w: Walk, fuel: nat, s: Result<Walk>)
    requires w.horizont != [] && w.n > 0 && fuel > 0 && s == Step(backend, w)
    ensures s.Err? ==> Run(backend, w, fuel) == Err(s.error)
    ensures s.Ok? ==> Run(backend, w, fuel) == Run(backend, s.value, fuel - 1)
  {
    assert Run(backend, w, fuel) == LoopAfter(v => Step(backend, v), w, fuel);
  }

  /** getChangeLog(commit, n). */
  function ChangeLogOf(backend: Backend, commit: string, n: int, fuel: nat): Result<seq<LogEntry>> {
    match Select(backend, commit)
    case Err(e) => Err(e)
    case Ok(revs) =>
      match Run(backend, Walk(revs, [], [], n, []), fuel)
      case Err(e) => Err(e)
      case Ok(w) => Ok(w.logs)
  }

  // ---------------------------------------------------------------------
  // What the walk keeps

  /** A logged entry is built from the certs of its revision, and that
      revision shares a branch with the initial branches. */
  predicate Logged(backend: Backend, initial: seq<string>, e: LogEntry) {
    && CertsOf(backend, e.commit).Ok?
    && e == LogEntryOf(e.commit, CertsOf(backend, e.commit).value)
    && Intersects(initial, Lookup(CertsOf(backend, e.commit).value, "branch"))
  }

  /** Every entry of `logs` is logged (stated from the last entry back, so
      that appending an entry unfolds once). */
  predicate AllLogged(backend: Backend, initial: seq<string>, logs: seq<LogEntry>)
    decreases |logs|
  {
    logs == [] || (AllLogged(backend, initial, logs[..|logs| - 1]) && Logged(backend, initial, logs[|logs| - 1]))
  }

  lemma {:induction false} LoggedAt(backend: Backend, initial: seq<string>, logs: seq<LogEntry>, i: nat)
    requires AllLogged(backend, initial, logs) && i < |logs|
    ensures Logged(backend, initial, logs[i])
    decreases |logs|
  {
    if i < |logs| - 1 {
      LoggedAt(backend, initial, logs[..|logs| - 1], i);
      assert logs[..|logs| - 1][i] == logs[i];
    }
  }

  lemma AllLoggedEach(backend: Backend, initial: seq<string>, logs: seq<LogEntry>)
    requires AllLogged(backend, initial, logs)
    ensures forall i :: 0 <= i < |logs| ==> Logged(backend, initial, logs[i])
  {
    forall i | 0 <= i < |logs|
      ensures Logged(backend, initial, logs[i])
    {
      LoggedAt(backend, initial, logs, i);
    }
  }

  /** Nothing is logged before the initial branches are set. */
  lemma AllLoggedNone(backend: Backend, logs: seq<LogEntry>)
    requires AllLogged(backend, [], logs)
    ensures logs == []
  {
  }

  /** The branch certs of a revision, none when its certs cannot be read. */
  function BranchCertsOf(backend: Backend, rev: string): seq<string> {
    if CertsOf(backend, rev).Ok? then Lookup(CertsOf(backend, rev).value, "branch") else []
  }

  /** The branch certs of the first of `revs` that has any, or none. */
  function FirstBranches(backend: Backend, revs: seq<string>): seq<string>
    decreases |revs|
  {
    if revs == [] then []
    else if |BranchCertsOf(backend, revs[0])| > 0 then BranchCertsOf(backend, revs[0])
    else FirstBranches(backend, revs[1..])
  }

  /** Visiting one more revision changes the first branches only while
      none of the earlier revisions had any. */
  lemma {:induction false} FirstBranchesSnoc(backend: Backend, revs: seq<string>, rev: string)
    ensures var f := FirstBranches(backend, revs);
      FirstBranches(backend, revs + [rev]) == if |f| > 0 then f else BranchCertsOf(backend, rev)
    decreases |revs|
  {
    if revs != [] {
      assert (revs + [rev])[0] == revs[0];
      assert (revs + [rev])[1..] == revs[1..] + [rev];
      FirstBranchesSnoc(backend, revs[1..], rev);
    }
  }

  /** The entries of the walk so far are all logged, and the initial
      branches are those of the first visited revision that has any. */
  predicate Sound(backend: Backend, w: Walk) {
    && AllLogged(backend, w.initial, w.logs)
    && w.initial == FirstBranches(backend, w.visited)
  }

  /** What a run of steps from `w` to `w'` keeps. */
  predicate Kept(backend: Backend, w: Walk, w': Walk) {
    && Sound(backend, w')
    && |w'.logs| + w'.n == |w.logs| + w.n && w'.n >= 0
    && (|w.initial| > 0 ==> w'.initial == w.initial)
  }

  /** A step visits the first revision of the horizon and logs at most
      that one entry after the earlier ones, counting it off `n`; it keeps
      the walk sound: once the initial branches are set they stay. */
  lemma VisitKeeps(backend: Backend, w: Walk, h: seq<string>)
    requires Sound(backend, w) && w.n > 0
    ensures var r := Visit(backend, w, h);
      r.Ok? ==>
        && Sound(backend, r.value)
        && r.value.visited == w.visited + [if h == [] then "" else h[0]]
        && |r.value.logs| <= |w.logs| + 1 && r.value.logs[..|w.logs|] == w.logs
        && |r.value.logs| + r.value.n == |w.logs| + w.n && r.value.n >= 0
        && (|w.initial| > 0 ==> r.value.initial == w.initial)
  {
    var rev := if h == [] then "" else h[0];
    var c := CertsOf(backend, rev);
    var p := backend(["parents", rev], []);
    if c.Ok? && p.Ok? {
      var certs := c.value;
      var branches := Lookup(certs, "branch");
      var initial := if |w.initial| == 0 then branches else w.initial;
      var r := Visit(backend, w, h).value;
      assert r.initial == initial;
      FirstBranchesSnoc(backend, w.visited, rev);
      assert BranchCertsOf(backend, rev) == branches;
      if |w.initial| == 0 {
        AllLoggedNone(backend, w.logs);
      }
      assert AllLogged(backend, initial, w.logs);
      if Intersects(initial, branches) {
        var e := LogEntryOf(rev, certs);
        assert r.logs == w.logs + [e] && r.n == w.n - 1;
        assert Logged(backend, initial, e);
        AllLoggedAppend(backend, initial, w.logs, e);
        assert r.logs[..|w.logs|] == w.logs;
      } else {
        assert r.logs == w.logs && r.n == w.n;
      }
    }
  }

  lemma AllLoggedAppend(backend: Backend, initial: seq<string>, logs: seq<LogEntry>, e: LogEntry)
    requires AllLogged(backend, initial, logs) && Logged(backend, initial, e)
    ensures AllLogged(backend, initial, logs + [e])
  {
    assert (logs + [e])[..|logs|] == logs;
  }

  lemma StepKeeps(backend: Backend, w0: Walk, w: Walk)
    requires Kept(backend, w0, w) && w.n > 0
    ensures var r := Step(backend, w);
      r.Ok? ==> Kept(backend, w0, r.value)
  {
    var h := Ordered(backend, w.horizont);
    if h.Ok? {
      VisitKeeps(backend, w, h.value);
    }
  }

  /** An invariant of the loop body is one of the loop. */
  lemma {:induction false} LoopKeeps(step: Walk -> Result<Walk>, inv: Walk -> bool, w: Walk, fuel: nat)
    requires inv(w)
    requires forall v :: inv(v) && v.horizont != [] && v.n > 0 && step(v).Ok? ==> inv(step(v).value)
    ensures Loop(step, w, fuel).Ok? ==> inv(Loop(step, w, fuel).value)
    decreases fuel
  {
    if w.horizont != [] && w.n > 0 && fuel > 0 {
      assert Loop(step, w, fuel) == LoopAfter(step, w, fuel);
      if step(w).Ok? {
        LoopKeeps(step, inv, step(w).value, fuel - 1);
      }
    }
  }

  lemma RunKeeps(backend: Backend, w0: Walk, fuel: nat)
    requires Kept(backend, w0, w0)
    ensures var r := Run(backend, w0, fuel);
      r.Ok? ==> Kept(backend, w0, r.value)
  {
    var step := v => Step(backend, v);
    var inv := v => Kept(backend, w0, v);
    forall v | inv(v) && v.horizont != [] && v.n > 0 && step(v).Ok?
      ensures inv(step(v).value)
    {
      StepKeeps(backend, w0, v);
    }
    LoopKeeps(step, inv, w0, fuel);
  }

  /** The loop of getChangeLog run from the selected revisions. */
  function WalkOf(backend: Backend, commit: string, n: int, fuel: nat): Result<Walk> {
    match Select(backend, commit)
    case Err(e) => Err(e)
    case Ok(revs) => Run(backend, Walk(revs, [], [], n, []), fuel)
  }

  /** getChangeLog returns at most `n` entries (none when `n` is not
      positive), each built from the certs of its revision and on a branch
      of one common set: the branch certs of the first visited revision
      that has any. */
  lemma ChangeLogBoundedAndOnBranches(backend: Backend, commit: string, n: int, fuel: nat)
    ensures var r := WalkOf(backend, commit, n, fuel);
      && (r.Ok? <==> ChangeLogOf(backend, commit, n, fuel).Ok?)
      && (r.Ok? ==> ChangeLogOf(backend, commit, n, fuel).value == r.value.logs)
      && (r.Ok? ==> |r.value.logs| <= (if n > 0 then n else 0))
      && (r.Ok? ==> forall i :: 0 <= i < |r.value.logs| ==> Logged(backend, r.value.initial, r.value.logs[i]))
      && (r.Ok? ==> r.value.initial == FirstBranches(backend, r.value.visited))
  {
    var revs := Select(backend, commit);
    if revs.Ok? {
      var w0 := Walk(revs.value, [], [], n, []);
      var r := Run(backend, w0, fuel);
      if n >= 0 {
        assert Kept(backend, w0, w0);
        RunKeeps(backend, w0, fuel);
        if r.Ok? {
          AllLoggedEach(backend, r.value.initial, r.value.logs);
        }
      } else {
        assert r == Ok(w0);
      }
    }
  }

  // ---------------------------------------------------------------------
  // The key union quirks

  /** The toposort command is "toposort" followed by the horizon without
      its first revision. */
  lemma {:induction false} ToposortOmitsFirst(horizont: seq<string>)
    requires |horizont| > 1
    ensures ListUnion(["toposort"], horizont) == ["toposort"] + horizont[1..]
  {
    assert ListUnion(["toposort"], horizont)[1..] == horizont[1..];
  }

  /** Adding the parents to the rest of the horizon keeps the horizon and
      adds only the parents from its length on: as long as the horizon is
      at least as long as the parent list, parents are dropped. */
  lemma {:induction false} ParentsBeyondHorizon(rest: seq<string>, parents: seq<string>)
    ensures |parents| <= |rest| ==> ListUnion(rest, parents) == rest
    ensures |parents| > |rest| ==> ListUnion(rest, parents) == rest + parents[|rest|..]
  {
    var r := ListUnion(rest, parents);
    if |parents| > |rest| {
      assert r[|rest|..] == parents[|rest|..];
      assert r == r[..|rest|] + r[|rest|..];
    } else {
      assert r == r[..|rest|];
    }
  }
}

