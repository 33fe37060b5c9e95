/** Run history: a log of runs and of changed test statuses, pruned by age. */
module RunHistory {
  import opened Text
  import opened Sorting

  datatype Run = Run(runId: string, finishedAt: int, status: string, testCount: nat, failedCount: nat)

  datatype TestStatus = TestStatus(logicalKey: string, status: string)

  datatype Row = Row(runId: string, logicalKey: string, status: string, finishedAt: int)

  /** One line of a log file; `Junk` is a line that does not parse. */
  datatype Line<T> = Good(row: T) | Junk

  datatype Summary = Summary(run: Run, tests: seq<TestStatus>)

  datatype Log = Log(index: seq<Line<Run>>, tests: seq<Line<Row>>, dirs: map<string, Summary>)

  const DAY_MS := 86_400_000

  function Cutoff(days: int, now: int): int { now - days * DAY_MS }

  // ---------------------------------------------------------------- specification

  function KeepRuns(lines: seq<Line<Run>>, cutoff: int): seq<Line<Run>> {
    if lines == [] then []
    else
      var rest, last := KeepRuns(lines[..|lines| - 1], cutoff), lines[|lines| - 1];
      if last.Good? && last.row.finishedAt >= cutoff then rest + [last] else rest
  }

  function KeepRows(lines: seq<Line<Row>>, cutoff: int): seq<Line<Row>> {
    if lines == [] then []
    else
      var rest, last := KeepRows(lines[..|lines| - 1], cutoff), lines[|lines| - 1];
      if last.Good? && last.row.finishedAt >= cutoff then rest + [last] else rest
  }

  function RunIds(lines: seq<Line<Run>>): set<string> {
    set i | 0 <= i < |lines| && lines[i].Good? :: lines[i].row.runId
  }

  /** The latest row of a key: what reading the log from front to back leaves. */
  function LastRow(lines: seq<Line<Row>>, key: string): Option<Row> {
    if lines == [] then None
    else
      var last := lines[|lines| - 1];
      if last.Good? && last.row.logicalKey == key then Some(last.row) else LastRow(lines[..|lines| - 1], key)
  }

  function StatusOf(lines: seq<Line<Row>>, key: string): Option<string> {
    match LastRow(lines, key) case None => None case Some(row) => Some(row.status)
  }

  function Pruned(log: Log, retention: Option<int>, now: int): Log {
    match retention
    case None => log
    case Some(days) =>
      var cutoff := Cutoff(days, now);
      var index := KeepRuns(log.index, cutoff);
      Log(index, KeepRows(log.tests, cutoff), map id | id in log.dirs && id in RunIds(index) :: log.dirs[id])
  }

  /** Rows for the tests whose status differs from what the log says. */
  function ChangedRows(lines: seq<Line<Row>>, run: Run, tests: seq<TestStatus>): seq<Line<Row>> {
    if tests == [] then []
    else
      var rest, t := ChangedRows(lines, run, tests[..|tests| - 1]), tests[|tests| - 1];
      if StatusOf(lines, t.logicalKey) != Some(t.status)
      then rest + [Good(Row(run.runId, t.logicalKey, t.status, run.finishedAt))] else rest
  }

  function Recorded(log: Log, retention: Option<int>, run: Run, tests: seq<TestStatus>, now: int): Log {
    if retention.None? then log
    else
      var p := Pruned(log, retention, now);
      Log(p.index + [Good(run)], p.tests + ChangedRows(p.tests, run, tests),
          p.dirs[run.runId := Summary(run, tests)])
  }

  // ---------------------------------------------------------------- the files

  class HistoryFiles {
    var index: seq<Line<Run>>
    var tests: seq<Line<Row>>
    var dirs: map<string, Summary>

    ghost function View(): Log
      reads this
    {
      Log(index, tests, dirs)
    }

    constructor ()
      ensures View() == Log([], [], map[])
    {
      index, tests, dirs := [], [], map[];
    }

    method PruneRunHistory(retention: Option<int>, now: int)
      modifies this
      ensures View() == Pruned(old(View()), retention, now)
    {
      if retention.None? { return; }
      var cutoff := now - retention.value * DAY_MS;
      var runs: seq<Line<Run>> := [];
      for i := 0 to |index|
        invariant index == old(index) && tests == old(tests) && dirs == old(dirs)
        invariant runs == KeepRuns(index[..i], cutoff)
      {
        assert index[..i + 1][..i] == index[..i];
        if index[i].Good? && index[i].row.finishedAt >= cutoff { runs := runs + [index[i]]; }
      }
      assert index[..|index|] == index;
      var rows: seq<Line<Row>> := [];
      for i := 0 to |tests|
        invariant index == old(index) && tests == old(tests) && dirs == old(dirs)
        invariant rows == KeepRows(tests[..i], cutoff)
      {
        assert tests[..i + 1][..i] == tests[..i];
        if tests[i].Good? && tests[i].row.finishedAt >= cutoff { rows := rows + [tests[i]]; }
      }
      assert tests[..|tests|] == tests;
      index, tests := runs, rows;
      RemoveDirectories(set i | 0 <= i < |runs| && runs[i].Good? :: runs[i].row.runId);
    }

    /** Removes the directories of runs that are not retained. */
    method RemoveDirectories(retained: set<string>)
      modifies this`dirs
      ensures dirs == map id | id in old(dirs) && id in retained :: old(dirs)[id]
    {
      var left := dirs.Keys;
      while left != {}
        invariant left <= old(dirs).Keys
        invariant dirs == map id | id in old(dirs) && (id in left || id in retained) :: old(dirs)[id]
        decreases left
      {
        var id :| id in left;
        left := left - {id};
        if id !in retained { dirs := dirs - {id}; }
      }
    }

    method RecordRunHistory(retention: Option<int>, run: Run, tests: seq<TestStatus>, now: int)
      modifies this
      ensures View() == Recorded(old(View()), retention, run, tests, now)
    {
      if retention.None? { return; }
      PruneRunHistory(retention, now);
      ghost var pruned := View();
      var prior: map<string, string> := map[];
      for i := 0 to |this.tests|
        invariant View() == pruned
        invariant forall key :: (if key in prior then Some(prior[key]) else None) == StatusOf(this.tests[..i], key)
      {
        assert this.tests[..i + 1][..i] == this.tests[..i];
        if this.tests[i].Good? {
          prior := prior[this.tests[i].row.logicalKey := this.tests[i].row.status];
        }
      }
      assert this.tests[..|this.tests|] == this.tests;
      index := index + [Good(run)];
      var changed: seq<Line<Row>> := [];
      for i := 0 to |tests|
        invariant View() == pruned.(index := pruned.index + [Good(run)])
        invariant changed == ChangedRows(pruned.tests, run, tests[..i])
      {
        assert tests[..i + 1][..i] == tests[..i];
        var t := tests[i];
        assert (if t.logicalKey in prior then Some(prior[t.logicalKey]) else None)
            == StatusOf(this.tests, t.logicalKey);
        if t.logicalKey !in prior || prior[t.logicalKey] != t.status {
          changed := changed + [Good(Row(run.runId, t.logicalKey, t.status, run.finishedAt))];
        }
      }
      assert tests[..|tests|] == tests;
      this.tests := this.tests + changed;
      dirs := dirs[run.runId := Summary(run, tests)];
    }
  }

  // ---------------------------------------------------------------- one recording

  ghost predicate UniqueKeys(tests: seq<TestStatus>) {
    forall i, j | 0 <= i < j < |tests| :: tests[i].logicalKey != tests[j].logicalKey
  }

  lemma {:induction false} LastRowConcat(a: seq<Line<Row>>, b: seq<Line<Row>>, key: string)
    ensures LastRow(a + b, key) == if LastRow(b, key).Some? then LastRow(b, key) else LastRow(a, key)
    decreases |b|
  {
    if b == [] {
      assert a + b == a;
    } else {
      LastRowConcat(a, b[..|b| - 1], key);
      assert (a + b)[..|a + b| - 1] == a + b[..|b| - 1];
    }
  }

  lemma {:induction false} ChangedRowsStatus(lines: seq<Line<Row>>, run: Run, tests: seq<TestStatus>, key: string)
    requires UniqueKeys(tests)
    ensures
      match LastRow(ChangedRows(lines, run, tests), key)
      case None => forall t | t in tests && t.logicalKey == key :: StatusOf(lines, key) == Some(t.status)
      case Some(row) =>
        && row.runId == run.runId && row.finishedAt == run.finishedAt && row.logicalKey == key
        && TestStatus(key, row.status) in tests && StatusOf(lines, key) != Some(row.status)
    decreases |tests|
  {
    if tests != [] {
      var init, t := tests[..|tests| - 1], tests[|tests| - 1];
      ChangedRowsStatus(lines, run, init, key);
      assert tests == init + [t];
      if StatusOf(lines, t.logicalKey) != Some(t.status) {
        var rows := ChangedRows(lines, run, tests);
        assert rows[..|rows| - 1] == ChangedRows(lines, run, init);
      }
    }
  }

  /** Right after a recording, replaying the log gives the recorded run's status of each of its tests. */
  lemma RecordingReplays(log: Log, days: int, run: Run, tests: seq<TestStatus>, now: int, t: TestStatus)
    requires UniqueKeys(tests) && t in tests
    ensures StatusOf(Recorded(log, Some(days), run, tests, now).tests, t.logicalKey) == Some(t.status)
  {
    var p := Pruned(log, Some(days), now).tests;
    LastRowConcat(p, ChangedRows(p, run, tests), t.logicalKey);
    ChangedRowsStatus(p, run, tests, t.logicalKey);
    match LastRow(ChangedRows(p, run, tests), t.logicalKey) {
      case None =>
      case Some(row) =>
        var u := TestStatus(t.logicalKey, row.status);
        var i :| 0 <= i < |tests| && tests[i] == u;
        var j :| 0 <= j < |tests| && tests[j] == t;
        assert i == j;
    }
  }

  // ---------------------------------------------------------------- all sequences of operations

  ghost predicate TimesOrdered(lines: seq<Line<Row>>) {
    forall i, j | 0 <= i < j < |lines| && lines[i].Good? && lines[j].Good? ::
      lines[i].row.finishedAt <= lines[j].row.finishedAt
  }

  /** Neighbouring rows of a key differ in status. */
  ghost predicate Alternates(lines: seq<Line<Row>>) {
    lines == [] ||
    (var init, last := lines[..|lines| - 1], lines[|lines| - 1];
     Alternates(init) && (last.Good? ==> StatusOf(init, last.row.logicalKey) != Some(last.row.status)))
  }

  ghost predicate NoneAfter(lines: seq<Line<Row>>, time: int) {
    forall i | 0 <= i < |lines| && lines[i].Good? :: lines[i].row.finishedAt <= time
  }

  /** Pruning an ordered log keeps a key's latest row, or forgets the key altogether. */
  lemma {:induction false} PruneKeepsLatest(lines: seq<Line<Row>>, cutoff: int, key: string)
    requires TimesOrdered(lines)
    ensures
      LastRow(KeepRows(lines, cutoff), key) ==
      match LastRow(lines, key)
      case None => None
      case Some(row) => if row.finishedAt >= cutoff then Some(row) else None
    decreases |lines|
  {
    if lines != [] {
      var init, last := lines[..|lines| - 1], lines[|lines| - 1];
      PruneKeepsLatest(init, cutoff, key);
      var kept := KeepRows(lines, cutoff);
      if last.Good? && last.row.finishedAt >= cutoff {
        assert kept[..|kept| - 1] == KeepRows(init, cutoff);
      } else if last.Good? && last.row.logicalKey == key {
        NothingRecent(init, cutoff, last.row.finishedAt);
      }
    }
  }

  lemma {:induction false} NothingRecent(lines: seq<Line<Row>>, cutoff: int, time: int)
    requires NoneAfter(lines, time) && time < cutoff
    ensures KeepRows(lines, cutoff) == []
    decreases |lines|
  {
    if lines != [] { NothingRecent(lines[..|lines| - 1], cutoff, time); }
  }

  lemma {:induction false} KeepRowsAre(lines: seq<Line<Row>>, cutoff: int)
    ensures forall l | l in KeepRows(lines, cutoff) :: l in lines
    ensures TimesOrdered(lines) ==> TimesOrdered(KeepRows(lines, cutoff))
    decreases |lines|
  {
    if lines != [] {
      var init, last := lines[..|lines| - 1], lines[|lines| - 1];
      KeepRowsAre(init, cutoff);
      assert lines == init + [last];
      if TimesOrdered(lines) {
        forall l | l in KeepRows(init, cutoff) && l.Good? && last.Good?
          ensures l.row.finishedAt <= last.row.finishedAt
        {
          assert l in init;
          var i :| 0 <= i < |init| && init[i] == l;
          assert lines[i] == l;
        }
      }
    }
  }

  lemma {:induction false} PruneAlternates(lines: seq<Line<Row>>, cutoff: int)
    requires TimesOrdered(lines) && Alternates(lines)
    ensures Alternates(KeepRows(lines, cutoff))
    decreases |lines|
  {
    if lines != [] {
      var init, last := lines[..|lines| - 1], lines[|lines| - 1];
      PruneAlternates(init, cutoff);
      if last.Good? && last.row.finishedAt >= cutoff {
        var kept := KeepRows(lines, cutoff);
        assert kept[..|kept| - 1] == KeepRows(init, cutoff);
        PruneKeepsLatest(init, cutoff, last.row.logicalKey);
      }
    }
  }

  lemma {:induction false} AppendAlternates(lines: seq<Line<Row>>, run: Run, tests: seq<TestStatus>)
    requires Alternates(lines) && UniqueKeys(tests)
    ensures Alternates(lines + ChangedRows(lines, run, tests))
    decreases |tests|
  {
    var rows := ChangedRows(lines, run, tests);
    if tests == [] {
      assert lines + rows == lines;
    } else {
      var init, t := tests[..|tests| - 1], tests[|tests| - 1];
      AppendAlternates(lines, run, init);
      var before := ChangedRows(lines, run, init);
      if StatusOf(lines, t.logicalKey) != Some(t.status) {
        assert (lines + rows)[..|lines + rows| - 1] == lines + before;
        LastRowConcat(lines, before, t.logicalKey);
        ChangedRowsStatus(lines, run, init, t.logicalKey);
        assert forall u | u in init :: u.logicalKey != t.logicalKey by {
          assert forall i | 0 <= i < |init| :: init[i] == tests[i];
        }
      }
    }
  }

  lemma {:induction false} ChangedRowsTimes(lines: seq<Line<Row>>, run: Run, tests: seq<TestStatus>)
    ensures forall l | l in ChangedRows(lines, run, tests) :: l.Good? && l.row.finishedAt == run.finishedAt
    decreases |tests|
  {
    if tests != [] { ChangedRowsTimes(lines, run, tests[..|tests| - 1]); }
  }

  datatype Op = Prune(retention: Option<int>, now: int)
              | Record(retention: Option<int>, run: Run, tests: seq<TestStatus>, now: int)

  function Apply(log: Log, op: Op): Log {
    match op
    case Prune(retention, now) => Pruned(log, retention, now)
    case Record(retention, run, tests, now) => Recorded(log, retention, run, tests, now)
  }

  function ApplyAll(log: Log, ops: seq<Op>): Log {
    if ops == [] then log else Apply(ApplyAll(log, ops[..|ops| - 1]), ops[|ops| - 1])
  }

  /** Runs finish in the order they are recorded, and a run names each test once. */
  ghost predicate Orderly(ops: seq<Op>) {
    && (forall op | op in ops && op.Record? :: UniqueKeys(op.tests))
    && (forall i, j | 0 <= i < j < |ops| && ops[i].Record? && ops[j].Record? ::
          ops[i].run.finishedAt <= ops[j].run.finishedAt)
  }

  ghost predicate Sound(log: Log) {
    TimesOrdered(log.tests) && Alternates(log.tests) && log.dirs.Keys == RunIds(log.index)
  }

  lemma {:induction false} KeptIds(lines: seq<Line<Run>>, cutoff: int)
    ensures RunIds(KeepRuns(lines, cutoff)) <= RunIds(lines)
    decreases |lines|
  {
    if lines != [] {
      var init, last := lines[..|lines| - 1], lines[|lines| - 1];
      KeptIds(init, cutoff);
      SnocIds(init, last);
      SnocIds(KeepRuns(init, cutoff), last);
      assert lines == init + [last];
    }
  }

  lemma SnocIds(lines: seq<Line<Run>>, l: Line<Run>)
    ensures RunIds(lines + [l]) == RunIds(lines) + if l.Good? then {l.row.runId} else {}
  {
    var all := lines + [l];
    forall id
      ensures id in RunIds(all) <==> id in RunIds(lines) || (l.Good? && id == l.row.runId)
    {
      if id in RunIds(lines) {
        var i :| 0 <= i < |lines| && lines[i].Good? && lines[i].row.runId == id;
        assert all[i] == lines[i];
      }
      assert all[|lines|] == l;
    }
  }

  lemma PrunedIsSound(log: Log, retention: Option<int>, now: int)
    requires Sound(log)
    ensures Sound(Pruned(log, retention, now))
  {
    if retention.Some? {
      var cutoff := Cutoff(retention.value, now);
      KeepRowsAre(log.tests, cutoff);
      PruneAlternates(log.tests, cutoff);
      KeptIds(log.index, cutoff);
    }
  }

  lemma PruneNoneAfter(log: Log, retention: Option<int>, now: int, time: int)
    requires NoneAfter(log.tests, time)
    ensures NoneAfter(Pruned(log, retention, now).tests, time)
  {
    if retention.Some? {
      var kept := KeepRows(log.tests, Cutoff(retention.value, now));
      KeepRowsAre(log.tests, Cutoff(retention.value, now));
      forall i | 0 <= i < |kept| && kept[i].Good?
        ensures kept[i].row.finishedAt <= time
      {
        assert kept[i] in log.tests;
      }
    }
  }

  lemma AppendedTimes(rows: seq<Line<Row>>, more: seq<Line<Row>>, time: int)
    requires NoneAfter(rows, time) && forall l | l in more :: l.Good? ==> l.row.finishedAt == time
    requires TimesOrdered(rows)
    ensures NoneAfter(rows + more, time) && TimesOrdered(rows + more)
  {
    assert forall i | 0 <= i < |more| :: more[i] in more;
  }

  lemma RecordedIsSound(log: Log, retention: Option<int>, run: Run, tests: seq<TestStatus>, now: int)
    requires Sound(log) && NoneAfter(log.tests, run.finishedAt) && UniqueKeys(tests)
    ensures Sound(Recorded(log, retention, run, tests, now))
    ensures NoneAfter(Recorded(log, retention, run, tests, now).tests, run.finishedAt)
  {
    if retention.Some? {
      var p := Pruned(log, retention, now);
      PrunedIsSound(log, retention, now);
      AppendAlternates(p.tests, run, tests);
      ChangedRowsTimes(p.tests, run, tests);
      PruneNoneAfter(log, retention, now, run.finishedAt);
      AppendedTimes(p.tests, ChangedRows(p.tests, run, tests), run.finishedAt);
      SnocIds(p.index, Good(run));
    }
  }

  /**
   * After any orderly sequence of recordings and prunings, starting from empty files, row times are
   * ordered, neighbouring rows of a key differ, and the run directories are exactly the indexed runs.
   */
  lemma {:induction false} AlwaysSound(ops: seq<Op>)
    requires Orderly(ops)
    ensures Sound(ApplyAll(Log([], [], map[]), ops))
    ensures forall time: int |
              (forall op | op in ops && op.Record? :: op.run.finishedAt <= time) ::
              NoneAfter(ApplyAll(Log([], [], map[]), ops).tests, time)
    decreases |ops|
  {
    if ops != [] {
      var init, op := ops[..|ops| - 1], ops[|ops| - 1];
      assert ops == init + [op];
      AlwaysSound(init);
      var log := ApplyAll(Log([], [], map[]), init);
      match op {
        case Prune(retention, now) =>
          PrunedIsSound(log, retention, now);
          forall time: int | forall o | o in ops && o.Record? :: o.run.finishedAt <= time
            ensures NoneAfter(Pruned(log, retention, now).tests, time)
          {
            PruneNoneAfter(log, retention, now, time);
          }
        case Record(retention, run, tests, now) =>
          forall o | o in init && o.Record?
            ensures o.run.finishedAt <= run.finishedAt
          {
            var i :| 0 <= i < |init| && init[i] == o;
            assert ops[i] == o;
          }
          assert UniqueKeys(op.tests);
          RecordedIsSound(log, retention, run, tests, now);
          assert op in ops;
      }
    }
  }

  // ---------------------------------------------------------------- pruning after the last recording

  ghost predicate Prunings(ops: seq<Op>) { forall op | op in ops :: op.Prune? }

  ghost predicate KeptBy(row: Row, ops: seq<Op>) {
    forall op | op in ops && op.Prune? && op.retention.Some? :: row.finishedAt >= Cutoff(op.retention.value, op.now)
  }

  lemma {:induction false} PruningsKeepLatest(log: Log, ops: seq<Op>, key: string)
    requires TimesOrdered(log.tests) && Prunings(ops)
    ensures TimesOrdered(ApplyAll(log, ops).tests)
    ensures
      LastRow(ApplyAll(log, ops).tests, key) ==
      match LastRow(log.tests, key)
      case None => None
      case Some(row) => if KeptBy(row, ops) then Some(row) else None
    decreases |ops|
  {
    if ops != [] {
      var init, op := ops[..|ops| - 1], ops[|ops| - 1];
      assert ops == init + [op];
      assert op in ops;
      PruningsKeepLatest(log, init, key);
      if op.retention.Some? {
        var cutoff := Cutoff(op.retention.value, op.now);
        PruneKeepsLatest(ApplyAll(log, init).tests, cutoff, key);
        KeepRowsAre(ApplyAll(log, init).tests, cutoff);
      }
    }
  }

  /**
   * Replay after a recording followed by prunings alone: a test of that run reads as the run's status
   * exactly when the row that last changed its status survives every later cutoff; otherwise the test
   * is absent. It never reads as a wrong status.
   */
  lemma ReplayAfterPruning(log: Log, days: int, run: Run, tests: seq<TestStatus>, now: int, prunings: seq<Op>,
                           t: TestStatus)
    requires UniqueKeys(tests) && t in tests && Prunings(prunings)
    requires TimesOrdered(Recorded(log, Some(days), run, tests, now).tests)
    ensures
      var recorded := Recorded(log, Some(days), run, tests, now);
      var row := LastRow(recorded.tests, t.logicalKey);
      && row.Some?
      && StatusOf(ApplyAll(recorded, prunings).tests, t.logicalKey)
           == if KeptBy(row.value, prunings) then Some(t.status) else None
  {
    RecordingReplays(log, days, run, tests, now, t);
    PruningsKeepLatest(Recorded(log, Some(days), run, tests, now), prunings, t.logicalKey);
  }

  lemma {:induction false} ApplyAllSplit(log: Log, a: seq<Op>, b: seq<Op>)
    ensures ApplyAll(log, a + b) == ApplyAll(ApplyAll(log, a), b)
    decreases |b|
  {
    if b == [] {
      assert a + b == a;
    } else {
      ApplyAllSplit(log, a, b[..|b| - 1]);
      assert (a + b)[..|a + b| - 1] == a + b[..|b| - 1];
    }
  }

  /** The same, for the latest recording of any orderly sequence of operations on empty files. */
  lemma LatestRunReplays(earlier: seq<Op>, latest: Op, prunings: seq<Op>, t: TestStatus)
    requires latest.Record? && latest.retention.Some? && t in latest.tests
    requires Orderly(earlier + [latest] + prunings) && Prunings(prunings)
    ensures
      var recorded := ApplyAll(Log([], [], map[]), earlier + [latest]);
      var final := ApplyAll(Log([], [], map[]), earlier + [latest] + prunings);
      var row := LastRow(recorded.tests, t.logicalKey);
      && row.Some?
      && StatusOf(final.tests, t.logicalKey) == if KeptBy(row.value, prunings) then Some(t.status) else None
  {
    var ops := earlier + [latest];
    var empty := Log([], [], map[]);
    assert forall i | 0 <= i < |ops| :: ops[i] == (ops + prunings)[i];
    assert Orderly(ops);
    assert latest in ops && UniqueKeys(latest.tests);
    AlwaysSound(ops);
    assert ops[..|ops| - 1] == earlier;
    ApplyAllSplit(empty, ops, prunings);
    ReplayAfterPruning(ApplyAll(empty, earlier), latest.retention.value, latest.run, latest.tests, latest.now,
                       prunings, t);
  }

  lemma KeepLastRun(run: Run, more: Run, cutoff: int)
    requires run.finishedAt < cutoff <= more.finishedAt
    ensures KeepRuns([Good(run), Good(more)], cutoff) == [Good(more)]
  {
    var lines: seq<Line<Run>> := [Good(run), Good(more)];
    assert lines[..1] == [Good(run)] && lines[..1][..0] == [];
    assert KeepRuns(lines[..1], cutoff) == [];
    assert [] + [Good(more)] == [Good(more)];
  }

  lemma FirstRecording(days: int, t: TestStatus, run: Run)
    ensures var log := Recorded(Log([], [], map[]), Some(days), run, [t], run.finishedAt);
      && log.index == [Good(run)]
      && log.tests == [Good(Row(run.runId, t.logicalKey, t.status, run.finishedAt))]
  {
    assert [t][..0] == [];
    assert ChangedRows([], run, [t]) == [Good(Row(run.runId, t.logicalKey, t.status, run.finishedAt))];
  }

  lemma KeepOneRun(lines: seq<Line<Run>>, cutoff: int)
    requires |lines| == 1 && lines[0].Good? && lines[0].row.finishedAt >= cutoff
    ensures KeepRuns(lines, cutoff) == lines
  {
    assert lines[..0] == [];
    assert KeepRuns(lines[..0], cutoff) == [];
  }

  lemma KeepOneRow(lines: seq<Line<Row>>, cutoff: int)
    requires |lines| == 1 && lines[0].Good? && lines[0].row.finishedAt >= cutoff
    ensures KeepRows(lines, cutoff) == lines
  {
    assert lines[..0] == [];
    assert KeepRows(lines[..0], cutoff) == [];
  }

  lemma NothingChanged(lines: seq<Line<Row>>, run: Run, t: TestStatus)
    requires StatusOf(lines, t.logicalKey) == Some(t.status)
    ensures ChangedRows(lines, run, [t]) == []
  {
    assert [t][..0] == [];
    assert ChangedRows(lines, run, [t][..0]) == [];
  }

  lemma StatusOfOne(lines: seq<Line<Row>>, t: TestStatus)
    requires |lines| == 1 && lines[0].Good?
    requires lines[0].row.logicalKey == t.logicalKey && lines[0].row.status == t.status
    ensures StatusOf(lines, t.logicalKey) == Some(t.status)
  {
    assert lines[..0] == [];
  }

  /** Recording an unchanged status while the first row is still retained adds no row. */
  lemma UnchangedRecording(days: int, t: TestStatus, log: Log, second: Run)
    requires |log.index| == 1 && log.index[0].Good? && |log.tests| == 1 && log.tests[0].Good?
    requires log.tests[0].row.logicalKey == t.logicalKey && log.tests[0].row.status == t.status
    requires Cutoff(days, second.finishedAt) <= log.index[0].row.finishedAt
    requires Cutoff(days, second.finishedAt) <= log.tests[0].row.finishedAt
    ensures var log2 := Recorded(log, Some(days), second, [t], second.finishedAt);
      log2.index == log.index + [Good(second)] && log2.tests == log.tests
  {
    var cutoff := Cutoff(days, second.finishedAt);
    KeepOneRun(log.index, cutoff);
    KeepOneRow(log.tests, cutoff);
    StatusOfOne(log.tests, t);
    NothingChanged(log.tests, second, t);
  }

  /**
   * Replay alone is not enough: whenever a test has the same status in two runs, the window still holds the first run
   * when the second is recorded, and later only the second, pruning leaves an indexed run whose test has no status.
   */
  lemma UnchangedStatusCanBeForgotten(days: int, t: TestStatus, first: Run, second: Run, now: int)
    requires Cutoff(days, second.finishedAt) <= first.finishedAt < Cutoff(days, now) <= second.finishedAt
    ensures
      var log := Recorded(Log([], [], map[]), Some(days), first, [t], first.finishedAt);
      var pruned := Pruned(Recorded(log, Some(days), second, [t], second.finishedAt), Some(days), now);
      second.runId in RunIds(pruned.index) && StatusOf(pruned.tests, t.logicalKey) == None
  {
    FirstRecording(days, t, first);
    var log := Recorded(Log([], [], map[]), Some(days), first, [t], first.finishedAt);
    UnchangedRecording(days, t, log, second);
    assert log.index + [Good(second)] == [Good(first), Good(second)];
    ForgottenByPruning(Recorded(log, Some(days), second, [t], second.finishedAt), days, t.logicalKey, first, second,
                       now);
  }

  lemma ForgottenByPruning(log: Log, days: int, key: string, first: Run, second: Run, now: int)
    requires log.index == [Good(first), Good(second)]
    requires |log.tests| == 1 && log.tests[0].Good? && log.tests[0].row.finishedAt == first.finishedAt
    requires first.finishedAt < Cutoff(days, now) <= second.finishedAt
    ensures var pruned := Pruned(log, Some(days), now);
      second.runId in RunIds(pruned.index) && StatusOf(pruned.tests, key) == None
  {
    KeepLastRun(first, second, Cutoff(days, now));
    assert log.tests[..0] == [];
    assert KeepRows(log.tests, Cutoff(days, now)) == [];
    var index: seq<Line<Run>> := [Good(second)];
    assert index[0].row.runId == second.runId;
  }

  // ---------------------------------------------------------------- queries

  datatype Filters = Filters(test: Option<string>, failed: bool, since: Option<int>)

  predicate Contains(text: string, part: string) {
    exists i | 0 <= i <= |text| :: part <= text[i..]
  }

  predicate Mentions(lines: seq<Line<Row>>, runId: string, part: string) {
    exists i | 0 <= i < |lines| ::
      lines[i].Good? && lines[i].row.runId == runId && Contains(lines[i].row.logicalKey, part)
  }

  predicate Matches(log: Log, run: Run, f: Filters) {
    && (f.since.Some? ==> run.finishedAt >= f.since.value)
    && (f.failed ==> run.failedCount > 0)
    && (f.test.Some? ==> Mentions(log.tests, run.runId, f.test.value))
  }

  function TimeKey(run: Run): seq<int> { [run.finishedAt] }

  function Selected(log: Log, lines: seq<Line<Run>>, f: Filters): seq<Run> {
    if lines == [] then []
    else
      var rest, last := Selected(log, lines[..|lines| - 1], f), lines[|lines| - 1];
      if last.Good? && Matches(log, last.row, f) then rest + [last.row] else rest
  }

  method QueryRunHistory(log: Log, f: Filters) returns (runs: seq<Run>)
    ensures runs == SortOn(TimeKey, Selected(log, log.index, f))
  {
    runs := [];
    for i := 0 to |log.index|
      invariant runs == Selected(log, log.index[..i], f)
    {
      assert log.index[..i + 1][..i] == log.index[..i];
      if log.index[i].Good? && Matches(log, log.index[i].row, f) {
        runs := runs + [log.index[i].row];
      }
    }
    assert log.index[..|log.index|] == log.index;
    runs := SortOn(TimeKey, runs);
  }

  lemma {:induction false} ChangedRowsMention(lines: seq<Line<Row>>, run: Run, tests: seq<TestStatus>, part: string)
    ensures Mentions(ChangedRows(lines, run, tests), run.runId, part) <==>
      exists t | t in tests :: Contains(t.logicalKey, part) && StatusOf(lines, t.logicalKey) != Some(t.status)
    decreases |tests|
  {
    if tests != [] {
      var init, t := tests[..|tests| - 1], tests[|tests| - 1];
      ChangedRowsMention(lines, run, init, part);
      assert tests == init + [t];
      var rows, before := ChangedRows(lines, run, tests), ChangedRows(lines, run, init);
      if StatusOf(lines, t.logicalKey) != Some(t.status) {
        MentionsSnoc(before, rows[|rows| - 1], run.runId, part);
        assert rows == before + [rows[|rows| - 1]];
      }
    }
  }

  lemma MentionsSnoc(lines: seq<Line<Row>>, last: Line<Row>, runId: string, part: string)
    ensures Mentions(lines + [last], runId, part) <==>
      Mentions(lines, runId, part)
      || (last.Good? && last.row.runId == runId && Contains(last.row.logicalKey, part))
  {
    var all := lines + [last];
    assert all[|lines|] == last;
    assert forall i | 0 <= i < |lines| :: all[i] == lines[i];
  }

  /**
   * The test filter finds a freshly recorded run exactly when a matching test changed its status in it:
   * a run in which every matching test kept its status is not listed.
   */
  lemma TestFilterFindsChanges(log: Log, days: int, run: Run, tests: seq<TestStatus>, now: int, part: string)
    requires forall l | l in log.tests && l.Good? :: l.row.runId != run.runId
    ensures
      var p := Pruned(log, Some(days), now);
      Mentions(Recorded(log, Some(days), run, tests, now).tests, run.runId, part) <==>
      exists t | t in tests :: Contains(t.logicalKey, part) && StatusOf(p.tests, t.logicalKey) != Some(t.status)
  {
    var p := Pruned(log, Some(days), now);
    var rows := ChangedRows(p.tests, run, tests);
    KeepRowsAre(log.tests, Cutoff(days, now));
    ChangedRowsMention(p.tests, run, tests, part);
    var all := p.tests + rows;
    assert forall i | 0 <= i < |p.tests| :: all[i] == p.tests[i] && p.tests[i] in log.tests;
    assert forall i | 0 <= i < |rows| :: all[|p.tests| + i] == rows[i];
    if Mentions(all, run.runId, part) {
      var i :| 0 <= i < |all| && all[i].Good? && all[i].row.runId == run.runId && Contains(all[i].row.logicalKey, part);
      assert all[i] == rows[i - |p.tests|];
    }
    if Mentions(rows, run.runId, part) {
      var i :| 0 <= i < |rows| && rows[i].Good?
               && rows[i].row.runId == run.runId && Contains(rows[i].row.logicalKey, part);
      assert all[|p.tests| + i] == rows[i];
    }
  }
}
