/** What pruning keeps, what a recording adds and what a query answers, over the lines of the files. */
module HistoryMeaning {
  import opened Lists
  import opened Text
  import opened Sorting
  import opened RunHistory

  // ---------------------------------------------------------------- pruning

  /** The line is a run no older than the window. */
  ghost predicate Fresh(line: Line<Run>, days: int, now: int) {
    line.Good? && line.row.finishedAt + days * 86_400_000 >= now
  }

  ghost predicate FreshRow(line: Line<Row>, days: int, now: int) {
    line.Good? && line.row.finishedAt + days * 86_400_000 >= now
  }

  lemma {:induction false} KeepRunsIs(lines: seq<Line<Run>>, days: int, now: int)
    ensures KeepRuns(lines, Cutoff(days, now)) == Keep(l => Fresh(l, days, now), lines)
  {
    if lines != [] {
      KeepRunsIs(lines[..|lines| - 1], days, now);
    }
  }

  lemma {:induction false} KeepRowsIs(lines: seq<Line<Row>>, days: int, now: int)
    ensures KeepRows(lines, Cutoff(days, now)) == Keep(l => FreshRow(l, days, now), lines)
  {
    if lines != [] {
      KeepRowsIs(lines[..|lines| - 1], days, now);
    }
  }

  /** Pruning keeps the fresh lines of both files, in order, and the directories of the runs it keeps. */
  lemma WhatPruningKeeps(log: Log, days: int, now: int) returns (runs: seq<nat>, rows: seq<nat>)
    ensures Picks(log.index, runs, Pruned(log, Some(days), now).index)
    ensures forall i: nat | i < |log.index| :: i in runs <==> Fresh(log.index[i], days, now)
    ensures Picks(log.tests, rows, Pruned(log, Some(days), now).tests)
    ensures forall i: nat | i < |log.tests| :: i in rows <==> FreshRow(log.tests[i], days, now)
    ensures forall id :: id in Pruned(log, Some(days), now).dirs <==> id in log.dirs && HasFreshRun(log, days, now, id)
    ensures forall id | id in Pruned(log, Some(days), now).dirs :: Pruned(log, Some(days), now).dirs[id] == log.dirs[id]
    ensures Pruned(log, None, now) == log
  {
    KeepRunsIs(log.index, days, now);
    KeepRowsIs(log.tests, days, now);
    runs := KeepPicks(l => Fresh(l, days, now), log.index);
    rows := KeepPicks(l => FreshRow(l, days, now), log.tests);
    forall id
      ensures id in RunIds(Pruned(log, Some(days), now).index) <==> HasFreshRun(log, days, now, id)
    {
      RetainedIds(log, days, now, runs, id);
    }
  }

  /** A fresh index line is about this run. */
  ghost predicate HasFreshRun(log: Log, days: int, now: int, id: string) {
    exists i: nat :: i < |log.index| && Fresh(log.index[i], days, now) && log.index[i].row.runId == id
  }

  lemma RetainedIds(log: Log, days: int, now: int, runs: seq<nat>, id: string)
    requires Picks(log.index, runs, Pruned(log, Some(days), now).index)
    requires forall i: nat | i < |log.index| :: i in runs <==> Fresh(log.index[i], days, now)
    ensures id in RunIds(Pruned(log, Some(days), now).index) <==> HasFreshRun(log, days, now, id)
  {
    var index := Pruned(log, Some(days), now).index;
    if id in RunIds(index) {
      var k :| 0 <= k < |index| && index[k].Good? && index[k].row.runId == id;
      assert runs[k] in runs;
    }
    if i: nat :| i < |log.index| && Fresh(log.index[i], days, now) && log.index[i].row.runId == id {
      var k :| 0 <= k < |runs| && runs[k] == i;
      assert index[k].Good? && index[k].row.runId == id;
    }
  }

  // ---------------------------------------------------------------- recording

  /** The last good row of the test says this status. */
  ghost predicate LastSays(lines: seq<Line<Row>>, key: string, status: string) {
    exists k :: 0 <= k < |lines| && lines[k].Good? && lines[k].row.logicalKey == key && lines[k].row.status == status
                && forall j | k < j < |lines| && lines[j].Good? :: lines[j].row.logicalKey != key
  }

  lemma {:induction false} StatusIs(lines: seq<Line<Row>>, key: string, status: string)
    ensures StatusOf(lines, key) == Some(status) <==> LastSays(lines, key, status)
  {
    if lines != [] {
      var front, last := lines[..|lines| - 1], lines[|lines| - 1];
      StatusIs(front, key, status);
      if last.Good? && last.row.logicalKey == key {
        if LastSays(lines, key, status) {
          var k :| 0 <= k < |lines| && lines[k].Good? && lines[k].row.logicalKey == key && lines[k].row.status == status
                   && forall j | k < j < |lines| && lines[j].Good? :: lines[j].row.logicalKey != key;
          assert k == |lines| - 1;
        }
      } else {
        if k :| 0 <= k < |lines| && lines[k].Good? && lines[k].row.logicalKey == key && lines[k].row.status == status
                && forall j | k < j < |lines| && lines[j].Good? :: lines[j].row.logicalKey != key {
          assert front[k] == lines[k];
        }
      }
    }
  }

  lemma {:induction false} ChangedAre(lines: seq<Line<Row>>, run: Run, tests: seq<TestStatus>) returns (idx: seq<nat>)
    ensures var rows := ChangedRows(lines, run, tests);
      && |idx| == |rows| && Increasing(idx)
      && (forall k | 0 <= k < |idx| :: idx[k] < |tests|
            && rows[k] == Good(Row(run.runId, tests[idx[k]].logicalKey, tests[idx[k]].status, run.finishedAt)))
      && (forall i: nat :: i in idx <==> i < |tests| && !LastSays(lines, tests[i].logicalKey, tests[i].status))
  {
    if tests == [] {
      idx := [];
    } else {
      var t := tests[|tests| - 1];
      idx := ChangedAre(lines, run, tests[..|tests| - 1]);
      StatusIs(lines, t.logicalKey, t.status);
      if !LastSays(lines, t.logicalKey, t.status) {
        idx := idx + [|tests| - 1];
      }
    }
  }

  /**
   * A recording prunes, then adds one index line, one row for each test whose last known status is another one, and
   * the run's summary; without a retention it does nothing.
   */
  lemma WhatARecordingAdds(log: Log, days: int, run: Run, tests: seq<TestStatus>, now: int) returns (idx: seq<nat>)
    ensures var p, r := Pruned(log, Some(days), now), Recorded(log, Some(days), run, tests, now);
      && r.index == p.index + [Good(run)]
      && p.tests <= r.tests && |r.tests| == |p.tests| + |idx| && Increasing(idx)
      && (forall k | 0 <= k < |idx| :: idx[k] < |tests|
            && r.tests[|p.tests| + k]
               == Good(Row(run.runId, tests[idx[k]].logicalKey, tests[idx[k]].status, run.finishedAt)))
      && (forall i: nat :: i in idx <==> i < |tests| && !LastSays(p.tests, tests[i].logicalKey, tests[i].status))
      && r.dirs == p.dirs[run.runId := Summary(run, tests)]
    ensures Recorded(log, None, run, tests, now) == log
  {
    idx := ChangedAre(Pruned(log, Some(days), now).tests, run, tests);
  }

  // ---------------------------------------------------------------- queries

  ghost predicate PartAt(text: string, part: string, k: nat) {
    k + |part| <= |text| && text[k..k + |part|] == part
  }

  /** Some row of the run is about a test whose key contains the text. */
  ghost predicate NamesTest(log: Log, runId: string, part: string) {
    exists i: nat, k: nat ::
      i < |log.tests| && log.tests[i].Good? && log.tests[i].row.runId == runId
      && PartAt(log.tests[i].row.logicalKey, part, k)
  }

  /** The run is recorded on this line and passes the date, failure and test filters. */
  ghost predicate Passes(log: Log, f: Filters, i: nat) {
    && i < |log.index| && log.index[i].Good?
    && (f.since.Some? ==> f.since.value <= log.index[i].row.finishedAt)
    && (f.failed ==> log.index[i].row.failedCount != 0)
    && (f.test.Some? ==> NamesTest(log, log.index[i].row.runId, f.test.value))
  }

  lemma ContainsIs(text: string, part: string)
    ensures Contains(text, part) <==> exists k: nat :: PartAt(text, part, k)
  {
    if i :| 0 <= i <= |text| && part <= text[i..] {
      assert text[i..i + |part|] == text[i..][..|part|];
      assert PartAt(text, part, i);
    }
    if k: nat :| PartAt(text, part, k) {
      assert text[k..][..|part|] == text[k..k + |part|];
    }
  }

  lemma MentionsIs(log: Log, runId: string, part: string)
    ensures Mentions(log.tests, runId, part) <==> NamesTest(log, runId, part)
  {
    if i :| 0 <= i < |log.tests| && log.tests[i].Good? && log.tests[i].row.runId == runId
            && Contains(log.tests[i].row.logicalKey, part) {
      ContainsIs(log.tests[i].row.logicalKey, part);
      var k: nat :| PartAt(log.tests[i].row.logicalKey, part, k);
    }
    if i: nat, k: nat :| i < |log.tests| && log.tests[i].Good? && log.tests[i].row.runId == runId
                         && PartAt(log.tests[i].row.logicalKey, part, k) {
      ContainsIs(log.tests[i].row.logicalKey, part);
    }
  }

  lemma {:induction false} SelectedAre(log: Log, lines: seq<Line<Run>>, f: Filters) returns (idx: seq<nat>)
    requires lines <= log.index
    ensures |idx| == |Selected(log, lines, f)| && Increasing(idx)
    ensures forall k | 0 <= k < |idx| :: idx[k] < |lines| && lines[idx[k]].Good?
                                         && Selected(log, lines, f)[k] == lines[idx[k]].row
    ensures forall i: nat :: i in idx <==> i < |lines| && Passes(log, f, i)
  {
    if lines == [] {
      idx := [];
    } else {
      var last := lines[|lines| - 1];
      idx := SelectedAre(log, lines[..|lines| - 1], f);
      if last.Good? && f.test.Some? {
        MentionsIs(log, last.row.runId, f.test.value);
      }
      if Passes(log, f, |lines| - 1) {
        idx := idx + [|lines| - 1];
      }
    }
  }

  /** Line `i` of the index comes before line `j` in an answer: earlier, or at the same time and written first. */
  ghost predicate Precedes(log: Log, i: nat, j: nat)
    requires i < |log.index| && log.index[i].Good? && j < |log.index| && log.index[j].Good?
  {
    var a, b := log.index[i].row.finishedAt, log.index[j].row.finishedAt;
    a < b || (a == b && i < j)
  }

  lemma EarlierIs(runs: seq<Run>, i: nat, j: nat)
    requires i < |runs| && j < |runs|
    ensures Before(TimeKey, runs, i, j) <==>
              runs[i].finishedAt < runs[j].finishedAt || (runs[i].finishedAt == runs[j].finishedAt && i < j)
  {
    var a, b := TimeKey(runs[i]), TimeKey(runs[j]);
    assert a[1..] == [] && b[1..] == [] && !LexLess(a[1..], b[1..]);
    assert a == b <==> a[0] == b[0];
  }

  /** A query answers with exactly the index lines that pass its filters, by time, those of one time in file order. */
  lemma WhatAQueryAnswers(log: Log, f: Filters) returns (lines: seq<nat>)
    ensures var runs := SortOn(TimeKey, Selected(log, log.index, f));
      |lines| == |runs| && forall k | 0 <= k < |lines| :: Passes(log, f, lines[k]) && runs[k] == log.index[lines[k]].row
    ensures forall i: nat :: i in lines <==> Passes(log, f, i)
    ensures forall a, b | 0 <= a < b < |lines| :: Precedes(log, lines[a], lines[b])
  {
    var all := Selected(log, log.index, f);
    var idx := SelectedAre(log, log.index, f);
    var order := SortIsStable(TimeKey, all);
    lines := seq(|order|, k requires 0 <= k < |order| => idx[order[k]]);
    assert forall k | 0 <= k < |lines| :: idx[order[k]] in idx;
    forall a, b | 0 <= a < b < |lines|
      ensures Precedes(log, lines[a], lines[b])
    {
      EarlierIs(all, order[a], order[b]);
    }
    forall i: nat | Passes(log, f, i)
      ensures i in lines
    {
      var m :| 0 <= m < |idx| && idx[m] == i;
      assert m in order;
      var k :| 0 <= k < |order| && order[k] == m;
      assert lines[k] == i;
    }
  }
}
