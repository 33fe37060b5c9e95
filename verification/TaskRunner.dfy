/** The example background-task runner: retries, idempotency keys and an audit trail. */
module TaskRunner {
  import opened Text

  datatype Task = Task(name: string, maxAttempts: nat, terminalOn: set<string>, observability: bool)

  datatype Kind = Success | Retry | Terminal | Exhausted

  datatype Outcome = Outcome(kind: Kind, attempts: nat, terminal: bool, sideEffects: nat, runId: string,
                             key: Option<string>, errorType: Option<string>)

  datatype Row = Row(runId: string, taskName: string, profile: string, key: Option<string>, attempt: nat,
                     terminal: bool, kind: Kind, sideEffects: nat, deduped: bool, errorType: Option<string>)

  datatype Call = Call(task: Task, profile: string, key: Option<string>, runId: string)

  datatype State = State(idempotency: map<string, Outcome>, counters: map<string, nat>, runs: seq<Row>)

  const EMPTY := State(map[], map[], [])

  function Counter(s: State, name: string): nat { if name in s.counters then s.counters[name] else 0 }

  /** The error attempt number `attempt` ends with, if any. */
  function ErrorOf(c: Call, attempt: nat): Option<string> {
    if c.profile == "terminal" then Some("AuthError")
    else if c.profile == "flaky" && attempt < c.task.maxAttempts then Some("RetryableError")
    else None
  }

  predicate IsTerminal(c: Call, error: string) { error in c.task.terminalOn }

  function Audit(s: State, c: Call, row: Row): State {
    if c.task.observability then s.(runs := s.runs + [row]) else s
  }

  function Remember(s: State, c: Call, o: Outcome): State {
    if c.key.Some? then s.(idempotency := s.idempotency[c.key.value := o]) else s
  }

  function FailureRow(s: State, c: Call, attempt: nat, error: string): Row {
    var t := IsTerminal(c, error);
    Row(c.runId, c.task.name, c.profile, c.key, attempt, t, if t then Terminal else Retry,
        Counter(s, c.task.name), false, Some(error))
  }

  function SuccessRow(s: State, c: Call, attempt: nat): Row {
    Row(c.runId, c.task.name, c.profile, c.key, attempt, false, Success, Counter(s, c.task.name) + 1, false, None)
  }

  function DedupedRow(c: Call, prior: Outcome): Row {
    Row(c.runId, c.task.name, c.profile, c.key, 0, prior.terminal, prior.kind, prior.sideEffects, true, None)
  }

  /** Runs the attempts after the first `done` ones. */
  function Attempts(s: State, c: Call, done: nat): (State, Outcome)
    decreases c.task.maxAttempts - done
  {
    if done >= c.task.maxAttempts then
      var last := if done == 0 then None else ErrorOf(c, done);
      var o := Outcome(Exhausted, done, false, Counter(s, c.task.name), c.runId, c.key, last);
      (Remember(s, c, o), o)
    else
      var attempt := done + 1;
      match ErrorOf(c, attempt)
      case None =>
        var n := Counter(s, c.task.name) + 1;
        var s1 := Audit(s.(counters := s.counters[c.task.name := n]), c, SuccessRow(s, c, attempt));
        var o := Outcome(Success, attempt, false, n, c.runId, c.key, None);
        (Remember(s1, c, o), o)
      case Some(error) =>
        var s1 := Audit(s, c, FailureRow(s, c, attempt, error));
        if IsTerminal(c, error) then
          var o := Outcome(Terminal, attempt, true, Counter(s, c.task.name), c.runId, c.key, None);
          (Remember(s1, c, o), o)
        else Attempts(s1, c, attempt)
  }

  predicate Deduped(s: State, c: Call) { c.key.Some? && c.key.value in s.idempotency }

  /** One call of the runner. */
  function Exec(s: State, c: Call): (State, Outcome) {
    if Deduped(s, c) then
      var prior := s.idempotency[c.key.value];
      (Audit(s, c, DedupedRow(c, prior)), prior)
    else Attempts(s, c, 0)
  }

  class TaskState {
    var idempotency: map<string, Outcome>
    var counters: map<string, nat>
    var runs: seq<Row>

    ghost function View(): State
      reads this
    {
      State(idempotency, counters, runs)
    }

    constructor ()
      ensures View() == EMPTY
    {
      idempotency, counters, runs := map[], map[], [];
    }

    method AppendRun(row: Row)
      modifies this`runs
      ensures runs == old(runs) + [row]
    {
      runs := runs + [row];
    }

    method IncrementSideEffect(name: string) returns (next: nat)
      modifies this`counters
      ensures next == Counter(old(View()), name) + 1
      ensures counters == old(counters)[name := next]
    {
      next := (if name in counters then counters[name] else 0) + 1;
      counters := counters[name := next];
    }

    method SideEffectCount(name: string) returns (n: nat)
      ensures n == Counter(View(), name)
    {
      n := if name in counters then counters[name] else 0;
    }

    method RecordIdempotent(key: string, o: Outcome)
      modifies this`idempotency
      ensures idempotency == old(idempotency)[key := o]
    {
      idempotency := idempotency[key := o];
    }

    method RunTask(task: Task, profile: string, key: Option<string>, runId: string) returns (o: Outcome)
      modifies this
      ensures (View(), o) == Exec(old(View()), Call(task, profile, key, runId))
    {
      ghost var c := Call(task, profile, key, runId);
      ghost var start := View();
      if key.Some? && key.value in idempotency {
        var prior := idempotency[key.value];
        if task.observability {
          AppendRun(Row(runId, task.name, profile, key, 0, prior.terminal, prior.kind, prior.sideEffects, true, None));
        }
        return prior;
      }
      var attempt := 0;
      var lastError: Option<string> := None;
      while attempt < task.maxAttempts
        invariant attempt <= task.maxAttempts
        invariant lastError == if attempt == 0 then None else ErrorOf(c, attempt)
        invariant Attempts(View(), c, attempt) == Attempts(start, c, 0)
      {
        attempt := attempt + 1;
        var shouldFail := false;
        if profile == "terminal" {
          shouldFail := true;
        } else if profile == "flaky" {
          shouldFail := attempt < task.maxAttempts;
        }
        if !shouldFail {
          var sideEffect := IncrementSideEffect(task.name);
          if task.observability {
            AppendRun(Row(runId, task.name, profile, key, attempt, false, Success, sideEffect, false, None));
          }
          o := Outcome(Success, attempt, false, sideEffect, runId, key, None);
          if key.Some? { RecordIdempotent(key.value, o); }
          return;
        }
        var errorType := if profile == "terminal" then "AuthError" else "RetryableError";
        lastError := Some(errorType);
        var isTerminal := errorType in task.terminalOn;
        var count := SideEffectCount(task.name);
        if task.observability {
          AppendRun(Row(runId, task.name, profile, key, attempt, isTerminal, if isTerminal then Terminal else Retry,
                        count, false, Some(errorType)));
        }
        if isTerminal {
          o := Outcome(Terminal, attempt, true, count, runId, key, None);
          if key.Some? { RecordIdempotent(key.value, o); }
          return;
        }
      }
      var count := SideEffectCount(task.name);
      o := Outcome(Exhausted, attempt, false, count, runId, key, lastError);
      if key.Some? { RecordIdempotent(key.value, o); }
    }
  }

  // ---------------------------------------------------------------- one executed call

  /** How many attempts an executed call makes, and how it ends. */
  function Verdict(c: Call): (Kind, nat) {
    var max := c.task.maxAttempts;
    if max == 0 then (Exhausted, 0)
    else if c.profile == "terminal" then (if "AuthError" in c.task.terminalOn then (Terminal, 1) else (Exhausted, max))
    else if c.profile == "flaky" then
      (if max > 1 && "RetryableError" in c.task.terminalOn then (Terminal, 1) else (Success, max))
    else (Success, 1)
  }

  /** What a failing attempt of the call reports. */
  function FailureName(c: Call): string { if c.profile == "terminal" then "AuthError" else "RetryableError" }

  /** The row of attempt number `attempt`, with the counter it found. */
  ghost predicate IsRow(c: Call, row: Row, attempt: nat, kind: Kind, count: nat) {
    && row.runId == c.runId && row.taskName == c.task.name && row.profile == c.profile && row.key == c.key
    && row.attempt == attempt && row.kind == kind && !row.deduped
    && row.terminal == (kind == Terminal)
    && row.sideEffects == (if kind == Success then count + 1 else count)
    && row.errorType == (if kind == Success then None else Some(FailureName(c)))
  }

  /** The kind of the last row of a call that ends like this. */
  function LastKind(o: Outcome): Kind { if o.kind == Exhausted then Retry else o.kind }

  /** The audit rows of one executed call, field by field: attempts 1..n, all `retry` before the last. */
  ghost predicate CallRows(c: Call, rows: seq<Row>, first: nat, o: Outcome, count: nat) {
    && |rows| + first == o.attempts
    && (forall i | 0 <= i < |rows| ::
          IsRow(c, rows[i], first + i + 1, if i < |rows| - 1 then Retry else LastKind(o), count))
  }

  /** The first `done` attempts all failed and may be retried. */
  predicate StillTrying(c: Call, done: nat) {
    && done <= c.task.maxAttempts
    && (done > 0 ==> ErrorOf(c, done).Some? && !IsTerminal(c, ErrorOf(c, done).value))
  }

  /** An executed call ends as its profile and retry policy say. */
  lemma {:induction false} AttemptsOutcome(s: State, c: Call, done: nat)
    requires StillTrying(c, done)
    ensures
      var o := Attempts(s, c, done).1;
      && (o.kind, o.attempts) == Verdict(c)
      && done <= o.attempts <= c.task.maxAttempts
      && o.terminal == (o.kind == Terminal) && o.runId == c.runId && o.key == c.key
      && o.errorType == (if o.kind == Exhausted && o.attempts > 0 then Some(FailureName(c)) else None)
    decreases c.task.maxAttempts - done
  {
    if done < c.task.maxAttempts && ErrorOf(c, done + 1).Some? {
      var error := ErrorOf(c, done + 1).value;
      if !IsTerminal(c, error) {
        AttemptsOutcome(Audit(s, c, FailureRow(s, c, done + 1, error)), c, done + 1);
      }
    }
  }

  /** An executed call records its outcome under its key and counts at most one side effect. */
  lemma {:induction false} AttemptsState(s: State, c: Call, done: nat)
    ensures
      var (s', o) := Attempts(s, c, done);
      && s'.idempotency == (if c.key.Some? then s.idempotency[c.key.value := o] else s.idempotency)
      && s'.counters
         == (if o.kind == Success then s.counters[c.task.name := Counter(s, c.task.name) + 1] else s.counters)
      && o.sideEffects == Counter(s', c.task.name)
    decreases c.task.maxAttempts - done
  {
    if done < c.task.maxAttempts && ErrorOf(c, done + 1).Some? {
      var error := ErrorOf(c, done + 1).value;
      if !IsTerminal(c, error) {
        AttemptsState(Audit(s, c, FailureRow(s, c, done + 1, error)), c, done + 1);
      }
    }
  }

  lemma {:induction false} AttemptsRows(s: State, c: Call, done: nat) returns (rows: seq<Row>)
    requires StillTrying(c, done)
    ensures Attempts(s, c, done).0.runs == s.runs + rows
    ensures c.task.observability ==> CallRows(c, rows, done, Attempts(s, c, done).1, Counter(s, c.task.name))
    ensures !c.task.observability ==> rows == []
    decreases c.task.maxAttempts - done
  {
    AttemptsOutcome(s, c, done);
    if done == c.task.maxAttempts {
      rows := [];
    } else if ErrorOf(c, done + 1).None? {
      rows := if c.task.observability then [SuccessRow(s, c, done + 1)] else [];
    } else {
      var error := ErrorOf(c, done + 1).value;
      var row := FailureRow(s, c, done + 1, error);
      var head := if c.task.observability then [row] else [];
      if IsTerminal(c, error) {
        rows := head;
      } else {
        var tail := AttemptsRows(Audit(s, c, row), c, done + 1);
        AttemptsOutcome(Audit(s, c, row), c, done + 1);
        rows := head + tail;
        assert s.runs + head + tail == s.runs + rows;
        if c.task.observability { ConsRows(c, row, tail, done, Attempts(s, c, done).1, Counter(s, c.task.name)); }
      }
    }
  }

  lemma ConsRows(c: Call, row: Row, tail: seq<Row>, done: nat, o: Outcome, count: nat)
    requires CallRows(c, tail, done + 1, o, count)
    requires IsRow(c, row, done + 1, Retry, count) && (tail == [] ==> o.kind == Exhausted)
    ensures CallRows(c, [row] + tail, done, o, count)
  {
  }

  /** An executed call appends the rows of attempts 1..n with n at most the limit, and reports its last failure. */
  lemma ExecutedCall(s: State, c: Call)
    requires !Deduped(s, c)
    ensures
      var (s', o) := Exec(s, c);
      && (o.kind, o.attempts) == Verdict(c) && o.attempts <= c.task.maxAttempts
      && s.runs <= s'.runs
      && (c.task.observability ==> CallRows(c, s'.runs[|s.runs|..], 0, o, Counter(s, c.task.name)))
      && (!c.task.observability ==> s'.runs == s.runs)
      && o.errorType == (if o.kind == Exhausted && o.attempts > 0 then Some(FailureName(c)) else None)
  {
    AttemptsOutcome(s, c, 0);
    var rows := AttemptsRows(s, c, 0);
    assert Exec(s, c).0.runs[|s.runs|..] == rows;
  }

  // ---------------------------------------------------------------- all call sequences

  function Run(s: State, calls: seq<Call>): State
    decreases |calls|
  {
    if calls == [] then s else Run(Exec(s, calls[0]).0, calls[1..])
  }

  function OutcomeAt(s: State, calls: seq<Call>, i: nat): Outcome
    requires i < |calls|
  {
    Exec(Run(s, calls[..i]), calls[i]).1
  }

  function CountRows(rows: seq<Row>, p: Row -> bool): nat {
    if rows == [] then 0 else CountRows(rows[..|rows| - 1], p) + if p(rows[|rows| - 1]) then 1 else 0
  }

  /** Executed successes, narrowed to one task and to one key when given. */
  predicate IsSuccess(r: Row, name: Option<string>, key: Option<string>) {
    && r.kind == Success && !r.deduped
    && (name.Some? ==> r.taskName == name.value)
    && (key.Some? ==> r.key == key)
  }

  function Successes(name: Option<string>, key: Option<string>): Row -> bool {
    (r: Row) => IsSuccess(r, name, key)
  }

  lemma {:induction false} CountConcat(a: seq<Row>, b: seq<Row>, p: Row -> bool)
    ensures CountRows(a + b, p) == CountRows(a, p) + CountRows(b, p)
    decreases |b|
  {
    if b == [] {
      assert a + b == a;
    } else {
      CountConcat(a, b[..|b| - 1], p);
      assert (a + b)[..|a + b| - 1] == a + b[..|b| - 1];
    }
  }

  lemma {:induction false} CountNone(rows: seq<Row>, p: Row -> bool)
    requires forall i | 0 <= i < |rows| :: !p(rows[i])
    ensures CountRows(rows, p) == 0
    decreases |rows|
  {
    if rows != [] { CountNone(rows[..|rows| - 1], p); }
  }

  /** In one executed call only the last row can be a success. */
  lemma CallRowsCount(c: Call, rows: seq<Row>, o: Outcome, count: nat, p: Row -> bool)
    requires CallRows(c, rows, 0, o, count)
    requires forall r: Row :: p(r) ==> r.kind == Success
    ensures CountRows(rows, p) == if rows != [] && p(rows[|rows| - 1]) then 1 else 0
  {
    if rows != [] {
      CountNone(rows[..|rows| - 1], p);
    }
  }

  /** The audit trail explains the counters and the idempotency store. */
  ghost predicate Consistent(s: State) {
    && (forall n :: Counter(s, n) == CountRows(s.runs, Successes(Some(n), None)))
    && (forall k :: CountRows(s.runs, Successes(None, Some(k))) == Succeeded(s, k))
  }

  function Succeeded(s: State, key: string): nat {
    if key in s.idempotency && s.idempotency[key].kind == Success then 1 else 0
  }

  /** The rows of one executed call add one success exactly when it succeeded. */
  lemma CallCounts(c: Call, before: seq<Row>, rows: seq<Row>, o: Outcome, count: nat, name: Option<string>,
                   key: Option<string>)
    requires CallRows(c, rows, 0, o, count) && (o.kind == Success ==> rows != [])
    ensures CountRows(before + rows, Successes(name, key)) == CountRows(before, Successes(name, key))
      + if o.kind == Success && Fits(c, name, key) then 1 else 0
  {
    var p := Successes(name, key);
    CountConcat(before, rows, p);
    CallRowsCount(c, rows, o, count, p);
  }

  /** The call's rows are about this task and this key, where given. */
  predicate Fits(c: Call, name: Option<string>, key: Option<string>) {
    (name.Some? ==> c.task.name == name.value) && (key.Some? ==> c.key == key)
  }

  lemma DedupedCounts(s: State, c: Call, name: Option<string>, key: Option<string>)
    requires c.task.observability && Deduped(s, c)
    ensures CountRows(Exec(s, c).0.runs, Successes(name, key)) == CountRows(s.runs, Successes(name, key))
  {
    var rows := [DedupedRow(c, s.idempotency[c.key.value])];
    CountConcat(s.runs, rows, Successes(name, key));
    CountNone(rows, Successes(name, key));
  }

  lemma AttemptCounts(s: State, c: Call, name: Option<string>, key: Option<string>)
    requires c.task.observability
    ensures CountRows(Attempts(s, c, 0).0.runs, Successes(name, key)) == CountRows(s.runs, Successes(name, key))
      + if Attempts(s, c, 0).1.kind == Success && Fits(c, name, key) then 1 else 0
  {
    AttemptsOutcome(s, c, 0);
    var rows := AttemptsRows(s, c, 0);
    CallCounts(c, s.runs, rows, Attempts(s, c, 0).1, Counter(s, c.task.name), name, key);
  }

  /** What one call adds to the count of any kind of success rows. */
  lemma ExecCounts(s: State, c: Call, name: Option<string>, key: Option<string>)
    requires c.task.observability
    ensures CountRows(Exec(s, c).0.runs, Successes(name, key)) == CountRows(s.runs, Successes(name, key))
      + if !Deduped(s, c) && Exec(s, c).1.kind == Success && Fits(c, name, key) then 1 else 0
  {
    if Deduped(s, c) {
      DedupedCounts(s, c, name, key);
    } else {
      AttemptCounts(s, c, name, key);
    }
  }

  lemma ExecConsistent(s: State, c: Call)
    requires Consistent(s) && c.task.observability
    ensures Consistent(Exec(s, c).0)
  {
    var (s', o) := Exec(s, c);
    if !Deduped(s, c) {
      AttemptsOutcome(s, c, 0);
      AttemptsState(s, c, 0);
    }
    forall n
      ensures Counter(s', n) == CountRows(s'.runs, Successes(Some(n), None))
    {
      ExecCounts(s, c, Some(n), None);
      assert Counter(s, n) == CountRows(s.runs, Successes(Some(n), None));
    }
    forall k
      ensures CountRows(s'.runs, Successes(None, Some(k))) == Succeeded(s', k)
    {
      ExecCounts(s, c, None, Some(k));
      assert CountRows(s.runs, Successes(None, Some(k))) == Succeeded(s, k);
    }
  }

  /**
   * After any sequence of calls of audited tasks, each side-effect counter equals the number of
   * non-deduped success rows of that task, and each key has at most one such row.
   */
  lemma {:induction false} RunConsistent(s: State, calls: seq<Call>)
    requires Consistent(s) && forall c | c in calls :: c.task.observability
    ensures Consistent(Run(s, calls))
    decreases |calls|
  {
    if calls != [] {
      ExecConsistent(s, calls[0]);
      RunConsistent(Exec(s, calls[0]).0, calls[1..]);
    }
  }

  lemma TrailExplainsCounters(calls: seq<Call>, name: string, key: string)
    requires forall c | c in calls :: c.task.observability
    ensures
      var s := Run(EMPTY, calls);
      && Counter(s, name) == CountRows(s.runs, Successes(Some(name), None))
      && CountRows(s.runs, Successes(None, Some(key))) <= 1
  {
    RunConsistent(EMPTY, calls);
  }

  /** A recorded outcome is never overwritten. */
  lemma {:induction false} RecordedForever(s: State, calls: seq<Call>, key: string)
    requires key in s.idempotency
    ensures key in Run(s, calls).idempotency && Run(s, calls).idempotency[key] == s.idempotency[key]
    decreases |calls|
  {
    if calls != [] {
      if !Deduped(s, calls[0]) { AttemptsState(s, calls[0], 0); }
      RecordedForever(Exec(s, calls[0]).0, calls[1..], key);
    }
  }

  lemma {:induction false} RunSplit(s: State, calls: seq<Call>, i: nat, j: nat)
    requires i <= j <= |calls|
    ensures Run(s, calls[..j]) == Run(Run(s, calls[..i]), calls[i..j])
    decreases i
  {
    if i == 0 {
      assert calls[0..j] == calls[..j];
    } else {
      var s1 := Exec(s, calls[0]).0;
      RunSplit(s1, calls[1..], i - 1, j - 1);
      assert calls[..j][1..] == calls[1..][..j - 1] && calls[..i][1..] == calls[1..][..i - 1];
      assert calls[1..][i - 1..j - 1] == calls[i..j];
    }
  }

  /** The one row of a repeated delivery: its own run and profile, and the recorded end. */
  ghost predicate IsRepeat(c: Call, row: Row, o: Outcome) {
    && row.runId == c.runId && row.taskName == c.task.name && row.profile == c.profile && row.key == c.key
    && row.attempt == 0 && row.deduped && row.errorType == None
    && row.kind == o.kind && row.terminal == o.terminal && row.sideEffects == o.sideEffects
  }

  /**
   * Two deliveries with the same key: the later one returns the outcome of the earlier one, changes no
   * counter and no recorded outcome, and adds exactly one deduped row when its task is audited.
   */
  lemma KeyExecutesOnce(s: State, calls: seq<Call>, i: nat, j: nat)
    requires i < j < |calls| && calls[i].key.Some? && calls[j].key == calls[i].key
    ensures OutcomeAt(s, calls, j) == OutcomeAt(s, calls, i)
    ensures
      var before, after := Run(s, calls[..j]), Run(s, calls[..j + 1]);
      && after.counters == before.counters && after.idempotency == before.idempotency
      && (if calls[j].task.observability
          then exists row :: after.runs == before.runs + [row] && IsRepeat(calls[j], row, OutcomeAt(s, calls, i))
          else after.runs == before.runs)
  {
    var key := calls[i].key.value;
    var si := Run(s, calls[..i]);
    var afterI := Exec(si, calls[i]).0;
    if !Deduped(si, calls[i]) { AttemptsState(si, calls[i], 0); }
    assert key in afterI.idempotency && afterI.idempotency[key] == OutcomeAt(s, calls, i);
    RunSplit(s, calls, i, i + 1);
    assert calls[i..i + 1] == [calls[i]] && [calls[i]][1..] == [];
    RunSplit(s, calls, i + 1, j);
    RecordedForever(afterI, calls[i + 1..j], key);
    RunSplit(s, calls, j, j + 1);
    assert calls[j..j + 1] == [calls[j]] && [calls[j]][1..] == [];
    assert IsRepeat(calls[j], DedupedRow(calls[j], OutcomeAt(s, calls, i)), OutcomeAt(s, calls, i));
  }
}
