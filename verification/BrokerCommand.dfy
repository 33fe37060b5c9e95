/** The broker command itself, step by step, with other actors at work between its git calls. */
module BrokerCommand {
  import opened Broker
  import opened Receipts
  import opened Text

  /** Everything one attempt reads besides refs, in reading order, and the id `commit-tree` gives it. */
  datatype Reads =
    Reads(digests: Digests, tree: string, resolution: Resolution, file: Option<string>, sound: bool, sha: Sha)

  /** What other actors do to the authoritative repository between the broker's git calls. */
  datatype Meanwhile = Meanwhile(beforeRead: seq<Event>, beforeCommit: seq<Event>, beforeSwap: seq<Event>)

  predicate IsOther(e: Event) { e.OtherMovesRef? || e.OtherPointsRef? || e.OtherAddsObject? }

  predicate AllOther(events: seq<Event>) { forall k | 0 <= k < |events| :: IsOther(events[k]) }

  function Decisions(request: Request, inputs: Reads): seq<Event> {
    [Open(0, request), Act(0, ReadDigests(inputs.digests)), Act(0, Ingest(inputs.tree)),
     Act(0, ResolvePolicy(inputs.resolution)), Act(0, ReadReceipt(inputs.file)), Act(0, RecomputeChain(inputs.sound))]
  }

  function UntilRead(request: Request, inputs: Reads, others: Meanwhile): seq<Event> {
    Decisions(request, inputs) + others.beforeRead + [Act(0, ReadParent)]
  }

  function UntilCommit(request: Request, inputs: Reads, others: Meanwhile): seq<Event> {
    UntilRead(request, inputs, others) + others.beforeCommit + [Act(0, MakeCommit(inputs.sha))]
  }

  /** The whole attempt of broker 0 as one run of the protocol. */
  function Schedule(request: Request, inputs: Reads, others: Meanwhile): seq<Event> {
    UntilCommit(request, inputs, others) + others.beforeSwap + [Act(0, SwapRef)]
  }

  lemma Beginnings(request: Request, inputs: Reads, others: Meanwhile)
    ensures Decisions(request, inputs) <= UntilRead(request, inputs, others)
    ensures UntilRead(request, inputs, others) <= UntilCommit(request, inputs, others)
    ensures UntilCommit(request, inputs, others) <= Schedule(request, inputs, others)
  {
  }

  lemma RunSnoc(a: Authority, w: World, events: seq<Event>, e: Event)
    ensures Run(a, w, events + [e]) == Next(a, Run(a, w, events), e)
  {
    assert (events + [e])[..|events|] == events;
  }

  lemma {:induction false} RunAppend(a: Authority, w: World, x: seq<Event>, y: seq<Event>)
    ensures Run(a, w, x + y) == Run(a, Run(a, w, x), y)
  {
    if y == [] {
      assert x + y == x;
    } else {
      var front, last := y[..|y| - 1], y[|y| - 1];
      RunAppend(a, w, x, front);
      RunSnoc(a, w, x + front, last);
      assert x + front + [last] == x + y;
    }
  }

  /** What other actors do leaves every broker where it is. */
  lemma {:induction false} OthersKeepBrokers(a: Authority, w: World, events: seq<Event>)
    requires AllOther(events)
    ensures Run(a, w, events).brokers == w.brokers
  {
    if events != [] {
      OthersKeepBrokers(a, w, events[..|events| - 1]);
      assert IsOther(events[|events| - 1]);
    }
  }

  /** The authoritative repository. */
  class Repository {
    var refs: Refs
    var objects: map<Sha, Commit>

    constructor (refs: Refs, objects: map<Sha, Commit>)
      ensures this.refs == refs && this.objects == objects
    {
      this.refs, this.objects := refs, objects;
    }

    ghost predicate Is(w: World)
      reads this
    {
      refs == w.refs && objects == w.objects
    }

    /** `rev-parse --verify` */
    method RevParse(ref: string) returns (value: Option<Sha>)
      ensures value == Value(refs, ref)
    {
      var cell := if ref in refs.symbolic then refs.symbolic[ref] else ref;
      if cell in refs.cells { return Some(refs.cells[cell]); }
      return None;
    }

    /** `commit-tree`: fails when the id would have to name two commits. */
    method CommitTree(tree: string, parent: Option<Sha>, sha: Sha) returns (ok: bool)
      modifies this`objects
      ensures ok <==> (sha in old(objects) ==> old(objects)[sha] == Commit(tree, parent))
      ensures objects == if ok then old(objects)[sha := Commit(tree, parent)] else old(objects)
    {
      var commit := Commit(tree, parent);
      if sha in objects && objects[sha] != commit { return false; }
      objects := objects[sha := commit];
      return true;
    }

    /** `update-ref <ref> <new> <old>` */
    method UpdateRef(ref: string, sha: Sha, expected: Option<Sha>) returns (ok: bool)
      modifies this`refs
      ensures ok <==> Value(old(refs), ref) == expected
      ensures refs == if ok then SetRef(old(refs), ref, Some(sha)) else old(refs)
    {
      var cell := if ref in refs.symbolic then refs.symbolic[ref] else ref;
      var now := if cell in refs.cells then Some(refs.cells[cell]) else None;
      if now != expected { return false; }
      refs := refs.(cells := refs.cells[cell := sha]);
      return true;
    }

    /** Other actors at work. */
    method Others(a: Authority, events: seq<Event>, ghost w: World) returns (ghost w': World)
      requires AllOther(events) && Is(w)
      modifies this
      ensures w' == Run(a, w, events) && Is(w')
    {
      w' := w;
      for i := 0 to |events|
        invariant w' == Run(a, w, events[..i]) && Is(w')
      {
        assert events[..i + 1] == events[..i] + [events[i]];
        RunSnoc(a, w, events[..i], events[i]);
        w' := Next(a, w', events[i]);
        match events[i] {
          case OtherMovesRef(ref, to) => refs := SetRef(refs, ref, to);
          case OtherPointsRef(ref, target) => refs := PointRef(refs, ref, target);
          case OtherAddsObject(sha, commit) => if sha !in objects { objects := objects[sha := commit]; }
          case _ => assert false;
        }
      }
      assert events[..|events|] == events;
    }
  }

  // ---------------------------------------------------------------- the checks

  ghost function Step(a: Authority, local: Local, input: Input): Local { Decide(a, Refs(map[], map[]), local, input) }

  /** Where the checks take one attempt. */
  ghost function Decided(a: Authority, request: Request, inputs: Reads): Local {
    Step(a, Step(a, Step(a, Step(a, Step(a, Opened(request), ReadDigests(inputs.digests)), Ingest(inputs.tree)),
      ResolvePolicy(inputs.resolution)), ReadReceipt(inputs.file)), RecomputeChain(inputs.sound))
  }

  method Freeze(a: Authority, request: Request, inputs: Reads) returns (r: Result<Candidate, Cause>)
    ensures Decided(a, request, inputs) == match r case Ok(c) => Recomputed(c) case Err(e) => Rejected(e)
  {
    if '\0' in request.message { return Err(UnsafeMessage); }
    if Trim(request.message) == "" { return Err(UnsafeMessage); }
    var digests := inputs.digests;
    var gate := EvaluateApprovedPolicy(inputs.resolution, digests.policy, digests.strict);
    if gate == Blocked { return Err(Untrusted); }
    if inputs.file.None? { return Err(RunIncomplete); }
    if a.keyring.None? { return Err(Untrusted); }
    var expected := Expected(inputs.tree, digests.policy, a.boundary);
    var verified := VerifyWithKeyring(a, a.keyring.value, inputs.file.value, expected);
    if verified.Err? { return Err(RejectionCause(verified.error)); }
    var receipt := verified.value;
    if receipt.body.invocation != SUPERVISED { return Err(Untrusted); }
    if gate.Enforced? && receipt.body.approvedPolicyDigest != Some(gate.approved) { return Err(Untrusted); }
    if receipt.body.resealed && !inputs.sound { return Err(EvidenceStale); }
    return Ok(Candidate(request, digests, inputs.tree, gate, receipt));
  }

  ghost function Alone(refs: Refs, objects: map<Sha, Commit>, local: Local): World {
    World(refs, objects, map[0 := local], [])
  }

  lemma OneDecision(a: Authority, refs: Refs, objects: map<Sha, Commit>, events: seq<Event>, local: Local,
                    input: Input)
    requires Run(a, Start(refs, objects), events) == Alone(refs, objects, local)
    requires !input.ReadParent? && !input.MakeCommit? && !input.SwapRef?
    ensures Run(a, Start(refs, objects), events + [Act(0, input)]) == Alone(refs, objects, Step(a, local, input))
  {
    RunSnoc(a, Start(refs, objects), events, Act(0, input));
  }

  /** The first six events of a run take broker 0 to the decided state and touch nothing else. */
  lemma DecisionsRun(a: Authority, refs: Refs, objects: map<Sha, Commit>, request: Request, inputs: Reads)
    ensures Run(a, Start(refs, objects), Decisions(request, inputs))
         == Alone(refs, objects, Decided(a, request, inputs))
  {
    var e := [Open(0, request)];
    var local := Opened(request);
    assert e[..0] == [];
    OneDecision(a, refs, objects, e, local, ReadDigests(inputs.digests));
    e, local := e + [Act(0, ReadDigests(inputs.digests))], Step(a, local, ReadDigests(inputs.digests));
    OneDecision(a, refs, objects, e, local, Ingest(inputs.tree));
    e, local := e + [Act(0, Ingest(inputs.tree))], Step(a, local, Ingest(inputs.tree));
    OneDecision(a, refs, objects, e, local, ResolvePolicy(inputs.resolution));
    e, local := e + [Act(0, ResolvePolicy(inputs.resolution))], Step(a, local, ResolvePolicy(inputs.resolution));
    OneDecision(a, refs, objects, e, local, ReadReceipt(inputs.file));
    e, local := e + [Act(0, ReadReceipt(inputs.file))], Step(a, local, ReadReceipt(inputs.file));
    OneDecision(a, refs, objects, e, local, RecomputeChain(inputs.sound));
    assert e + [Act(0, RecomputeChain(inputs.sound))] == Decisions(request, inputs);
  }

  // ---------------------------------------------------------------- the command

  ghost predicate Finished(r: Result<Sha, Cause>, local: Local) {
    match r
    case Ok(sha) => local.Accepted? && local.sha == sha
    case Err(why) => local == Rejected(why)
  }

  /** Other actors, then `rev-parse` and the check of the sealed parent. */
  method ReadBase(repo: Repository, a: Authority, c: Candidate, others: seq<Event>, ghost w: World)
    returns (parent: Option<Sha>, ok: bool, ghost w': World)
    requires AllOther(others) && repo.Is(w) && 0 in w.brokers && w.brokers[0] == Recomputed(c)
    modifies repo
    ensures w' == Next(a, Run(a, w, others), Act(0, ReadParent)) && repo.Is(w') && 0 in w'.brokers
    ensures w'.brokers[0] == if ok then Based(c, parent) else Rejected(CasMismatch)
  {
    w' := repo.Others(a, others, w);
    OthersKeepBrokers(a, w, others);
    parent := repo.RevParse(c.request.ref);
    w' := Next(a, w', Act(0, ReadParent));
    ok := !(c.receipt.body.parentSha.Some? && c.receipt.body.parentSha != parent);
  }

  /** Other actors, then `commit-tree`. */
  method MakeObject(repo: Repository, a: Authority, c: Candidate, parent: Option<Sha>, sha: Sha, others: seq<Event>,
                    ghost w: World)
    returns (ok: bool, ghost w': World)
    requires AllOther(others) && repo.Is(w) && 0 in w.brokers && w.brokers[0] == Based(c, parent)
    modifies repo
    ensures w' == Next(a, Run(a, w, others), Act(0, MakeCommit(sha))) && repo.Is(w') && 0 in w'.brokers
    ensures w'.brokers[0] == if ok then Made(c, parent, sha) else Rejected(GitFailed)
  {
    w' := repo.Others(a, others, w);
    OthersKeepBrokers(a, w, others);
    ok := repo.CommitTree(c.tree, parent, sha);
    w' := Next(a, w', Act(0, MakeCommit(sha)));
  }

  /** Other actors, then `update-ref` with the value read before. */
  method SwapIn(repo: Repository, a: Authority, c: Candidate, parent: Option<Sha>, sha: Sha, others: seq<Event>,
                ghost w: World)
    returns (ok: bool, ghost w': World)
    requires AllOther(others) && repo.Is(w) && 0 in w.brokers && w.brokers[0] == Made(c, parent, sha)
    modifies repo
    ensures w' == Next(a, Run(a, w, others), Act(0, SwapRef)) && repo.Is(w') && 0 in w'.brokers
    ensures w'.brokers[0] == if ok then Accepted(c, parent, sha) else Rejected(CasMismatch)
  {
    w' := repo.Others(a, others, w);
    OthersKeepBrokers(a, w, others);
    ok := repo.UpdateRef(c.request.ref, sha, parent);
    w' := Next(a, w', Act(0, SwapRef));
  }

  /**
   * One attempt with other actors at work. It is a run of the protocol (the whole schedule, or its beginning when the
   * attempt is turned down), it leaves the repository as that run does, and its answer is where the run takes broker 0.
   */
  method BrokerCommit(repo: Repository, a: Authority, request: Request, inputs: Reads, others: Meanwhile)
    returns (r: Result<Sha, Cause>, ghost events: seq<Event>)
    requires AllOther(others.beforeRead) && AllOther(others.beforeCommit) && AllOther(others.beforeSwap)
    modifies repo
    ensures events <= Schedule(request, inputs, others)
    ensures var w := Run(a, Start(old(repo.refs), old(repo.objects)), events);
      && repo.Is(w)
      && 0 in w.brokers && Finished(r, w.brokers[0])
    ensures var end := Run(a, Start(old(repo.refs), old(repo.objects)), Schedule(request, inputs, others));
      0 in end.brokers && Finished(r, end.brokers[0])
  {
    ghost var w0 := Start(repo.refs, repo.objects);
    Beginnings(request, inputs, others);
    DecisionsRun(a, repo.refs, repo.objects, request, inputs);
    events := Decisions(request, inputs);
    ghost var w := Run(a, w0, events);
    var frozen := Freeze(a, request, inputs);
    if frozen.Err? {
      RejectedAtTheEnd(a, w0, events, Schedule(request, inputs, others));
      return Err(frozen.error), events;
    }
    var c := frozen.value;

    Meanwhile1(a, w0, events, others.beforeRead, ReadParent);
    events := UntilRead(request, inputs, others);
    var parent, based;
    parent, based, w := ReadBase(repo, a, c, others.beforeRead, w);
    if !based {
      RejectedAtTheEnd(a, w0, events, Schedule(request, inputs, others));
      return Err(CasMismatch), events;
    }

    Meanwhile1(a, w0, events, others.beforeCommit, MakeCommit(inputs.sha));
    events := UntilCommit(request, inputs, others);
    var made;
    made, w := MakeObject(repo, a, c, parent, inputs.sha, others.beforeCommit, w);
    if !made {
      RejectedAtTheEnd(a, w0, events, Schedule(request, inputs, others));
      return Err(GitFailed), events;
    }

    Meanwhile1(a, w0, events, others.beforeSwap, SwapRef);
    events := Schedule(request, inputs, others);
    var swapped;
    swapped, w := SwapIn(repo, a, c, parent, inputs.sha, others.beforeSwap, w);
    if !swapped { return Err(CasMismatch), events; }
    return Ok(inputs.sha), events;
  }

  lemma Meanwhile1(a: Authority, w0: World, events: seq<Event>, others: seq<Event>, input: Input)
    requires AllOther(others)
    ensures Run(a, w0, events + others + [Act(0, input)]) == Next(a, Run(a, Run(a, w0, events), others), Act(0, input))
    ensures Run(a, Run(a, w0, events), others).brokers == Run(a, w0, events).brokers
  {
    RunAppend(a, w0, events, others);
    RunSnoc(a, w0, events + others, Act(0, input));
    OthersKeepBrokers(a, Run(a, w0, events), others);
  }

  // ---------------------------------------------------------------- the exact outcome of an attempt

  /** A message `git commit-tree` can take: no NUL, and something besides white space. */
  ghost predicate Speakable(message: string) {
    && (forall i | 0 <= i < |message| :: message[i] != '\0')
    && exists i :: 0 <= i < |message| && !IsSpace(message[i])
  }

  /** The owner's pin, if it can be read, is the workspace's policy; without one the workspace is not strict. */
  ghost predicate PinAllows(resolution: Resolution, d: Digests) {
    match resolution
    case Readable(Some(pin)) => pin == d.policy && WellFormed(pin)
    case _ => !d.strict
  }

  /** The receipt authorizes what was read: authentic, for this tree, policy, boundary and pin, from a clean run. */
  ghost predicate Authorizes(a: Authority, inputs: Reads, r: Receipt) {
    && a.keyring.Some? && Receipts.Authentic(a, a.keyring.value, r)
    && r.body.trustedPolicyDigest == inputs.digests.policy
    && r.body.candidateTreeId == inputs.tree
    && r.body.executionBoundaryDigest == a.boundary
    && r.body.blocking == 0
    && r.body.invocation == "test-gates --changed"
    && (inputs.resolution.Readable? && inputs.resolution.digest.Some? ==>
          r.body.approvedPolicyDigest == inputs.resolution.digest)
    && (r.body.resealed ==> inputs.sound)
  }

  /** A receipt is there, can be read, and authorizes what was read. */
  ghost predicate Covered(a: Authority, inputs: Reads) {
    && inputs.file.Some? && a.parse(inputs.file.value).Some?
    && Authorizes(a, inputs, a.parse(inputs.file.value).value)
  }

  /** Everything the checks ask for, over the fields of what was read. */
  ghost predicate Acceptable(a: Authority, request: Request, inputs: Reads) {
    Speakable(request.message) && PinAllows(inputs.resolution, inputs.digests) && Covered(a, inputs)
  }

  /** The cause when the receipt does not authorize, in the order of the command. */
  ghost function ReceiptRefusal(a: Authority, inputs: Reads): Cause
    requires !Covered(a, inputs)
  {
    if inputs.file.None? then RunIncomplete
    else if a.keyring.None? || a.parse(inputs.file.value).None? then Untrusted
    else
      var r, ring := a.parse(inputs.file.value).value, a.keyring.value;
      if !Receipts.Authentic(a, ring, r)
      then (if r.body.verifierKeyId.Some? && NamesNoKey(ring, r) then UnknownKey else Untrusted)
      else if r.body.trustedPolicyDigest != inputs.digests.policy || r.body.candidateTreeId != inputs.tree
      then EvidenceStale
      else if r.body.executionBoundaryDigest != a.boundary || r.body.blocking != 0 then Untrusted
      else if r.body.invocation != "test-gates --changed" then Untrusted
      else if inputs.resolution.Readable? && inputs.resolution.digest.Some?
              && r.body.approvedPolicyDigest != inputs.resolution.digest then Untrusted
      else EvidenceStale
  }

  /** The cause of the first check that fails. */
  ghost function Refusal(a: Authority, request: Request, inputs: Reads): Cause
    requires !Acceptable(a, request, inputs)
  {
    if !Speakable(request.message) then UnsafeMessage
    else if !PinAllows(inputs.resolution, inputs.digests) then Untrusted
    else ReceiptRefusal(a, inputs)
  }

  lemma {:induction false} TrimStartIsEmpty(s: string)
    ensures TrimStart(s) == "" <==> forall i | 0 <= i < |s| :: IsSpace(s[i])
    ensures TrimStart(s) != "" ==> !IsSpace(TrimStart(s)[0])
  {
    if s != "" && IsSpace(s[0]) {
      TrimStartIsEmpty(s[1..]);
      assert forall i | 1 <= i < |s| :: s[i] == s[1..][i - 1];
      assert forall i | 0 <= i < |s| - 1 :: s[1..][i] == s[i + 1];
    }
  }

  lemma SafeIsSpeakable(message: string)
    ensures SafeMessage(message) <==> Speakable(message)
  {
    TrimStartIsEmpty(message);
    var t := TrimStart(message);
    if t != "" {
      TrimEndKeeps(t, t[0]);
    }
  }

  /** The receipt check and the chain check, over fields. */
  lemma ReceiptDecides(a: Authority, request: Request, inputs: Reads, gate: Gate)
    requires gate == match inputs.resolution
                     case Readable(Some(pin)) => Enforced(pin)
                     case _ => Unenforced
    requires inputs.resolution.Readable? && inputs.resolution.digest.Some? ==>
               inputs.resolution.digest.value == inputs.digests.policy
    ensures Step(a, CheckReceipt(a, request, inputs.digests, inputs.tree, gate, inputs.file),
                 RecomputeChain(inputs.sound))
         == if Covered(a, inputs)
            then Recomputed(Candidate(request, inputs.digests, inputs.tree, gate, a.parse(inputs.file.value).value))
            else Rejected(ReceiptRefusal(a, inputs))
  {
    if inputs.file.Some? && a.keyring.Some? {
      var x := Expected(inputs.tree, inputs.digests.policy, a.boundary);
      RefusedBecause(a, a.keyring.value, inputs.file.value, x);
      if a.parse(inputs.file.value).Some? {
        AcceptedIff(a, a.keyring.value, inputs.file.value, x, a.parse(inputs.file.value).value);
      }
    }
  }

  lemma DecidedWhenAcceptable(a: Authority, request: Request, inputs: Reads)
    ensures Decided(a, request, inputs) ==
      if Acceptable(a, request, inputs)
      then Recomputed(Candidate(request, inputs.digests, inputs.tree,
                                GateFor(inputs.resolution, inputs.digests.policy, inputs.digests.strict),
                                a.parse(inputs.file.value).value))
      else Rejected(Refusal(a, request, inputs))
  {
    SafeIsSpeakable(request.message);
    PinBinds(inputs.resolution, inputs.digests.policy, inputs.digests.strict);
    if PinAllows(inputs.resolution, inputs.digests) {
      ReceiptDecides(a, request, inputs, GateFor(inputs.resolution, inputs.digests.policy, inputs.digests.strict));
    }
  }

  /** The value behind a name, symbolic or not. */
  ghost function Behind(refs: Refs, ref: string): Option<Sha> {
    if ref in refs.symbolic then
      if refs.symbolic[ref] in refs.cells then Some(refs.cells[refs.symbolic[ref]]) else None
    else if ref in refs.cells then Some(refs.cells[ref])
    else None
  }

  /** The refs with a new value behind the name. */
  ghost function Moved(refs: Refs, ref: string, sha: Sha): Refs {
    if ref in refs.symbolic then Refs(refs.cells[refs.symbolic[ref] := sha], refs.symbolic)
    else Refs(refs.cells[ref := sha], refs.symbolic)
  }

  /** The answer, from what was read, the refs and objects at the three git calls and nothing else. */
  ghost function Answer(a: Authority, request: Request, inputs: Reads, atRead: Refs, atCommit: map<Sha, Commit>,
                        atSwap: Refs): Result<Sha, Cause>
  {
    if !Acceptable(a, request, inputs) then Err(Refusal(a, request, inputs))
    else
      var sealed, parent := a.parse(inputs.file.value).value.body.parentSha, Behind(atRead, request.ref);
      if sealed.Some? && sealed != parent then Err(CasMismatch)
      else if inputs.sha in atCommit && atCommit[inputs.sha] != Commit(inputs.tree, parent) then Err(GitFailed)
      else if Behind(atSwap, request.ref) != parent then Err(CasMismatch)
      else Ok(inputs.sha)
  }

  /**
   * The exact outcome of an attempt, whatever other actors do between its git calls: it is accepted if and only if the
   * receipt authorizes what was read, the sealed parent (if any) is the value read, the new id is free or already that
   * commit, and at the swap the value behind the ref is still the one read. Only then does the attempt move the ref.
   */
  lemma AttemptOutcome(a: Authority, refs: Refs, objects: map<Sha, Commit>, request: Request, inputs: Reads,
                       others: Meanwhile)
    requires AllOther(others.beforeRead) && AllOther(others.beforeCommit) && AllOther(others.beforeSwap)
    ensures var w0 := Start(refs, objects);
      var atRead := Run(a, w0, Decisions(request, inputs) + others.beforeRead).refs;
      var atCommit := Run(a, w0, UntilRead(request, inputs, others) + others.beforeCommit).objects;
      var atSwap := Run(a, w0, UntilCommit(request, inputs, others) + others.beforeSwap).refs;
      var answer := Answer(a, request, inputs, atRead, atCommit, atSwap);
      var end := Run(a, w0, Schedule(request, inputs, others));
      && 0 in end.brokers && Finished(answer, end.brokers[0])
      && end.refs == if answer.Ok? then Moved(atSwap, request.ref, inputs.sha) else atSwap
  {
    var w0 := Start(refs, objects);
    DecisionsRun(a, refs, objects, request, inputs);
    DecidedWhenAcceptable(a, request, inputs);
    var e1, e2 := Decisions(request, inputs), UntilRead(request, inputs, others);
    var e3 := UntilCommit(request, inputs, others);
    RunAppend(a, w0, e1, others.beforeRead);
    RunAppend(a, w0, e2, others.beforeCommit);
    RunAppend(a, w0, e3, others.beforeSwap);
    Meanwhile1(a, w0, e1, others.beforeRead, ReadParent);
    Meanwhile1(a, w0, e2, others.beforeCommit, MakeCommit(inputs.sha));
    Meanwhile1(a, w0, e3, others.beforeSwap, SwapRef);
    var w1 := Run(a, w0, e1 + others.beforeRead);
    var w2 := Run(a, w0, e2 + others.beforeCommit);
    var w3 := Run(a, w0, e3 + others.beforeSwap);
    GitCalls(a, w1, w2, w3, inputs.sha);
  }

  lemma ReadCall(a: Authority, w: World)
    requires 0 in w.brokers && (w.brokers[0].Recomputed? || w.brokers[0].Rejected?)
    ensures var local, w' := w.brokers[0], Next(a, w, Act(0, ReadParent));
      && w'.refs == w.refs && w'.objects == w.objects && 0 in w'.brokers
      && (local.Rejected? ==> w'.brokers[0] == local)
      && (local.Recomputed? ==>
            var sealed, parent := local.c.receipt.body.parentSha, Behind(w.refs, local.c.request.ref);
            w'.brokers[0]
            == if sealed.Some? && sealed != parent then Rejected(CasMismatch) else Based(local.c, parent))
  {
  }

  lemma CommitCall(a: Authority, w: World, sha: Sha)
    requires 0 in w.brokers && (w.brokers[0].Based? || w.brokers[0].Rejected?)
    ensures var local, w' := w.brokers[0], Next(a, w, Act(0, MakeCommit(sha)));
      && w'.refs == w.refs && 0 in w'.brokers
      && (local.Rejected? ==> w'.brokers[0] == local)
      && (local.Based? ==>
            w'.brokers[0]
            == if sha in w.objects && w.objects[sha] != Commit(local.c.tree, local.parent) then Rejected(GitFailed)
               else Made(local.c, local.parent, sha))
  {
  }

  lemma SwapCall(a: Authority, w: World)
    requires 0 in w.brokers && (w.brokers[0].Made? || w.brokers[0].Rejected?)
    ensures var local, w' := w.brokers[0], Next(a, w, Act(0, SwapRef));
      && 0 in w'.brokers
      && (local.Rejected? ==> w'.brokers[0] == local && w'.refs == w.refs)
      && (local.Made? ==>
            var ref := local.c.request.ref;
            if Behind(w.refs, ref) != local.parent then w'.brokers[0] == Rejected(CasMismatch) && w'.refs == w.refs
            else
              && w'.brokers[0] == Accepted(local.c, local.parent, local.sha)
              && w'.refs == Moved(w.refs, ref, local.sha))
  {
  }

  /** The three git calls, with the worlds they start in. */
  lemma GitCalls(a: Authority, w1: World, w2: World, w3: World, sha: Sha)
    requires 0 in w1.brokers && (w1.brokers[0].Recomputed? || w1.brokers[0].Rejected?)
    requires w2.brokers == Next(a, w1, Act(0, ReadParent)).brokers
    requires w3.brokers == Next(a, w2, Act(0, MakeCommit(sha))).brokers
    ensures var end := Next(a, w3, Act(0, SwapRef));
      var local := w1.brokers[0];
      && 0 in end.brokers
      && (local.Rejected? ==> end.brokers[0] == local && end.refs == w3.refs)
      && (local.Recomputed? ==>
            var c, ref := local.c, local.c.request.ref;
            var parent := Behind(w1.refs, ref);
            if c.receipt.body.parentSha.Some? && c.receipt.body.parentSha != parent
            then end.brokers[0] == Rejected(CasMismatch) && end.refs == w3.refs
            else if sha in w2.objects && w2.objects[sha] != Commit(c.tree, parent)
            then end.brokers[0] == Rejected(GitFailed) && end.refs == w3.refs
            else if Behind(w3.refs, ref) != parent
            then end.brokers[0] == Rejected(CasMismatch) && end.refs == w3.refs
            else end.brokers[0] == Accepted(c, parent, sha) && end.refs == Moved(w3.refs, ref, sha))
  {
    ReadCall(a, w1);
    CommitCall(a, w2, sha);
    SwapCall(a, w3);
  }

  const NOBODY := Meanwhile([], [], [])

  /** With nobody else at work the three git calls see the same refs, and the objects as they were. */
  lemma NobodyDisturbs(a: Authority, refs: Refs, objects: map<Sha, Commit>, request: Request, inputs: Reads)
    ensures var w0 := Start(refs, objects);
      && Run(a, w0, Decisions(request, inputs) + []).refs == refs
      && Run(a, w0, UntilRead(request, inputs, NOBODY) + []).objects == objects
      && Run(a, w0, UntilCommit(request, inputs, NOBODY) + []).refs == refs
  {
    var w0, e1 := Start(refs, objects), Decisions(request, inputs);
    var e2, e3 := UntilRead(request, inputs, NOBODY), UntilCommit(request, inputs, NOBODY);
    assert e1 + [] == e1 && e2 + [] == e2 && e3 + [] == e3;
    DecisionsRun(a, refs, objects, request, inputs);
    DecidedWhenAcceptable(a, request, inputs);
    RunSnoc(a, w0, e1, Act(0, ReadParent));
    RunSnoc(a, w0, e2, Act(0, MakeCommit(inputs.sha)));
    ReadCall(a, Run(a, w0, e1));
    CommitCall(a, Run(a, w0, e2), inputs.sha);
  }

  lemma UndisturbedAttempt(a: Authority, refs: Refs, objects: map<Sha, Commit>, request: Request, inputs: Reads)
    ensures var w := Run(a, Start(refs, objects), Schedule(request, inputs, NOBODY));
      var answer := Answer(a, request, inputs, refs, objects, refs);
      && 0 in w.brokers && Finished(answer, w.brokers[0])
      && w.refs == if answer.Ok? then Moved(refs, request.ref, inputs.sha) else refs
  {
    AttemptOutcome(a, refs, objects, request, inputs, NOBODY);
    NobodyDisturbs(a, refs, objects, request, inputs);
  }

  /** A rejected attempt stays rejected, whatever follows. */
  lemma {:induction false} RejectedStays(a: Authority, w: World, events: seq<Event>)
    requires 0 in w.brokers && w.brokers[0].Rejected?
    ensures var w' := Run(a, w, events); 0 in w'.brokers && w'.brokers[0] == w.brokers[0]
  {
    if events != [] {
      RejectedStays(a, w, events[..|events| - 1]);
    }
  }

  lemma RejectedAtTheEnd(a: Authority, w0: World, events: seq<Event>, schedule: seq<Event>)
    requires events <= schedule
    requires var w := Run(a, w0, events); 0 in w.brokers && w.brokers[0].Rejected?
    ensures var end := Run(a, w0, schedule); 0 in end.brokers && end.brokers[0] == Run(a, w0, events).brokers[0]
  {
    assert schedule == events + schedule[|events|..];
    RunAppend(a, w0, events, schedule[|events|..]);
    RejectedStays(a, Run(a, w0, events), schedule[|events|..]);
  }
}
