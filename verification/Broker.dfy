/** The commit broker as a protocol: any number of brokers, and other actors who move refs and add objects meanwhile. */
module Broker {
  import opened Receipts
  import opened Text

  type Sha = string

  datatype Commit = Commit(tree: string, parent: Option<Sha>)

  datatype Cause = UnsafeMessage | RunIncomplete | Untrusted | UnknownKey | EvidenceStale | CasMismatch | GitFailed

  datatype Request = Request(message: string, ref: string)

  /** Recomputed from the raw workspace bytes. */
  datatype Digests = Digests(policy: string, strict: bool)

  /** What one broker has frozen about its candidate. */
  datatype Candidate = Candidate(request: Request, digests: Digests, tree: string, gate: Gate, receipt: Receipt)

  /** How far one broker is. */
  datatype Local =
    | Opened(request: Request)
    | Digested(request: Request, digests: Digests)
    | Ingested(request: Request, digests: Digests, tree: string)
    | Gated(request: Request, digests: Digests, tree: string, gate: Gate)
    | Authentic(c: Candidate)
    | Recomputed(c: Candidate)
    | Based(c: Candidate, parent: Option<Sha>)
    | Made(c: Candidate, parent: Option<Sha>, sha: Sha)
    | Accepted(c: Candidate, parent: Option<Sha>, sha: Sha)
    | Rejected(why: Cause)

  /** `symbolic` names, such as `HEAD`, stand for another ref; `cells` hold the values. */
  datatype Refs = Refs(cells: map<string, Sha>, symbolic: map<string, string>)

  /** What happened to the refs; `author` is the broker that did it. */
  datatype Change =
    | Move(ref: string, before: Option<Sha>, after: Option<Sha>, author: Option<nat>)
    | Point(ref: string, to: Option<string>, author: Option<nat>)

  datatype World = World(refs: Refs, objects: map<Sha, Commit>, brokers: map<nat, Local>, log: seq<Change>)

  /** What a broker reads from a workspace that anyone may rewrite between two reads, and from git. */
  datatype Input =
    | ReadDigests(digests: Digests)
    | Ingest(tree: string)
    | ResolvePolicy(resolution: Resolution)
    | ReadReceipt(file: Option<string>)
    | RecomputeChain(sound: bool)
    | ReadParent
    | MakeCommit(sha: Sha)
    | SwapRef

  datatype Event =
    | Open(pid: nat, request: Request)
    | Act(pid: nat, input: Input)
    | OtherMovesRef(ref: string, to: Option<Sha>)
    | OtherPointsRef(ref: string, target: Option<string>)
    | OtherAddsObject(sha: Sha, commit: Commit)

  const SUPERVISED := "test-gates --changed"

  function Lookup(cells: map<string, Sha>, cell: string): Option<Sha> {
    if cell in cells then Some(cells[cell]) else None
  }

  /** The cell a name stands for. */
  function Target(refs: Refs, ref: string): string { if ref in refs.symbolic then refs.symbolic[ref] else ref }

  function Value(refs: Refs, ref: string): Option<Sha> { Lookup(refs.cells, Target(refs, ref)) }

  /** `update-ref`: the cell behind the name changes. */
  function SetRef(refs: Refs, ref: string, to: Option<Sha>): Refs {
    var cell := Target(refs, ref);
    match to
    case None => refs.(cells := refs.cells - {cell})
    case Some(sha) => refs.(cells := refs.cells[cell := sha])
  }

  /** `symbolic-ref`: the name stands for another ref from now on, or for itself. */
  function PointRef(refs: Refs, ref: string, target: Option<string>): Refs {
    match target
    case None => refs.(symbolic := refs.symbolic - {ref})
    case Some(cell) => refs.(symbolic := refs.symbolic[ref := cell])
  }

  function Apply(refs: Refs, change: Change): Refs {
    match change
    case Move(ref, _, after, _) => SetRef(refs, ref, after)
    case Point(ref, to, _) => PointRef(refs, ref, to)
  }

  predicate SafeMessage(message: string) { '\0' !in message && Trim(message) != "" }

  // ---------------------------------------------------------------- one broker

  function RejectionCause(e: Receipts.Rejection): Cause {
    match e
    case KeyUnknown => UnknownKey
    case PolicyMismatch => EvidenceStale
    case TreeMismatch => EvidenceStale
    case _ => Untrusted
  }

  /** The receipt read at this moment, against what was frozen before. */
  ghost function CheckReceipt(a: Authority, request: Request, d: Digests, tree: string, gate: Gate,
                              file: Option<string>): Local
  {
    if file.None? then Rejected(RunIncomplete)
    else if a.keyring.None? then Rejected(Untrusted)
    else
      match Verdict(a, a.keyring.value, file.value, Expected(tree, d.policy, a.boundary))
      case Err(e) => Rejected(RejectionCause(e))
      case Ok(r) =>
        if r.body.invocation != SUPERVISED then Rejected(Untrusted)
        else if gate.Enforced? && r.body.approvedPolicyDigest != Some(gate.approved) then Rejected(Untrusted)
        else Authentic(Candidate(request, d, tree, gate, r))
  }

  /** The steps that touch neither refs nor objects. */
  ghost function Decide(a: Authority, refs: Refs, local: Local, input: Input): Local {
    match (local, input)
    case (Opened(q), ReadDigests(d)) => if SafeMessage(q.message) then Digested(q, d) else Rejected(UnsafeMessage)
    case (Digested(q, d), Ingest(tree)) => Ingested(q, d, tree)
    case (Ingested(q, d, tree), ResolvePolicy(resolution)) =>
      if GateFor(resolution, d.policy, d.strict) == Blocked then Rejected(Untrusted)
      else Gated(q, d, tree, GateFor(resolution, d.policy, d.strict))
    case (Gated(q, d, tree, gate), ReadReceipt(file)) => CheckReceipt(a, q, d, tree, gate, file)
    case (Authentic(c), RecomputeChain(sound)) =>
      if c.receipt.body.resealed && !sound then Rejected(EvidenceStale) else Recomputed(c)
    case (Recomputed(c), ReadParent) =>
      var parent := Value(refs, c.request.ref);
      if c.receipt.body.parentSha.Some? && c.receipt.body.parentSha != parent then Rejected(CasMismatch)
      else Based(c, parent)
    case _ => local
  }

  ghost function Become(w: World, pid: nat, local: Local): World { w.(brokers := w.brokers[pid := local]) }

  /** `commit-tree`: an id is never given to two different commits. */
  ghost function Create(w: World, pid: nat, c: Candidate, parent: Option<Sha>, sha: Sha): World {
    var commit := Commit(c.tree, parent);
    if sha in w.objects && w.objects[sha] != commit then Become(w, pid, Rejected(GitFailed))
    else Become(w.(objects := w.objects[sha := commit]), pid, Made(c, parent, sha))
  }

  /** `update-ref` with the old value: one atomic compare-and-swap. */
  ghost function Swap(w: World, pid: nat, c: Candidate, parent: Option<Sha>, sha: Sha): World {
    var ref := c.request.ref;
    if Value(w.refs, ref) != parent then Become(w, pid, Rejected(CasMismatch))
    else
      Become(w.(refs := SetRef(w.refs, ref, Some(sha)), log := w.log + [Move(ref, parent, Some(sha), Some(pid))]),
             pid, Accepted(c, parent, sha))
  }

  ghost function Next(a: Authority, w: World, e: Event): World {
    match e
    case Open(pid, request) => if pid in w.brokers then w else Become(w, pid, Opened(request))
    case OtherMovesRef(ref, to) =>
      w.(refs := SetRef(w.refs, ref, to), log := w.log + [Move(ref, Value(w.refs, ref), to, None)])
    case OtherPointsRef(ref, target) =>
      w.(refs := PointRef(w.refs, ref, target), log := w.log + [Point(ref, target, None)])
    case OtherAddsObject(sha, commit) => if sha in w.objects then w else w.(objects := w.objects[sha := commit])
    case Act(pid, input) =>
      if pid !in w.brokers then w
      else
        match (w.brokers[pid], input)
        case (Based(c, parent), MakeCommit(sha)) => Create(w, pid, c, parent, sha)
        case (Made(c, parent, sha), SwapRef) => Swap(w, pid, c, parent, sha)
        case (local, _) => Become(w, pid, Decide(a, w.refs, local, input))
  }

  ghost function Run(a: Authority, w: World, events: seq<Event>): World {
    if events == [] then w else Next(a, Run(a, w, events[..|events| - 1]), events[|events| - 1])
  }

  function Start(refs: Refs, objects: map<Sha, Commit>): World { World(refs, objects, map[], []) }

  // ---------------------------------------------------------------- what every event keeps

  /** A receipt that authorizes exactly this candidate at this authority. */
  ghost predicate Authorized(a: Authority, c: Candidate) {
    && a.keyring.Some? && Receipts.Authentic(a, a.keyring.value, c.receipt)
    && c.receipt.body.candidateTreeId == c.tree
    && c.receipt.body.trustedPolicyDigest == c.digests.policy
    && c.receipt.body.executionBoundaryDigest == a.boundary
    && c.receipt.body.blocking == 0
    && c.receipt.body.invocation == SUPERVISED
    && PinHonoured(c.digests, c.gate)
    && (c.gate.Enforced? ==> c.receipt.body.approvedPolicyDigest == Some(c.gate.approved))
  }

  /** A strict workspace never passes without the owner's pin, and an enforced pin is the workspace's own policy. */
  predicate PinHonoured(d: Digests, gate: Gate) {
    gate != Blocked && (d.strict ==> gate.Enforced?) && (gate.Enforced? ==> gate.approved == d.policy)
  }

  predicate ParentAgrees(c: Candidate, parent: Option<Sha>) {
    c.receipt.body.parentSha.Some? ==> c.receipt.body.parentSha == parent
  }

  ghost predicate LocalOk(a: Authority, objects: map<Sha, Commit>, local: Local) {
    match local
    case Gated(_, d, _, gate) => PinHonoured(d, gate)
    case Authentic(c) => Authorized(a, c)
    case Recomputed(c) => Authorized(a, c)
    case Based(c, parent) => Authorized(a, c) && ParentAgrees(c, parent)
    case Made(c, parent, sha) =>
      Authorized(a, c) && ParentAgrees(c, parent) && sha in objects && objects[sha] == Commit(c.tree, parent)
    case Accepted(c, parent, sha) =>
      Authorized(a, c) && ParentAgrees(c, parent) && sha in objects && objects[sha] == Commit(c.tree, parent)
    case _ => true
  }

  ghost predicate LocalsOk(a: Authority, w: World) {
    forall pid | pid in w.brokers :: LocalOk(a, w.objects, w.brokers[pid])
  }

  /** The move an accepted broker made. */
  function MoveOf(pid: nat, local: Local): Change
    requires local.Accepted?
  {
    Move(local.c.request.ref, local.parent, Some(local.sha), Some(pid))
  }

  ghost predicate ByBroker(w: World, m: Change) {
    m.author.Some? ==>
      && m.author.value in w.brokers && w.brokers[m.author.value].Accepted?
      && m == MoveOf(m.author.value, w.brokers[m.author.value])
  }

  ghost predicate LogOk(w: World) { forall m | m in w.log :: ByBroker(w, m) }

  /** Every accepted broker is in the log, and no broker twice. */
  ghost predicate OncePerBroker(w: World) {
    && (forall pid | pid in w.brokers && w.brokers[pid].Accepted? :: MoveOf(pid, w.brokers[pid]) in w.log)
    && (forall i, j | 0 <= i < j < |w.log| && w.log[i].author.Some? :: w.log[j].author != w.log[i].author)
  }

  /** The refs after the first `n` changes, starting from `refs`. */
  ghost function RefsAfter(refs: Refs, log: seq<Change>, n: nat): Refs
    requires n <= |log|
  {
    if n == 0 then refs else Apply(RefsAfter(refs, log, n - 1), log[n - 1])
  }

  /** The log explains the refs: every move starts from the value its ref had, and nothing else changed a ref. */
  ghost predicate Chained(refs: Refs, w: World) {
    && w.refs == RefsAfter(refs, w.log, |w.log|)
    && forall i | 0 <= i < |w.log| :: StartsAt(refs, w.log, i)
  }

  /** Move `i` starts from the value its ref had then. */
  ghost predicate StartsAt(refs: Refs, log: seq<Change>, i: nat)
    requires i < |log|
  {
    log[i].Move? ==> log[i].before == Value(RefsAfter(refs, log, i), log[i].ref)
  }

  ghost predicate Inv(a: Authority, refs: Refs, w: World) {
    LocalsOk(a, w) && LogOk(w) && OncePerBroker(w) && Chained(refs, w)
  }

  lemma StartInv(a: Authority, refs: Refs, objects: map<Sha, Commit>)
    ensures Inv(a, refs, Start(refs, objects))
  {
  }

  /** An approved receipt binds everything the broker froze. */
  lemma CheckedReceipt(a: Authority, request: Request, d: Digests, tree: string, gate: Gate, file: Option<string>)
    requires PinHonoured(d, gate)
    ensures var next := CheckReceipt(a, request, d, tree, gate, file);
      next.Rejected? || (next.Authentic? && Authorized(a, next.c))
  {
    if file.Some? && a.keyring.Some? {
      var x := Expected(tree, d.policy, a.boundary);
      if Verdict(a, a.keyring.value, file.value, x).Ok? {
        AcceptedIff(a, a.keyring.value, file.value, x, Verdict(a, a.keyring.value, file.value, x).value);
      }
    }
  }

  lemma DecideKeeps(a: Authority, refs: Refs, objects: map<Sha, Commit>, local: Local, input: Input)
    requires LocalOk(a, objects, local)
    ensures LocalOk(a, objects, Decide(a, refs, local, input))
    ensures Decide(a, refs, local, input).Accepted? ==> Decide(a, refs, local, input) == local
    ensures local.Accepted? ==> Decide(a, refs, local, input) == local
  {
    if local.Ingested? && input.ResolvePolicy? {
      PinBinds(input.resolution, local.digests.policy, local.digests.strict);
    }
    if local.Gated? && input.ReadReceipt? {
      CheckedReceipt(a, local.request, local.digests, local.tree, local.gate, input.file);
    }
  }

  /** A broker that is not finished can take any step that logs nothing. */
  lemma BecomeKeeps(a: Authority, refs: Refs, w: World, pid: nat, local: Local)
    requires Inv(a, refs, w) && LocalOk(a, w.objects, local)
    requires pid in w.brokers && w.brokers[pid].Accepted? ==> local == w.brokers[pid]
    requires local.Accepted? ==> pid in w.brokers && local == w.brokers[pid]
    ensures Inv(a, refs, Become(w, pid, local))
  {
    var w' := Become(w, pid, local);
    forall m | m in w'.log
      ensures ByBroker(w', m)
    {
      assert ByBroker(w, m);
    }
  }

  lemma ObjectsKeep(a: Authority, refs: Refs, w: World, sha: Sha, commit: Commit)
    requires Inv(a, refs, w) && (sha in w.objects ==> w.objects[sha] == commit)
    ensures Inv(a, refs, w.(objects := w.objects[sha := commit]))
  {
    var w' := w.(objects := w.objects[sha := commit]);
    forall pid | pid in w'.brokers
      ensures LocalOk(a, w'.objects, w'.brokers[pid])
    {
      assert LocalOk(a, w.objects, w.brokers[pid]);
    }
    forall m | m in w'.log
      ensures ByBroker(w', m)
    {
      assert ByBroker(w, m);
    }
  }

  /** One more change in the log. */
  lemma ChainedMore(refs: Refs, w: World, w': World, m: Change)
    requires Chained(refs, w)
    requires w'.log == w.log + [m] && w'.refs == Apply(w.refs, m) && (m.Move? ==> m.before == Value(w.refs, m.ref))
    ensures Chained(refs, w')
  {
    var n := |w.log|;
    SamePrefix(refs, w.log, w'.log, n);
    forall i | 0 <= i < |w'.log|
      ensures StartsAt(refs, w'.log, i)
    {
      if i < n {
        SamePrefix(refs, w.log, w'.log, i);
        assert StartsAt(refs, w.log, i) && w'.log[i] == w.log[i];
      }
    }
  }

  lemma {:induction false} SamePrefix(refs: Refs, log: seq<Change>, log': seq<Change>, n: nat)
    requires n <= |log| <= |log'| && log'[..|log|] == log
    ensures RefsAfter(refs, log', n) == RefsAfter(refs, log, n)
  {
    if n > 0 {
      SamePrefix(refs, log, log', n - 1);
      assert log'[n - 1] == log'[..|log|][n - 1];
    }
  }

  lemma SwapKeeps(a: Authority, refs: Refs, w: World, pid: nat, c: Candidate, parent: Option<Sha>, sha: Sha)
    requires Inv(a, refs, w) && pid in w.brokers && w.brokers[pid] == Made(c, parent, sha)
    ensures Inv(a, refs, Swap(w, pid, c, parent, sha))
  {
    var ref := c.request.ref;
    if Value(w.refs, ref) != parent {
      BecomeKeeps(a, refs, w, pid, Rejected(CasMismatch));
    } else {
      var w' := Swap(w, pid, c, parent, sha);
      var m := Move(ref, parent, Some(sha), Some(pid));
      assert LocalOk(a, w.objects, w.brokers[pid]);
      ChainedMore(refs, w, w', m);
      SwapKeepsLog(w, w', pid, Accepted(c, parent, sha), m);
    }
  }

  lemma SwapKeepsLog(w: World, w': World, pid: nat, accepted: Local, m: Change)
    requires LogOk(w) && OncePerBroker(w)
    requires pid in w.brokers && !w.brokers[pid].Accepted?
    requires w'.log == w.log + [m] && m.author == Some(pid)
    requires accepted.Accepted? && w'.brokers == w.brokers[pid := accepted] && m == MoveOf(pid, accepted)
    ensures LogOk(w') && OncePerBroker(w')
  {
    forall x | x in w.log
      ensures x.author != Some(pid) && ByBroker(w', x)
    {
      assert ByBroker(w, x);
    }
    forall p | p in w'.brokers && w'.brokers[p].Accepted?
      ensures MoveOf(p, w'.brokers[p]) in w'.log
    {
      if p != pid {
        assert MoveOf(p, w.brokers[p]) in w.log;
      }
    }
    forall i, j | 0 <= i < j < |w'.log| && w'.log[i].author.Some?
      ensures w'.log[j].author != w'.log[i].author
    {
      assert w'.log[i] == w.log[i] && w.log[i] in w.log;
    }
  }

  lemma OtherChangeKeeps(a: Authority, refs: Refs, w: World, w': World, m: Change)
    requires Inv(a, refs, w) && m.author == None && (m.Move? ==> m.before == Value(w.refs, m.ref))
    requires w' == w.(refs := Apply(w.refs, m), log := w.log + [m])
    ensures Inv(a, refs, w')
  {
    ChainedMore(refs, w, w', m);
    forall x | x in w'.log
      ensures ByBroker(w', x)
    {
      assert x in w.log ==> ByBroker(w, x);
    }
    forall i, j | 0 <= i < j < |w'.log| && w'.log[i].author.Some?
      ensures w'.log[j].author != w'.log[i].author
    {
      assert w'.log[i] == w.log[i];
    }
  }

  lemma CreateKeeps(a: Authority, refs: Refs, w: World, pid: nat, c: Candidate, parent: Option<Sha>, sha: Sha)
    requires Inv(a, refs, w) && pid in w.brokers && w.brokers[pid] == Based(c, parent)
    ensures Inv(a, refs, Create(w, pid, c, parent, sha))
  {
    assert LocalOk(a, w.objects, w.brokers[pid]);
    var commit := Commit(c.tree, parent);
    if sha in w.objects && w.objects[sha] != commit {
      BecomeKeeps(a, refs, w, pid, Rejected(GitFailed));
    } else {
      ObjectsKeep(a, refs, w, sha, commit);
      BecomeKeeps(a, refs, w.(objects := w.objects[sha := commit]), pid, Made(c, parent, sha));
    }
  }

  lemma NextKeeps(a: Authority, refs: Refs, w: World, e: Event)
    requires Inv(a, refs, w)
    ensures Inv(a, refs, Next(a, w, e))
  {
    match e
    case Open(pid, request) =>
      if pid !in w.brokers {
        BecomeKeeps(a, refs, w, pid, Opened(request));
      }
    case OtherMovesRef(ref, to) =>
      OtherChangeKeeps(a, refs, w, Next(a, w, e), Move(ref, Value(w.refs, ref), to, None));
    case OtherPointsRef(ref, target) => OtherChangeKeeps(a, refs, w, Next(a, w, e), Point(ref, target, None));
    case OtherAddsObject(sha, commit) =>
      if sha !in w.objects {
        ObjectsKeep(a, refs, w, sha, commit);
      }
    case Act(pid, input) =>
      if pid in w.brokers {
        ActKeeps(a, refs, w, pid, input);
      }
  }

  lemma ActKeeps(a: Authority, refs: Refs, w: World, pid: nat, input: Input)
    requires Inv(a, refs, w) && pid in w.brokers
    ensures Inv(a, refs, Next(a, w, Act(pid, input)))
  {
    var local := w.brokers[pid];
    if local.Based? && input.MakeCommit? {
      CreateKeeps(a, refs, w, pid, local.c, local.parent, input.sha);
    } else if local.Made? && input.SwapRef? {
      SwapKeeps(a, refs, w, pid, local.c, local.parent, local.sha);
    } else {
      assert LocalOk(a, w.objects, local);
      DecideKeeps(a, w.refs, w.objects, local, input);
      BecomeKeeps(a, refs, w, pid, Decide(a, w.refs, local, input));
    }
  }

  lemma {:induction false} RunKeeps(a: Authority, refs: Refs, objects: map<Sha, Commit>, events: seq<Event>)
    ensures Inv(a, refs, Run(a, Start(refs, objects), events))
  {
    if events == [] {
      StartInv(a, refs, objects);
    } else {
      RunKeeps(a, refs, objects, events[..|events| - 1]);
      NextKeeps(a, refs, Run(a, Start(refs, objects), events[..|events| - 1]), events[|events| - 1]);
    }
  }

  // ---------------------------------------------------------------- safety of every run

  /**
   * Move `i` replaces the value its ref (or the ref its name stood for) had at that very moment by a commit whose
   * parent is that value and whose tree is the one its broker ingested; a receipt signed by the authority's key ring
   * binds that tree, the recomputed policy, this boundary and (if any) that parent.
   */
  ghost predicate AuthorizedMove(a: Authority, refs: Refs, w: World, i: nat)
    requires i < |w.log|
  {
    var m := w.log[i];
    && StartsAt(refs, w.log, i)
    && m.Move? && m.author.Some? && m.author.value in w.brokers && w.brokers[m.author.value].Accepted?
    && var c := w.brokers[m.author.value].c;
    && m.ref == c.request.ref && m.after.Some? && m.after.value in w.objects
    && w.objects[m.after.value] == Commit(c.tree, m.before)
    && Authorized(a, c) && ParentAgrees(c, m.before)
  }

  lemma MoveIsAuthorized(a: Authority, refs: Refs, w: World, i: nat)
    requires Inv(a, refs, w) && i < |w.log| && w.log[i].author.Some?
    ensures AuthorizedMove(a, refs, w, i)
  {
    var m := w.log[i];
    assert StartsAt(refs, w.log, i);
    assert ByBroker(w, m);
    assert LocalOk(a, w.objects, w.brokers[m.author.value]);
  }

  /** Whatever the other actors do in between, every move a broker makes is authorized. */
  lemma AcceptedMovesAreAuthorized(a: Authority, refs: Refs, objects: map<Sha, Commit>, events: seq<Event>, i: nat)
    requires var w := Run(a, Start(refs, objects), events); i < |w.log| && w.log[i].author.Some?
    ensures AuthorizedMove(a, refs, Run(a, Start(refs, objects), events), i)
  {
    RunKeeps(a, refs, objects, events);
    MoveIsAuthorized(a, refs, Run(a, Start(refs, objects), events), i);
  }

  /** The refs are exactly what the log of moves makes of the first refs. */
  lemma LogExplainsRefs(a: Authority, refs: Refs, objects: map<Sha, Commit>, events: seq<Event>)
    ensures var w := Run(a, Start(refs, objects), events); w.refs == RefsAfter(refs, w.log, |w.log|)
    ensures var w := Run(a, Start(refs, objects), events);
      forall i | 0 <= i < |w.log| :: StartsAt(refs, w.log, i)
  {
    RunKeeps(a, refs, objects, events);
  }

  /** A rejected or unfinished broker has moved no ref; an accepted one has moved exactly one ref, once. */
  lemma OneMovePerAttempt(a: Authority, refs: Refs, objects: map<Sha, Commit>, events: seq<Event>, pid: nat)
    requires pid in Run(a, Start(refs, objects), events).brokers
    ensures var w := Run(a, Start(refs, objects), events);
      |Mine(w.log, pid)| == if w.brokers[pid].Accepted? then 1 else 0
  {
    RunKeeps(a, refs, objects, events);
    var w := Run(a, Start(refs, objects), events);
    var mine := Mine(w.log, pid);
    if w.brokers[pid].Accepted? {
      var i :| 0 <= i < |w.log| && w.log[i] == MoveOf(pid, w.brokers[pid]);
      assert mine == {i};
    } else {
      forall i | 0 <= i < |w.log|
        ensures w.log[i].author != Some(pid)
      {
        assert ByBroker(w, w.log[i]);
      }
      assert mine == {};
    }
  }

  /** The moves of one broker, by position. */
  function Mine(log: seq<Change>, pid: nat): set<nat> { set i: nat | i < |log| && log[i].author == Some(pid) }

  // ---------------------------------------------------------------- no concurrent update is lost

  ghost predicate IsLine(objects: map<Sha, Commit>, line: seq<Sha>) {
    line != [] && forall k | 0 <= k < |line| - 1 :: line[k] in objects && objects[line[k]].parent == Some(line[k + 1])
  }

  /** `old` is `new` or one of its first-parent ancestors. */
  ghost predicate Ancestor(objects: map<Sha, Commit>, early: Sha, late: Sha) {
    exists line :: IsLine(objects, line) && line[0] == late && line[|line| - 1] == early
  }

  lemma AncestorSelf(objects: map<Sha, Commit>, x: Sha)
    ensures Ancestor(objects, x, x)
  {
    assert IsLine(objects, [x]) && [x][0] == x;
  }

  lemma AncestorStep(objects: map<Sha, Commit>, early: Sha, late: Sha, child: Sha)
    requires Ancestor(objects, early, late) && child in objects && objects[child].parent == Some(late)
    ensures Ancestor(objects, early, child)
  {
    var line :| IsLine(objects, line) && line[0] == late && line[|line| - 1] == early;
    var longer := [child] + line;
    assert forall k | 0 < k < |longer| :: longer[k] == line[k - 1];
    assert IsLine(objects, longer) && longer[0] == child && longer[|longer| - 1] == early;
  }

  /** The value of a cell after the first `n` changes. */
  ghost function Held(refs: Refs, log: seq<Change>, n: nat, cell: string): Option<Sha>
    requires n <= |log|
  {
    Lookup(RefsAfter(refs, log, n).cells, cell)
  }

  /** Change `k` moves this cell, under whatever name. */
  ghost predicate Moves(refs: Refs, log: seq<Change>, k: nat, cell: string)
    requires k < |log|
  {
    log[k].Move? && Target(RefsAfter(refs, log, k), log[k].ref) == cell
  }

  /** From change `i` to change `n`, only brokers move the cell. */
  ghost predicate OnlyBrokers(refs: Refs, log: seq<Change>, i: nat, n: nat, cell: string) {
    i <= n <= |log| && forall k | i <= k < n :: Moves(refs, log, k, cell) ==> log[k].author.Some?
  }

  lemma MoveDescends(a: Authority, refs: Refs, w: World, k: nat)
    requires Inv(a, refs, w) && k < |w.log| && w.log[k].author.Some?
    ensures w.log[k].Move? && w.log[k].after.Some? && w.log[k].after.value in w.objects
    ensures w.objects[w.log[k].after.value].parent == w.log[k].before
  {
    assert ByBroker(w, w.log[k]);
    assert LocalOk(a, w.objects, w.brokers[w.log[k].author.value]);
  }

  /** A change that does not move the cell leaves its value; one that does replaces it. */
  lemma HeldStep(refs: Refs, log: seq<Change>, k: nat, cell: string)
    requires k < |log|
    ensures Held(refs, log, k + 1, cell) == if Moves(refs, log, k, cell) then log[k].after else Held(refs, log, k, cell)
    ensures Moves(refs, log, k, cell) && StartsAt(refs, log, k) ==> log[k].before == Held(refs, log, k, cell)
  {
  }

  lemma StepDescends(a: Authority, refs: Refs, w: World, k: nat, cell: string, early: Sha)
    requires Inv(a, refs, w) && k < |w.log| && (Moves(refs, w.log, k, cell) ==> w.log[k].author.Some?)
    requires Held(refs, w.log, k, cell).Some? && Ancestor(w.objects, early, Held(refs, w.log, k, cell).value)
    ensures Held(refs, w.log, k + 1, cell).Some? && Ancestor(w.objects, early, Held(refs, w.log, k + 1, cell).value)
  {
    assert StartsAt(refs, w.log, k);
    HeldStep(refs, w.log, k, cell);
    if Moves(refs, w.log, k, cell) {
      MoveDescends(a, refs, w, k);
      AncestorStep(w.objects, early, w.log[k].before.value, w.log[k].after.value);
    }
  }

  lemma {:induction false} ValueDescends(a: Authority, refs: Refs, w: World, i: nat, n: nat, cell: string)
    requires Inv(a, refs, w) && OnlyBrokers(refs, w.log, i, n, cell) && Held(refs, w.log, i, cell).Some?
    ensures var now := Held(refs, w.log, n, cell);
      now.Some? && Ancestor(w.objects, Held(refs, w.log, i, cell).value, now.value)
    decreases n
  {
    if n == i {
      AncestorSelf(w.objects, Held(refs, w.log, i, cell).value);
    } else {
      ValueDescends(a, refs, w, i, n - 1, cell);
      StepDescends(a, refs, w, n - 1, cell, Held(refs, w.log, i, cell).value);
    }
  }

  /**
   * While only brokers move a ref, under its own name or a symbolic one, every value it ever had, the one at the start
   * of the run included, stays in the first-parent history of its current value.
   */
  lemma NoUpdateIsLost(a: Authority, refs: Refs, objects: map<Sha, Commit>, events: seq<Event>, i: nat, cell: string)
    requires var w := Run(a, Start(refs, objects), events);
      OnlyBrokers(refs, w.log, i, |w.log|, cell) && Held(refs, w.log, i, cell).Some?
    ensures var w := Run(a, Start(refs, objects), events);
      cell in w.refs.cells && Ancestor(w.objects, Held(refs, w.log, i, cell).value, w.refs.cells[cell])
    ensures Held(refs, Run(a, Start(refs, objects), events).log, 0, cell) == Lookup(refs.cells, cell)
  {
    RunKeeps(a, refs, objects, events);
    var w := Run(a, Start(refs, objects), events);
    ValueDescends(a, refs, w, i, |w.log|, cell);
  }
}
