/** Authenticating a gate receipt against a key ring, and the owner-approved policy pin. */
module Receipts {
  import opened Text

  datatype Body = Body(
    candidateTreeId: string, trustedPolicyDigest: string, executionBoundaryDigest: string,
    blocking: nat, invocation: string, parentSha: Option<string>, approvedPolicyDigest: Option<string>,
    resealed: bool, verifierKeyId: Option<string>, rest: string)

  datatype Receipt = Receipt(body: Body, mac: string)

  datatype Key = Key(keyId: string, key: string)

  /** What the authority was started with, and the functions of other packages it relies on. */
  datatype Authority = Authority(
    keyring: Option<seq<Key>>,
    boundary: string,
    parse: string -> Option<Receipt>,
    signs: (string, Body, string) -> bool)

  /** The bindings a receipt must have for one use. */
  datatype Expected = Expected(tree: string, policy: string, boundary: string)

  datatype Rejection = Malformed | MacFail | PolicyMismatch | TreeMismatch | BoundaryMismatch | NotClean
                     | KeyUnknown | KeyMismatch

  // ---------------------------------------------------------------- one key

  /** Everything but the signature. */
  function Bindings(r: Receipt, x: Expected): Result<Receipt, Rejection> {
    if r.body.trustedPolicyDigest != x.policy then Err(PolicyMismatch)
    else if r.body.candidateTreeId != x.tree then Err(TreeMismatch)
    else if r.body.executionBoundaryDigest != x.boundary then Err(BoundaryMismatch)
    else if r.body.blocking != 0 then Err(NotClean)
    else Ok(r)
  }

  function VerifyWith(a: Authority, key: string, r: Receipt, x: Expected): Result<Receipt, Rejection> {
    if key == "" || !a.signs(key, r.body, r.mac) then Err(MacFail) else Bindings(r, x)
  }

  predicate Signs(a: Authority, k: Key, r: Receipt) { k.key != "" && a.signs(k.key, r.body, r.mac) }

  ghost predicate SomeSigns(a: Authority, ring: seq<Key>, r: Receipt) { exists k :: k in ring && Signs(a, k, r) }

  predicate InRing(ring: seq<Key>, id: string) { exists k :: k in ring && k.keyId == id }

  function Find(ring: seq<Key>, id: string): Key
    requires InRing(ring, id)
  {
    if ring[0].keyId == id then ring[0] else Find(ring[1..], id)
  }

  /**
   * The key ring's verdict, without loops: a named key of the ring must sign itself; a receipt that names no key, or
   * one the ring does not have, may be signed by any key of the ring.
   */
  ghost function Verdict(a: Authority, ring: seq<Key>, candidate: string, x: Expected): Result<Receipt, Rejection> {
    match a.parse(candidate)
    case None => Err(Malformed)
    case Some(r) =>
      match r.body.verifierKeyId
      case Some(id) =>
        if InRing(ring, id) then (if Signs(a, Find(ring, id), r) then Bindings(r, x) else Err(KeyMismatch))
        else if SomeSigns(a, ring, r) then Bindings(r, x)
        else Err(KeyUnknown)
      case None => if SomeSigns(a, ring, r) then Bindings(r, x) else Err(KeyMismatch)
  }

  /** The first verification that does not fail on the signature. */
  method FirstAuthentic(a: Authority, ring: seq<Key>, r: Receipt, x: Expected)
    returns (result: Option<Result<Receipt, Rejection>>)
    ensures result == if SomeSigns(a, ring, r) then Some(Bindings(r, x)) else None
  {
    for i := 0 to |ring|
      invariant forall k | 0 <= k < i :: !Signs(a, ring[k], r)
    {
      var verified := VerifyWith(a, ring[i].key, r, x);
      if verified.Ok? || verified.error != MacFail {
        assert ring[i] in ring && Signs(a, ring[i], r);
        return Some(verified);
      }
    }
    return None;
  }

  method SelectKey(ring: seq<Key>, id: string) returns (selected: Option<Key>)
    ensures selected.Some? <==> InRing(ring, id)
    ensures selected.Some? ==> selected.value == Find(ring, id)
  {
    for i := 0 to |ring|
      invariant forall k | 0 <= k < i :: ring[k].keyId != id
    {
      if ring[i].keyId == id {
        FindsFirst(ring, id, i);
        return Some(ring[i]);
      }
    }
    return None;
  }

  lemma {:induction false} FindsFirst(ring: seq<Key>, id: string, i: nat)
    requires i < |ring| && ring[i].keyId == id
    requires forall k | 0 <= k < i :: ring[k].keyId != id
    ensures InRing(ring, id) && Find(ring, id) == ring[i]
  {
    assert ring[i] in ring;
    if i > 0 {
      FindsFirst(ring[1..], id, i - 1);
    }
  }

  method VerifyWithKeyring(a: Authority, ring: seq<Key>, candidate: string, x: Expected)
    returns (result: Result<Receipt, Rejection>)
    ensures result == Verdict(a, ring, candidate, x)
  {
    var parsed := a.parse(candidate);
    if parsed.None? { return Err(Malformed); }
    var r := parsed.value;
    if r.body.verifierKeyId.Some? {
      var selected := SelectKey(ring, r.body.verifierKeyId.value);
      if selected.None? {
        var any := FirstAuthentic(a, ring, r, x);
        if any.Some? { return any.value; }
        return Err(KeyUnknown);
      }
      var verified := VerifyWith(a, selected.value.key, r, x);
      if verified.Ok? || verified.error != MacFail { return verified; }
      return Err(KeyMismatch);
    }
    var any := FirstAuthentic(a, ring, r, x);
    if any.Some? { return any.value; }
    return Err(KeyMismatch);
  }

  // ---------------------------------------------------------------- which receipts are accepted

  /** Key number `i` of the ring makes the receipt's signature. */
  ghost predicate SignedBy(a: Authority, ring: seq<Key>, r: Receipt, i: nat) {
    i < |ring| && ring[i].key != "" && a.signs(ring[i].key, r.body, r.mac)
  }

  /** The receipt names the ring's key number `i`: the first one with that id. */
  ghost predicate NamesKey(ring: seq<Key>, r: Receipt, i: nat) {
    && i < |ring| && r.body.verifierKeyId == Some(ring[i].keyId)
    && forall j | 0 <= j < i :: ring[j].keyId != ring[i].keyId
  }

  /** The receipt names a key the ring does not have, or none at all. */
  ghost predicate NamesNoKey(ring: seq<Key>, r: Receipt) {
    forall j | 0 <= j < |ring| :: r.body.verifierKeyId != Some(ring[j].keyId)
  }

  /** A named key of the ring must sign; a receipt that names none of them may be signed by any. */
  ghost predicate Authentic(a: Authority, ring: seq<Key>, r: Receipt) {
    exists i: nat :: SignedBy(a, ring, r, i) && (NamesKey(ring, r, i) || NamesNoKey(ring, r))
  }

  lemma {:induction false} FoundIsFirst(ring: seq<Key>, id: string) returns (i: nat)
    requires InRing(ring, id)
    ensures i < |ring| && Find(ring, id) == ring[i] && ring[i].keyId == id
    ensures forall j | 0 <= j < i :: ring[j].keyId != id
  {
    if ring[0].keyId == id {
      i := 0;
    } else {
      var k := FoundIsFirst(ring[1..], id);
      i := k + 1;
      assert forall j | 1 <= j < i :: ring[j] == ring[1..][j - 1];
    }
  }

  lemma SomeSignsAt(a: Authority, ring: seq<Key>, r: Receipt)
    ensures SomeSigns(a, ring, r) <==> exists i: nat :: SignedBy(a, ring, r, i)
  {
    if SomeSigns(a, ring, r) {
      var k :| k in ring && Signs(a, k, r);
      var i :| 0 <= i < |ring| && ring[i] == k;
      assert SignedBy(a, ring, r, i);
    }
    if i: nat :| SignedBy(a, ring, r, i) {
      assert ring[i] in ring && Signs(a, ring[i], r);
    }
  }

  /** What the ring decides about the signature, by positions. */
  lemma RingDecides(a: Authority, ring: seq<Key>, r: Receipt)
    ensures r.body.verifierKeyId.Some? && InRing(ring, r.body.verifierKeyId.value) ==>
              (Authentic(a, ring, r) <==> Signs(a, Find(ring, r.body.verifierKeyId.value), r))
    ensures r.body.verifierKeyId.Some? ==> (NamesNoKey(ring, r) <==> !InRing(ring, r.body.verifierKeyId.value))
    ensures NamesNoKey(ring, r) ==> (Authentic(a, ring, r) <==> SomeSigns(a, ring, r))
  {
    SomeSignsAt(a, ring, r);
    if r.body.verifierKeyId.Some? && InRing(ring, r.body.verifierKeyId.value) {
      var i := FoundIsFirst(ring, r.body.verifierKeyId.value);
      assert NamesKey(ring, r, i);
      if k: nat :| SignedBy(a, ring, r, k) && NamesKey(ring, r, k) {
        assert k == i;
      }
      assert Signs(a, ring[i], r) <==> SignedBy(a, ring, r, i);
    }
  }

  /** Exactly which receipts are accepted: parsed, authentic, bound to this tree, policy and boundary, and clean. */
  lemma AcceptedIff(a: Authority, ring: seq<Key>, candidate: string, x: Expected, r: Receipt)
    ensures Verdict(a, ring, candidate, x) == Ok(r) <==>
            && a.parse(candidate) == Some(r)
            && Authentic(a, ring, r)
            && r.body.candidateTreeId == x.tree && r.body.trustedPolicyDigest == x.policy
            && r.body.executionBoundaryDigest == x.boundary && r.body.blocking == 0
  {
    if a.parse(candidate).Some? {
      RingDecides(a, ring, a.parse(candidate).value);
    }
  }

  /** Exactly why a receipt is refused: the signature first, then policy, tree, boundary and outcome. */
  lemma RefusedBecause(a: Authority, ring: seq<Key>, candidate: string, x: Expected)
    ensures Verdict(a, ring, candidate, x) == Err(Malformed) <==> a.parse(candidate).None?
    ensures a.parse(candidate).Some? ==>
      var r := a.parse(candidate).value;
      var v := Verdict(a, ring, candidate, x);
      && (v == Err(KeyUnknown) <==>
            !Authentic(a, ring, r) && r.body.verifierKeyId.Some? && NamesNoKey(ring, r))
      && (v == Err(KeyMismatch) <==>
            !Authentic(a, ring, r) && (r.body.verifierKeyId.None? || !NamesNoKey(ring, r)))
      && (v == Err(PolicyMismatch) <==> Authentic(a, ring, r) && r.body.trustedPolicyDigest != x.policy)
      && (v == Err(TreeMismatch) <==>
            Authentic(a, ring, r) && r.body.trustedPolicyDigest == x.policy && r.body.candidateTreeId != x.tree)
      && (v == Err(BoundaryMismatch) <==>
            && Authentic(a, ring, r) && r.body.trustedPolicyDigest == x.policy && r.body.candidateTreeId == x.tree
            && r.body.executionBoundaryDigest != x.boundary)
      && (v == Err(NotClean) <==>
            && Authentic(a, ring, r) && r.body.trustedPolicyDigest == x.policy && r.body.candidateTreeId == x.tree
            && r.body.executionBoundaryDigest == x.boundary && r.body.blocking != 0)
  {
    if a.parse(candidate).Some? {
      RingDecides(a, ring, a.parse(candidate).value);
    }
  }

  // ---------------------------------------------------------------- the approved policy

  /** Where the owner's pin stands: readable (perhaps absent), unusable, or in the candidate's own hands. */
  datatype Resolution = Readable(digest: Option<string>) | Unusable | CandidateControlled

  datatype Gate = Enforced(approved: string) | Unenforced | Blocked

  predicate IsDigest(s: string) { |s| == 64 && forall c | c in s :: '0' <= c <= '9' || 'a' <= c <= 'f' }

  /** The candidate's policy is the approved revision, both of them well-formed. */
  predicate SameRevision(approved: string, candidate: string) {
    IsDigest(approved) && IsDigest(candidate) && approved == candidate
  }

  method EvaluateApprovedPolicy(resolution: Resolution, candidate: string, strict: bool) returns (gate: Gate)
    ensures gate == GateFor(resolution, candidate, strict)
  {
    if !resolution.Readable? {
      if !strict { return Unenforced; }
      return Blocked;
    }
    if resolution.digest.None? {
      if !strict { return Unenforced; }
      return Blocked;
    }
    if !IsDigest(resolution.digest.value) || !IsDigest(candidate) || resolution.digest.value != candidate {
      return Blocked;
    }
    return Enforced(resolution.digest.value);
  }

  function GateFor(resolution: Resolution, candidate: string, strict: bool): Gate {
    match resolution
    case Readable(Some(approved)) => if SameRevision(approved, candidate) then Enforced(approved) else Blocked
    case _ => if strict then Blocked else Unenforced
  }

  /** A 64-digit lower-case hexadecimal digest. */
  ghost predicate WellFormed(digest: string) {
    |digest| == 64 && forall i | 0 <= i < 64 :: ('0' <= digest[i] <= '9') || ('a' <= digest[i] <= 'f')
  }

  /**
   * A pin that can be read binds every commit, strict or not: it must be the candidate's own well-formed policy digest.
   * Without a readable pin strict surfaces are blocked and the others pass unenforced.
   */
  lemma PinBinds(resolution: Resolution, candidate: string, strict: bool)
    ensures var gate := GateFor(resolution, candidate, strict);
      if resolution.Readable? && resolution.digest.Some?
      then
        gate == if resolution.digest.value == candidate && WellFormed(candidate) then Enforced(candidate) else Blocked
      else gate == if strict then Blocked else Unenforced
  {
    if IsDigest(candidate) {
      assert forall i | 0 <= i < 64 :: candidate[i] in candidate;
    }
  }
}
