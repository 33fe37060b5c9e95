/** Which witnessed records keep their tier: one authenticated envelope must name run and record together. */
module EvidenceAuth {
  import opened Text

  /** An untrusted JSON value; `Null` stands for absent values too. */
  datatype Json = Null | Value(text: string)

  datatype Trust = Witnessed | TrustClaimed | OtherTrust

  datatype Record = NotAnObject(value: Json)
                  | Object(trust: Trust, recordId: Option<string>, runId: Option<string>, rest: Json)

  /** The fields the witness signs together. */
  datatype Body = Body(runId: string, invocationId: string, inputDigest: string, recordIds: seq<string>)

  datatype Attestation = Attestation(body: Body, mac: string)

  /** A re-seal's contributor: the envelope and the context it was bound to. */
  datatype Carried = Carried(attestation: Json, runId: string, inputDigest: string, recordIds: seq<string>)

  /** The run manifest in the state directory; `attestation` is `None` when the field is missing. */
  datatype Manifest = NoManifest | Manifest(runId: Option<string>, attestation: Option<Json>, legacy: bool)

  datatype Rejection = Missing | Malformed | MacFail | DigestMismatch | InvocationMismatch | ManifestRunMismatch

  datatype Blocker = InputsChanged | SnapshotUnavailable
                   | DurableRejected(why: Rejection) | LiveRejected(why: Rejection)
                   | NoVerifierKey | NoEnvelope

  datatype Context = Context(
    verifierKeys: seq<string>,
    verifierKey: Option<string>,
    manifest: Manifest,
    live: Json,
    carried: seq<Carried>,
    expectedInputDigest: Option<string>,
    snapshotUnavailable: bool,
    expectedInvocationId: Option<string>,
    requireInvocationId: bool,
    changedInputs: bool,
    parse: Json -> Option<Attestation>,
    verifyMac: (string, Body, string) -> bool)

  function NonEmpty(s: Option<string>): Option<string> { if s == Some("") then None else s }

  /** Configured keys, each tried once. */
  function Keys(ctx: Context): set<string> {
    (set k | k in ctx.verifierKeys) + (match NonEmpty(ctx.verifierKey) case None => {} case Some(k) => {k})
  }

  ghost predicate Verifies(ctx: Context, body: Body, mac: string) {
    exists k :: k in Keys(ctx) && ctx.verifyMac(k, body, mac)
  }

  // ---------------------------------------------------------------- one envelope

  /** The durable or live envelope is checked against this run's own context. */
  ghost function Check(ctx: Context, candidate: Json, manifestRunId: Option<string>): Result<Body, Rejection> {
    if candidate == Null then Err(Missing)
    else if NonEmpty(ctx.expectedInputDigest) == None || ctx.changedInputs then Err(DigestMismatch)
    else
      match ctx.parse(candidate)
      case None => Err(Malformed)
      case Some(a) =>
        if !Verifies(ctx, a.body, a.mac) then Err(MacFail)
        else if Some(a.body.inputDigest) != NonEmpty(ctx.expectedInputDigest) then Err(DigestMismatch)
        else if ctx.requireInvocationId && NonEmpty(ctx.expectedInvocationId) != None
                && Some(a.body.invocationId) != NonEmpty(ctx.expectedInvocationId) then Err(InvocationMismatch)
        else if NonEmpty(manifestRunId) != None && Some(a.body.runId) != NonEmpty(manifestRunId)
        then Err(ManifestRunMismatch)
        else Ok(a.body)
  }

  /** The body a carried envelope authorizes: the bound run, digest and ids, under the envelope's invocation. */
  function BoundBody(c: Carried, a: Attestation): Body {
    Body(c.runId, a.body.invocationId, c.inputDigest, c.recordIds)
  }

  ghost function CheckCarried(ctx: Context, c: Carried): Option<Body> {
    match ctx.parse(c.attestation)
    case None => None
    case Some(a) =>
      if Verifies(ctx, BoundBody(c, a), a.mac) && a.body.runId == c.runId && a.body.inputDigest == c.inputDigest
      then Some(BoundBody(c, a))
      else None
  }

  /** The durable channel: nothing, an accepted envelope or a rejection. */
  ghost function Durable(ctx: Context): Option<Result<Body, Rejection>> {
    match ctx.manifest
    case NoManifest => None
    case Manifest(runId, Some(attestation), _) => Some(Check(ctx, attestation, runId))
    case Manifest(_, None, legacy) => if legacy then Some(Err(Malformed)) else None
  }

  ghost function Live(ctx: Context): Option<Result<Body, Rejection>> {
    if ctx.live == Null then None else Some(Check(ctx, ctx.live, None))
  }

  /** An envelope that passed every check of its own channel. */
  ghost predicate Accepted(ctx: Context, body: Body) {
    || Durable(ctx) == Some(Ok(body))
    || Live(ctx) == Some(Ok(body))
    || exists c :: c in ctx.carried && CheckCarried(ctx, c) == Some(body)
  }

  predicate IsHex(c: char) { '0' <= c <= '9' || 'a' <= c <= 'f' }

  predicate IsIssuedId(id: string) { |id| == 64 && forall c | c in id :: IsHex(c) }

  ghost predicate Names(body: Body, r: Record)
    requires r.Object?
  {
    r.runId == Some(body.runId) && r.recordId.Some? && r.recordId.value in body.recordIds
  }

  predicate IsWitnessed(r: Record) { r.Object? && r.trust == Witnessed }

  /** The record arrived witnessed, has an issued id, and ONE accepted envelope names its run and its id. */
  ghost predicate Proven(ctx: Context, r: Record) {
    && IsWitnessed(r) && r.recordId.Some? && IsIssuedId(r.recordId.value)
    && exists body :: Accepted(ctx, body) && Names(body, r)
  }

  ghost function Graded(ctx: Context, r: Record): Record {
    if IsWitnessed(r) && !Proven(ctx, r) then r.(trust := TrustClaimed) else r
  }

  ghost function AuthorizedRecords(ctx: Context, records: seq<Record>): seq<Record> {
    seq(|records|, i requires 0 <= i < |records| => Graded(ctx, records[i]))
  }

  ghost predicate AnyWitnessed(records: seq<Record>) { exists r :: r in records && IsWitnessed(r) }

  ghost predicate AnyAccepted(ctx: Context) { exists body :: Accepted(ctx, body) }

  ghost function Blockers(ctx: Context, records: seq<Record>): seq<Blocker> {
    (if ctx.changedInputs then [InputsChanged] else [])
    + (if ctx.snapshotUnavailable && (AnyWitnessed(records) || ctx.changedInputs) then [SnapshotUnavailable] else [])
    + (if !ctx.changedInputs && Durable(ctx).Some? && Durable(ctx).value.Err?
       then [DurableRejected(Durable(ctx).value.error)] else [])
    + (if !ctx.changedInputs && Live(ctx).Some? && Live(ctx).value.Err? && !AnyAccepted(ctx)
       then [LiveRejected(Live(ctx).value.error)] else [])
    + (if AnyWitnessed(records) && !AnyAccepted(ctx) && Durable(ctx) == None && Live(ctx) == None
       then [if Keys(ctx) == {} then NoVerifierKey else NoEnvelope] else [])
  }

  // ---------------------------------------------------------------- the procedure

  method VerifierKeys(ctx: Context) returns (keys: seq<string>)
    ensures (set k | k in keys) == Keys(ctx)
    ensures forall i, j | 0 <= i < j < |keys| :: keys[i] != keys[j]
  {
    var all := ctx.verifierKeys + (match NonEmpty(ctx.verifierKey) case None => [] case Some(k) => [k]);
    keys := [];
    for i := 0 to |all|
      invariant forall k :: k in keys <==> k in all[..i]
      invariant forall i, j | 0 <= i < j < |keys| :: keys[i] != keys[j]
    {
      assert all[..i + 1] == all[..i] + [all[i]];
      if all[i] !in keys { keys := keys + [all[i]]; }
    }
    assert all[..|all|] == all;
  }

  method SomeKeyVerifies(ctx: Context, keys: seq<string>, body: Body, mac: string) returns (ok: bool)
    requires (set k | k in keys) == Keys(ctx)
    ensures ok <==> Verifies(ctx, body, mac)
  {
    for i := 0 to |keys|
      invariant forall j | 0 <= j < i :: !ctx.verifyMac(keys[j], body, mac)
    {
      if ctx.verifyMac(keys[i], body, mac) {
        assert keys[i] in Keys(ctx);
        return true;
      }
    }
    assert forall k | k in Keys(ctx) :: k in keys;
    return false;
  }

  method ValidateEnvelope(ctx: Context, keys: seq<string>, candidate: Json, manifestRunId: Option<string>)
    returns (r: Result<Body, Rejection>)
    requires (set k | k in keys) == Keys(ctx)
    ensures r == Check(ctx, candidate, manifestRunId)
  {
    if candidate == Null { return Err(Missing); }
    var expectedDigest := NonEmpty(ctx.expectedInputDigest);
    if expectedDigest == None || ctx.changedInputs { return Err(DigestMismatch); }
    var parsed := ctx.parse(candidate);
    if parsed.None? { return Err(Malformed); }
    var envelope := parsed.value;
    if keys == [] { return Err(MacFail); }
    var macOk := SomeKeyVerifies(ctx, keys, envelope.body, envelope.mac);
    if !macOk { return Err(MacFail); }
    if envelope.body.inputDigest != expectedDigest.value { return Err(DigestMismatch); }
    var expectedInvocation := NonEmpty(ctx.expectedInvocationId);
    if ctx.requireInvocationId && expectedInvocation.Some? && envelope.body.invocationId != expectedInvocation.value {
      return Err(InvocationMismatch);
    }
    if NonEmpty(manifestRunId).Some? && NonEmpty(manifestRunId).value != envelope.body.runId {
      return Err(ManifestRunMismatch);
    }
    return Ok(envelope.body);
  }

  method ValidateCarried(ctx: Context, keys: seq<string>, envelopes0: seq<Body>) returns (envelopes: seq<Body>)
    requires (set k | k in keys) == Keys(ctx)
    ensures forall b :: b in envelopes <==>
              b in envelopes0 || exists c :: c in ctx.carried && CheckCarried(ctx, c) == Some(b)
  {
    envelopes := envelopes0;
    for i := 0 to |ctx.carried|
      invariant forall b :: b in envelopes <==>
                  b in envelopes0 || exists k :: 0 <= k < i && CheckCarried(ctx, ctx.carried[k]) == Some(b)
    {
      if keys == [] { break; }
      var carried := ctx.carried[i];
      var parsed := ctx.parse(carried.attestation);
      if parsed.Some? {
        var envelope := parsed.value;
        var macOk := SomeKeyVerifies(ctx, keys, BoundBody(carried, envelope), envelope.mac);
        if macOk && envelope.body.runId == carried.runId && envelope.body.inputDigest == carried.inputDigest {
          envelopes := envelopes + [BoundBody(carried, envelope)];
        }
      }
    }
  }

  method CollectEnvelopes(ctx: Context, keys: seq<string>)
    returns (envelopes: seq<Body>, durablePresent: bool, durableRejection: Option<Rejection>,
             liveRejection: Option<Rejection>)
    requires (set k | k in keys) == Keys(ctx)
    ensures forall b :: b in envelopes <==> Accepted(ctx, b)
    ensures durablePresent <==> Durable(ctx).Some?
    ensures durableRejection == match Durable(ctx) case Some(Err(e)) => Some(e) case _ => None
    ensures liveRejection == match Live(ctx) case Some(Err(e)) => Some(e) case _ => None
  {
    envelopes, durablePresent, durableRejection, liveRejection := [], false, None, None;
    if ctx.manifest.Manifest? {
      if ctx.manifest.attestation.Some? {
        durablePresent := true;
        var result := ValidateEnvelope(ctx, keys, ctx.manifest.attestation.value, ctx.manifest.runId);
        if result.Ok? { envelopes := [result.value]; } else { durableRejection := Some(result.error); }
      } else if ctx.manifest.legacy {
        durablePresent, durableRejection := true, Some(Malformed);
      }
    }
    if ctx.live != Null {
      var result := ValidateEnvelope(ctx, keys, ctx.live, None);
      if result.Ok? { envelopes := envelopes + [result.value]; } else { liveRejection := Some(result.error); }
    }
    envelopes := ValidateCarried(ctx, keys, envelopes);
  }

  method IsProven(ctx: Context, envelopes: seq<Body>, r: Record) returns (proven: bool)
    requires forall b :: b in envelopes <==> Accepted(ctx, b)
    requires IsWitnessed(r)
    ensures proven <==> Proven(ctx, r)
  {
    if r.recordId.None? || !IsIssuedId(r.recordId.value) { return false; }
    for i := 0 to |envelopes|
      invariant forall k | 0 <= k < i :: !Names(envelopes[k], r)
    {
      var envelope := envelopes[i];
      if r.runId == Some(envelope.runId) && r.recordId.value in envelope.recordIds {
        assert Accepted(ctx, envelope) && Names(envelope, r);
        return true;
      }
    }
    return false;
  }

  method Demote(ctx: Context, envelopes: seq<Body>, records: seq<Record>) returns (demoted: seq<Record>)
    requires forall b :: b in envelopes <==> Accepted(ctx, b)
    ensures demoted == AuthorizedRecords(ctx, records)
  {
    demoted := [];
    for i := 0 to |records|
      invariant demoted == AuthorizedRecords(ctx, records[..i])
    {
      var record := records[i];
      var kept := record;
      if IsWitnessed(record) {
        var proven := IsProven(ctx, envelopes, record);
        if !proven { kept := record.(trust := TrustClaimed); }
      }
      assert kept == Graded(ctx, record);
      demoted := demoted + [kept];
    }
    assert records[..|records|] == records;
  }

  method CountWitnessed(records: seq<Record>) returns (n: nat)
    ensures n > 0 <==> AnyWitnessed(records)
  {
    n := 0;
    for i := 0 to |records|
      invariant n > 0 <==> exists k :: 0 <= k < i && IsWitnessed(records[k])
    {
      if IsWitnessed(records[i]) { n := n + 1; }
    }
  }

  method AuthorizeRecords(ctx: Context, records: seq<Record>) returns (demoted: seq<Record>, blocking: seq<Blocker>)
    ensures |demoted| == |records|
    ensures forall i | 0 <= i < |records| ::
              || demoted[i] == records[i]
              || (IsWitnessed(records[i]) && demoted[i] == records[i].(trust := TrustClaimed))
    ensures forall i | 0 <= i < |records| :: IsWitnessed(demoted[i]) <==> Proven(ctx, records[i])
    ensures demoted == AuthorizedRecords(ctx, records)
    ensures blocking == Blockers(ctx, records)
  {
    var keys := VerifierKeys(ctx);
    assert keys == [] <==> Keys(ctx) == {} by {
      assert forall k :: k in Keys(ctx) <==> k in keys;
      assert keys != [] ==> keys[0] in Keys(ctx);
    }
    var witnessedCount := CountWitnessed(records);
    blocking := [];
    if ctx.changedInputs { blocking := blocking + [InputsChanged]; }
    if ctx.snapshotUnavailable && (witnessedCount > 0 || ctx.changedInputs) {
      blocking := blocking + [SnapshotUnavailable];
    }
    var envelopes, durablePresent, durableRejection, liveRejection := CollectEnvelopes(ctx, keys);
    assert AnyAccepted(ctx) <==> envelopes != [] by {
      if envelopes != [] { assert Accepted(ctx, envelopes[0]); }
    }
    if !ctx.changedInputs {
      if durablePresent && durableRejection.Some? { blocking := blocking + [DurableRejected(durableRejection.value)]; }
      if liveRejection.Some? && |envelopes| == 0 { blocking := blocking + [LiveRejected(liveRejection.value)]; }
    }
    if witnessedCount > 0 && |envelopes| == 0 && !durablePresent && ctx.live == Null {
      blocking := blocking + [if keys == [] then NoVerifierKey else NoEnvelope];
    }
    demoted := Demote(ctx, envelopes, records);
  }

  // ---------------------------------------------------------------- over the fields

  /** A configured key verifies the MAC over the four fields. */
  ghost predicate SignedByKey(ctx: Context, body: Body, mac: string) {
    exists k :: (k in ctx.verifierKeys || (ctx.verifierKey == Some(k) && k != "")) && ctx.verifyMac(k, body, mac)
  }

  /** The value is not set, set to nothing, or is this one. */
  ghost predicate Allows(pin: Option<string>, value: string) { pin.None? || pin.value == "" || pin.value == value }

  /** The run's own envelope: signed, for the expected inputs and (if asked) invocation, and for the manifest's run. */
  ghost predicate OwnEnvelope(ctx: Context, candidate: Json, runPin: Option<string>, body: Body) {
    && candidate != Null && !ctx.changedInputs
    && ctx.parse(candidate).Some? && ctx.parse(candidate).value.body == body
    && SignedByKey(ctx, body, ctx.parse(candidate).value.mac)
    && ctx.expectedInputDigest == Some(body.inputDigest) && body.inputDigest != ""
    && (ctx.requireInvocationId ==> Allows(ctx.expectedInvocationId, body.invocationId))
    && Allows(runPin, body.runId)
  }

  /** A contributor's envelope: signed over the run, inputs and records the contributor is bound to. */
  ghost predicate CarriedEnvelope(ctx: Context, c: Carried, body: Body) {
    && ctx.parse(c.attestation).Some?
    && var a := ctx.parse(c.attestation).value;
    && body == Body(c.runId, a.body.invocationId, c.inputDigest, c.recordIds)
    && SignedByKey(ctx, body, a.mac)
    && a.body.runId == c.runId && a.body.inputDigest == c.inputDigest
  }

  /** An envelope of the manifest, the live channel or a contributor. */
  ghost predicate Envelope(ctx: Context, body: Body) {
    || (ctx.manifest.Manifest? && ctx.manifest.attestation.Some?
        && OwnEnvelope(ctx, ctx.manifest.attestation.value, ctx.manifest.runId, body))
    || OwnEnvelope(ctx, ctx.live, None, body)
    || exists i :: 0 <= i < |ctx.carried| && CarriedEnvelope(ctx, ctx.carried[i], body)
  }

  lemma VerifiesIs(ctx: Context, body: Body, mac: string)
    ensures Verifies(ctx, body, mac) <==> SignedByKey(ctx, body, mac)
  {
    assert forall k :: k in Keys(ctx) <==> k in ctx.verifierKeys || (ctx.verifierKey == Some(k) && k != "");
  }

  lemma CheckIs(ctx: Context, candidate: Json, runPin: Option<string>, body: Body)
    ensures Check(ctx, candidate, runPin) == Ok(body) <==> OwnEnvelope(ctx, candidate, runPin, body)
  {
    if ctx.parse(candidate).Some? {
      VerifiesIs(ctx, ctx.parse(candidate).value.body, ctx.parse(candidate).value.mac);
    }
  }

  lemma CheckCarriedIs(ctx: Context, c: Carried, body: Body)
    ensures CheckCarried(ctx, c) == Some(body) <==> CarriedEnvelope(ctx, c, body)
  {
    if ctx.parse(c.attestation).Some? {
      var a := ctx.parse(c.attestation).value;
      VerifiesIs(ctx, BoundBody(c, a), a.mac);
    }
  }

  lemma AcceptedIs(ctx: Context, body: Body)
    ensures Accepted(ctx, body) <==> Envelope(ctx, body)
  {
    CheckIs(ctx, ctx.live, None, body);
    if ctx.manifest.Manifest? && ctx.manifest.attestation.Some? {
      CheckIs(ctx, ctx.manifest.attestation.value, ctx.manifest.runId, body);
    }
    forall c
      ensures CheckCarried(ctx, c) == Some(body) <==> CarriedEnvelope(ctx, c, body)
    {
      CheckCarriedIs(ctx, c, body);
    }
    if c :| c in ctx.carried && CarriedEnvelope(ctx, c, body) {
      var i :| 0 <= i < |ctx.carried| && ctx.carried[i] == c;
      assert CarriedEnvelope(ctx, ctx.carried[i], body);
    }
  }

  /** 64 lower-case hexadecimal digits. */
  ghost predicate IsHash(id: string) {
    |id| == 64 && forall i | 0 <= i < 64 :: ('0' <= id[i] <= '9') || ('a' <= id[i] <= 'f')
  }

  /**
   * Exactly which records stay witnessed, over the fields of the record, the envelopes and the run: the record arrived
   * witnessed with an issued id, and one envelope that is signed by a configured key, for the expected inputs, the
   * required invocation and the manifest's run (or bound so by its contributor), names both its run and its id.
   */
  lemma StaysWitnessed(ctx: Context, r: Record)
    ensures Proven(ctx, r) <==>
            && r.Object? && r.trust == Witnessed && r.recordId.Some? && IsHash(r.recordId.value)
            && exists body :: Envelope(ctx, body) && r.runId == Some(body.runId) && r.recordId.value in body.recordIds
  {
    forall body
      ensures Accepted(ctx, body) <==> Envelope(ctx, body)
    {
      AcceptedIs(ctx, body);
    }
    if r.Object? && r.recordId.Some? {
      var id := r.recordId.value;
      assert IsIssuedId(id) ==> forall i | 0 <= i < |id| :: id[i] in id;
    }
  }

  /** Why the run's own envelope is rejected: exactly the first of these that fails. */
  lemma RejectedBecause(ctx: Context, candidate: Json, runPin: Option<string>)
    ensures var v := Check(ctx, candidate, runPin);
      var digestKnown := ctx.expectedInputDigest.Some? && ctx.expectedInputDigest.value != "" && !ctx.changedInputs;
      if candidate == Null then v == Err(Missing)
      else if !digestKnown then v == Err(DigestMismatch)
      else if ctx.parse(candidate).None? then v == Err(Malformed)
      else
        var a := ctx.parse(candidate).value;
        if !SignedByKey(ctx, a.body, a.mac) then v == Err(MacFail)
        else if a.body.inputDigest != ctx.expectedInputDigest.value then v == Err(DigestMismatch)
        else if ctx.requireInvocationId && !Allows(ctx.expectedInvocationId, a.body.invocationId)
        then v == Err(InvocationMismatch)
        else if !Allows(runPin, a.body.runId) then v == Err(ManifestRunMismatch)
        else v == Ok(a.body)
  {
    if ctx.parse(candidate).Some? {
      VerifiesIs(ctx, ctx.parse(candidate).value.body, ctx.parse(candidate).value.mac);
    }
  }

  ghost predicate HasWitnessed(records: seq<Record>) {
    exists i :: 0 <= i < |records| && records[i].Object? && records[i].trust == Witnessed
  }

  ghost predicate HasEnvelope(ctx: Context) { exists body :: Envelope(ctx, body) }

  lemma HasIs(ctx: Context, records: seq<Record>)
    ensures AnyWitnessed(records) <==> HasWitnessed(records)
    ensures AnyAccepted(ctx) <==> HasEnvelope(ctx)
  {
    if r :| r in records && IsWitnessed(r) {
      var i :| 0 <= i < |records| && records[i] == r;
    }
    if i :| 0 <= i < |records| && records[i].Object? && records[i].trust == Witnessed {
      assert records[i] in records && IsWitnessed(records[i]);
    }
    forall body
      ensures Accepted(ctx, body) <==> Envelope(ctx, body)
    {
      AcceptedIs(ctx, body);
    }
  }

  /** Which blockers the run itself and the manifest's envelope give, over the fields. */
  lemma WhichBlockers(ctx: Context, records: seq<Record>)
    ensures var bs := Blockers(ctx, records);
      && (InputsChanged in bs <==> ctx.changedInputs)
      && (SnapshotUnavailable in bs <==> ctx.snapshotUnavailable && (HasWitnessed(records) || ctx.changedInputs))
      && (forall why :: DurableRejected(why) in bs <==>
            && !ctx.changedInputs && ctx.manifest.Manifest?
            && match ctx.manifest.attestation
               case Some(j) => Check(ctx, j, ctx.manifest.runId) == Err(why)
               case None => ctx.manifest.legacy && why == Malformed)
  {
    HasIs(ctx, records);
  }

  /** Which blockers the live envelope and missing envelopes give. */
  lemma WhichEnvelopeBlockers(ctx: Context, records: seq<Record>)
    ensures var bs := Blockers(ctx, records);
      var durable := ctx.manifest.Manifest? && (ctx.manifest.attestation.Some? || ctx.manifest.legacy);
      var missing := HasWitnessed(records) && !HasEnvelope(ctx) && !durable && ctx.live == Null;
      var keyless := ctx.verifierKeys == [] && (ctx.verifierKey.None? || ctx.verifierKey.value == "");
      && (forall why :: LiveRejected(why) in bs <==>
            !ctx.changedInputs && ctx.live != Null && Check(ctx, ctx.live, None) == Err(why) && !HasEnvelope(ctx))
      && (NoVerifierKey in bs <==> missing && keyless)
      && (NoEnvelope in bs <==> missing && !keyless)
  {
    HasIs(ctx, records);
    KeysAreSet(ctx);
  }

  lemma KeysAreSet(ctx: Context)
    ensures Keys(ctx) == {} <==> ctx.verifierKeys == [] && (ctx.verifierKey.None? || ctx.verifierKey.value == "")
  {
    if ctx.verifierKeys != [] {
      assert ctx.verifierKeys[0] in Keys(ctx);
    }
    if ctx.verifierKey.Some? && ctx.verifierKey.value != "" {
      assert ctx.verifierKey.value in Keys(ctx);
    }
  }

  // ---------------------------------------------------------------- what authorization means

  /** The context an accepted body was checked in: this run's, or exactly one contributor's. */
  ghost predicate InContext(ctx: Context, body: Body) {
    || (!ctx.changedInputs && Some(body.inputDigest) == NonEmpty(ctx.expectedInputDigest))
    || exists c :: c in ctx.carried
                   && body.runId == c.runId && body.inputDigest == c.inputDigest && body.recordIds == c.recordIds
  }

  /**
   * A record that stays witnessed is covered by ONE signed body: a configured key verifies a MAC over run, invocation,
   * digest and record ids together, the run and the id are the record's, and the digest is the one expected there.
   */
  lemma OneSignedBody(ctx: Context, records: seq<Record>, i: nat) returns (body: Body, mac: string)
    requires i < |records| && IsWitnessed(AuthorizedRecords(ctx, records)[i])
    ensures IsWitnessed(records[i]) && Names(body, records[i]) && IsIssuedId(records[i].recordId.value)
    ensures Verifies(ctx, body, mac)
    ensures InContext(ctx, body)
  {
    assert Proven(ctx, records[i]);
    body :| Accepted(ctx, body) && Names(body, records[i]);
    if Durable(ctx) == Some(Ok(body)) {
      mac := ctx.parse(ctx.manifest.attestation.value).value.mac;
    } else if Live(ctx) == Some(Ok(body)) {
      mac := ctx.parse(ctx.live).value.mac;
    } else {
      var c :| c in ctx.carried && CheckCarried(ctx, c) == Some(body);
      mac := ctx.parse(c.attestation).value.mac;
    }
  }

  /** When MACs cannot be forged, only records the witness issued for that run stay witnessed. */
  lemma OnlyIssuedRecords(ctx: Context, records: seq<Record>, i: nat, issued: set<Body>) returns (body: Body)
    requires forall k, b, mac | k in Keys(ctx) && ctx.verifyMac(k, b, mac) :: b in issued
    requires i < |records| && IsWitnessed(AuthorizedRecords(ctx, records)[i])
    ensures body in issued && Names(body, records[i])
  {
    var mac;
    body, mac := OneSignedBody(ctx, records, i);
    var k :| k in Keys(ctx) && ctx.verifyMac(k, body, mac);
  }

  /** Inputs changed by the run silence its own envelopes; what a contributor brought is judged by its own context. */
  lemma ChangedInputsLeaveCarried(ctx: Context, r: Record)
    requires ctx.changedInputs
    ensures Proven(ctx, r) <==>
            && IsWitnessed(r) && r.recordId.Some? && IsIssuedId(r.recordId.value)
            && exists c :: c in ctx.carried && CheckCarried(ctx, c).Some? && Names(CheckCarried(ctx, c).value, r)
  {
    if Proven(ctx, r) {
      var body :| Accepted(ctx, body) && Names(body, r);
      var c :| c in ctx.carried && CheckCarried(ctx, c) == Some(body);
      assert Names(CheckCarried(ctx, c).value, r);
    }
    if c :| c in ctx.carried && CheckCarried(ctx, c).Some? && IsWitnessed(r) && Names(CheckCarried(ctx, c).value, r) {
      assert Accepted(ctx, CheckCarried(ctx, c).value);
    }
  }

  /** Without a key nothing stays witnessed. */
  lemma NoKeyNoWitness(ctx: Context, r: Record)
    requires Keys(ctx) == {}
    ensures !Proven(ctx, r)
  {
    assert forall body, mac :: !Verifies(ctx, body, mac);
  }

  lemma OkIsAccepted(ctx: Context)
    ensures Durable(ctx).Some? && Durable(ctx).value.Ok? ==> AnyAccepted(ctx)
    ensures Live(ctx).Some? && Live(ctx).value.Ok? ==> AnyAccepted(ctx)
  {
    if Durable(ctx).Some? && Durable(ctx).value.Ok? {
      assert Accepted(ctx, Durable(ctx).value.value);
    }
    if Live(ctx).Some? && Live(ctx).value.Ok? {
      assert Accepted(ctx, Live(ctx).value.value);
    }
  }

  /** Witnessed records without an accepted envelope always block the run. */
  lemma FailsClosed(ctx: Context, records: seq<Record>)
    requires AnyWitnessed(records) && !AnyAccepted(ctx)
    ensures Blockers(ctx, records) != []
    ensures forall r | r in AuthorizedRecords(ctx, records) :: !IsWitnessed(r)
  {
    OkIsAccepted(ctx);
    forall r | r in AuthorizedRecords(ctx, records)
      ensures !IsWitnessed(r)
    {
      var i :| 0 <= i < |records| && AuthorizedRecords(ctx, records)[i] == r;
      assert !Proven(ctx, records[i]);
    }
  }

  // ---------------------------------------------------------------- more keys

  /** The same run with further verifier keys. */
  ghost predicate MoreKeys(ctx: Context, ctx': Context) {
    && ctx' == ctx.(verifierKeys := ctx'.verifierKeys, verifierKey := ctx'.verifierKey)
    && Keys(ctx) <= Keys(ctx')
  }

  lemma MoreVerifies(ctx: Context, ctx': Context, body: Body, mac: string)
    requires MoreKeys(ctx, ctx') && Verifies(ctx, body, mac)
    ensures Verifies(ctx', body, mac)
  {
    var k :| k in Keys(ctx) && ctx.verifyMac(k, body, mac);
    assert k in Keys(ctx') && ctx'.verifyMac(k, body, mac);
  }

  lemma CheckStaysOk(ctx: Context, ctx': Context, candidate: Json, manifestRunId: Option<string>)
    requires MoreKeys(ctx, ctx') && Check(ctx, candidate, manifestRunId).Ok?
    ensures Check(ctx', candidate, manifestRunId) == Check(ctx, candidate, manifestRunId)
  {
    var a := ctx.parse(candidate).value;
    MoreVerifies(ctx, ctx', a.body, a.mac);
  }

  lemma AcceptedStays(ctx: Context, ctx': Context, body: Body)
    requires MoreKeys(ctx, ctx') && Accepted(ctx, body)
    ensures Accepted(ctx', body)
  {
    if Durable(ctx) == Some(Ok(body)) {
      CheckStaysOk(ctx, ctx', ctx.manifest.attestation.value, ctx.manifest.runId);
    } else if Live(ctx) == Some(Ok(body)) {
      CheckStaysOk(ctx, ctx', ctx.live, None);
    } else {
      var c :| c in ctx.carried && CheckCarried(ctx, c) == Some(body);
      var a := ctx.parse(c.attestation).value;
      MoreVerifies(ctx, ctx', BoundBody(c, a), a.mac);
      assert CheckCarried(ctx', c) == Some(body);
    }
  }

  /** Adding verifier keys never demotes a record, and never blocks a run that was not blocked. */
  lemma MoreKeysNeverDemote(ctx: Context, ctx': Context, records: seq<Record>)
    requires MoreKeys(ctx, ctx')
    ensures forall r | Proven(ctx, r) :: Proven(ctx', r)
    ensures Blockers(ctx, records) == [] ==> Blockers(ctx', records) == []
  {
    forall r | Proven(ctx, r)
      ensures Proven(ctx', r)
    {
      var body :| Accepted(ctx, body) && Names(body, r);
      AcceptedStays(ctx, ctx', body);
    }
    if Blockers(ctx, records) == [] {
      MoreKeysNeverBlock(ctx, ctx', records);
    }
  }

  lemma MoreKeysNeverBlock(ctx: Context, ctx': Context, records: seq<Record>)
    requires MoreKeys(ctx, ctx') && Blockers(ctx, records) == []
    ensures Blockers(ctx', records) == []
  {
    if AnyAccepted(ctx) {
      var body :| Accepted(ctx, body);
      AcceptedStays(ctx, ctx', body);
    }
    if Durable(ctx).Some? {
      CheckStaysOk(ctx, ctx', ctx.manifest.attestation.value, ctx.manifest.runId);
    }
    if Live(ctx).Some? && Live(ctx).value.Ok? {
      CheckStaysOk(ctx, ctx', ctx.live, None);
    }
  }
}
