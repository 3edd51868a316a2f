/**
 * Workflow snapshots: validation against their own hash, and the compare-and-swap reduction
 * into the durable binding of a conversation.
 */
module WorkflowSnapshots {
  import opened Options
  import opened JsText
  import opened CanonicalJson
  import opened StrategyRules

  const CONTRACT_VERSION := 1.0
  const INITIAL_REVISION := 1
  const MAX_CANONICAL_RULES_BYTES := 262144
  const MAX_ARTIFACT_HASH_LENGTH := 128

  datatype Snapshot = Snapshot(sessionId: JsString, workflowRevision: int, strategyRules: Json, rulesHash: JsString,
                               availableActions: seq<JsString>, committedAt: real, expiresAt: real, resumable: bool,
                               generatedArtifactHash: Option<JsString>, generatedClassName: Option<JsString>)

  datatype Identity = Identity(subjectId: string, conversationId: string)

  datatype Binding = Binding(subjectId: string, conversationId: string, sessionId: JsString, workflowRevision: int,
                             rulesHash: JsString, strategyRules: Json, availableActions: seq<JsString>,
                             expiresAt: real, generatedArtifactHash: Option<JsString>,
                             generatedClassName: Option<JsString>, rowRevision: nat)

  datatype Conflict = ContractUnavailable | RulesHashMismatch | RulesTooLarge | SessionExpired | CrossSubject
                    | SessionUnknown | StaleRevision

  // ---------------------------------------------------------------------------
  // Numbers read from a payload
  // ---------------------------------------------------------------------------

  function Pow2(e: int): (power: real)
    ensures power > 0.0
    decreases if e < 0 then -e else e
  {
    if e == 0 then 1.0 else if e > 0 then 2.0 * Pow2(e - 1) else Pow2(e + 1) / 2.0
  }

  function FromBigEndian(bytes: seq<Byte>): nat {
    if bytes == [] then 0 else 256 * FromBigEndian(bytes[..|bytes| - 1]) + bytes[|bytes| - 1]
  }

  /** The value of a finite double: sign, 11 exponent bits, 52 fraction bits. */
  function ValueOf(b: Float64): real
    requires IsFinite(b)
  {
    var b0: int := b[0];
    var b1: int := b[1];
    var exponent: int := b0 % 128 * 16 + b1 / 16;
    var fraction := FromBigEndian([b1 % 16] + b[2..]) as real / Pow2(52);
    var magnitude := if exponent == 0 then fraction * Pow2(-1022) else (1.0 + fraction) * Pow2(exponent - 1023);
    if b0 >= 128 then -magnitude else magnitude
  }

  function AsFiniteNumber(v: Json): Option<real> {
    if v.Num? && IsFinite(v.bytes) then Some(ValueOf(v.bytes)) else None
  }

  predicate IsInteger(x: real) {
    x.Floor as real == x
  }

  // ---------------------------------------------------------------------------
  // Validation
  // ---------------------------------------------------------------------------

  function TrimmedString(v: Json): JsString {
    if v.Str? then Trim(v.text) else []
  }

  function StringOrNone(v: Json): Option<JsString> {
    if v.Str? then Some(v.text) else None
  }

  function Strings(items: seq<Json>): seq<JsString> {
    if items == [] then [] else (if items[0].Str? then [items[0].text] else []) + Strings(items[1..])
  }

  /** `validateWorkflowSnapshot`: the checks in the source's order, the first failure deciding. */
  function Validate(raw: Json, now: real, sha256: JsString -> JsString): Result<Snapshot, Conflict> {
    if !raw.Obj? && !raw.Arr? then Err(ContractUnavailable)
    else
      var source := if raw.Obj? then raw.members else [];
      var version := AsFiniteNumber(Get(source, Units("contract_version")));
      var sessionId := TrimmedString(Get(source, Units("session_id")));
      var revision := AsFiniteNumber(Get(source, Units("workflow_revision")));
      var algorithm := StringOrNone(Get(source, Units("rules_hash_algorithm")));
      var rulesHash := TrimmedString(Get(source, Units("rules_hash")));
      var rawRules := Get(source, Units("strategy_rules"));
      var rules := if rawRules.Undefined? then Null else rawRules;
      if version != Some(CONTRACT_VERSION) then Err(ContractUnavailable)
      else if sessionId == [] then Err(ContractUnavailable)
      else if revision.None? || !IsInteger(revision.value) || revision.value < INITIAL_REVISION as real then
        Err(ContractUnavailable)
      else if algorithm.GetOr(Units("sha256")) != Units("sha256") then Err(ContractUnavailable)
      else if rulesHash == [] then Err(ContractUnavailable)
      else if Canonicalize(rules).Err? then Err(RulesHashMismatch)
      else if Utf8Length(CanonicalString(Obj(Canonicalize(rules).value))) > MAX_CANONICAL_RULES_BYTES then
        Err(RulesTooLarge)
      else if RulesHash(rules, sha256) != Ok(rulesHash) then Err(RulesHashMismatch)
      else
        var actions := Get(source, Units("available_actions"));
        var expiresAt := AsFiniteNumber(Get(source, Units("expires_at"))).GetOr(0.0);
        var artifact := StringOrNone(Get(source, Units("generated_artifact_hash")));
        if expiresAt > 0.0 && now >= expiresAt then Err(SessionExpired)
        else
          Ok(Snapshot(sessionId, revision.value.Floor, rules, rulesHash,
                      if actions.Arr? then Strings(actions.items) else [],
                      AsFiniteNumber(Get(source, Units("committed_at"))).GetOr(0.0), expiresAt,
                      Get(source, Units("resumable")) != Bool(false),
                      if artifact.Some? && |artifact.value| <= MAX_ARTIFACT_HASH_LENGTH then artifact else None,
                      StringOrNone(Get(source, Units("generated_class_name")))))
  }

  /** A snapshot carries the hash of its own rules, which fit the contract's bound. */
  predicate SelfCertified(rules: Json, rulesHash: JsString, sha256: JsString -> JsString) {
    && RulesHash(rules, sha256) == Ok(rulesHash)
    && Canonicalize(rules).Ok?
    && Utf8Length(CanonicalString(Obj(Canonicalize(rules).value))) <= MAX_CANONICAL_RULES_BYTES
  }

  /** Whatever passes validation is self-certified, names a session, has a first or later revision, and is live. */
  lemma ValidSnapshotsAreSelfCertified(raw: Json, now: real, sha256: JsString -> JsString)
    requires Validate(raw, now, sha256).Ok?
    ensures var s := Validate(raw, now, sha256).value;
            && SelfCertified(s.strategyRules, s.rulesHash, sha256)
            && s.sessionId != [] && s.rulesHash != [] && s.workflowRevision >= INITIAL_REVISION
            && (s.expiresAt > 0.0 ==> now < s.expiresAt)
            && (s.generatedArtifactHash.Some? ==> |s.generatedArtifactHash.value| <= MAX_ARTIFACT_HASH_LENGTH)
  {
    hide Canonicalize, CanonicalString, Utf8Length, Get, TrimmedString, RulesHash, ValueOf;
  }

  // ---------------------------------------------------------------------------
  // Compare and swap
  // ---------------------------------------------------------------------------

  function BindingOf(snapshot: Snapshot, identity: Identity, rowRevision: nat): Binding {
    Binding(identity.subjectId, identity.conversationId, snapshot.sessionId, snapshot.workflowRevision,
            snapshot.rulesHash, snapshot.strategyRules, snapshot.availableActions, snapshot.expiresAt,
            snapshot.generatedArtifactHash, snapshot.generatedClassName, rowRevision)
  }

  /** `reduceWorkflowSnapshot`. */
  function Reduce(previous: Option<Binding>, snapshot: Snapshot, identity: Identity): Result<Binding, Conflict> {
    if previous.Some? && previous.value.subjectId != identity.subjectId then Err(CrossSubject)
    else if previous.Some? && previous.value.sessionId != snapshot.sessionId then Err(SessionUnknown)
    else if previous.Some? && snapshot.workflowRevision <= previous.value.workflowRevision then Err(StaleRevision)
    else Ok(BindingOf(snapshot, identity, (if previous.Some? then previous.value.rowRevision else 0) + 1))
  }

  /** A delivery: a snapshot on behalf of someone. */
  datatype Delivery = Delivery(snapshot: Snapshot, identity: Identity)

  /** The binding after a delivery; a rejected one leaves it alone. */
  function Deliver(previous: Option<Binding>, delivery: Delivery): Option<Binding> {
    match Reduce(previous, delivery.snapshot, delivery.identity)
    case Ok(binding) => Some(binding)
    case Err(_) => previous
  }

  function DeliverAll(previous: Option<Binding>, deliveries: seq<Delivery>): Option<Binding> {
    if deliveries == [] then previous
    else Deliver(DeliverAll(previous, deliveries[..|deliveries| - 1]), deliveries[|deliveries| - 1])
  }

  function Acceptances(previous: Option<Binding>, deliveries: seq<Delivery>): nat {
    if deliveries == [] then 0
    else
      var n := |deliveries| - 1;
      var before := DeliverAll(previous, deliveries[..n]);
      Acceptances(previous, deliveries[..n])
      + if Reduce(before, deliveries[n].snapshot, deliveries[n].identity).Ok? then 1 else 0
  }

  /** What an acceptance and a rejection do. */
  lemma DeliveryStep(previous: Option<Binding>, delivery: Delivery)
    requires previous.Some?
    ensures var next := Deliver(previous, delivery);
            && next.Some?
            && next.value.subjectId == previous.value.subjectId && next.value.sessionId == previous.value.sessionId
            && (Reduce(previous, delivery.snapshot, delivery.identity).Ok? ==>
                  next.value.workflowRevision > previous.value.workflowRevision
                  && next.value.rowRevision == previous.value.rowRevision + 1)
            && (Reduce(previous, delivery.snapshot, delivery.identity).Err? ==> next == previous)
  {
  }

  /** The deliveries that speak for the binding's subject and session. */
  predicate Relevant(binding: Binding, delivery: Delivery) {
    delivery.identity.subjectId == binding.subjectId && delivery.snapshot.sessionId == binding.sessionId
  }

  /** Every field of the binding but the row revision is the delivery's. */
  predicate Stores(binding: Binding, delivery: Delivery) {
    && binding.subjectId == delivery.identity.subjectId
    && binding.conversationId == delivery.identity.conversationId
    && binding.sessionId == delivery.snapshot.sessionId
    && binding.workflowRevision == delivery.snapshot.workflowRevision
    && binding.rulesHash == delivery.snapshot.rulesHash
    && binding.strategyRules == delivery.snapshot.strategyRules
    && binding.availableActions == delivery.snapshot.availableActions
    && binding.expiresAt == delivery.snapshot.expiresAt
    && binding.generatedArtifactHash == delivery.snapshot.generatedArtifactHash
    && binding.generatedClassName == delivery.snapshot.generatedClassName
  }

  /** A delivery is accepted exactly when it is of the binding's subject and session and newer, and is then stored. */
  lemma AcceptedExactly(previous: Option<Binding>, delivery: Delivery)
    ensures var r := Reduce(previous, delivery.snapshot, delivery.identity);
            if previous.None? then r.Ok? && Stores(r.value, delivery) && r.value.rowRevision == 1
            else
              var bound := previous.value;
              && (r == Err(CrossSubject) <==> bound.subjectId != delivery.identity.subjectId)
              && (r == Err(SessionUnknown) <==>
                  bound.subjectId == delivery.identity.subjectId && bound.sessionId != delivery.snapshot.sessionId)
              && (r == Err(StaleRevision) <==>
                  Relevant(bound, delivery) && delivery.snapshot.workflowRevision <= bound.workflowRevision)
              && (r.Ok? <==> Relevant(bound, delivery) && delivery.snapshot.workflowRevision > bound.workflowRevision)
              && (r.Ok? ==> Stores(r.value, delivery) && r.value.rowRevision == bound.rowRevision + 1)
  {
  }

  /** Some delivery stored the binding, and no relevant delivery has a later revision. */
  ghost predicate StoresMaximum(binding: Binding, deliveries: seq<Delivery>) {
    && (exists i :: 0 <= i < |deliveries| && Stores(binding, deliveries[i]))
    && (forall i :: 0 <= i < |deliveries| && Relevant(binding, deliveries[i]) ==>
          deliveries[i].snapshot.workflowRevision <= binding.workflowRevision)
  }

  /**
   * Whatever is delivered, in whatever order, with duplicates, strangers and other sessions mixed in:
   * the first delivery fixes subject and session, and the binding ends at the maximum revision
   * delivered for them, with one row revision per acceptance.
   */
  lemma {:induction false} DeliveriesEndAtTheMaximum(deliveries: seq<Delivery>)
    requires deliveries != []
    ensures DeliverAll(None, deliveries).Some?
    ensures var binding := DeliverAll(None, deliveries).value;
            && Relevant(binding, deliveries[0])
            && StoresMaximum(binding, deliveries)
            && binding.rowRevision == Acceptances(None, deliveries)
  {
    var n := |deliveries| - 1;
    var last := deliveries[n];
    if n == 0 {
      assert DeliverAll(None, deliveries[..0]) == None;
      assert Stores(DeliverAll(None, deliveries).value, deliveries[0]);
    } else {
      DeliveriesEndAtTheMaximum(deliveries[..n]);
      var before := DeliverAll(None, deliveries[..n]);
      DeliveryStep(before, last);
      var after := Deliver(before, last).value;
      assert after == DeliverAll(None, deliveries).value;
      if Reduce(before, last.snapshot, last.identity).Ok? {
        assert Stores(after, deliveries[n]);
      } else {
        var i :| 0 <= i < n && Stores(before.value, deliveries[..n][i]);
        assert Stores(after, deliveries[i]);
      }
      forall i | 0 <= i < |deliveries| && Relevant(after, deliveries[i])
        ensures deliveries[i].snapshot.workflowRevision <= after.workflowRevision
      {
        if i < n { assert deliveries[..n][i] == deliveries[i]; }
      }
      assert deliveries[..n][0] == deliveries[0];
    }
  }

  /** One identity and session, and the revision determines the snapshot. */
  predicate Coherent(deliveries: seq<Delivery>, identity: Identity, sessionId: JsString) {
    && (forall i :: 0 <= i < |deliveries| ==>
          deliveries[i].identity == identity && deliveries[i].snapshot.sessionId == sessionId)
    && (forall i, j :: 0 <= i < |deliveries| && 0 <= j < |deliveries| ==>
          SameRevisionSameSnapshot(deliveries[i].snapshot, deliveries[j].snapshot))
  }

  predicate SameRevisionSameSnapshot(a: Snapshot, b: Snapshot) {
    a.workflowRevision == b.workflowRevision ==> a == b
  }

  /** Two deliveries of the same snapshots end in the same binding, but for the count of acceptances. */
  lemma DeliveryOrderDoesNotMatter(a: seq<Delivery>, b: seq<Delivery>, identity: Identity, sessionId: JsString)
    requires a != [] && Coherent(a, identity, sessionId) && Coherent(b, identity, sessionId)
    requires forall d :: d in a <==> d in b
    ensures DeliverAll(None, a).Some? && DeliverAll(None, b).Some?
    ensures var p, q := DeliverAll(None, a).value, DeliverAll(None, b).value;
            p == q.(rowRevision := p.rowRevision)
  {
    assert a[0] in b;
    DeliveriesEndAtTheMaximum(a);
    DeliveriesEndAtTheMaximum(b);
    var p, q := DeliverAll(None, a).value, DeliverAll(None, b).value;
    var i :| 0 <= i < |a| && Stores(p, a[i]);
    var j :| 0 <= j < |b| && Stores(q, b[j]);
    assert a[i] in b && b[j] in a;
    var i' :| 0 <= i' < |b| && b[i'] == a[i];
    var j' :| 0 <= j' < |a| && a[j'] == b[j];
    assert Relevant(q, b[i']) && Relevant(p, a[j']);
    assert SameRevisionSameSnapshot(a[i].snapshot, a[j'].snapshot);
  }

  /** Some payload passed validation, at some time, as this snapshot. */
  ghost predicate WasValidated(snapshot: Snapshot, sha256: JsString -> JsString) {
    exists raw, now :: Validate(raw, now, sha256) == Ok(snapshot)
  }

  /** Deliveries of valid snapshots only ever store bindings that carry the hash of their own rules. */
  lemma {:induction false} BindingsAreSelfCertified(previous: Option<Binding>, deliveries: seq<Delivery>,
                                                    sha256: JsString -> JsString)
    requires previous.Some? ==> SelfCertified(previous.value.strategyRules, previous.value.rulesHash, sha256)
    requires forall i :: 0 <= i < |deliveries| ==> WasValidated(deliveries[i].snapshot, sha256)
    ensures DeliverAll(previous, deliveries).Some? ==>
              SelfCertified(DeliverAll(previous, deliveries).value.strategyRules,
                            DeliverAll(previous, deliveries).value.rulesHash, sha256)
  {
    hide Validate, SelfCertified, RulesHash, Canonicalize;
    if deliveries != [] {
      var n := |deliveries| - 1;
      assert forall i :: 0 <= i < n ==> deliveries[..n][i] == deliveries[i];
      BindingsAreSelfCertified(previous, deliveries[..n], sha256);
      var raw, now :| Validate(raw, now, sha256) == Ok(deliveries[n].snapshot);
      ValidSnapshotsAreSelfCertified(raw, now, sha256);
    }
  }
}
