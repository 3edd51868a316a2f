/**
 * The sender's side of a workflow snapshot: the payload that carries it, and what validation answers
 * to that payload, whole or altered.
 */
module SnapshotExchange {
  import opened Options
  import opened JsText
  import opened CanonicalJson
  import opened CanonicalEquality
  import opened StrategyRules
  import opened WorkflowSnapshots

  /** The fields a sender spells for itself: three doubles, the contract version and the hash algorithm. */
  datatype Wire = Wire(version: Json, algorithm: Json, revision: Float64, committedAt: Float64, expiresAt: Float64)

  /** The double one, 3ff0000000000000. */
  const ONE: Float64 := [0x3F, 0xF0, 0, 0, 0, 0, 0, 0]

  function OptionalText(text: Option<JsString>): Json {
    if text.Some? then Str(text.value) else Null
  }

  function Texts(texts: seq<JsString>): (r: seq<Json>)
    ensures |r| == |texts| && forall i :: 0 <= i < |r| ==> r[i] == Str(texts[i])
  {
    seq(|texts|, i requires 0 <= i < |texts| => Str(texts[i]))
  }

  /** The members of the payload. */
  function Members(s: Snapshot, wire: Wire): seq<Member> {
    [Member(Units("contract_version"), wire.version),
     Member(Units("session_id"), Str(s.sessionId)),
     Member(Units("workflow_revision"), Num(wire.revision)),
     Member(Units("rules_hash_algorithm"), wire.algorithm),
     Member(Units("rules_hash"), Str(s.rulesHash)),
     Member(Units("strategy_rules"), s.strategyRules),
     Member(Units("available_actions"), Arr(Texts(s.availableActions))),
     Member(Units("committed_at"), Num(wire.committedAt)),
     Member(Units("expires_at"), Num(wire.expiresAt)),
     Member(Units("resumable"), Bool(s.resumable)),
     Member(Units("generated_artifact_hash"), OptionalText(s.generatedArtifactHash)),
     Member(Units("generated_class_name"), OptionalText(s.generatedClassName))]
  }

  /** The bytes are a finite double of this value. */
  predicate Holds(b: Float64, x: real) {
    IsFinite(b) && ValueOf(b) == x
  }

  /** The version is the number one. */
  predicate IsVersionOne(v: Json) {
    v.Num? && Holds(v.bytes, 1.0)
  }

  /** Something to read, and no white space around it. */
  predicate Trimmed(s: JsString) {
    s != [] && !IsSpace(s[0]) && !IsSpace(s[|s| - 1])
  }

  /** Not a white-space text: something stays when it is trimmed. */
  predicate Blank(s: JsString) {
    forall i :: 0 <= i < |s| ==> IsSpace(s[i])
  }

  predicate IsRevision(b: Float64) {
    IsFinite(b) && ValueOf(b) >= 1.0 && ValueOf(b).Floor as real == ValueOf(b)
  }

  /** An algorithm is named, and it is not SHA-256. */
  predicate OtherAlgorithm(v: Json) {
    v.Str? && v.text != Units("sha256")
  }

  /** The rules are too long in their canonical form. */
  predicate TooLarge(rules: Json) {
    Canonicalize(rules).Ok? && Utf8Length(CanonicalString(Obj(Canonicalize(rules).value))) > 262144
  }

  // ---------------------------------------------------------------------------
  // Reading the payload
  // ---------------------------------------------------------------------------

  /** Length and first unit tell the twelve keys apart. */
  function Tag(key: JsString): int {
    if key == [] then 0 else 0x10000 * |key| + key[0]
  }

  const TAGS: seq<int> :=
    [0x100063, 0xA0073, 0x110077, 0x140072, 0xA0072, 0xE0073, 0x110061, 0xC0063, 0xA0065, 0x90072, 0x170067, 0x140067]

  lemma KeyTags(s: Snapshot, wire: Wire, k: nat)
    requires k < 12
    ensures Tag(Members(s, wire)[k].key) == TAGS[k]
  {
    assert 'a' as int == 0x61 && 'c' as int == 0x63 && 'e' as int == 0x65 && 'g' as int == 0x67;
    assert 'r' as int == 0x72 && 's' as int == 0x73 && 'w' as int == 0x77;
  }

  lemma KeysAreDistinct(s: Snapshot, wire: Wire)
    ensures DistinctKeys(Members(s, wire))
  {
    var members := Members(s, wire);
    assert |members| == 12;
    assert forall i, j :: 0 <= i < j < 12 ==> TAGS[i] != TAGS[j];
    hide Members;
    forall i, j | 0 <= i < j < |members| ensures members[i].key != members[j].key {
      KeyTags(s, wire, i);
      KeyTags(s, wire, j);
    }
  }

  lemma MemberIsRead(s: Snapshot, wire: Wire, k: nat)
    requires k < 12
    ensures Get(Members(s, wire), Members(s, wire)[k].key) == Members(s, wire)[k].value
  {
    KeysAreDistinct(s, wire);
    assert |Members(s, wire)| == 12;
    hide Members;
    FoundAt(Members(s, wire), k);
  }

  /** What a receiver reads from the payload, key by key. */
  ghost predicate Reads(source: seq<Member>, s: Snapshot, wire: Wire) {
    && Get(source, Units("contract_version")) == wire.version
    && Get(source, Units("session_id")) == Str(s.sessionId)
    && Get(source, Units("workflow_revision")) == Num(wire.revision)
    && Get(source, Units("rules_hash_algorithm")) == wire.algorithm
    && Get(source, Units("rules_hash")) == Str(s.rulesHash)
    && Get(source, Units("strategy_rules")) == s.strategyRules
    && Get(source, Units("available_actions")) == Arr(Texts(s.availableActions))
    && Get(source, Units("committed_at")) == Num(wire.committedAt)
    && Get(source, Units("expires_at")) == Num(wire.expiresAt)
    && Get(source, Units("resumable")) == Bool(s.resumable)
    && Get(source, Units("generated_artifact_hash")) == OptionalText(s.generatedArtifactHash)
    && Get(source, Units("generated_class_name")) == OptionalText(s.generatedClassName)
  }

  lemma PayloadReads(s: Snapshot, wire: Wire)
    ensures Reads(Members(s, wire), s, wire)
  {
    hide Units, Get, Texts, OptionalText;
    MemberIsRead(s, wire, 0);
    MemberIsRead(s, wire, 1);
    MemberIsRead(s, wire, 2);
    MemberIsRead(s, wire, 3);
    MemberIsRead(s, wire, 4);
    MemberIsRead(s, wire, 5);
    MemberIsRead(s, wire, 6);
    MemberIsRead(s, wire, 7);
    MemberIsRead(s, wire, 8);
    MemberIsRead(s, wire, 9);
    MemberIsRead(s, wire, 10);
    MemberIsRead(s, wire, 11);
  }

  lemma TrimmedIsKept(s: JsString)
    requires Trimmed(s)
    ensures Trim(s) == s && !Blank(s)
  {
    hide IsSpace;
    TrimStartIsEnd(s);
    var t := TrimStart(s);
    assert |t| == |s|;
  }

  lemma {:induction false} TextsAreRead(texts: seq<JsString>)
    ensures Strings(Texts(texts)) == texts
  {
    if texts != [] {
      TextsAreRead(texts[1..]);
      assert Texts(texts)[1..] == Texts(texts[1..]);
    }
  }

  /** 3ff0000000000000 is the number one. */
  lemma OneIsOne()
    ensures Holds(ONE, 1.0)
  {
    var tail := [0] + ONE[2..];
    assert tail == [0, 0, 0, 0, 0, 0, 0];
    ZeroBytes(tail);
    assert ONE[1] % 16 == 0;
  }

  lemma {:induction false} ZeroBytes(bytes: seq<Byte>)
    requires forall i :: 0 <= i < |bytes| ==> bytes[i] == 0
    ensures FromBigEndian(bytes) == 0
  {
    if bytes != [] { ZeroBytes(bytes[..|bytes| - 1]); }
  }

  // ---------------------------------------------------------------------------
  // What validation answers
  // ---------------------------------------------------------------------------

  /** What is wrong with the envelope: version, session, revision, algorithm or hash. */
  predicate EnvelopeRefused(s: Snapshot, wire: Wire) {
    || !IsVersionOne(wire.version) || Blank(s.sessionId) || !IsRevision(wire.revision)
    || OtherAlgorithm(wire.algorithm) || Blank(s.rulesHash)
  }

  /** The rules are the ones the hash was taken of. */
  predicate HashAgrees(s: Snapshot, sha256: JsString -> JsString) {
    Canonicalize(s.strategyRules).Ok?
    && sha256(CanonicalString(Obj(Canonicalize(s.strategyRules).value))) == Trim(s.rulesHash)
  }

  predicate Expired(wire: Wire, now: real) {
    IsFinite(wire.expiresAt) && 0.0 < ValueOf(wire.expiresAt) <= now
  }

  /** The answer to any object that reads like the payload. */
  ghost predicate Judged(answer: Result<Snapshot, Conflict>, s: Snapshot, wire: Wire, now: real,
                         sha256: JsString -> JsString)
  {
    if EnvelopeRefused(s, wire) then answer == Err(ContractUnavailable)
    else if TooLarge(s.strategyRules) then answer == Err(RulesTooLarge)
    else if !HashAgrees(s, sha256) then answer == Err(RulesHashMismatch)
    else if Expired(wire, now) then answer == Err(SessionExpired)
    else
      && answer.Ok?
      && answer.value.sessionId == Trim(s.sessionId) && answer.value.rulesHash == Trim(s.rulesHash)
      && answer.value.workflowRevision == ValueOf(wire.revision).Floor
      && answer.value.strategyRules == s.strategyRules
      && answer.value.availableActions == Strings(Texts(s.availableActions))
      && answer.value.committedAt == ReadOrZero(wire.committedAt)
      && answer.value.expiresAt == ReadOrZero(wire.expiresAt)
      && answer.value.resumable == s.resumable
      && answer.value.generatedArtifactHash
         == (if s.generatedArtifactHash.Some? && |s.generatedArtifactHash.value| <= 128 then s.generatedArtifactHash
             else None)
      && answer.value.generatedClassName == s.generatedClassName
  }

  function ReadOrZero(b: Float64): real {
    if IsFinite(b) then ValueOf(b) else 0.0
  }

  lemma JudgedAsRead(source: seq<Member>, s: Snapshot, wire: Wire, now: real, sha256: JsString -> JsString)
    requires Reads(source, s, wire) && !s.strategyRules.Undefined?
    requires Trim(s.sessionId) == [] <==> Blank(s.sessionId)
    requires Trim(s.rulesHash) == [] <==> Blank(s.rulesHash)
    ensures Judged(Validate(Obj(source), now, sha256), s, wire, now, sha256)
  {
    hide Get, Units, Texts, Canonicalize, CanonicalString, Utf8Length, ValueOf, IsSpace, Trim, Strings, Blank, IsFinite;
  }

  /** A refusal has the code of the first thing wrong. */
  lemma RefusedWithItsCode(s: Snapshot, wire: Wire, now: real, sha256: JsString -> JsString)
    requires !s.strategyRules.Undefined?
    ensures var answer := Validate(Obj(Members(s, wire)), now, sha256);
            && (EnvelopeRefused(s, wire) ==> answer == Err(ContractUnavailable))
            && (!EnvelopeRefused(s, wire) && TooLarge(s.strategyRules) ==> answer == Err(RulesTooLarge))
            && (!EnvelopeRefused(s, wire) && !TooLarge(s.strategyRules) && !HashAgrees(s, sha256) ==>
                  answer == Err(RulesHashMismatch))
            && (!EnvelopeRefused(s, wire) && !TooLarge(s.strategyRules) && HashAgrees(s, sha256) && Expired(wire, now)
                ==>
                  answer == Err(SessionExpired))
            && (!EnvelopeRefused(s, wire) && !TooLarge(s.strategyRules) && HashAgrees(s, sha256) && !Expired(wire, now)
                ==> answer.Ok?)
  {
    PayloadReads(s, wire);
    TrimEmptyExactly(s.sessionId);
    TrimEmptyExactly(s.rulesHash);
    hide Members, Reads, Validate, EnvelopeRefused, TooLarge, HashAgrees, Expired, Trim, ValueOf, Strings, Texts, Units;
    JudgedAsRead(Members(s, wire), s, wire, now, sha256);
  }

  /** What a sender may put on the wire: a live, self-certified snapshot in doubles that hold its numbers. */
  ghost predicate Sendable(s: Snapshot, wire: Wire, now: real, sha256: JsString -> JsString) {
    && IsVersionOne(wire.version) && !OtherAlgorithm(wire.algorithm)
    && Trimmed(s.sessionId) && Trimmed(s.rulesHash)
    && s.workflowRevision >= 1 && Holds(wire.revision, s.workflowRevision as real)
    && Holds(wire.committedAt, s.committedAt) && Holds(wire.expiresAt, s.expiresAt)
    && (s.expiresAt > 0.0 ==> now < s.expiresAt)
    && (s.generatedArtifactHash.Some? ==> |s.generatedArtifactHash.value| <= 128)
    && !s.strategyRules.Undefined? && SelfCertified(s.strategyRules, s.rulesHash, sha256)
  }

  /** Validating the payload of a snapshot gives back that very snapshot. */
  lemma SentSnapshotsArrive(s: Snapshot, wire: Wire, now: real, sha256: JsString -> JsString)
    requires Sendable(s, wire, now, sha256)
    ensures Validate(Obj(Members(s, wire)), now, sha256) == Ok(s)
  {
    PayloadReads(s, wire);
    TrimmedIsKept(s.sessionId);
    TrimmedIsKept(s.rulesHash);
    TextsAreRead(s.availableActions);
    SendableIsRead(s, wire, now, sha256);
    hide Members, Reads, Validate, Trim, Blank, Trimmed, ValueOf, Strings, Texts, Units, SelfCertified, IsFinite,
         EnvelopeRefused, TooLarge, HashAgrees, Expired;
    JudgedAsRead(Members(s, wire), s, wire, now, sha256);
    var back := Validate(Obj(Members(s, wire)), now, sha256).value;
    assert back == Snapshot(s.sessionId, s.workflowRevision, s.strategyRules, s.rulesHash, s.availableActions,
                            s.committedAt, s.expiresAt, s.resumable, s.generatedArtifactHash, s.generatedClassName);
  }

  /** Nothing of a sendable snapshot is refused. */
  lemma SendableIsRead(s: Snapshot, wire: Wire, now: real, sha256: JsString -> JsString)
    requires Sendable(s, wire, now, sha256)
    ensures !EnvelopeRefused(s, wire) && !TooLarge(s.strategyRules) && HashAgrees(s, sha256) && !Expired(wire, now)
    ensures ValueOf(wire.revision).Floor == s.workflowRevision
  {
    TrimmedIsKept(s.sessionId);
    TrimmedIsKept(s.rulesHash);
    hide Trim, Blank, Trimmed, ValueOf, IsFinite, Canonicalize, CanonicalString, Utf8Length, Units;
  }

  /** Another or a missing version, another algorithm or a fractional revision: the contract is unavailable. */
  lemma AlteredEnvelopeIsRefused(s: Snapshot, wire: Wire, now: real, sha256: JsString -> JsString)
    requires !s.strategyRules.Undefined?
    requires || wire.version == Undefined || !wire.version.Num? || !Holds(wire.version.bytes, 1.0)
             || (wire.algorithm.Str? && wire.algorithm.text != Units("sha256"))
             || (IsFinite(wire.revision) && ValueOf(wire.revision).Floor as real != ValueOf(wire.revision))
    ensures Validate(Obj(Members(s, wire)), now, sha256) == Err(ContractUnavailable)
  {
    hide Members, Validate, ValueOf, Units, Canonicalize, CanonicalString, Utf8Length;
    RefusedWithItsCode(s, wire, now, sha256);
  }

  /** The rules of a sendable snapshot replaced by others that hash differently: they do not match. */
  lemma AlteredRulesAreRefused(s: Snapshot, wire: Wire, now: real, rules: Json, sha256: JsString -> JsString)
    requires Sendable(s, wire, now, sha256) && !rules.Undefined?
    requires RulesHash(rules, sha256) != RulesHash(s.strategyRules, sha256)
    ensures Validate(Obj(Members(s.(strategyRules := rules), wire)), now, sha256)
            == Err(if TooLarge(rules) then RulesTooLarge else RulesHashMismatch)
  {
    TrimmedIsKept(s.rulesHash);
    SendableIsRead(s, wire, now, sha256);
    var altered := s.(strategyRules := rules);
    assert EnvelopeRefused(altered, wire) == EnvelopeRefused(s, wire);
    hide Members, Validate, ValueOf, Units, Canonicalize, CanonicalString, Utf8Length, EnvelopeRefused, Trim;
    RefusedWithItsCode(altered, wire, now, sha256);
  }

  /** A sendable snapshot that comes at or after its expiry: its session is over. */
  lemma LateSnapshotIsRefused(s: Snapshot, wire: Wire, now: real, later: real, sha256: JsString -> JsString)
    requires Sendable(s, wire, now, sha256) && 0.0 < s.expiresAt <= later
    ensures Validate(Obj(Members(s, wire)), later, sha256) == Err(SessionExpired)
  {
    SendableIsRead(s, wire, now, sha256);
    hide Members, Validate, ValueOf, EnvelopeRefused, TooLarge, HashAgrees, SelfCertified;
    RefusedWithItsCode(s, wire, later, sha256);
  }

  /** Anything but an object has no contract version. */
  lemma OnlyObjectsAreSnapshots(raw: Json, now: real, sha256: JsString -> JsString)
    requires !raw.Obj?
    ensures Validate(raw, now, sha256) == Err(ContractUnavailable)
  {
    assert Get([], Units("contract_version")) == Undefined;
  }
}
