/**
 * The behavioural projection of strategy rules and its hash. SHA-256 is a parameter: nothing
 * here depends on what it computes.
 */
module StrategyRules {
  import opened Options
  import opened JsText
  import opened CanonicalJson
  import opened CanonicalEquality
  import opened Sequences

  datatype Field = EntryConditions | ExitConditions | RiskManagement | Indicators | Filters

  const FIELDS: seq<Field> := [EntryConditions, ExitConditions, RiskManagement, Indicators, Filters]

  function FieldKey(field: Field): JsString {
    match field
    case EntryConditions => Units("entry_conditions")
    case ExitConditions => Units("exit_conditions")
    case RiskManagement => Units("risk_management")
    case Indicators => Units("indicators")
    case Filters => Units("filters")
  }

  datatype ShapeError = NotAnObject | WrongField(field: Field)

  /** `source[key]`. */
  function Get(members: seq<Member>, key: JsString): Json {
    Find(members, key).GetOr(Undefined)
  }

  predicate IsAbsent(v: Json) {
    v.Null? || v.Undefined?
  }

  function DropAbsent(members: seq<Member>): seq<Member> {
    if members == [] then []
    else (if IsAbsent(members[0].value) then [] else [members[0]]) + DropAbsent(members[1..])
  }

  /** The canonical value of one field, or its shape error. */
  function CanonicalField(field: Field, value: Json): Result<Json, ShapeError> {
    if IsAbsent(value) then Ok(if field.RiskManagement? then Obj([]) else Arr([]))
    else if field.RiskManagement? then
      if value.Obj? then Ok(Obj(DropAbsent(value.members))) else Err(WrongField(field))
    else if value.Arr? then Ok(value)
    else Err(WrongField(field))
  }

  /** `members` are the canonical fields of `source`, from the `i`-th on. */
  predicate AreFieldsFrom(source: seq<Member>, i: nat, members: seq<Member>) {
    && i + |members| == |FIELDS|
    && forall k :: 0 <= k < |members| ==> IsField(source, FIELDS[i + k], members[k])
  }

  predicate IsField(source: seq<Member>, field: Field, member: Member) {
    member.key == FieldKey(field) && CanonicalField(field, Get(source, FieldKey(field))) == Ok(member.value)
  }

  function Prepend(members: seq<Member>, rest: Result<seq<Member>, ShapeError>): Result<seq<Member>, ShapeError> {
    if rest.Err? then rest else Ok(members + rest.value)
  }

  /** The fields from `i` on. */
  function CanonicalFrom(source: seq<Member>, i: nat): Result<seq<Member>, ShapeError>
    requires i <= |FIELDS|
    decreases |FIELDS| - i
  {
    if i == |FIELDS| then Ok([])
    else
      match CanonicalField(FIELDS[i], Get(source, FieldKey(FIELDS[i])))
      case Err(e) => Err(e)
      case Ok(value) => Prepend([Member(FieldKey(FIELDS[i]), value)], CanonicalFrom(source, i + 1))
  }

  lemma {:induction false} CanonicalFromIsFields(source: seq<Member>, i: nat)
    requires i <= |FIELDS| && CanonicalFrom(source, i).Ok?
    ensures AreFieldsFrom(source, i, CanonicalFrom(source, i).value)
    decreases |FIELDS| - i
  {
    hide FieldKey, CanonicalField, Get;
    if i < |FIELDS| {
      CanonicalFromIsFields(source, i + 1);
      assert IsField(source, FIELDS[i], CanonicalFrom(source, i).value[0]);
      hide IsField;
    }
  }

  function SourceOf(rules: Json): Result<seq<Member>, ShapeError> {
    if IsAbsent(rules) then Ok([]) else if rules.Obj? then Ok(rules.members) else Err(NotAnObject)
  }

  function Canonicalize(rules: Json): Result<seq<Member>, ShapeError> {
    match SourceOf(rules)
    case Err(e) => Err(e)
    case Ok(source) => CanonicalFrom(source, 0)
  }

  method CanonicalizeStrategyRules(rules: Json) returns (r: Result<seq<Member>, ShapeError>)
    ensures r == Canonicalize(rules)
  {
    hide FieldKey, CanonicalField, Get, Prepend;
    if !IsAbsent(rules) && !rules.Obj? { return Err(NotAnObject); }
    var source := if IsAbsent(rules) then [] else rules.members;
    var canonical: seq<Member> := [];
    var i := 0;
    PrependNothing(CanonicalFrom(source, 0));
    while i < |FIELDS|
      invariant i <= |FIELDS|
      invariant Canonicalize(rules) == Prepend(canonical, CanonicalFrom(source, i))
    {
      var value := CanonicalField(FIELDS[i], Get(source, FieldKey(FIELDS[i])));
      if value.Err? {
        PrependError(canonical, value.error);
        return Err(value.error);
      }
      PrependTwice(canonical, [Member(FieldKey(FIELDS[i]), value.value)], CanonicalFrom(source, i + 1));
      canonical := canonical + [Member(FieldKey(FIELDS[i]), value.value)];
      i := i + 1;
    }
    PrependToNothing(canonical);
    r := Ok(canonical);
  }

  lemma PrependNothing(rest: Result<seq<Member>, ShapeError>)
    ensures Prepend([], rest) == rest
  {
    if rest.Ok? { assert [] + rest.value == rest.value; }
  }

  lemma PrependToNothing(a: seq<Member>)
    ensures Prepend(a, Ok([])) == Ok(a)
  {
    assert a + [] == a;
  }

  lemma PrependError(a: seq<Member>, e: ShapeError)
    ensures Prepend(a, Err(e)) == Err(e)
  {
  }

  lemma PrependTwice(a: seq<Member>, b: seq<Member>, rest: Result<seq<Member>, ShapeError>)
    ensures Prepend(a, Prepend(b, rest)) == Prepend(a + b, rest)
  {
    if rest.Ok? { assert a + (b + rest.value) == a + b + rest.value; }
  }

  function RulesHash(rules: Json, sha256: JsString -> JsString): Result<JsString, ShapeError> {
    match Canonicalize(rules)
    case Err(e) => Err(e)
    case Ok(canonical) => Ok(sha256(CanonicalString(Obj(canonical))))
  }

  // ---------------------------------------------------------------------------
  // Properties
  // ---------------------------------------------------------------------------

  lemma FieldKeysAreDistinct(f: Field, g: Field)
    requires FieldKey(f) == FieldKey(g)
    ensures f == g
  {
    assert |"exit_conditions"| == 15 && |"risk_management"| == 15 && |"entry_conditions"| == 16;
    assert FieldKey(ExitConditions)[0] == 0x65 && FieldKey(RiskManagement)[0] == 0x72;
  }

  predicate HasFieldKeys(canonical: seq<Member>) {
    |canonical| == |FIELDS| && forall k :: 0 <= k < |FIELDS| ==> canonical[k].key == FieldKey(FIELDS[k])
  }

  lemma CanonicalHasFieldKeys(rules: Json)
    requires Canonicalize(rules).Ok?
    ensures HasFieldKeys(Canonicalize(rules).value)
    ensures forall k :: 0 <= k < |FIELDS| ==> IsField(SourceOf(rules).value, FIELDS[k], Canonicalize(rules).value[k])
  {
    hide FieldKey, CanonicalField, Get;
    CanonicalFromIsFields(SourceOf(rules).value, 0);
    var canonical := Canonicalize(rules).value;
    forall k | 0 <= k < |FIELDS|
      ensures canonical[k].key == FieldKey(FIELDS[k]) && IsField(SourceOf(rules).value, FIELDS[k], canonical[k])
    {
      assert IsField(SourceOf(rules).value, FIELDS[0 + k], canonical[k]);
    }
  }

  lemma CanonicalKeysAreDistinct(canonical: seq<Member>)
    requires HasFieldKeys(canonical)
    ensures DistinctKeys(canonical)
    ensures forall k :: 0 <= k < |FIELDS| ==> Get(canonical, FieldKey(FIELDS[k])) == canonical[k].value
  {
    hide FieldKey;
    forall i, j | 0 <= i < j < |canonical| ensures canonical[i].key != canonical[j].key {
      if FieldKey(FIELDS[i]) == FieldKey(FIELDS[j]) { FieldKeysAreDistinct(FIELDS[i], FIELDS[j]); }
    }
    forall k | 0 <= k < |FIELDS| ensures Get(canonical, FieldKey(FIELDS[k])) == canonical[k].value {
      var i :| 0 <= i < |canonical| && canonical[i].key == FieldKey(FIELDS[k])
               && canonical[i].value == Get(canonical, FieldKey(FIELDS[k]));
      assert canonical[k].key == canonical[i].key;
      assert i == k;
    }
  }

  lemma {:induction false} DropAbsentKeeps(members: seq<Member>)
    ensures forall i :: 0 <= i < |DropAbsent(members)| ==> !IsAbsent(DropAbsent(members)[i].value)
    ensures (forall i :: 0 <= i < |members| ==> !IsAbsent(members[i].value)) ==> DropAbsent(members) == members
  {
    if members != [] { DropAbsentKeeps(members[1..]); }
  }

  lemma CanonicalFieldIsIdempotent(field: Field, value: Json)
    requires CanonicalField(field, value).Ok?
    ensures CanonicalField(field, CanonicalField(field, value).value) == CanonicalField(field, value)
  {
    if value.Obj? {
      DropAbsentKeeps(value.members);
      DropAbsentKeeps(DropAbsent(value.members));
    }
  }

  predicate IsNothing(v: Json) {
    v == Null || v == Undefined
  }

  /** Of the first `n` members those that are set, in order. */
  function Knobs(members: seq<Member>, n: nat): seq<Member>
    requires n <= |members|
  {
    if n == 0 then [] else Knobs(members, n - 1) + Knob(members[n - 1])
  }

  function Knob(member: Member): seq<Member> {
    if IsNothing(member.value) then [] else [member]
  }

  lemma {:induction false} KnobsBehind(members: seq<Member>, n: nat)
    requires members != [] && n < |members|
    ensures Knobs(members, n + 1) == Knob(members[0]) + Knobs(members[1..], n)
  {
    hide Knob;
    if n == 0 {
      assert Knobs(members, 0) == [];
    } else {
      KnobsBehind(members, n - 1);
      assert members[1..][n - 1] == members[n];
      Regroup(Knob(members[0]), Knobs(members[1..], n - 1), Knob(members[n]));
    }
  }

  lemma {:induction false} KnobsAreKept(members: seq<Member>)
    ensures DropAbsent(members) == Knobs(members, |members|)
  {
    if members != [] {
      KnobsAreKept(members[1..]);
      KnobsBehind(members, |members| - 1);
    }
  }

  /** What is at a key of the rules: nothing, the same as null, or a value. */
  function Sent(rules: Json, key: string): Json {
    if rules.Obj? then Get(rules.members, Units(key)) else Undefined
  }

  /** A list field as sent, or empty. */
  predicate ListField(member: Member, key: string, rules: Json) {
    && member.key == Units(key)
    && member.value == (if IsNothing(Sent(rules, key)) then Arr([]) else Sent(rules, key)) && member.value.Arr?
  }

  /** The risk object with the knobs that are set, or empty. */
  predicate RiskField(member: Member, rules: Json) {
    var sent := Sent(rules, "risk_management");
    && member.key == Units("risk_management")
    && if IsNothing(sent) then member.value == Obj([])
       else sent.Obj? && member.value == Obj(Knobs(sent.members, |sent.members|))
  }

  /** The canonical rules are these five fields, in this order, whatever else was sent. */
  lemma CanonicalFieldsAre(rules: Json)
    requires Canonicalize(rules).Ok?
    ensures var fields := Canonicalize(rules).value;
            && |fields| == 5 && (IsNothing(rules) || rules.Obj?)
            && ListField(fields[0], "entry_conditions", rules) && ListField(fields[1], "exit_conditions", rules)
            && RiskField(fields[2], rules)
            && ListField(fields[3], "indicators", rules) && ListField(fields[4], "filters", rules)
  {
    CanonicalHasFieldKeys(rules);
    var fields, source := Canonicalize(rules).value, SourceOf(rules).value;
    assert IsField(source, FIELDS[0], fields[0]) && IsField(source, FIELDS[1], fields[1]);
    assert IsField(source, FIELDS[2], fields[2]);
    assert IsField(source, FIELDS[3], fields[3]) && IsField(source, FIELDS[4], fields[4]);
    SentIsRead(rules, source, "filters");
    hide *;
    ListIsCanonical(rules, source, fields[0], EntryConditions);
    ListIsCanonical(rules, source, fields[1], ExitConditions);
    RiskIsCanonical(rules, source, fields[2]);
    ListIsCanonical(rules, source, fields[3], Indicators);
    ListIsCanonical(rules, source, fields[4], Filters);
    FieldNames();
  }

  lemma FieldNames()
    ensures FieldName(EntryConditions) == "entry_conditions" && FieldName(ExitConditions) == "exit_conditions"
    ensures FieldName(Indicators) == "indicators" && FieldName(Filters) == "filters"
  {
  }

  function FieldName(field: Field): string {
    match field
    case EntryConditions => "entry_conditions"
    case ExitConditions => "exit_conditions"
    case RiskManagement => "risk_management"
    case Indicators => "indicators"
    case Filters => "filters"
  }

  /** Rules that are absent read like an empty object. */
  lemma SentIsRead(rules: Json, source: seq<Member>, key: string)
    requires SourceOf(rules) == Ok(source)
    ensures Get(source, Units(key)) == Sent(rules, key)
            || (IsNothing(Get(source, Units(key))) && IsNothing(Sent(rules, key)))
    ensures IsNothing(rules) || rules.Obj?
  {
    hide Units;
  }

  lemma ListIsCanonical(rules: Json, source: seq<Member>, member: Member, field: Field)
    requires field != RiskManagement && SourceOf(rules) == Ok(source) && IsField(source, field, member)
    ensures ListField(member, FieldName(field), rules)
  {
    assert FieldKey(field) == Units(FieldName(field));
    SentIsRead(rules, source, FieldName(field));
    hide Sent, Units, Get, SourceOf, FieldKey, FieldName;
  }

  lemma RiskIsCanonical(rules: Json, source: seq<Member>, member: Member)
    requires SourceOf(rules) == Ok(source) && IsField(source, RiskManagement, member)
    ensures RiskField(member, rules)
  {
    SentIsRead(rules, source, "risk_management");
    var value := Get(source, Units("risk_management"));
    hide Sent, Units, Get, SourceOf;
    if value.Obj? { KnobsAreKept(value.members); }
  }

  predicate WrongList(v: Json) {
    !IsNothing(v) && !v.Arr?
  }

  /** Rules have a canonical form exactly when they are an object or absent and every field sent has its shape. */
  lemma CanonicalizesExactly(rules: Json)
    ensures Canonicalize(rules).Ok? <==>
            && (IsNothing(rules) || rules.Obj?)
            && !WrongList(Sent(rules, "entry_conditions")) && !WrongList(Sent(rules, "exit_conditions"))
            && (IsNothing(Sent(rules, "risk_management")) || Sent(rules, "risk_management").Obj?)
            && !WrongList(Sent(rules, "indicators")) && !WrongList(Sent(rules, "filters"))
  {
    hide Units, Get;
    if SourceOf(rules).Ok? {
      var source := SourceOf(rules).value;
      NothingSent();
      UnfoldFields(source);
    }
  }

  lemma NothingSent()
    ensures forall key :: Get([], key) == Undefined
  {
  }

  lemma UnfoldFields(source: seq<Member>)
    ensures CanonicalFrom(source, 0).Ok? <==>
            forall k :: 0 <= k < 5 ==> CanonicalField(FIELDS[k], Get(source, FieldKey(FIELDS[k]))).Ok?
  {
    hide FieldKey, Get, CanonicalField;
    FieldsFrom(source, 0);
  }

  lemma {:induction false} FieldsFrom(source: seq<Member>, i: nat)
    requires i <= 5
    ensures CanonicalFrom(source, i).Ok? <==>
            forall k :: i <= k < 5 ==> CanonicalField(FIELDS[k], Get(source, FieldKey(FIELDS[k]))).Ok?
    decreases 5 - i
  {
    hide FieldKey, Get, CanonicalField;
    if i < 5 { FieldsFrom(source, i + 1); }
  }

  /** Projecting a projection changes nothing. */
  lemma CanonicalizeIsIdempotent(rules: Json)
    requires Canonicalize(rules).Ok?
    ensures Canonicalize(Obj(Canonicalize(rules).value)) == Canonicalize(rules)
  {
    hide FieldKey, CanonicalField, Get, CanonicalFrom;
    var canonical := Canonicalize(rules).value;
    CanonicalHasFieldKeys(rules);
    CanonicalKeysAreDistinct(canonical);
    forall k | 0 <= k < |FIELDS| ensures IsField(canonical, FIELDS[k], canonical[k]) {
      assert IsField(SourceOf(rules).value, FIELDS[k], canonical[k]);
      CanonicalFieldIsIdempotent(FIELDS[k], Get(SourceOf(rules).value, FieldKey(FIELDS[k])));
    }
    FixedFrom(canonical, 0);
    assert canonical[0..] == canonical;
  }

  lemma {:induction false} FixedFrom(canonical: seq<Member>, i: nat)
    requires i <= |FIELDS| == |canonical|
    requires forall k :: 0 <= k < |FIELDS| ==> IsField(canonical, FIELDS[k], canonical[k])
    ensures CanonicalFrom(canonical, i) == Ok(canonical[i..])
    decreases |FIELDS| - i
  {
    hide CanonicalFrom, IsField;
    if i == |FIELDS| {
      NoFieldLeft(canonical);
    } else {
      FixedFrom(canonical, i + 1);
      FieldComesFirst(canonical, i, canonical[i]);
      hide *;
      OneMoreMember(canonical, i);
    }
  }

  lemma NoFieldLeft(canonical: seq<Member>)
    ensures CanonicalFrom(canonical, |FIELDS|) == Ok([])
    ensures |canonical| == |FIELDS| ==> canonical[|FIELDS|..] == []
  {
  }

  lemma OneMoreMember(members: seq<Member>, i: nat)
    requires i < |members|
    ensures Prepend([members[i]], Ok(members[i + 1..])) == Ok(members[i..])
  {
    assert members[i..] == [members[i]] + members[i + 1..];
  }

  lemma FieldComesFirst(source: seq<Member>, i: nat, member: Member)
    requires i < |FIELDS| && IsField(source, FIELDS[i], member)
    ensures CanonicalFrom(source, i) == Prepend([member], CanonicalFrom(source, i + 1))
  {
    hide FieldKey, CanonicalField, Get, Prepend;
    assert member == Member(FieldKey(FIELDS[i]), member.value);
  }

  /** Only the five behavioural fields matter: telemetry can neither change the projection nor fail it. */
  lemma {:induction false} OnlyBehaviourMatters(a: seq<Member>, b: seq<Member>, i: nat)
    requires i <= |FIELDS|
    requires forall field :: Get(a, FieldKey(field)) == Get(b, FieldKey(field))
    ensures CanonicalFrom(a, i) == CanonicalFrom(b, i)
    decreases |FIELDS| - i
  {
    hide FieldKey, CanonicalField, Get;
    if i < |FIELDS| { OnlyBehaviourMatters(a, b, i + 1); }
  }

  /** The two projections agree field by field, as values. */
  ghost predicate SameBehaviour(a: seq<Member>, b: seq<Member>) {
    forall field :: Equal(Get(a, FieldKey(field)), Get(b, FieldKey(field)))
  }

  /** Equal canonical strings mean equal behaviour, and equal behaviour hashes alike. */
  lemma CanonicalStringDecidesBehaviour(r1: Json, r2: Json)
    requires Canonicalize(r1).Ok? && Canonicalize(r2).Ok?
    requires Plain(Obj(Canonicalize(r1).value)) && Plain(Obj(Canonicalize(r2).value))
    ensures var a, b := Canonicalize(r1).value, Canonicalize(r2).value;
            CanonicalString(Obj(a)) == CanonicalString(Obj(b)) <==> SameBehaviour(a, b)
  {
    var a, b := Canonicalize(r1).value, Canonicalize(r2).value;
    CanonicalStringDecidesEquality(Obj(a), Obj(b));
    hide CanonicalString, FieldKey, CanonicalField, Canonicalize, Plain, SameBehaviour;
    CanonicalHasFieldKeys(r1);
    CanonicalHasFieldKeys(r2);
    FieldsDecideEquality(a, b);
  }

  function Position(field: Field): (k: nat)
    ensures k < |FIELDS| && FIELDS[k] == field
  {
    match field
    case EntryConditions => 0
    case ExitConditions => 1
    case RiskManagement => 2
    case Indicators => 3
    case Filters => 4
  }

  lemma FieldsDecideEquality(a: seq<Member>, b: seq<Member>)
    requires HasFieldKeys(a) && HasFieldKeys(b)
    ensures Equal(Obj(a), Obj(b)) <==> SameBehaviour(a, b)
  {
    hide FieldKey, HasFieldKeys, Find;
    assert Obj(a).members == a && Obj(b).members == b;
    forall field ensures Find(a, FieldKey(field)).Some? && Find(b, FieldKey(field)).Some? {
      FieldIsFound(a, field);
      FieldIsFound(b, field);
    }
    if SameBehaviour(a, b) {
      forall key
        ensures Find(a, key).Some? <==> Find(b, key).Some?
        ensures Find(a, key).Some? ==> Equal(Find(a, key).value, Find(b, key).value)
      {
        hide Equal;
        OnlyFieldsAreFound(a, key);
        OnlyFieldsAreFound(b, key);
        if field :| FieldKey(field) == key {
          assert Equal(Get(a, FieldKey(field)), Get(b, FieldKey(field)));
        }
      }
    }
  }

  lemma FieldIsFound(a: seq<Member>, field: Field)
    requires HasFieldKeys(a)
    ensures Find(a, FieldKey(field)).Some?
  {
    hide FieldKey;
    assert a[Position(field)].key == FieldKey(field);
  }

  lemma OnlyFieldsAreFound(a: seq<Member>, key: JsString)
    requires HasFieldKeys(a)
    ensures Find(a, key).Some? ==> exists field :: FieldKey(field) == key
  {
    hide FieldKey;
    if Find(a, key).Some? {
      var i :| 0 <= i < |a| && a[i] == Member(key, Find(a, key).value);
      assert FieldKey(FIELDS[i]) == key;
    }
  }
}
