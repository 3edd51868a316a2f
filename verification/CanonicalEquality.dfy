/**
 * What equal canonical strings mean: on plain values, exactly equality as JSON values, with
 * objects read as maps and the two zeros equal.
 */
module CanonicalEquality {
  import opened Options
  import opened JsText
  import opened CanonicalJson

  // ---------------------------------------------------------------------------
  // Values
  // ---------------------------------------------------------------------------

  function Find(members: seq<Member>, key: JsString): (r: Option<Json>)
    ensures r.Some? ==> exists i :: 0 <= i < |members| && members[i] == Member(key, r.value)
    ensures r.None? ==> forall i :: 0 <= i < |members| ==> members[i].key != key
  {
    if members == [] then None
    else if members[0].key == key then Some(members[0].value)
    else Find(members[1..], key)
  }

  predicate DistinctKeys(members: seq<Member>) {
    forall i, j :: 0 <= i < j < |members| ==> members[i].key != members[j].key
  }

  /** Under distinct keys every member is found. */
  lemma FoundAt(members: seq<Member>, j: nat)
    requires DistinctKeys(members) && j < |members|
    ensures Find(members, members[j].key) == Some(members[j].value)
  {
    var i :| 0 <= i < |members| && members[i] == Member(members[j].key, Find(members, members[j].key).value);
  }

  /** Finite numbers, nothing undefined, distinct keys, and no object that imitates a number. */
  predicate Plain(v: Json) {
    match v
    case Undefined => false
    case Num(b) => IsFinite(b)
    case Arr(items) => forall i :: 0 <= i < |items| ==> Plain(items[i])
    case Obj(members) =>
      && DistinctKeys(members)
      && !(|members| == 1 && members[0].key == NUMBER_KEY)
      && forall i :: 0 <= i < |members| ==> Plain(members[i].value)
    case _ => true
  }

  /** Equality of values: arrays by position, objects as maps, the two zeros alike. */
  ghost predicate Equal(a: Json, b: Json)
    decreases a
  {
    match a
    case Null => b.Null?
    case Undefined => b.Undefined?
    case Bool(_) => a == b
    case Num(x) => b.Num? && Normalized(x) == Normalized(b.bytes)
    case Str(_) => a == b
    case Arr(items) =>
      b.Arr? && |items| == |b.items| && forall i :: 0 <= i < |items| ==> Equal(items[i], b.items[i])
    case Obj(members) =>
      b.Obj? && forall key ::
        && (Find(members, key).Some? <==> Find(b.members, key).Some?)
        && (Find(members, key).Some? ==> Equal(Find(members, key).value, Find(b.members, key).value))
  }

  // ---------------------------------------------------------------------------
  // Key order
  // ---------------------------------------------------------------------------

  lemma {:induction false} LessIrreflexive(a: JsString)
    ensures !Less(a, a)
  {
    if a != [] { LessIrreflexive(a[1..]); }
  }

  lemma {:induction false} LessTotal(a: JsString, b: JsString)
    ensures Less(a, b) || Less(b, a) || a == b
  {
    if a != [] && b != [] && a[0] == b[0] {
      LessTotal(a[1..], b[1..]);
      assert a == [a[0]] + a[1..] && b == [b[0]] + b[1..];
    }
  }

  lemma {:induction false} LessTransitive(a: JsString, b: JsString, c: JsString)
    requires Less(a, b) && Less(b, c)
    ensures Less(a, c)
  {
    if a != [] && a[0] == b[0] && b[0] == c[0] { LessTransitive(a[1..], b[1..], c[1..]); }
  }

  predicate Sorted(members: seq<CMember>) {
    forall i, j :: 0 <= i < j < |members| ==> Less(members[i].key, members[j].key)
  }

  function FindC(members: seq<CMember>, key: JsString): (r: Option<Canon>)
    ensures r.Some? ==> exists i :: 0 <= i < |members| && members[i] == CMember(key, r.value)
    ensures r.None? ==> forall i :: 0 <= i < |members| ==> members[i].key != key
  {
    if members == [] then None
    else if members[0].key == key then Some(members[0].value)
    else FindC(members[1..], key)
  }

  lemma {:induction false} InsertFinds(m: CMember, s: seq<CMember>, key: JsString)
    requires FindC(s, m.key).None?
    ensures FindC(Insert(m, s), key) == if key == m.key then Some(m.value) else FindC(s, key)
  {
    hide Less;
    if !(s == [] || Less(m.key, s[0].key)) {
      InsertFinds(m, s[1..], key);
      var rest := Insert(m, s[1..]);
      assert ([s[0]] + rest)[1..] == rest;
    } else {
      assert ([m] + s)[1..] == s;
    }
  }

  lemma {:induction false} InsertSorts(m: CMember, s: seq<CMember>)
    requires Sorted(s) && FindC(s, m.key).None?
    ensures Sorted(Insert(m, s))
  {
    hide Less;
    if s != [] {
      if Less(m.key, s[0].key) {
        forall j | 1 <= j < |s| ensures Less(m.key, s[j].key) { LessTransitive(m.key, s[0].key, s[j].key); }
      } else {
        LessTotal(m.key, s[0].key);
        InsertSorts(m, s[1..]);
        var rest := Insert(m, s[1..]);
        forall j | 0 <= j < |rest| ensures Less(s[0].key, rest[j].key) {
          InsertMembers(m, s[1..], j);
        }
      }
    }
  }

  lemma {:induction false} InsertMembers(m: CMember, s: seq<CMember>, j: nat)
    requires j < |Insert(m, s)|
    ensures Insert(m, s)[j] == m || Insert(m, s)[j] in s
  {
    if !(s == [] || Less(m.key, s[0].key)) && j > 0 { InsertMembers(m, s[1..], j - 1); }
  }

  predicate DistinctCKeys(members: seq<CMember>) {
    forall i, j :: 0 <= i < j < |members| ==> members[i].key != members[j].key
  }

  lemma {:induction false} FindCLast(members: seq<CMember>, key: JsString)
    requires members != [] && DistinctCKeys(members)
    ensures var n := |members| - 1;
            FindC(members, key) == if members[n].key == key then Some(members[n].value) else FindC(members[..n], key)
  {
    var n := |members| - 1;
    if n > 0 {
      FindCLast(members[1..], key);
      assert members[1..][..n - 1] == members[..n][1..];
    }
  }

  /** Sorting orders strictly and loses or confuses nothing. */
  lemma {:induction false} SortSorts(members: seq<CMember>)
    requires DistinctCKeys(members)
    ensures Sorted(Sort(members))
    ensures forall key :: FindC(Sort(members), key) == FindC(members, key)
  {
    hide Less, Insert;
    if members != [] {
      var n := |members| - 1;
      var m, before := members[n], Sort(members[..n]);
      SortSorts(members[..n]);
      assert FindC(before, m.key).None?;
      InsertSorts(m, before);
      forall key ensures FindC(Sort(members), key) == FindC(members, key) {
        InsertFinds(m, before, key);
        FindCLast(members, key);
      }
    }
  }

  /** Strictly sorted members are determined by what can be looked up in them. */
  lemma {:induction false} SortedMembersAreDetermined(a: seq<CMember>, b: seq<CMember>)
    requires Sorted(a) && Sorted(b)
    requires forall key :: FindC(a, key) == FindC(b, key)
    ensures a == b
  {
    hide Less;
    EmptyTogether(a, b);
    EmptyTogether(b, a);
    if a != [] {
      HeadsAgree(a, b);
      forall key ensures FindC(a[1..], key) == FindC(b[1..], key) {
        LessIrreflexive(a[0].key);
        assert FindC(a, key) == FindC(b, key);
        if key == a[0].key {
          assert FindC(a[1..], key).None? && FindC(b[1..], key).None?;
        }
      }
      SortedMembersAreDetermined(a[1..], b[1..]);
      assert a == [a[0]] + a[1..] && b == [b[0]] + b[1..];
    }
  }

  lemma EmptyTogether(a: seq<CMember>, b: seq<CMember>)
    requires forall key :: FindC(a, key) == FindC(b, key)
    ensures a != [] ==> b != []
  {
    if a != [] { assert FindC(b, a[0].key) == FindC(a, a[0].key); }
  }

  lemma HeadsAgree(a: seq<CMember>, b: seq<CMember>)
    requires a != [] && b != [] && Sorted(a) && Sorted(b)
    requires forall key :: FindC(a, key) == FindC(b, key)
    ensures a[0] == b[0]
  {
    hide Less;
    var k, l := a[0].key, b[0].key;
    assert FindC(a, k) == FindC(b, k) && FindC(a, l) == FindC(b, l);
    var i :| 0 <= i < |b| && b[i].key == k;
    var j :| 0 <= j < |a| && a[j].key == l;
    if i > 0 && j > 0 {
      LessTransitive(k, l, k);
      LessIrreflexive(k);
    }
  }

  // ---------------------------------------------------------------------------
  // Normal forms and values
  // ---------------------------------------------------------------------------

  function NormFound(found: Option<Json>): Option<Canon> {
    if found.None? || found.value.Undefined? then None else Some(Norm(found.value))
  }

  lemma {:induction false} NormMembersFind(members: seq<Member>, key: JsString)
    requires DistinctKeys(members)
    ensures FindC(NormMembers(members), key) == NormFound(Find(members, key))
    ensures DistinctCKeys(NormMembers(members))
  {
    hide Norm;
    if members != [] {
      var m := members[0];
      NormMembersFind(members[1..], key);
      NormMembersFind(members[1..], m.key);
      LaterKeysDiffer(members);
      var rest := NormMembers(members[1..]);
      hide Find, NormMembers, DistinctKeys;
      if !m.value.Undefined? {
        PrependFinds(CMember(m.key, Norm(m.value)), rest, key);
      }
    }
  }

  lemma LaterKeysDiffer(members: seq<Member>)
    requires DistinctKeys(members) && members != []
    ensures DistinctKeys(members[1..]) && Find(members[1..], members[0].key).None?
    ensures forall key :: Find(members, key)
                          == if key == members[0].key then Some(members[0].value) else Find(members[1..], key)
    ensures NormMembers(members)
            == if members[0].value.Undefined? then NormMembers(members[1..])
               else [CMember(members[0].key, Norm(members[0].value))] + NormMembers(members[1..])
  {
    hide Norm;
  }

  lemma PrependFinds(m: CMember, rest: seq<CMember>, key: JsString)
    requires DistinctCKeys(rest) && FindC(rest, m.key).None?
    ensures FindC([m] + rest, key) == if key == m.key then Some(m.value) else FindC(rest, key)
    ensures DistinctCKeys([m] + rest)
  {
    assert ([m] + rest)[1..] == rest;
  }

  lemma NormObject(members: seq<Member>)
    requires DistinctKeys(members)
    ensures Sorted(Sort(NormMembers(members)))
    ensures forall key :: FindC(Sort(NormMembers(members)), key) == NormFound(Find(members, key))
  {
    NormMembersFind(members, []);
    SortSorts(NormMembers(members));
    forall key ensures FindC(Sort(NormMembers(members)), key) == NormFound(Find(members, key)) {
      NormMembersFind(members, key);
    }
  }

  /** The two objects print something for the same keys, and the same thing. */
  ghost predicate SameLookups(a: seq<Member>, b: seq<Member>) {
    forall key :: NormFound(Find(a, key)) == NormFound(Find(b, key))
  }

  lemma NormOfObject(members: seq<Member>)
    ensures Norm(Obj(members)) == CObj(Sort(NormMembers(members)))
  {
  }

  /** Objects with the same lookups have the same normal form, and conversely. */
  lemma NormObjectsAgree(a: seq<Member>, b: seq<Member>)
    requires DistinctKeys(a) && DistinctKeys(b)
    ensures Norm(Obj(a)) == Norm(Obj(b)) <==> SameLookups(a, b)
  {
    NormObject(a);
    NormObject(b);
    NormOfObject(a);
    NormOfObject(b);
    hide Norm, Sorted, Sort, NormMembers, NormFound, FindC, Find;
    if Norm(Obj(a)) == Norm(Obj(b)) {
      forall key ensures NormFound(Find(a, key)) == NormFound(Find(b, key)) {
        assert FindC(Sort(NormMembers(a)), key) == FindC(Sort(NormMembers(b)), key);
      }
    }
    if SameLookups(a, b) {
      SortedMembersAreDetermined(Sort(NormMembers(a)), Sort(NormMembers(b)));
    }
  }

  /** The same value but for the order of members, at any depth, in objects with distinct keys. */
  ghost predicate Rearranged(a: Json, b: Json)
    decreases a
  {
    || a == b
    || (&& a.Arr? && b.Arr? && |a.items| == |b.items|
        && forall i :: 0 <= i < |a.items| ==> Rearranged(a.items[i], b.items[i]))
    || (&& a.Obj? && b.Obj? && DistinctKeys(a.members) && DistinctKeys(b.members)
        && (forall key :: Find(a.members, key).Some? <==> Find(b.members, key).Some?)
        && (forall key :: Find(a.members, key).Some? ==>
              Rearranged(Find(a.members, key).value, Find(b.members, key).value)))
  }

  /** Reordering the members of objects, at any depth, never changes what is printed. */
  lemma MemberOrderDoesNotMatter(a: Json, b: Json)
    requires Rearranged(a, b)
    ensures CanonicalString(a) == CanonicalString(b)
  {
    RearrangedNorm(a, b);
  }

  lemma {:induction false} RearrangedNorm(a: Json, b: Json)
    requires Rearranged(a, b)
    ensures Norm(a) == Norm(b)
    decreases a
  {
    if a == b {
    } else if a.Arr? {
      forall i | 0 <= i < |a.items| ensures Norm(a.items[i]) == Norm(b.items[i]) {
        RearrangedNorm(a.items[i], b.items[i]);
      }
      ItemsNormAlike(a.items, b.items);
    } else {
      forall key ensures NormFound(Find(a.members, key)) == NormFound(Find(b.members, key)) {
        if Find(a.members, key).Some? {
          var i :| 0 <= i < |a.members| && a.members[i] == Member(key, Find(a.members, key).value);
          RearrangedNorm(a.members[i].value, Find(b.members, key).value);
          UndefinedTogether(a.members[i].value, Find(b.members, key).value);
        }
      }
      hide Norm, Rearranged, Find;
      assert a == Obj(a.members) && b == Obj(b.members);
      NormObjectsAgree(a.members, b.members);
    }
  }

  lemma UndefinedTogether(a: Json, b: Json)
    requires Rearranged(a, b)
    ensures a.Undefined? <==> b.Undefined?
  {
  }

  lemma {:induction false} ItemsNormAlike(a: seq<Json>, b: seq<Json>)
    requires |a| == |b| && forall i :: 0 <= i < |a| ==> Norm(a[i]) == Norm(b[i])
    ensures Norm(Arr(a)) == Norm(Arr(b))
    ensures NormItems(a) == NormItems(b)
  {
    if a != [] {
      ItemsNormAlike(a[1..], b[1..]);
    }
  }

  /** Permuting the members of one object rearranges it. */
  lemma PermutationIsRearranged(a: seq<Member>, b: seq<Member>)
    requires DistinctKeys(a) && multiset(a) == multiset(b)
    ensures Rearranged(Obj(a), Obj(b))
  {
    PermutedKeysAreDistinct(a, b);
    forall key ensures Find(a, key) == Find(b, key) {
      if Find(a, key).Some? {
        PermutedFind(a, b, key);
      } else if Find(b, key).Some? {
        PermutedFind(b, a, key);
      }
    }
  }

  lemma PermutedFind(a: seq<Member>, b: seq<Member>, key: JsString)
    requires DistinctKeys(a) && DistinctKeys(b) && multiset(a) == multiset(b) && Find(a, key).Some?
    ensures Find(b, key) == Find(a, key)
  {
    var m := Member(key, Find(a, key).value);
    assert m in multiset(a);
    assert m in b;
    var i :| 0 <= i < |b| && b[i] == m;
    assert Find(b, key).Some?;
    var j :| 0 <= j < |b| && b[j] == Member(key, Find(b, key).value);
    assert i == j;
  }

  lemma PermutedKeysAreDistinct(a: seq<Member>, b: seq<Member>)
    requires DistinctKeys(a) && multiset(a) == multiset(b)
    ensures DistinctKeys(b)
  {
    forall i, j | 0 <= i < j < |b| ensures b[i].key != b[j].key {
      if b[i].key == b[j].key {
        assert b[i] in multiset(a) && b[j] in multiset(a);
        var p :| 0 <= p < |a| && a[p] == b[i];
        var q :| 0 <= q < |a| && a[q] == b[j];
        assert p == q;
        TwiceIn(b, i, j);
        OnceIn(a, p);
      }
    }
  }

  lemma TwiceIn(s: seq<Member>, i: nat, j: nat)
    requires i < j < |s| && s[i] == s[j]
    ensures multiset(s)[s[i]] >= 2
  {
    assert s == s[..i] + [s[i]] + s[i + 1..j] + [s[j]] + s[j + 1..];
  }

  lemma OnceIn(s: seq<Member>, i: nat)
    requires i < |s| && DistinctKeys(s)
    ensures multiset(s)[s[i]] == 1
  {
    assert s == s[..i] + [s[i]] + s[i + 1..];
    assert s[i] !in s[..i] && s[i] !in s[i + 1..];
  }

  lemma {:induction false} ImitationNeedsOneMember(members: seq<Member>)
    requires Plain(Obj(members))
    ensures |NormMembers(members)| == |members| && |Sort(NormMembers(members))| == |members|
    ensures forall m :: Norm(Obj(members)) != CObj([CMember(NUMBER_KEY, m)])
  {
    hide Norm;
    NormMembersLength(members);
    SortLength(NormMembers(members));
    NormObject(members);
    if |members| == 1 {
      var s := Sort(NormMembers(members));
      assert FindC(s, NUMBER_KEY) == NormFound(Find(members, NUMBER_KEY)) == None;
      assert s[0].key != NUMBER_KEY;
    }
    assert Norm(Obj(members)) == CObj(Sort(NormMembers(members))) by { NormOfObject(members); }
  }

  lemma {:induction false} NormMembersLength(members: seq<Member>)
    requires forall i :: 0 <= i < |members| ==> !members[i].value.Undefined?
    ensures |NormMembers(members)| == |members|
  {
    hide Norm;
    if members != [] { NormMembersLength(members[1..]); }
  }

  lemma {:induction false} InsertLength(m: CMember, s: seq<CMember>)
    ensures |Insert(m, s)| == |s| + 1
  {
    if !(s == [] || Less(m.key, s[0].key)) { InsertLength(m, s[1..]); }
  }

  lemma {:induction false} SortLength(s: seq<CMember>)
    ensures |Sort(s)| == |s|
  {
    if s != [] {
      SortLength(s[..|s| - 1]);
      InsertLength(s[|s| - 1], Sort(s[..|s| - 1]));
    }
  }

  lemma {:induction false} NormDecidesEquality(a: Json, b: Json)
    requires Plain(a) && Plain(b)
    ensures Norm(a) == Norm(b) <==> Equal(a, b)
    decreases a
  {
    match a {
      case Num(x) =>
        if b.Num? {
          NumbersDecide(x, b.bytes);
        } else if b.Obj? {
          ImitationNeedsOneMember(b.members);
        }
      case Arr(items) =>
        if b.Arr? && |items| == |b.items| {
          forall i | 0 <= i < |items| ensures Norm(items[i]) == Norm(b.items[i]) <==> Equal(items[i], b.items[i]) {
            NormDecidesEquality(items[i], b.items[i]);
          }
          hide Norm, Equal;
          ArraysDecide(items, b.items);
        }
      case Obj(members) =>
        if b.Num? {
          ImitationNeedsOneMember(members);
        } else if b.Obj? {
          forall key | Find(members, key).Some? && Find(b.members, key).Some?
            ensures Norm(Find(members, key).value) == Norm(Find(b.members, key).value)
                <==> Equal(Find(members, key).value, Find(b.members, key).value)
            ensures !Find(members, key).value.Undefined? && !Find(b.members, key).value.Undefined?
          {
            NormDecidesEquality(Find(members, key).value, Find(b.members, key).value);
          }
          NormObjectsAgree(members, b.members);
          ObjectsDecide(members, b.members);
        }
      case _ =>
    }
  }

  lemma NumbersDecide(x: Float64, y: Float64)
    requires IsFinite(x) && IsFinite(y)
    ensures Norm(Num(x)) == Norm(Num(y)) <==> Normalized(x) == Normalized(y)
  {
    if Norm(Num(x)) == Norm(Num(y)) {
      assert Norm(Num(x)).members[0] == Norm(Num(y)).members[0];
      HexDecides(Normalized(x), Normalized(y));
    }
  }

  lemma ArraysDecide(a: seq<Json>, b: seq<Json>)
    requires |a| == |b|
    requires forall i :: 0 <= i < |a| ==> (Norm(a[i]) == Norm(b[i]) <==> Equal(a[i], b[i]))
    ensures Norm(Arr(a)) == Norm(Arr(b)) <==> Equal(Arr(a), Arr(b))
  {
    var p, q := NormItems(a), NormItems(b);
    assert Norm(Arr(a)) == CArr(p) && Norm(Arr(b)) == CArr(q);
    if Norm(Arr(a)) == Norm(Arr(b)) {
      forall i | 0 <= i < |a| ensures Equal(a[i], b[i]) { assert p[i] == q[i]; }
    }
    if Equal(Arr(a), Arr(b)) {
      assert forall i :: 0 <= i < |a| ==> p[i] == q[i];
    }
  }

  predicate AllDefined(members: seq<Member>) {
    forall i :: 0 <= i < |members| ==> !members[i].value.Undefined?
  }

  lemma ObjectsDecide(a: seq<Member>, b: seq<Member>)
    requires AllDefined(a) && AllDefined(b)
    requires forall key :: Find(a, key).Some? && Find(b, key).Some? ==>
               && (Norm(Find(a, key).value) == Norm(Find(b, key).value)
                   <==> Equal(Find(a, key).value, Find(b, key).value))
    ensures SameLookups(a, b) <==> Equal(Obj(a), Obj(b))
  {
    hide Norm;
    forall key ensures Find(a, key).Some? ==> !Find(a, key).value.Undefined? {}
    forall key ensures Find(b, key).Some? ==> !Find(b, key).value.Undefined? {}
    if SameLookups(a, b) {
      forall key
        ensures Find(a, key).Some? <==> Find(b, key).Some?
        ensures Find(a, key).Some? ==> Equal(Find(a, key).value, Find(b, key).value)
      {
        assert NormFound(Find(a, key)) == NormFound(Find(b, key));
      }
      assert Obj(a).members == a && Obj(b).members == b;
      assert Equal(Obj(a), Obj(b));
    }
    if Equal(Obj(a), Obj(b)) {
      forall key ensures NormFound(Find(a, key)) == NormFound(Find(b, key)) {
        assert Find(a, key).Some? <==> Find(b, key).Some?;
      }
    }
  }

  /** On plain values, equal canonical strings mean equal values, and equal values print alike. */
  lemma CanonicalStringDecidesEquality(a: Json, b: Json)
    requires Plain(a) && Plain(b)
    ensures CanonicalString(a) == CanonicalString(b) <==> Equal(a, b)
  {
    CanonicalStringDecidesNorm(a, b);
    NormDecidesEquality(a, b);
  }

  // ---------------------------------------------------------------------------
  // For all values: what a string tells
  // ---------------------------------------------------------------------------

  /** The value as the printer spells it: undefined and non-finite as null, undefined members left out. */
  function Spelled(v: Json): (r: Json)
    ensures !r.Undefined? && !r.Num?
    decreases v, 1
  {
    match v
    case Undefined => Null
    case Num(b) => if IsFinite(b) then Obj([Member(NUMBER_KEY, Str(Hex(Normalized(b))))]) else Null
    case Arr(items) => Arr(SpelledItems(items))
    case Obj(members) => Obj(SpelledMembers(members))
    case _ => v
  }

  function SpelledItems(items: seq<Json>): (r: seq<Json>)
    ensures |r| == |items| && forall i :: 0 <= i < |items| ==> r[i] == Spelled(items[i])
    decreases items, 0
  {
    if items == [] then [] else [Spelled(items[0])] + SpelledItems(items[1..])
  }

  function SpelledMembers(members: seq<Member>): (r: seq<Member>)
    ensures AllDefined(r)
    ensures forall i :: 0 <= i < |r| ==>
              exists j :: 0 <= j < |members| && r[i] == Member(members[j].key, Spelled(members[j].value))
    decreases members, 0
  {
    if members == [] then []
    else
      var rest := SpelledMembers(members[1..]);
      assert forall j :: 0 <= j < |members| - 1 ==> members[1..][j] == members[j + 1];
      if members[0].value.Undefined? then rest else [Member(members[0].key, Spelled(members[0].value))] + rest
  }

  /** Objects have distinct keys, at every depth, as every object of the language has. */
  predicate WellKeyed(v: Json) {
    match v
    case Arr(items) => forall i :: 0 <= i < |items| ==> WellKeyed(items[i])
    case Obj(members) => DistinctKeys(members) && forall i :: 0 <= i < |members| ==> WellKeyed(members[i].value)
    case _ => true
  }

  /** Nothing undefined, no numbers, and distinct keys. */
  predicate Bare(v: Json) {
    match v
    case Undefined => false
    case Num(_) => false
    case Arr(items) => forall i :: 0 <= i < |items| ==> Bare(items[i])
    case Obj(members) => DistinctKeys(members) && forall i :: 0 <= i < |members| ==> Bare(members[i].value)
    case _ => true
  }

  lemma SpelledNumber(b: Float64)
    requires IsFinite(b)
    ensures Norm(Spelled(Num(b))) == Norm(Num(b)) && Bare(Spelled(Num(b)))
  {
    var spelled := [Member(NUMBER_KEY, Str(Hex(Normalized(b))))];
    assert spelled[1..] == [];
    var m := CMember(NUMBER_KEY, CStr(Hex(Normalized(b))));
    assert NormMembers(spelled) == [m];
    assert [m][..0] == [];
    assert Sort([m]) == [m];
  }

  /** Spelling does not change what is printed. */
  lemma {:induction false} SpelledKeepsNorm(v: Json)
    ensures Norm(Spelled(v)) == Norm(v)
    decreases v, 1
  {
    match v {
      case Num(b) => if IsFinite(b) { SpelledNumber(b); }
      case Arr(items) =>
        forall i | 0 <= i < |items| ensures Norm(Spelled(items[i])) == Norm(items[i]) {
          SpelledKeepsNorm(items[i]);
        }
        ItemsNormAlike(SpelledItems(items), items);
      case Obj(members) => SpelledMembersKeepNorm(members);
      case _ =>
    }
  }

  lemma {:induction false} SpelledMembersKeepNorm(members: seq<Member>)
    ensures NormMembers(SpelledMembers(members)) == NormMembers(members)
    decreases members, 0
  {
    if members != [] {
      var m, rest := members[0], SpelledMembers(members[1..]);
      SpelledMembersKeepNorm(members[1..]);
      SpelledKeepsNorm(m.value);
      SpelledMembersStep(members);
      hide *;
      NormMembersCons(Member(m.key, Spelled(m.value)), rest);
      NormMembersCons(m, members[1..]);
      assert [m] + members[1..] == members;
    }
  }

  lemma SpelledMembersStep(members: seq<Member>)
    requires members != []
    ensures var m, rest := members[0], SpelledMembers(members[1..]);
            SpelledMembers(members) == if m.value.Undefined? then rest else [Member(m.key, Spelled(m.value))] + rest
  {
    hide Spelled;
  }

  lemma NormMembersCons(m: Member, rest: seq<Member>)
    ensures NormMembers([m] + rest)
            == if m.value.Undefined? then NormMembers(rest) else [CMember(m.key, Norm(m.value))] + NormMembers(rest)
  {
    hide Norm;
    assert ([m] + rest)[1..] == rest;
  }

  lemma {:induction false} SpelledIsBare(v: Json)
    requires WellKeyed(v)
    ensures Bare(Spelled(v))
    decreases v, 1
  {
    match v {
      case Num(b) => if IsFinite(b) { SpelledNumber(b); }
      case Arr(items) =>
        forall i | 0 <= i < |items| ensures Bare(Spelled(items[i])) {
          SpelledIsBare(items[i]);
        }
      case Obj(members) =>
        SpelledKeysAreDistinct(members);
        var spelled := SpelledMembers(members);
        forall i | 0 <= i < |spelled| ensures Bare(spelled[i].value) {
          var j :| 0 <= j < |members| && spelled[i] == Member(members[j].key, Spelled(members[j].value));
          SpelledIsBare(members[j].value);
        }
      case _ =>
    }
  }

  lemma {:induction false} SpelledKeysAreDistinct(members: seq<Member>)
    requires DistinctKeys(members)
    ensures DistinctKeys(SpelledMembers(members))
  {
    hide Spelled;
    if members != [] {
      SpelledKeysAreDistinct(members[1..]);
      var rest := SpelledMembers(members[1..]);
      forall i | 0 <= i < |rest| ensures rest[i].key != members[0].key {
        var j :| 0 <= j < |members[1..]| && rest[i] == Member(members[1..][j].key, Spelled(members[1..][j].value));
        assert members[1..][j] == members[j + 1];
      }
    }
  }

  lemma {:induction false} BareNormDecidesEquality(a: Json, b: Json)
    requires Bare(a) && Bare(b)
    ensures Norm(a) == Norm(b) <==> Equal(a, b)
    decreases a
  {
    match a {
      case Arr(items) =>
        if b.Arr? && |items| == |b.items| {
          forall i | 0 <= i < |items| ensures Norm(items[i]) == Norm(b.items[i]) <==> Equal(items[i], b.items[i]) {
            BareNormDecidesEquality(items[i], b.items[i]);
          }
          hide Norm, Equal;
          ArraysDecide(items, b.items);
        }
      case Obj(members) =>
        if b.Obj? {
          forall key | Find(members, key).Some? && Find(b.members, key).Some?
            ensures Norm(Find(members, key).value) == Norm(Find(b.members, key).value)
                <==> Equal(Find(members, key).value, Find(b.members, key).value)
          {
            BareNormDecidesEquality(Find(members, key).value, Find(b.members, key).value);
          }
          NormObjectsAgree(members, b.members);
          ObjectsDecide(members, b.members);
        }
      case _ =>
    }
  }

  /**
   * For all values: equal strings exactly when the values are equal after undefined and non-finite
   * become null, undefined members are left out, and numbers are spelled as the objects they print as.
   */
  lemma CanonicalStringDecidesSpelling(a: Json, b: Json)
    requires WellKeyed(a) && WellKeyed(b)
    ensures CanonicalString(a) == CanonicalString(b) <==> Equal(Spelled(a), Spelled(b))
  {
    hide Norm, CanonicalString, Equal, Spelled, Bare;
    CanonicalStringDecidesNorm(a, b);
    SpelledKeepsNorm(a);
    SpelledKeepsNorm(b);
    SpelledIsBare(a);
    SpelledIsBare(b);
    BareNormDecidesEquality(Spelled(a), Spelled(b));
  }

  /** Why plain: a number prints like the object that spells it, and the unprintable print like null. */
  lemma Collisions(x: Float64)
    ensures IsFinite(x) ==>
              CanonicalString(Num(x)) == CanonicalString(Obj([Member(NUMBER_KEY, Str(Hex(Normalized(x))))]))
    ensures !IsFinite(x) ==> CanonicalString(Num(x)) == CanonicalString(Null)
    ensures CanonicalString(Undefined) == CanonicalString(Null)
  {
    if IsFinite(x) { SpelledNumber(x); }
  }
}
