/**
 * What the canonical printer writes, said by the grammar of RFC 8259 (sections 2 to 7) and not by
 * the printer: when a text spells a value.
 */
module CanonicalGrammar {
  import opened Options
  import opened JsText
  import opened CanonicalJson
  import opened CanonicalEquality
  import opened Sequences

  // ---------------------------------------------------------------------------
  // Strings
  // ---------------------------------------------------------------------------

  /** The value of a lower-case hexadecimal digit, or 16 for anything else. */
  function DigitValue(c: CodeUnit): (r: nat)
    ensures r <= 16
  {
    if 0x30 <= c <= 0x39 then c - 0x30 else if 0x61 <= c <= 0x66 then c - 0x61 + 10 else 16
  }

  predicate AreDigits(text: JsString) {
    forall i :: 0 <= i < |text| ==> DigitValue(text[i]) < 16
  }

  /** Digits read to the base 16. */
  function HexValue(text: JsString): nat {
    if text == [] then 0 else 16 * HexValue(text[..|text| - 1]) + DigitValue(text[|text| - 1])
  }

  /** The code unit that a backslash and this letter stand for. */
  function EscapeMeaning(letter: CodeUnit): Option<CodeUnit> {
    if letter == 0x22 || letter == 0x5C || letter == 0x2F then Some(letter)
    else if letter == Units("b")[0] then Some(8)
    else if letter == Units("t")[0] then Some(9)
    else if letter == Units("n")[0] then Some(10)
    else if letter == Units("f")[0] then Some(12)
    else if letter == Units("r")[0] then Some(13)
    else None
  }

  /** Half of a surrogate pair whose other half stands beside it. */
  predicate Paired(s: JsString, i: nat)
    requires i < |s|
  {
    || (0xD800 <= s[i] <= 0xDBFF && i + 1 < |s| && 0xDC00 <= s[i + 1] <= 0xDFFF)
    || (0xDC00 <= s[i] <= 0xDFFF && i > 0 && 0xD800 <= s[i - 1] <= 0xDBFF)
  }

  /**
   * The text of one unit of a string: a short escape where there is one, four digits for the other
   * controls and for surrogates without their other half, and otherwise the unit itself.
   */
  predicate SpellsUnit(text: JsString, s: JsString, i: nat)
    requires i < |s|
  {
    var c := s[i];
    if c in {0x22, 0x5C, 8, 9, 10, 12, 13} then
      |text| == 2 && text[0] == 0x5C && EscapeMeaning(text[1]) == Some(c)
    else if c < 0x20 || (0xD800 <= c <= 0xDFFF && !Paired(s, i)) then
      |text| == 6 && text[..2] == Units("\\u") && AreDigits(text[2..]) && HexValue(text[2..]) == c
    else text == [c]
  }

  ghost predicate SpellsUnits(parts: seq<JsString>, s: JsString) {
    |parts| == |s| && forall i :: 0 <= i < |s| ==> SpellsUnit(parts[i], s, i)
  }

  /** A string between quotation marks. */
  ghost predicate SpellsString(text: JsString, s: JsString) {
    exists parts :: SpellsUnits(parts, s) && text == Units("\"") + Concat(parts) + Units("\"")
  }

  // ---------------------------------------------------------------------------
  // Values
  // ---------------------------------------------------------------------------

  /** `a` comes before `b`: it is smaller at the first unit where they differ, or a proper start of `b`. */
  ghost predicate Before(a: JsString, b: JsString) {
    exists n: nat :: DifferFrom(a, b, n) && (if n < |a| then n < |b| && a[n] < b[n] else n < |b|)
  }

  predicate DifferFrom(a: JsString, b: JsString, n: nat) {
    n <= |a| && n <= |b| && a[..n] == b[..n]
  }

  /** The sixteen digits of a double's bytes, two a byte; the zero of either sign is spelled as bytes of zero. */
  predicate SpellsBytes(text: JsString, b: Float64) {
    && |text| == 16 && AreDigits(text)
    && forall i :: 0 <= i < 8 ==>
         16 * DigitValue(text[2 * i]) + DigitValue(text[2 * i + 1]) == if IsZero(b) then 0 else b[i]
  }

  /** Nothing set but perhaps the sign. */
  predicate IsZero(b: Float64) {
    b[0] % 128 == 0 && forall i :: 1 <= i < 8 ==> b[i] == 0
  }

  /** The eleven bits behind the sign. */
  function Exponent(b: Float64): nat {
    var sign, low: int := b[0], b[1];
    sign % 128 * 16 + low / 16
  }

  /** A finite number is an object with one member; infinities and NaN are null. */
  ghost predicate SpellsNumber(text: JsString, b: Float64) {
    if Exponent(b) == 2047 then text == Units("null")
    else
      exists digits :: SpellsBytes(digits, b)
                       && text == Units("{\"$number_f64\":\"") + digits + Units("\"}")
  }

  function Separated(parts: seq<JsString>): JsString {
    if parts == [] then []
    else if |parts| == 1 then parts[0]
    else parts[0] + Units(",") + Separated(parts[1..])
  }

  /** Every defined member is listed, in strictly ascending order of keys. */
  ghost predicate Lists(order: seq<nat>, members: seq<Member>) {
    && (forall i :: 0 <= i < |order| ==> order[i] < |members|)
    && (forall j :: 0 <= j < |members| ==> (j in order <==> !members[j].value.Undefined?))
    && (forall i, j :: 0 <= i < j < |order| ==> Before(members[order[i]].key, members[order[j]].key))
  }

  /** The text spells the value. */
  ghost predicate Spells(text: JsString, v: Json)
    decreases v
  {
    match v
    case Null => text == Units("null")
    case Undefined => text == Units("null")
    case Bool(b) => text == if b then Units("true") else Units("false")
    case Num(b) => SpellsNumber(text, b)
    case Str(s) => SpellsString(text, s)
    case Arr(items) =>
      exists parts :: SpellsItems(text, items, parts)
    case Obj(members) =>
      exists order, keys, values :: SpellsMembers(text, members, order, keys, values)
  }

  ghost predicate SpellsItems(text: JsString, items: seq<Json>, parts: seq<JsString>)
    decreases items
  {
    && |parts| == |items| && (forall i :: 0 <= i < |items| ==> Spells(parts[i], items[i]))
    && text == Units("[") + Separated(parts) + Units("]")
  }

  ghost predicate SpellsMembers(text: JsString, members: seq<Member>, order: seq<nat>, keys: seq<JsString>,
                                values: seq<JsString>)
    decreases members
  {
    && Lists(order, members) && |keys| == |order| && |values| == |order|
    && (forall i :: 0 <= i < |order| ==> SpellsString(keys[i], members[order[i]].key))
    && (forall i :: 0 <= i < |order| ==> Spells(values[i], members[order[i]].value))
    && text == Units("{") + Separated(Pairs(keys, values)) + Units("}")
  }

  function Pairs(keys: seq<JsString>, values: seq<JsString>): (r: seq<JsString>)
    requires |keys| == |values|
  {
    seq(|keys|, i requires 0 <= i < |keys| => keys[i] + Units(":") + values[i])
  }

  // ---------------------------------------------------------------------------
  // The printer's strings
  // ---------------------------------------------------------------------------

  /** What the printer writes for each unit. */
  function UnitTexts(s: JsString): (r: seq<JsString>)
    ensures |r| == |s|
    decreases |s|
  {
    if s == [] then []
    else if Width(s) == 2 then [[s[0]], [s[1]]] + UnitTexts(s[2..])
    else [QuoteUnit(s)] + UnitTexts(s[1..])
  }

  lemma {:induction false} UnitTextsPrint(s: JsString)
    ensures QuoteBody(s) == Concat(UnitTexts(s)) + [QUOTE]
    decreases |s|
  {
    if s != [] {
      UnitTextsPrint(s[Width(s)..]);
      FirstUnitPrints(s);
      hide QuoteUnit, Concat;
      Regroup(QuoteUnit(s), Concat(UnitTexts(s[Width(s)..])), [QUOTE]);
    }
  }

  lemma FirstUnitPrints(s: JsString)
    requires s != []
    ensures Concat(UnitTexts(s)) == QuoteUnit(s) + Concat(UnitTexts(s[Width(s)..]))
  {
    hide Concat;
    var rest := UnitTexts(s[Width(s)..]);
    if Width(s) == 2 {
      assert [[s[0]], [s[1]]] + rest == [[s[0]]] + ([[s[1]]] + rest);
      ConcatFront([s[0]], [[s[1]]] + rest);
      ConcatFront([s[1]], rest);
      assert QuoteUnit(s) == [s[0]] + [s[1]];
      Regroup([s[0]], [s[1]], Concat(rest));
    } else {
      ConcatFront(QuoteUnit(s), rest);
    }
  }

  lemma HexDigitValue(d: int)
    requires 0 <= d < 16
    ensures DigitValue(HexDigit(d)) == d
  {
  }

  lemma Hex4Reads(c: CodeUnit)
    ensures AreDigits(Hex4(c)) && HexValue(Hex4(c)) == c
  {
    var a, b: Byte := c / 256, c % 256;
    HexOfTwo(a, b);
    var r := Hex4(c);
    HexDigitValue(a / 16);
    HexDigitValue(a % 16);
    HexDigitValue(b / 16);
    HexDigitValue(b % 16);
    assert r[..3][..2] == r[..2] && r[..2][..1] == r[..1] && r[..1][..0] == [];
    hide Hex4, HexDigit, DigitValue;
    assert HexValue(r[..1]) == DigitValue(r[0]);
    assert HexValue(r[..2]) == 16 * HexValue(r[..1]) + DigitValue(r[1]);
    assert HexValue(r[..3]) == 16 * HexValue(r[..2]) + DigitValue(r[2]);
    assert HexValue(r) == 16 * HexValue(r[..3]) + DigitValue(r[3]);
  }

  lemma HexOfTwo(a: Byte, b: Byte)
    ensures Hex([a, b]) == [HexDigit(a / 16), HexDigit(a % 16), HexDigit(b / 16), HexDigit(b % 16)]
  {
    assert [a, b][1..] == [b] && [b][1..] == [];
    assert Hex([b]) == [HexDigit(b / 16), HexDigit(b % 16)] + Hex([]);
  }

  /** The first unit of a string, when it is no pair. */
  lemma QuoteUnitSpells(s: JsString)
    requires s != [] && Width(s) == 1
    ensures SpellsUnit(QuoteUnit(s), s, 0)
  {
    hide Hex4, HexValue, AreDigits;
    Hex4Reads(s[0]);
    var text := QuoteUnit(s);
    if |text| == 6 {
      assert text[2..] == Hex4(s[0]);
      assert text[..2] == [BACKSLASH, 0x75] == Units("\\u");
    }
  }

  lemma PairSpells(s: JsString)
    requires s != [] && Width(s) == 2
    ensures SpellsUnit([s[0]], s, 0) && SpellsUnit([s[1]], s, 1)
  {
  }

  /** What stands before a character does not change how it is spelled. */
  lemma SpellsUnitLater(text: JsString, s: JsString, i: nat)
    requires s != [] && i < |s| - Width(s) && SpellsUnit(text, s[Width(s)..], i)
    ensures SpellsUnit(text, s, i + Width(s))
  {
    hide HexValue, AreDigits, EscapeMeaning;
    assert Paired(s[Width(s)..], i) == Paired(s, i + Width(s));
  }

  lemma {:induction false} UnitTextsSpell(s: JsString)
    ensures SpellsUnits(UnitTexts(s), s)
    decreases |s|
  {
    hide SpellsUnit, QuoteUnit;
    if s != [] {
      var w := Width(s);
      UnitTextsSpell(s[w..]);
      if w == 2 { PairSpells(s); } else { QuoteUnitSpells(s); }
      forall i | w <= i < |s| ensures SpellsUnit(UnitTexts(s)[i], s, i) {
        assert UnitTexts(s)[i] == UnitTexts(s[w..])[i - w];
        SpellsUnitLater(UnitTexts(s)[i], s, i - w);
      }
    }
  }

  lemma QuoteSpells(s: JsString)
    ensures SpellsString(Quote(s), s)
  {
    hide SpellsUnits;
    UnitTextsPrint(s);
    UnitTextsSpell(s);
    assert Units("\"") == [QUOTE];
    assert Quote(s) == [QUOTE] + Concat(UnitTexts(s)) + [QUOTE];
  }

  // ---------------------------------------------------------------------------
  // The printer's numbers
  // ---------------------------------------------------------------------------

  predicate NeedsNoEscape(s: JsString) {
    forall i :: 0 <= i < |s| ==> 0x20 <= s[i] < 0x80 && s[i] != 0x22 && s[i] != 0x5C
  }

  lemma {:induction false} BodyAsIs(s: JsString)
    requires NeedsNoEscape(s)
    ensures QuoteBody(s) == s + [QUOTE]
  {
    if s != [] {
      BodyAsIs(s[1..]);
      assert QuoteUnit(s) == [s[0]] && Width(s) == 1;
    }
  }

  lemma QuotedAsIs(s: JsString)
    requires NeedsNoEscape(s)
    ensures Quote(s) == [QUOTE] + s + [QUOTE]
  {
    BodyAsIs(s);
  }

  lemma {:induction false} HexReads(bytes: seq<Byte>)
    ensures AreDigits(Hex(bytes)) && NeedsNoEscape(Hex(bytes))
    ensures forall i :: 0 <= i < |bytes| ==>
              16 * DigitValue(Hex(bytes)[2 * i]) + DigitValue(Hex(bytes)[2 * i + 1]) == bytes[i]
  {
    if bytes != [] {
      var b := bytes[0];
      HexReads(bytes[1..]);
      HexDigitValue(b / 16);
      HexDigitValue(b % 16);
      var rest := Hex(bytes[1..]);
      assert Hex(bytes) == [HexDigit(b / 16), HexDigit(b % 16)] + rest;
      forall i | 0 <= i < |bytes|
        ensures 16 * DigitValue(Hex(bytes)[2 * i]) + DigitValue(Hex(bytes)[2 * i + 1]) == bytes[i]
      {
        if i > 0 {
          assert Hex(bytes)[2 * i] == rest[2 * (i - 1)] && Hex(bytes)[2 * i + 1] == rest[2 * (i - 1) + 1];
        }
      }
    }
  }

  lemma NormalizedReads(b: Float64, i: nat)
    requires i < 8
    ensures Normalized(b)[i] == if IsZero(b) then 0 else b[i]
  {
    if IsZero(b) {
      assert b[0] == 0 || b[0] == 128;
      assert b == [b[0], b[1], b[2], b[3], b[4], b[5], b[6], b[7]];
    }
  }

  lemma FiniteExactly(b: Float64)
    ensures IsFinite(b) <==> Exponent(b) != 2047
  {
  }

  lemma NumberSpells(b: Float64)
    ensures SpellsNumber(CanonicalString(Num(b)), b)
  {
    FiniteExactly(b);
    assert Units("null") == [0x6E, 0x75, 0x6C, 0x6C];
    if IsFinite(b) {
      var digits := Hex(Normalized(b));
      NumberPrints(b);
      HexReads(Normalized(b));
      forall i | 0 <= i < 8
        ensures 16 * DigitValue(digits[2 * i]) + DigitValue(digits[2 * i + 1]) == if IsZero(b) then 0 else b[i]
      {
        NormalizedReads(b, i);
      }
      assert SpellsBytes(digits, b);
    }
  }

  lemma NumberPrints(b: Float64)
    requires IsFinite(b)
    ensures CanonicalString(Num(b))
            == Units("{\"$number_f64\":\"") + Hex(Normalized(b)) + Units("\"}")
  {
    var digits := Hex(Normalized(b));
    NumberNorm(b);
    MemberPrints(NUMBER_KEY, digits) by { HexReads(Normalized(b)); }
    hide Norm, Hex, Units, Print, Normalized;
    NumberFrame();
  }

  lemma NumberNorm(b: Float64)
    requires IsFinite(b)
    ensures Norm(Num(b)) == CObj([CMember(NUMBER_KEY, CStr(Hex(Normalized(b))))])
  {
  }

  lemma MemberPrints(key: JsString, text: JsString)
    requires NeedsNoEscape(key) && NeedsNoEscape(text)
    ensures Print(CObj([CMember(key, CStr(text))]))
            == [0x7B, QUOTE] + key + [QUOTE, COLON, QUOTE] + text + [QUOTE, 0x7D]
  {
    QuotedAsIs(key);
    QuotedAsIs(text);
    OneMemberPrints(CMember(key, CStr(text)));
    TextPrints(text);
    hide Print, Quote;
  }

  lemma TextPrints(s: JsString)
    ensures Print(CStr(s)) == Quote(s)
  {
  }

  lemma NumberFrame()
    ensures Units("{\"$number_f64\":\"") == [0x7B, QUOTE] + NUMBER_KEY + [QUOTE, COLON, QUOTE]
    ensures Units("\"}") == [QUOTE, 0x7D]
  {
  }

  lemma OneMemberPrints(m: CMember)
    ensures Print(CObj([m])) == [0x7B] + Quote(m.key) + [COLON] + Print(m.value) + [0x7D]
  {
    hide Quote;
    assert [m][1..] == [];
    assert PrintMembers([m], true) == Quote(m.key) + [COLON] + Print(m.value) + PrintMembers([], false);
  }

  // ---------------------------------------------------------------------------
  // The printer's order
  // ---------------------------------------------------------------------------

  /** The order of keys is that of the first difference. */
  lemma {:induction false} LessExactly(a: JsString, b: JsString)
    ensures Less(a, b) <==> Before(a, b)
  {
    if a == [] {
      if b != [] { assert DifferFrom(a, b, 0); }
    } else if b == [] || a[0] != b[0] {
      assert DifferFrom(a, b, 0);
      if Before(a, b) {
        var n: nat :| DifferFrom(a, b, n) && (if n < |a| then n < |b| && a[n] < b[n] else n < |b|);
      }
    } else {
      LessExactly(a[1..], b[1..]);
      if Less(a[1..], b[1..]) {
        var n: nat :| DifferFrom(a[1..], b[1..], n)
                      && (if n < |a[1..]| then n < |b[1..]| && a[1..][n] < b[1..][n] else n < |b[1..]|);
        DifferBehind(a, b, n + 1);
        assert DifferFrom(a, b, n + 1);
      }
      if Before(a, b) {
        var n: nat :| DifferFrom(a, b, n) && (if n < |a| then n < |b| && a[n] < b[n] else n < |b|);
        DifferBehind(a, b, n);
        assert DifferFrom(a[1..], b[1..], n - 1);
      }
    }
  }

  /** Behind a common first unit the difference comes one unit earlier. */
  lemma DifferBehind(a: JsString, b: JsString, n: nat)
    requires a != [] && b != [] && a[0] == b[0] && n > 0
    ensures DifferFrom(a, b, n) <==> DifferFrom(a[1..], b[1..], n - 1)
  {
    if n <= |a| && n <= |b| {
      assert a[..n] == [a[0]] + a[1..][..n - 1] && b[..n] == [b[0]] + b[1..][..n - 1];
      CommonStart([a[0]], a[1..][..n - 1], b[1..][..n - 1]);
    }
  }

  /** Where the sorted members stand in the object. */
  ghost predicate Places(order: seq<nat>, sorted: seq<CMember>, members: seq<Member>) {
    && |order| == |sorted|
    && forall i :: 0 <= i < |sorted| ==>
         && order[i] < |members| && members[order[i]].key == sorted[i].key
         && !members[order[i]].value.Undefined? && Norm(members[order[i]].value) == sorted[i].value
  }

  lemma FindsAt(sorted: seq<CMember>, i: nat)
    requires Sorted(sorted) && i < |sorted|
    ensures FindC(sorted, sorted[i].key) == Some(sorted[i].value)
  {
    hide Less;
    LessIrreflexive(sorted[i].key);
    var j :| 0 <= j < |sorted| && sorted[j] == CMember(sorted[i].key, FindC(sorted, sorted[i].key).value);
  }

  lemma PlaceExists(members: seq<Member>, i: nat) returns (j: nat)
    requires DistinctKeys(members) && i < |Sort(NormMembers(members))|
    ensures var m := Sort(NormMembers(members))[i];
            && j < |members| && members[j].key == m.key && !members[j].value.Undefined?
            && Norm(members[j].value) == m.value
  {
    NormObject(members);
    var sorted := Sort(NormMembers(members));
    FindsAt(sorted, i);
    hide Sort, NormMembers, Norm, Sorted;
    var found := Find(members, sorted[i].key);
    assert NormFound(found) == Some(sorted[i].value);
    j :| 0 <= j < |members| && members[j] == Member(sorted[i].key, found.value);
  }

  lemma {:induction false} PlacesExist(members: seq<Member>, n: nat) returns (order: seq<nat>)
    requires DistinctKeys(members) && n <= |Sort(NormMembers(members))|
    ensures Places(order, Sort(NormMembers(members))[..n], members)
  {
    hide Sort, NormMembers, Norm, DistinctKeys;
    if n == 0 {
      order := [];
    } else {
      var before := PlacesExist(members, n - 1);
      var j := PlaceExists(members, n - 1);
      order := before + [j];
    }
  }

  /** The printed order lists every defined member, by ascending key. */
  lemma PlacesList(order: seq<nat>, members: seq<Member>)
    requires DistinctKeys(members) && Places(order, Sort(NormMembers(members)), members)
    ensures Lists(order, members)
  {
    NormObject(members);
    var sorted := Sort(NormMembers(members));
    hide Sort, NormMembers, Norm, Sorted, Less, Before;
    forall j | 0 <= j < |members| && !members[j].value.Undefined? ensures j in order {
      PlaceOf(order, sorted, members, j);
    }
    forall i, j | 0 <= i < j < |order| ensures Before(members[order[i]].key, members[order[j]].key) {
      SortedKeys(sorted, i, j);
      LessExactly(sorted[i].key, sorted[j].key);
    }
  }

  lemma SortedKeys(sorted: seq<CMember>, i: nat, j: nat)
    requires Sorted(sorted) && i < j < |sorted|
    ensures Less(sorted[i].key, sorted[j].key)
  {
  }

  lemma PlaceOf(order: seq<nat>, sorted: seq<CMember>, members: seq<Member>, j: nat)
    requires DistinctKeys(members) && Places(order, sorted, members)
    requires j < |members| && !members[j].value.Undefined?
    requires FindC(sorted, members[j].key) == NormFound(Find(members, members[j].key))
    ensures j in order
  {
    hide Norm;
    FoundAt(members, j);
    var i :| 0 <= i < |sorted| && sorted[i].key == members[j].key;
    assert order[i] == j;
  }

  // ---------------------------------------------------------------------------
  // The printer's values
  // ---------------------------------------------------------------------------

  lemma {:induction false} ItemsAreSeparated(items: seq<Canon>, parts: seq<JsString>)
    requires |parts| == |items| && forall i :: 0 <= i < |items| ==> parts[i] == Print(items[i])
    ensures PrintItems(items, true) == Separated(parts) + Units("]")
    ensures items != [] ==> PrintItems(items, false) == Units(",") + (Separated(parts) + Units("]"))
  {
    SignsAre();
    if items != [] {
      ItemsAreSeparated(items[1..], parts[1..]);
      ItemsStep(items, true);
      ItemsStep(items, false);
      hide Print, PrintItems, Units, Separated;
      OneMorePart(parts, PrintItems(items[1..], false), Units("]"));
    }
  }

  lemma SignsAre()
    ensures Units("]") == [0x5D] && Units("}") == [0x7D] && Units(",") == [COMMA] && Units(":") == [COLON]
  {
  }

  lemma ItemsStep(items: seq<Canon>, first: bool)
    requires items != []
    ensures PrintItems(items, first)
            == (if first then [] else [COMMA]) + (Print(items[0]) + PrintItems(items[1..], false))
    ensures |items| == 1 ==> PrintItems(items[1..], false) == [0x5D]
  {
    ItemsUnfold(items, first);
    hide Print, PrintItems;
    Regroup(if first then [] else [COMMA], Print(items[0]), PrintItems(items[1..], false));
  }

  lemma ItemsUnfold(items: seq<Canon>, first: bool)
    requires items != []
    ensures PrintItems(items, first)
            == (if first then [] else [COMMA]) + Print(items[0]) + PrintItems(items[1..], false)
    ensures |items| == 1 ==> PrintItems(items[1..], false) == [0x5D]
  {
    hide Print;
  }

  /** The first part, and then nothing or a comma and the other parts, and the closing sign. */
  lemma OneMorePart(parts: seq<JsString>, printed: JsString, close: JsString)
    requires parts != []
    requires printed == if |parts| == 1 then close else Units(",") + (Separated(parts[1..]) + close)
    ensures parts[0] + printed == Separated(parts) + close
  {
    hide Units;
    if |parts| > 1 {
      RegroupFour(parts[0], Units(","), Separated(parts[1..]), close);
    }
  }

  lemma {:induction false} MembersAreSeparated(members: seq<CMember>, keys: seq<JsString>, values: seq<JsString>)
    requires |keys| == |values| == |members|
    requires forall i :: 0 <= i < |members| ==> keys[i] == Quote(members[i].key) && values[i] == Print(members[i].value)
    ensures PrintMembers(members, true) == Separated(Pairs(keys, values)) + Units("}")
    ensures members != [] ==>
              PrintMembers(members, false) == Units(",") + (Separated(Pairs(keys, values)) + Units("}"))
  {
    SignsAre();
    if members != [] {
      MembersAreSeparated(members[1..], keys[1..], values[1..]);
      MembersStep(members, true);
      MembersStep(members, false);
      assert Pairs(keys, values)[1..] == Pairs(keys[1..], values[1..]);
      assert Pairs(keys, values)[0] == keys[0] + Units(":") + values[0];
      hide Print, PrintMembers, Units, Separated, Quote, Pairs;
      OneMorePart(Pairs(keys, values), PrintMembers(members[1..], false), Units("}"));
    }
  }

  lemma MembersStep(members: seq<CMember>, first: bool)
    requires members != []
    ensures PrintMembers(members, first)
            == (if first then [] else [COMMA])
               + (Quote(members[0].key) + [COLON] + Print(members[0].value) + PrintMembers(members[1..], false))
    ensures |members| == 1 ==> PrintMembers(members[1..], false) == [0x7D]
  {
    MembersUnfold(members, first);
    hide Print, PrintMembers, Quote;
    var sep, key, value := if first then [] else [COMMA], Quote(members[0].key), Print(members[0].value);
    RegroupFour(sep, key, [COLON], value);
    Regroup(key, [COLON], value);
    Regroup(sep, key + [COLON] + value, PrintMembers(members[1..], false));
  }

  lemma MembersUnfold(members: seq<CMember>, first: bool)
    requires members != []
    ensures PrintMembers(members, first)
            == (if first then [] else [COMMA]) + Quote(members[0].key) + [COLON] + Print(members[0].value)
               + PrintMembers(members[1..], false)
    ensures |members| == 1 ==> PrintMembers(members[1..], false) == [0x7D]
  {
    hide Print, Quote;
  }

  function KeyTexts(members: seq<CMember>): (r: seq<JsString>)
    ensures |r| == |members| && forall i :: 0 <= i < |r| ==> r[i] == Quote(members[i].key)
  {
    seq(|members|, i requires 0 <= i < |members| => Quote(members[i].key))
  }

  function ValueTexts(members: seq<CMember>): (r: seq<JsString>)
    ensures |r| == |members| && forall i :: 0 <= i < |r| ==> r[i] == Print(members[i].value)
  {
    seq(|members|, i requires 0 <= i < |members| => Print(members[i].value))
  }

  lemma ObjectSpells(members: seq<Member>, order: seq<nat>)
    requires DistinctKeys(members) && Places(order, Sort(NormMembers(members)), members)
    requires forall j :: 0 <= j < |members| ==> Spells(CanonicalString(members[j].value), members[j].value)
    ensures Spells(CanonicalString(Obj(members)), Obj(members))
  {
    var sorted := Sort(NormMembers(members));
    var keys, values := KeyTexts(sorted), ValueTexts(sorted);
    hide Sort, NormMembers, Norm, Print, PrintMembers, Quote, Spells, SpellsString, Separated, Pairs, Lists, Units;
    PlacesList(order, members);
    assert |order| == |sorted|;
    forall i | 0 <= i < |order|
      ensures SpellsString(keys[i], members[order[i]].key) && Spells(values[i], members[order[i]].value)
    {
      MemberSpells(members, order, i);
    }
    hide Places, DistinctKeys;
    MembersAreSeparated(sorted, keys, values);
    ListedSpell(members, order, keys, values);
    ObjectPrints(members);
    Regroup(Units("{"), Separated(Pairs(keys, values)), Units("}"));
  }

  lemma ListedSpell(members: seq<Member>, order: seq<nat>, keys: seq<JsString>, values: seq<JsString>)
    requires Lists(order, members) && |keys| == |values| == |order|
    requires forall i :: 0 <= i < |order| ==>
               SpellsString(keys[i], members[order[i]].key) && Spells(values[i], members[order[i]].value)
    ensures Spells(Units("{") + Separated(Pairs(keys, values)) + Units("}"), Obj(members))
  {
    var text := Units("{") + Separated(Pairs(keys, values)) + Units("}");
    hide Spells, SpellsString, Separated, Pairs, Units;
    assert SpellsMembers(text, members, order, keys, values);
    MembersSpell(text, members, order, keys, values);
  }

  lemma MemberSpells(members: seq<Member>, order: seq<nat>, i: nat)
    requires DistinctKeys(members) && Places(order, Sort(NormMembers(members)), members) && i < |order|
    requires forall j :: 0 <= j < |members| ==> Spells(CanonicalString(members[j].value), members[j].value)
    ensures i < |Sort(NormMembers(members))| && order[i] < |members|
    ensures SpellsString(Quote(Sort(NormMembers(members))[i].key), members[order[i]].key)
    ensures Spells(Print(Sort(NormMembers(members))[i].value), members[order[i]].value)
  {
    hide Sort, NormMembers, Norm, SpellsString, Quote, Print, Spells;
    QuoteSpells(Sort(NormMembers(members))[i].key);
    assert Spells(CanonicalString(members[order[i]].value), members[order[i]].value);
  }

  lemma ObjectPrints(members: seq<Member>)
    ensures CanonicalString(Obj(members)) == Units("{") + PrintMembers(Sort(NormMembers(members)), true)
  {
    assert Units("{") == [0x7B];
  }

  lemma MembersSpell(text: JsString, members: seq<Member>, order: seq<nat>, keys: seq<JsString>, values: seq<JsString>)
    requires SpellsMembers(text, members, order, keys, values)
    ensures Spells(text, Obj(members))
  {
    hide SpellsMembers;
    assert Obj(members).members == members;
  }

  lemma ItemsSpell(text: JsString, items: seq<Json>, parts: seq<JsString>)
    requires SpellsItems(text, items, parts)
    ensures Spells(text, Arr(items))
  {
    hide SpellsItems;
    assert Arr(items).items == items;
  }

  lemma ArraySpells(items: seq<Json>)
    requires forall i :: 0 <= i < |items| ==> Spells(CanonicalString(items[i]), items[i])
    ensures Spells(CanonicalString(Arr(items)), Arr(items))
  {
    var normed := NormItems(items);
    ArrayPrints(items);
    hide Norm, Print, PrintItems, Separated, Units, Spells, NormItems;
    var parts := seq(|items|, i requires 0 <= i < |items| => Print(normed[i]));
    ItemsAreSeparated(normed, parts);
    forall i | 0 <= i < |items| ensures Spells(parts[i], items[i]) {
      assert Spells(CanonicalString(items[i]), items[i]);
    }
    var text := Units("[") + Separated(parts) + Units("]");
    Regroup(Units("["), Separated(parts), Units("]"));
    ItemsSpell(text, items, parts);
  }

  lemma ArrayPrints(items: seq<Json>)
    ensures CanonicalString(Arr(items)) == Units("[") + PrintItems(NormItems(items), true)
  {
    assert Units("[") == [0x5B];
  }

  lemma {:induction false} CanonicalTextSpells(v: Json)
    requires WellKeyed(v)
    ensures Spells(CanonicalString(v), v)
    decreases v
  {
    match v {
      case Num(b) => NumberSpells(b);
      case Str(s) => QuoteSpells(s);
      case Arr(items) =>
        forall i | 0 <= i < |items| ensures Spells(CanonicalString(items[i]), items[i]) {
          CanonicalTextSpells(items[i]);
        }
        ArraySpells(items);
      case Obj(members) =>
        forall j | 0 <= j < |members| ensures Spells(CanonicalString(members[j].value), members[j].value) {
          CanonicalTextSpells(members[j].value);
        }
        var order := PlacesExist(members, |Sort(NormMembers(members))|);
        assert Sort(NormMembers(members))[..|Sort(NormMembers(members))|] == Sort(NormMembers(members));
        ObjectSpells(members, order);
      case Bool(b) => LiteralsPrint();
      case Null => LiteralsPrint();
      case Undefined => LiteralsPrint();
    }
  }

  lemma LiteralsPrint()
    ensures CanonicalString(Null) == CanonicalString(Undefined) == Units("null")
    ensures CanonicalString(Bool(true)) == Units("true") && CanonicalString(Bool(false)) == Units("false")
  {
  }

  /** Every value with distinct keys is printed as the grammar spells it, and as it spells its spelled form. */
  lemma CanonicalStringSpells(v: Json)
    requires WellKeyed(v)
    ensures Spells(CanonicalString(v), v)
    ensures Spells(CanonicalString(v), Spelled(v))
  {
    CanonicalTextSpells(v);
    SpelledKeepsNorm(v);
    SpelledIsWellKeyed(v);
    CanonicalTextSpells(Spelled(v));
  }

  lemma SpelledIsWellKeyed(v: Json)
    requires WellKeyed(v)
    ensures WellKeyed(Spelled(v))
  {
    hide Spelled;
    SpelledIsBare(v);
    BareIsWellKeyed(Spelled(v));
  }

  lemma {:induction false} BareIsWellKeyed(v: Json)
    requires Bare(v)
    ensures WellKeyed(v)
    decreases v
  {
    match v {
      case Arr(items) =>
        forall i | 0 <= i < |items| ensures WellKeyed(items[i]) { BareIsWellKeyed(items[i]); }
      case Obj(members) =>
        forall j | 0 <= j < |members| ensures WellKeyed(members[j].value) { BareIsWellKeyed(members[j].value); }
      case _ =>
    }
  }
}
