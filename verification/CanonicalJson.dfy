/**
 * The canonical JSON printer whose output is hashed. Numbers are the eight big-endian bytes of
 * their IEEE 754 double; strings are quoted as in section 7 of RFC 8259, with lone surrogates
 * escaped, as `JSON.stringify` does.
 */
module CanonicalJson {
  import opened JsText

  type Byte = x: int | 0 <= x < 256
  type Float64 = b: seq<Byte> | |b| == 8 witness [0, 0, 0, 0, 0, 0, 0, 0]

  /** A value as the printer receives it; members are in `Object.entries` order. */
  datatype Json =
    | Null
    | Undefined
    | Bool(value: bool)
    | Num(bytes: Float64)
    | Str(text: JsString)
    | Arr(items: seq<Json>)
    | Obj(members: seq<Member>)

  datatype Member = Member(key: JsString, value: Json)

  /** What the printer distinguishes: no numbers, nothing undefined, members in printing order. */
  datatype Canon =
    | CNull
    | CBool(value: bool)
    | CStr(text: JsString)
    | CArr(items: seq<Canon>)
    | CObj(members: seq<CMember>)

  datatype CMember = CMember(key: JsString, value: Canon)

  const QUOTE: CodeUnit := 0x22
  const COMMA: CodeUnit := 0x2C

  /** `$number_f64`. */
  const NUMBER_KEY: JsString := [0x24, 0x6E, 0x75, 0x6D, 0x62, 0x65, 0x72, 0x5F, 0x66, 0x36, 0x34]

  // ---------------------------------------------------------------------------
  // Numbers
  // ---------------------------------------------------------------------------

  /** The exponent is not all ones. */
  predicate IsFinite(b: Float64) {
    !(b[0] % 128 == 127 && b[1] >= 240)
  }

  const NEGATIVE_ZERO: Float64 := [128, 0, 0, 0, 0, 0, 0, 0]
  const ZERO: Float64 := [0, 0, 0, 0, 0, 0, 0, 0]

  function Normalized(b: Float64): Float64 {
    if b == NEGATIVE_ZERO then ZERO else b
  }

  function HexDigit(d: int): CodeUnit
    requires 0 <= d < 16
  {
    if d < 10 then 0x30 + d else 0x57 + d
  }

  /** Two lower-case hexadecimal digits a byte. */
  function Hex(bytes: seq<Byte>): (r: JsString)
    ensures |r| == 2 * |bytes|
  {
    if bytes == [] then [] else [HexDigit(bytes[0] / 16), HexDigit(bytes[0] % 16)] + Hex(bytes[1..])
  }

  lemma {:induction false} HexDecides(a: seq<Byte>, b: seq<Byte>)
    requires Hex(a) == Hex(b)
    ensures a == b
  {
    if a != [] {
      assert Hex(a)[0] == Hex(b)[0] && Hex(a)[1] == Hex(b)[1];
      assert a[0] == b[0] by { HexByteDecides(a[0], b[0]); }
      assert Hex(a)[2..] == Hex(a[1..]) && Hex(b)[2..] == Hex(b[1..]);
      HexDecides(a[1..], b[1..]);
      assert a == [a[0]] + a[1..] && b == [b[0]] + b[1..];
    }
  }

  lemma HexByteDecides(a: Byte, b: Byte)
    requires HexDigit(a / 16) == HexDigit(b / 16) && HexDigit(a % 16) == HexDigit(b % 16)
    ensures a == b
  {
  }

  // ---------------------------------------------------------------------------
  // Object members in key order
  // ---------------------------------------------------------------------------

  /** `a < b` on strings: lexicographic on code units. */
  predicate Less(a: JsString, b: JsString) {
    b != [] && (a == [] || a[0] < b[0] || (a[0] == b[0] && Less(a[1..], b[1..])))
  }

  function Insert(m: CMember, sorted: seq<CMember>): seq<CMember> {
    if sorted == [] || Less(m.key, sorted[0].key) then [m] + sorted
    else [sorted[0]] + Insert(m, sorted[1..])
  }

  function Sort(members: seq<CMember>): seq<CMember> {
    if members == [] then [] else Insert(members[|members| - 1], Sort(members[..|members| - 1]))
  }

  // ---------------------------------------------------------------------------
  // Normalization: what is printed for a value
  // ---------------------------------------------------------------------------

  function Norm(v: Json): Canon
    decreases v, 1
  {
    match v
    case Null => CNull
    case Undefined => CNull
    case Bool(b) => CBool(b)
    case Num(b) => if IsFinite(b) then CObj([CMember(NUMBER_KEY, CStr(Hex(Normalized(b))))]) else CNull
    case Str(s) => CStr(s)
    case Arr(items) => CArr(NormItems(items))
    case Obj(members) => CObj(Sort(NormMembers(members)))
  }

  function NormItems(items: seq<Json>): (r: seq<Canon>)
    ensures |r| == |items| && forall i :: 0 <= i < |items| ==> r[i] == Norm(items[i])
    decreases items, 0
  {
    if items == [] then [] else [Norm(items[0])] + NormItems(items[1..])
  }

  /** The defined members, in order. */
  function NormMembers(members: seq<Member>): seq<CMember>
    decreases members, 0
  {
    if members == [] then []
    else
      (if members[0].value.Undefined? then [] else [CMember(members[0].key, Norm(members[0].value))])
      + NormMembers(members[1..])
  }

  // ---------------------------------------------------------------------------
  // Printing
  // ---------------------------------------------------------------------------

  /** Four lower-case hexadecimal digits. */
  function Hex4(c: CodeUnit): (r: JsString)
    ensures |r| == 4
  {
    Hex([c / 256, c % 256])
  }

  /** The letter after the backslash of a short escape, or 0. */
  function ShortEscape(c: CodeUnit): CodeUnit {
    if c == QUOTE || c == BACKSLASH then c
    else if c == 8 then 0x62
    else if c == 9 then 0x74
    else if c == 10 then 0x6E
    else if c == 12 then 0x66
    else if c == 13 then 0x72
    else 0
  }

  function QuoteUnit(s: JsString): (r: JsString)
    requires s != []
    ensures r != []
  {
    var c := s[0];
    if Width(s) == 2 then [s[0], s[1]]
    else if ShortEscape(c) != 0 then [BACKSLASH, ShortEscape(c)]
    else if c < 0x20 || IsHighSurrogate(c) || IsLowSurrogate(c) then [BACKSLASH, 0x75] + Hex4(c)
    else [c]
  }

  /** The quoted characters of `s` and the closing quote. */
  function QuoteBody(s: JsString): JsString
    decreases |s|
  {
    if s == [] then [QUOTE] else QuoteUnit(s) + QuoteBody(s[Width(s)..])
  }

  function Quote(s: JsString): JsString {
    [QUOTE] + QuoteBody(s)
  }

  function Print(v: Canon): JsString
    decreases v, 2
  {
    match v
    case CNull => [0x6E, 0x75, 0x6C, 0x6C]
    case CBool(true) => [0x74, 0x72, 0x75, 0x65]
    case CBool(false) => [0x66, 0x61, 0x6C, 0x73, 0x65]
    case CStr(s) => Quote(s)
    case CArr(items) => [0x5B] + PrintItems(items, true)
    case CObj(members) => [0x7B] + PrintMembers(members, true)
  }

  /** The elements, separated by commas, and the closing bracket. */
  function PrintItems(items: seq<Canon>, first: bool): JsString
    decreases items, 0
  {
    if items == [] then [0x5D]
    else (if first then [] else [COMMA]) + Print(items[0]) + PrintItems(items[1..], false)
  }

  function PrintMembers(members: seq<CMember>, first: bool): JsString
    decreases members, 0
  {
    if members == [] then [0x7D]
    else
      (if first then [] else [COMMA]) + Quote(members[0].key) + [COLON] + Print(members[0].value)
      + PrintMembers(members[1..], false)
  }

  function CanonicalString(v: Json): JsString {
    Print(Norm(v))
  }

  // ---------------------------------------------------------------------------
  // Printing is injective: every printed value ends itself
  // ---------------------------------------------------------------------------

  lemma Hex4Decides(c: CodeUnit, d: CodeUnit)
    requires Hex4(c) == Hex4(d)
    ensures c == d
  {
    HexDecides([c / 256, c % 256], [d / 256, d % 256]);
    assert [c / 256, c % 256][0] == [d / 256, d % 256][0] && [c / 256, c % 256][1] == [d / 256, d % 256][1];
  }

  /** Printed characters that agree wherever both have a unit stand for the same characters. */
  lemma QuoteUnitsAgree(s: JsString, t: JsString)
    requires s != [] && t != []
    requires forall k :: 0 <= k < |QuoteUnit(s)| && k < |QuoteUnit(t)| ==> QuoteUnit(s)[k] == QuoteUnit(t)[k]
    ensures Width(s) == Width(t) && s[0] == t[0] && (Width(s) == 2 ==> s[1] == t[1])
    ensures |QuoteUnit(s)| == |QuoteUnit(t)|
  {
    hide Hex4;
    var u, v := QuoteUnit(s), QuoteUnit(t);
    assert u[0] == v[0];
    assert |u| >= 2 && |v| >= 2 ==> u[1] == v[1];
    if |u| >= 2 && u[0] == BACKSLASH && u[1] == 0x75 && |v| >= 2 {
      assert u[2..] == Hex4(s[0]) && v[2..] == Hex4(t[0]);
      assert Hex4(s[0]) == Hex4(t[0]);
      Hex4Decides(s[0], t[0]);
    }
  }

  lemma QuoteUnitEndsItself(s: JsString, t: JsString, x: JsString, y: JsString)
    requires s != [] && t != [] && QuoteUnit(s) + x == QuoteUnit(t) + y
    ensures Width(s) == Width(t) && s[..Width(s)] == t[..Width(t)] && x == y
  {
    hide QuoteUnit;
    var u, v := QuoteUnit(s) + x, QuoteUnit(t) + y;
    assert forall k :: 0 <= k < |QuoteUnit(s)| ==> u[k] == QuoteUnit(s)[k];
    assert forall k :: 0 <= k < |QuoteUnit(t)| ==> v[k] == QuoteUnit(t)[k];
    QuoteUnitsAgree(s, t);
    SameLength(QuoteUnit(s), QuoteUnit(t), x, y);
  }

  lemma QuoteUnitIsNoQuote(s: JsString)
    requires s != []
    ensures QuoteUnit(s)[0] != QUOTE
  {
  }

  lemma {:induction false} QuoteBodyEndsItself(s: JsString, t: JsString, x: JsString, y: JsString)
    requires QuoteBody(s) + x == QuoteBody(t) + y
    ensures s == t && x == y
    decreases |s|
  {
    hide QuoteUnit, Width;
    if s == [] || t == [] {
      assert (QuoteBody(s) + x)[0] == (QuoteBody(t) + y)[0];
      if s != [] { QuoteUnitIsNoQuote(s); }
      if t != [] { QuoteUnitIsNoQuote(t); }
      assert x == (QuoteBody(s) + x)[1..] == (QuoteBody(t) + y)[1..] == y;
    } else {
      var s', t' := QuoteBody(s[Width(s)..]), QuoteBody(t[Width(t)..]);
      assert QuoteUnit(s) + (s' + x) == QuoteBody(s) + x;
      assert QuoteUnit(t) + (t' + y) == QuoteBody(t) + y;
      QuoteUnitEndsItself(s, t, s' + x, t' + y);
      QuoteBodyEndsItself(s[Width(s)..], t[Width(t)..], x, y);
      assert s == s[..Width(s)] + s[Width(s)..] && t == t[..Width(t)] + t[Width(t)..];
    }
  }

  lemma Peel(c: CodeUnit, d: CodeUnit, u: JsString, v: JsString)
    requires [c] + u == [d] + v
    ensures c == d && u == v
  {
    assert ([c] + u)[0] == ([d] + v)[0];
    assert u == ([c] + u)[1..] == ([d] + v)[1..] == v;
  }

  lemma QuoteEndsItself(s: JsString, t: JsString, x: JsString, y: JsString)
    requires Quote(s) + x == Quote(t) + y
    ensures s == t && x == y
  {
    hide QuoteBody;
    assert [QUOTE] + (QuoteBody(s) + x) == Quote(s) + x;
    assert [QUOTE] + (QuoteBody(t) + y) == Quote(t) + y;
    Peel(QUOTE, QUOTE, QuoteBody(s) + x, QuoteBody(t) + y);
    QuoteBodyEndsItself(s, t, x, y);
  }

  /** The first character of a printed value tells its kind. */
  function Lead(v: Canon): CodeUnit {
    match v
    case CNull => 0x6E
    case CBool(b) => if b then 0x74 else 0x66
    case CStr(_) => QUOTE
    case CArr(_) => 0x5B
    case CObj(_) => 0x7B
  }

  lemma PrintLeads(v: Canon)
    ensures Print(v) != [] && Print(v)[0] == Lead(v)
  {
  }

  lemma {:induction false} PrintEndsItself(a: Canon, b: Canon, x: JsString, y: JsString)
    requires Print(a) + x == Print(b) + y
    ensures a == b && x == y
    decreases a, 2
  {
    hide Quote;
    PrintLeads(a);
    PrintLeads(b);
    assert (Print(a) + x)[0] == (Print(b) + y)[0];
    assert Lead(a) == Lead(b);
    match a {
      case CNull => SameLength(Print(a), Print(b), x, y);
      case CBool(_) => SameLength(Print(a), Print(b), x, y);
      case CStr(s) => QuoteEndsItself(s, b.text, x, y);
      case CArr(items) =>
        assert Print(a) + x == [0x5B] + (PrintItems(items, true) + x);
        assert Print(b) + y == [0x5B] + (PrintItems(b.items, true) + y);
        Peel(0x5B, 0x5B, PrintItems(items, true) + x, PrintItems(b.items, true) + y);
        ItemsEndThemselves(items, b.items, true, x, y);
      case CObj(members) =>
        assert Print(a) + x == [0x7B] + (PrintMembers(members, true) + x);
        assert Print(b) + y == [0x7B] + (PrintMembers(b.members, true) + y);
        Peel(0x7B, 0x7B, PrintMembers(members, true) + x, PrintMembers(b.members, true) + y);
        MembersEndThemselves(members, b.members, true, x, y);
    }
  }

  lemma SameLength(u: JsString, v: JsString, x: JsString, y: JsString)
    requires u + x == v + y && |u| == |v|
    ensures u == v && x == y
  {
    assert u == (u + x)[..|u|] == (v + y)[..|v|] == v;
    assert x == (u + x)[|u|..] == (v + y)[|v|..] == y;
  }

  lemma {:induction false} ItemsEndThemselves(p: seq<Canon>, q: seq<Canon>, first: bool, x: JsString, y: JsString)
    requires PrintItems(p, first) + x == PrintItems(q, first) + y
    ensures p == q && x == y
    decreases p, 0
  {
    hide Print;
    assert (PrintItems(p, first) + x)[0] == (PrintItems(q, first) + y)[0];
    if p != [] { PrintLeads(p[0]); }
    if q != [] { PrintLeads(q[0]); }
    if p == [] {
      assert q == [];
      SameLength([0x5D], [0x5D], x, y);
    } else {
      assert q != [];
      var sep := if first then [] else [COMMA];
      var p', q' := PrintItems(p[1..], false) + x, PrintItems(q[1..], false) + y;
      assert PrintItems(p, first) + x == sep + (Print(p[0]) + p');
      assert PrintItems(q, first) + y == sep + (Print(q[0]) + q');
      SameLength(sep, sep, Print(p[0]) + p', Print(q[0]) + q');
      PrintEndsItself(p[0], q[0], p', q');
      ItemsEndThemselves(p[1..], q[1..], false, x, y);
      assert p == [p[0]] + p[1..] && q == [q[0]] + q[1..];
    }
  }

  lemma {:induction false} MembersEndThemselves(p: seq<CMember>, q: seq<CMember>, first: bool,
                                                x: JsString, y: JsString)
    requires PrintMembers(p, first) + x == PrintMembers(q, first) + y
    ensures p == q && x == y
    decreases p, 0
  {
    hide Print, Quote, PrintMembers;
    MembersLead(p, first);
    MembersLead(q, first);
    assert (PrintMembers(p, first) + x)[0] == (PrintMembers(q, first) + y)[0];
    if p == [] {
      SameLength([0x7D], [0x7D], x, y);
    } else {
      var sep := if first then [] else [COMMA];
      var p', q' := PrintMembers(p[1..], false) + x, PrintMembers(q[1..], false) + y;
      var av, bv := Print(p[0].value) + p', Print(q[0].value) + q';
      FirstMember(p, first, x);
      FirstMember(q, first, y);
      SameLength(sep, sep, Quote(p[0].key) + ([COLON] + av), Quote(q[0].key) + ([COLON] + bv));
      QuoteEndsItself(p[0].key, q[0].key, [COLON] + av, [COLON] + bv);
      Peel(COLON, COLON, av, bv);
      PrintEndsItself(p[0].value, q[0].value, p', q');
      MembersEndThemselves(p[1..], q[1..], false, x, y);
      assert p == [p[0]] + p[1..] && q == [q[0]] + q[1..];
    }
  }

  /** The first unit tells whether there are members. */
  lemma MembersLead(p: seq<CMember>, first: bool)
    ensures PrintMembers(p, first) != [] && (p == [] ==> PrintMembers(p, first) == [0x7D])
    ensures PrintMembers(p, first)[0] == 0x7D <==> p == []
  {
    hide Print, QuoteBody;
  }

  lemma FirstMember(p: seq<CMember>, first: bool, x: JsString)
    requires p != []
    ensures PrintMembers(p, first) + x
            == (if first then [] else [COMMA])
               + (Quote(p[0].key) + ([COLON] + (Print(p[0].value) + (PrintMembers(p[1..], false) + x))))
  {
    hide Print, Quote;
  }

  /** For all values whatever: equal strings mean equal normal forms, and nothing less. */
  lemma CanonicalStringDecidesNorm(a: Json, b: Json)
    ensures CanonicalString(a) == CanonicalString(b) <==> Norm(a) == Norm(b)
  {
    if CanonicalString(a) == CanonicalString(b) {
      PrintEndsItself(Norm(a), Norm(b), [], []);
    }
  }
}
