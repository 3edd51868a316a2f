/** Every revision below 2 to the 53 is held by a double, so every such snapshot can be sent. */
module RevisionDoubles {
  import opened CanonicalJson
  import opened WorkflowSnapshots
  import opened SnapshotExchange

  function TwoTo(k: nat): (r: nat)
    ensures r > 0
  {
    if k == 0 then 1 else 2 * TwoTo(k - 1)
  }

  lemma {:induction false} TwoToIsPow2(k: nat)
    ensures TwoTo(k) as real == Pow2(k)
  {
    if k > 0 { TwoToIsPow2(k - 1); }
  }

  lemma {:induction false} TwoToAdds(a: nat, b: nat)
    ensures TwoTo(a + b) == TwoTo(a) * TwoTo(b)
  {
    if a > 0 {
      TwoToAdds(a - 1, b);
      Twice(TwoTo(a - 1), TwoTo(b));
    }
  }

  lemma Twice(x: nat, y: nat)
    ensures 2 * (x * y) == 2 * x * y
  {
  }

  /** `n` in `count` bytes. */
  function BigEndian(n: nat, count: nat): (r: seq<Byte>)
    requires n < TwoTo(8 * count)
    ensures |r| == count
  {
    if count == 0 then [] else (FewerBytes(n, count); BigEndian(n / 256, count - 1) + [n % 256])
  }

  lemma FewerBytes(n: nat, count: nat)
    requires count > 0 && n < TwoTo(8 * count)
    ensures n / 256 < TwoTo(8 * (count - 1))
  {
    var k := 8 * (count - 1);
    TwoToAdds(8, k);
    assert TwoTo(8) == 256;
  }

  lemma {:induction false} BigEndianReads(n: nat, count: nat)
    requires n < TwoTo(8 * count)
    ensures FromBigEndian(BigEndian(n, count)) == n
  {
    if count > 0 {
      FewerBytes(n, count);
      BigEndianReads(n / 256, count - 1);
      var r := BigEndian(n, count);
      assert r[..|r| - 1] == BigEndian(n / 256, count - 1);
    }
  }

  /** The leading power of two of `n`. */
  lemma {:induction false} Magnitude(n: nat, k: nat) returns (e: nat)
    requires 1 <= n < TwoTo(k)
    ensures e < k && TwoTo(e) <= n < TwoTo(e + 1)
  {
    if n >= TwoTo(k - 1) { e := k - 1; } else { e := Magnitude(n, k - 1); }
  }

  /** A byte in front weighs as much as all that can stand behind it. */
  lemma {:induction false} PrependReads(high: Byte, n: nat, count: nat)
    requires n < TwoTo(8 * count)
    ensures FromBigEndian([high] + BigEndian(n, count)) == high * TwoTo(8 * count) + n
  {
    if count == 0 {
      assert [high] + [] == [high] && [high][..0] == [];
    } else {
      FewerBytes(n, count);
      PrependReads(high, n / 256, count - 1);
      var all, rest := [high] + BigEndian(n, count), BigEndian(n / 256, count - 1);
      assert all[..|all| - 1] == [high] + rest;
      assert all[|all| - 1] == n % 256;
      TwoToAdds(8, 8 * (count - 1));
      assert TwoTo(8) == 256;
      Scale(high, TwoTo(8 * (count - 1)), n);
    }
  }

  lemma Scale(high: nat, weight: nat, n: nat)
    ensures 256 * (high * weight + n / 256) + n % 256 == high * (256 * weight) + n
  {
  }

  /** 2 to the 48, the 52 and the 53. */
  const TOP: nat := 0x1_0000_0000_0000
  const PARTS: nat := 0x10_0000_0000_0000
  const LIMIT: nat := 0x20_0000_0000_0000

  lemma SmallPowers()
    ensures TwoTo(1) == 2 && TwoTo(4) == 16 && TwoTo(8) == 0x100
  {
  }

  lemma NextPower(e: nat)
    ensures TwoTo(e + 1) == 2 * TwoTo(e)
  {
  }

  lemma Constants()
    ensures TwoTo(48) == TOP && TwoTo(52) == PARTS && TwoTo(53) == LIMIT
  {
    hide TwoTo;
    SmallPowers();
    TwoToAdds(8, 8);
    TwoToAdds(16, 8);
    TwoToAdds(24, 24);
    TwoToAdds(48, 4);
    TwoToAdds(52, 1);
  }

  /** The bytes of 2 to the `e` times one and `f` parts of 2 to the 52. */
  function Normal(e: nat, f: nat): (b: Float64)
    requires e <= 52 && f < PARTS
  {
    hide TwoTo;
    Constants();
    [(1023 + e) / 16, (1023 + e) % 16 * 16 + f / TOP] + BigEndian(f % TOP, 6)
  }

  lemma NormalBytes(e: nat, f: nat)
    requires e <= 52 && f < PARTS
    ensures f % TOP < TwoTo(8 * 6)
    ensures var b := Normal(e, f);
            b[0] == (1023 + e) / 16 && b[1] == (1023 + e) % 16 * 16 + f / TOP && b[2..] == BigEndian(f % TOP, 6)
  {
    hide TwoTo, BigEndian;
    Constants();
  }

  lemma NormalReads(e: nat, f: nat)
    requires e <= 52 && f < PARTS
    ensures Holds(Normal(e, f), (1.0 + f as real / Pow2(52)) * Pow2(e))
  {
    hide TwoTo, BigEndian, Normal, FromBigEndian, Pow2;
    var b := Normal(e, f);
    Constants();
    NormalBytes(e, f);
    PrependReads(f / TOP, f % TOP, 6);
    var b0: int, b1: int := b[0], b[1];
    Reassemble(e, f, b0, b1);
    assert [b1 % 16] + b[2..] == [f / TOP] + BigEndian(f % TOP, 6);
    BytesRead(b, e, f);
  }

  lemma BytesRead(b: Float64, e: nat, f: nat)
    requires b[0] < 128 && IsFinite(b) && FromBigEndian([b[1] % 16] + b[2..]) == f
    requires var b0: int, b1: int := b[0], b[1]; b0 % 128 * 16 + b1 / 16 == 1023 + e
    ensures Holds(b, (1.0 + f as real / Pow2(52)) * Pow2(e))
  {
    hide Pow2, FromBigEndian;
  }

  lemma Reassemble(e: nat, f: nat, high: int, low: int)
    requires e <= 52 && f < PARTS && high == (1023 + e) / 16 && low == (1023 + e) % 16 * 16 + f / TOP
    ensures high % 128 * 16 + low / 16 == 1023 + e && low % 16 == f / TOP && f / TOP * TOP + f % TOP == f
    ensures high < 128 && !(high % 128 == 127 && low >= 240)
  {
  }

  /** The fraction that makes up `n`. */
  lemma FractionOf(n: nat, e: nat, power: nat, scale: nat)
    requires e <= 52 && power == TwoTo(e) && scale == TwoTo(52 - e) && power <= n < 2 * power
    ensures (n - power) * scale < PARTS
    ensures (1.0 + ((n - power) * scale) as real / Pow2(52)) * Pow2(e) == n as real
  {
    hide TwoTo, Pow2;
    Constants();
    TwoToAdds(52 - e, e);
    TwoToIsPow2(52);
    TwoToIsPow2(e);
    PartsOf(n - power, power, scale, Pow2(52), Pow2(e));
  }

  lemma PartsOf(part: nat, power: nat, scale: nat, whole: real, weight: real)
    requires part < power && scale * power == PARTS && scale > 0 && whole == PARTS as real && weight == power as real
    ensures part * scale < PARTS
    ensures (1.0 + (part * scale) as real / whole) * weight == (power + part) as real
  {
    Smaller(part, power, scale);
    RealProducts(part, scale, power);
    Cancels(part as real, scale as real, weight, whole);
  }

  lemma RealProducts(part: nat, scale: nat, power: nat)
    ensures (part * scale) as real == part as real * scale as real
    ensures (scale * power) as real == scale as real * power as real
  {
  }

  lemma Smaller(part: nat, whole: nat, scale: nat)
    requires part < whole && scale > 0
    ensures part * scale < scale * whole
  {
  }

  lemma Cancels(part: real, scale: real, power: real, whole: real)
    requires whole == scale * power && whole > 0.0
    ensures (1.0 + part * scale / whole) * power == power + part
  {
    var share := part * scale / whole;
    assert share * whole == part * scale;
    CancelScale(share, part, scale, power);
  }

  lemma CancelScale(share: real, part: real, scale: real, power: real)
    requires share * (scale * power) == part * scale && scale * power > 0.0
    ensures (1.0 + share) * power == power + part
  {
    assert scale != 0.0;
    assert (share * power - part) * scale == 0.0;
  }

  /** A revision below 2 to the 53 has its double. */
  lemma RevisionHasDouble(n: nat) returns (b: Float64)
    requires 1 <= n < 0x20_0000_0000_0000
    ensures Holds(b, n as real)
  {
    hide TwoTo, Pow2, Holds, Normal;
    Constants();
    var e := Magnitude(n, 53);
    var power, scale := TwoTo(e), TwoTo(52 - e);
    NextPower(e);
    FractionOf(n, e, power, scale);
    var f: nat := (n - power) * scale;
    NormalReads(e, f);
    b := Normal(e, f);
    assert (1.0 + f as real / Pow2(52)) * Pow2(e) == n as real;
  }
}
