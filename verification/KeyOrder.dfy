/** What the order of keys means, variant by variant, in terms of the values themselves. */
module KeyOrder {
  import opened Bytes
  import opened DataModel

  // ---------------------------------------------------------------- byte strings

  /** There is a first differing byte and it is smaller, or the one is a proper prefix of the other. */
  ghost predicate BytesLess(a: Data, b: Data) {
    exists k: nat :: BytesLessAt(a, b, k)
  }

  predicate BytesLessAt(a: Data, b: Data, k: nat) {
    && k <= |a| && k < |b| && a[..k] == b[..k]
    && (k < |a| ==> a[k] < b[k])
  }

  lemma {:induction false} IntsLess(a: Data, b: Data)
    ensures CompareInts(a, b) == Equal <==> a == b
    ensures CompareInts(a, b) == Less <==> BytesLess(a, b)
  {
    EqualInts(a, b);
    if a == [] || b == [] || a[0] != b[0] {
      if CompareInts(a, b) == Less { assert BytesLessAt(a, b, 0); }
      if BytesLess(a, b) {
        var k: nat :| BytesLessAt(a, b, k);
        LessAtHead(a, b, k);
      }
    } else {
      IntsLess(a[1..], b[1..]);
      LessBehind(a, b);
    }
  }

  lemma LessAtHead(a: Data, b: Data, k: nat)
    requires BytesLessAt(a, b, k)
    ensures k > 0 ==> a != [] && b != [] && a[0] == b[0]
  {
    if k > 0 { assert a[0] == a[..k][0] && b[0] == b[..k][0]; }
  }

  lemma LessBehind(a: Data, b: Data)
    requires a != [] && b != [] && a[0] == b[0]
    ensures BytesLess(a, b) <==> BytesLess(a[1..], b[1..])
  {
    if BytesLess(a, b) {
      var k: nat :| BytesLessAt(a, b, k);
      assert a[1..][..k - 1] == a[..k][1..] && b[1..][..k - 1] == b[..k][1..];
      assert BytesLessAt(a[1..], b[1..], k - 1);
    }
    if BytesLess(a[1..], b[1..]) {
      var k: nat :| BytesLessAt(a[1..], b[1..], k);
      assert a[..k + 1] == [a[0]] + a[1..][..k] && b[..k + 1] == [b[0]] + b[1..][..k];
      assert BytesLessAt(a, b, k + 1);
    }
  }

  // ---------------------------------------------------------------- floats

  const FRACTION: int := 0x10_0000_0000_0000

  predicate IsNaN(bits: FloatBits) { bits % SIGN_BIT > INFINITY_BITS }

  predicate IsZero(bits: FloatBits) { bits % SIGN_BIT == 0 }

  function TwoTo(n: nat): (p: int)
    ensures p > 0
  {
    if n == 0 then 1 else 2 * TwoTo(n - 1)
  }

  /** The value of the 63 bits below the sign, in units of the smallest positive float: a subnormal is
      its fraction, any other float its fraction with the leading one, doubled once for each step of
      the exponent. Infinity counts as the float that would follow the largest one. */
  function Magnitude(m: nat): int {
    var e, f := m / FRACTION, m % FRACTION;
    if e == 0 then f else (FRACTION + f) * TwoTo(e - 1)
  }

  function FloatValue(bits: FloatBits): int {
    if bits < SIGN_BIT then Magnitude(bits) else -Magnitude(bits - SIGN_BIT)
  }

  lemma MagnitudeStep(m: nat)
    ensures Magnitude(m) < Magnitude(m + 1)
  {
    var e, f := m / FRACTION, m % FRACTION;
    if f + 1 < FRACTION {
      assert (m + 1) / FRACTION == e && (m + 1) % FRACTION == f + 1;
      if e > 0 { ScaledLess(FRACTION + f, FRACTION + f + 1, TwoTo(e - 1)); }
    } else {
      assert (m + 1) / FRACTION == e + 1 && (m + 1) % FRACTION == 0;
      if e > 0 { ScaledLess(FRACTION + f, 2 * FRACTION, TwoTo(e - 1)); }
    }
  }

  lemma ScaledLess(a: int, b: int, k: int)
    requires k > 0
    ensures a < b <==> a * k < b * k
    ensures a == b <==> a * k == b * k
  {
    if a < b { assert b * k - a * k == (b - a) * k > 0; }
    if a > b { assert a * k - b * k == (a - b) * k > 0; }
  }

  lemma {:induction false} MagnitudeGrows(m: nat, n: nat)
    requires m < n
    ensures Magnitude(m) < Magnitude(n)
    decreases n - m
  {
    MagnitudeStep(m);
    if m + 1 < n { MagnitudeGrows(m + 1, n); }
  }

  predicate SameFloat(f: FloatBits, g: FloatBits) { (IsNaN(f) && IsNaN(g)) || (IsZero(f) && IsZero(g)) || f == g }

  /** NaN is above everything else, and other floats go by their value. */
  predicate FloatLess(f: FloatBits, g: FloatBits) { !IsNaN(f) && (IsNaN(g) || FloatValue(f) < FloatValue(g)) }

  lemma SignOf(f: FloatBits)
    ensures f % SIGN_BIT == if f < SIGN_BIT then f else f - SIGN_BIT
  {
  }

  lemma FloatsOrdered(f: FloatBits, g: FloatBits)
    ensures FloatRank(f) == FloatRank(g) <==> SameFloat(f, g)
    ensures FloatRank(f) < FloatRank(g) <==> FloatLess(f, g)
  {
    SignOf(f);
    SignOf(g);
    if !IsNaN(f) && !IsNaN(g) {
      RankAndValue(f);
      RankAndValue(g);
      SignedOrdered(f % SIGN_BIT, f >= SIGN_BIT, g % SIGN_BIT, g >= SIGN_BIT);
    }
  }

  function WithSign(n: int, negative: bool): int { if negative then -n else n }

  lemma RankAndValue(f: FloatBits)
    requires !IsNaN(f)
    ensures FloatRank(f) == WithSign(f % SIGN_BIT, f >= SIGN_BIT)
    ensures FloatValue(f) == WithSign(Magnitude(f % SIGN_BIT), f >= SIGN_BIT)
  {
    SignOf(f);
  }

  lemma SignedOrdered(m: nat, negative: bool, n: nat, negative': bool)
    ensures WithSign(m, negative) < WithSign(n, negative') <==>
            WithSign(Magnitude(m), negative) < WithSign(Magnitude(n), negative')
  {
    MagnitudesOrdered(m, n);
    MagnitudesOrdered(n, m);
    assert Magnitude(0) == 0;
    MagnitudesOrdered(0, m);
    MagnitudesOrdered(0, n);
  }

  lemma MagnitudesOrdered(m: nat, n: nat)
    ensures m < n <==> Magnitude(m) < Magnitude(n)
  {
    if m < n { MagnitudeGrows(m, n); }
    if n < m { MagnitudeGrows(n, m); }
  }

  // ---------------------------------------------------------------- decimals

  function Signed(d: DecimalNumber): int { if d.negative then -d.mantissa else d.mantissa }

  /** The numbers, each an integer over a power of ten, with the other's denominator multiplied in. */
  predicate SameNumber(d: DecimalNumber, e: DecimalNumber) { Signed(d) * Pow10(e.scale) == Signed(e) * Pow10(d.scale) }

  predicate NumberLess(d: DecimalNumber, e: DecimalNumber) { Signed(d) * Pow10(e.scale) < Signed(e) * Pow10(d.scale) }

  lemma {:induction false} Pow10Sum(m: nat, n: nat)
    ensures Pow10(m) * Pow10(n) == Pow10(m + n) && Pow10(m) > 0 && Pow10(n) > 0
  {
    if m == 0 {
      if n > 0 { Pow10Sum(0, n - 1); }
    } else {
      Pow10Sum(m - 1, n);
      assert Pow10(m) * Pow10(n) == 10 * (Pow10(m - 1) * Pow10(n));
    }
  }

  lemma RankScaled(d: DecimalNumber)
    ensures DecimalRank(d) * Pow10(d.scale) == Signed(d) * Pow10(28) && Pow10(d.scale) > 0
  {
    Pow10Sum(28 - d.scale, d.scale);
    assert DecimalRank(d) == Signed(d) * Pow10(28 - d.scale);
    MulThree(Signed(d), Pow10(28 - d.scale), Pow10(d.scale));
  }

  lemma MulThree(a: int, b: int, c: int)
    ensures a * b * c == a * (b * c)
  {
  }

  lemma DecimalsOrdered(d: DecimalNumber, e: DecimalNumber)
    ensures DecimalRank(d) == DecimalRank(e) <==> SameNumber(d, e)
    ensures DecimalRank(d) < DecimalRank(e) <==> NumberLess(d, e)
  {
    RankScaled(d);
    RankScaled(e);
    Pow10Sum(28, 0);
    CrossOrder(DecimalRank(d), DecimalRank(e), Signed(d), Signed(e), Pow10(d.scale), Pow10(e.scale), Pow10(28));
  }

  /** Two quotients over one unit compare as their cross products do. */
  lemma CrossOrder(r: int, q: int, a: int, b: int, x: int, y: int, unit: int)
    requires x > 0 && y > 0 && unit > 0 && r * x == a * unit && q * y == b * unit
    ensures r < q <==> a * y < b * x
    ensures r == q <==> a * y == b * x
  {
    assert x * y > 0;
    ScaledLess(r, q, x * y);
    assert r * (x * y) == (r * x) * y == (a * unit) * y == (a * y) * unit;
    assert q * (x * y) == (q * y) * x == (b * unit) * x == (b * x) * unit;
    ScaledLess(a * y, b * x, unit);
  }

  // ---------------------------------------------------------------- values

  /** Place of a value's variant in the declaration. */
  function Variant(v: DataValue): int {
    match v
    case Null => 0
    case Int(_) => 1
    case BigInt(_) => 2
    case Boolean(_) => 3
    case Float(_) => 4
    case Text(_) => 5
    case Blob(_) => 6
    case DateTime(_) => 7
    case Decimal(_) => 8
  }

  /** The same value: of one variant, and equal there. */
  predicate SameValue(v: DataValue, w: DataValue) {
    match (v, w)
    case (Float(f), Float(g)) => SameFloat(f, g)
    case (Decimal(d), Decimal(e)) => SameNumber(d, e)
    case _ => v == w
  }

  ghost predicate ValueLess(v: DataValue, w: DataValue) {
    match (v, w)
    case (Null, Null) => false
    case (Int(i), Int(j)) => i < j
    case (BigInt(i), BigInt(j)) => i < j
    case (Boolean(b), Boolean(c)) => !b && c
    case (Float(f), Float(g)) => FloatLess(f, g)
    case (Text(s), Text(t)) => BytesLess(s, t)
    case (Blob(s), Blob(t)) => BytesLess(s, t)
    case (DateTime(i), DateTime(j)) => i < j
    case (Decimal(d), Decimal(e)) => NumberLess(d, e)
    case _ => Variant(v) < Variant(w)
  }

  /** Two values compare Equal exactly when they are the same value, Less exactly when the first is
      smaller in its variant or its variant is declared first. */
  lemma ValuesOrdered(v: DataValue, w: DataValue)
    ensures CompareValues(v, w) == Equal <==> SameValue(v, w)
    ensures CompareValues(v, w) == Less <==> ValueLess(v, w)
  {
    if Variant(v) == Variant(w) {
      SameVariantOrdered(v, w);
    } else {
      RankStarts(v);
      RankStarts(w);
      OtherVariants(v, w);
    }
  }

  lemma RankStarts(v: DataValue)
    ensures Rank(v) != [] && Rank(v)[0] == Variant(v)
  {
  }

  lemma OtherVariants(v: DataValue, w: DataValue)
    requires Variant(v) != Variant(w)
    ensures !SameValue(v, w) && (ValueLess(v, w) <==> Variant(v) < Variant(w))
  {
  }

  lemma SameVariantOrdered(v: DataValue, w: DataValue)
    requires Variant(v) == Variant(w)
    ensures CompareValues(v, w) == Equal <==> SameValue(v, w)
    ensures CompareValues(v, w) == Less <==> ValueLess(v, w)
  {
    match v
    case Text(s) => TailOrdered(5, s, w.utf8);
    case Blob(s) => TailOrdered(6, s, w.bytes);
    case Float(f) => SingleOrdered(4, FloatRank(f), FloatRank(w.bits)); FloatsOrdered(f, w.bits);
    case Decimal(d) => SingleOrdered(8, DecimalRank(d), DecimalRank(w.decimal)); DecimalsOrdered(d, w.decimal);
    case Int(i) => SingleOrdered(1, i, w.int32);
    case BigInt(i) => SingleOrdered(2, i, w.int64);
    case DateTime(i) => SingleOrdered(7, i, w.instant);
    case Boolean(b) => SingleOrdered(3, if b then 1 else 0, if w.flag then 1 else 0);
    case Null =>
  }

  lemma SingleOrdered(k: int, i: int, j: int)
    ensures CompareInts([k, i], [k, j]) == if i < j then Less else if i == j then Equal else Greater
  {
    assert [k, i][1..] == [i] && [k, j][1..] == [j];
    EqualFirst([k, i], [k, j]);
    if i == j { EqualFirst([i], [j]); }
  }

  lemma EqualFirst(a: seq<int>, b: seq<int>)
    requires a != [] && b != [] && a[0] == b[0]
    ensures CompareInts(a, b) == CompareInts(a[1..], b[1..])
  {
  }

  lemma TailOrdered(k: int, s: Data, t: Data)
    ensures CompareInts([k] + s, [k] + t) == Equal <==> s == t
    ensures CompareInts([k] + s, [k] + t) == Less <==> BytesLess(s, t)
  {
    assert ([k] + s)[1..] == s && ([k] + t)[1..] == t;
    IntsLess(s, t);
  }

  // ---------------------------------------------------------------- keys

  predicate SameKey(a: Key, b: Key) {
    |a| == |b| && forall j :: 0 <= j < |a| ==> SameValue(a[j], b[j])
  }

  /** There is a first differing column and it is less, or the one key is a proper prefix of the
      other. */
  ghost predicate KeyLess(a: Key, b: Key) {
    exists k: nat :: KeyLessAt(a, b, k)
  }

  ghost predicate KeyLessAt(a: Key, b: Key, k: nat) {
    && k <= |a| && k < |b|
    && (forall j :: 0 <= j < k ==> SameValue(a[j], b[j]))
    && (k < |a| ==> ValueLess(a[k], b[k]))
  }

  /** Keys compare Equal exactly when they are the same, and Less exactly when the first one is less. */
  lemma {:induction false} KeysOrdered(a: Key, b: Key)
    ensures Compare(a, b) == Equal <==> SameKey(a, b)
    ensures Compare(a, b) == Less <==> KeyLess(a, b)
  {
    if a == [] || b == [] {
      if a == [] && b != [] { assert KeyLessAt(a, b, 0); }
    } else {
      ValuesOrdered(a[0], b[0]);
      if SameValue(a[0], b[0]) {
        KeysOrdered(a[1..], b[1..]);
        SameBehind(a, b);
        KeyLessBehind(a, b);
      } else {
        FirstDiffers(a, b);
      }
    }
  }

  lemma FirstDiffers(a: Key, b: Key)
    requires a != [] && b != [] && !SameValue(a[0], b[0])
    ensures !SameKey(a, b) && (KeyLess(a, b) <==> ValueLess(a[0], b[0]))
  {
    if KeyLess(a, b) {
      var k: nat :| KeyLessAt(a, b, k);
      assert k == 0;
    }
    if ValueLess(a[0], b[0]) { assert KeyLessAt(a, b, 0); }
  }

  lemma SameBehind(a: Key, b: Key)
    requires a != [] && b != [] && SameValue(a[0], b[0])
    ensures SameKey(a, b) <==> SameKey(a[1..], b[1..])
  {
    if SameKey(a[1..], b[1..]) {
      forall j | 0 <= j < |a| ensures SameValue(a[j], b[j]) {
        if j > 0 { assert a[j] == a[1..][j - 1] && b[j] == b[1..][j - 1]; }
      }
    }
  }

  lemma KeyLessBehind(a: Key, b: Key)
    requires a != [] && b != [] && SameValue(a[0], b[0])
    requires CompareValues(a[0], b[0]) == Equal
    ensures KeyLess(a, b) <==> KeyLess(a[1..], b[1..])
  {
    ValuesOrdered(a[0], b[0]);
    if KeyLess(a, b) {
      var k: nat :| KeyLessAt(a, b, k);
      assert k > 0;
      assert KeyLessAt(a[1..], b[1..], k - 1);
    }
    if KeyLess(a[1..], b[1..]) {
      var k: nat :| KeyLessAt(a[1..], b[1..], k);
      forall j | 0 <= j < k + 1 ensures SameValue(a[j], b[j]) {
        if j > 0 { assert a[j] == a[1..][j - 1] && b[j] == b[1..][j - 1]; }
      }
      assert KeyLessAt(a, b, k + 1);
    }
  }
}
