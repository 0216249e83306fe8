/** The Fletcher-16 (mod 255) trailer, computed by the same loop in Frame, HilFrame and
    HilFrameArduino, and the errors it can and cannot see. */
module Fletcher {
  import opened Bytes

  /** The pair of running sums after all of `d`: the loop, seen from its last iteration. */
  function Sums(d: seq<byte>): (r: (nat, nat))
    ensures r.0 < 255 && r.1 < 255
  {
    if d == [] then (0, 0) else
    var before := Sums(d[..|d| - 1]);
    var sum1 := (before.0 + d[|d| - 1]) % 255;
    (sum1, (before.1 + sum1) % 255)
  }

  /** The 16-bit word both ends compare: sum2 in the high byte, sum1 in the low byte. */
  function Fletcher16(d: seq<byte>): (r: u16) {
    256 * Sums(d).1 + Sums(d).0
  }

  method Checksum(data: seq<byte>) returns (r: u16)
    ensures r == Fletcher16(data)
    ensures r % 256 == Total(data) % 255 && r / 256 == Weighted(data) % 255
  {
    var sum1: nat, sum2: nat := 0, 0;
    for i := 0 to |data|
      invariant (sum1, sum2) == Sums(data[..i])
    {
      assert data[..i + 1][..i] == data[..i];
      sum1 := (sum1 + data[i]) % 255;
      sum2 := (sum2 + sum1) % 255;
    }
    assert data[..|data|] == data;
    r := 256 * sum2 + sum1;
    WordHoldsBothSums(data);
  }

  // ---- Closed form ----------------------------------------------------------

  /** The plain sum of the bytes. */
  function Total(d: seq<byte>): nat {
    if d == [] then 0 else d[0] + Total(d[1..])
  }

  /** The sum of the bytes, byte i with weight n - i. */
  function Weighted(d: seq<byte>): nat {
    if d == [] then 0 else |d| * d[0] + Weighted(d[1..])
  }

  lemma {:induction false} Snoc(d: seq<byte>, b: byte)
    ensures Total(d + [b]) == Total(d) + b
    ensures Weighted(d + [b]) == Weighted(d) + Total(d) + b
  {
    if d == [] {
      assert [] + [b] == [b];
    } else {
      Snoc(d[1..], b);
      assert (d + [b])[1..] == d[1..] + [b];
      calc {
        Weighted(d + [b]);
        (|d| + 1) * d[0] + Weighted(d[1..] + [b]);
        |d| * d[0] + d[0] + Weighted(d[1..]) + Total(d[1..]) + b;
      }
    }
  }

  lemma AddRemainder(x: int, y: int)
    ensures (x % 255 + y) % 255 == (x + y) % 255
  {}

  lemma {:induction false} ClosedForm(d: seq<byte>)
    ensures Sums(d) == (Total(d) % 255, Weighted(d) % 255)
  {
    if d != [] {
      var init, b := d[..|d| - 1], d[|d| - 1];
      ClosedForm(init);
      Snoc(init, b);
      assert init + [b] == d;
      AddRemainder(Total(init), b);
      AddRemainder(Weighted(init), Total(d) % 255);
      AddRemainder(Total(d), Weighted(init));
    }
  }

  /** The low byte of the word is the plain sum, the high byte the weighted one. */
  lemma WordHoldsBothSums(d: seq<byte>)
    ensures Fletcher16(d) % 256 == Total(d) % 255 && Fletcher16(d) / 256 == Weighted(d) % 255
  {
    ClosedForm(d);
  }

  // ---- Error detection ------------------------------------------------------

  lemma {:induction false} Substitute(d: seq<byte>, i: nat, v: byte)
    requires i < |d|
    ensures Total(d[i := v]) == Total(d) + (v - d[i])
    ensures Weighted(d[i := v]) == Weighted(d) + (|d| - i) * (v - d[i])
  {
    var e := d[i := v];
    if i == 0 {
      assert e[1..] == d[1..];
      assert |d| * v == |d| * d[0] + |d| * (v - d[0]);
    } else {
      assert e[1..] == d[1..][i - 1 := v];
      Substitute(d[1..], i - 1, v);
    }
  }

  ghost predicate Congruent(x: int, y: int) {
    (x - y) % 255 == 0
  }

  lemma CongruentIffSameRemainder(x: int, y: int)
    ensures Congruent(x, y) <==> x % 255 == y % 255
  {}

  lemma SameChecksum(d: seq<byte>, e: seq<byte>)
    ensures Fletcher16(d) == Fletcher16(e)
            <==> Congruent(Total(d), Total(e)) && Congruent(Weighted(d), Weighted(e))
  {
    ClosedForm(d);
    ClosedForm(e);
    CongruentIffSameRemainder(Total(d), Total(e));
    CongruentIffSameRemainder(Weighted(d), Weighted(e));
  }

  lemma ScaledMultiple(k: int, x: int)
    requires x % 255 == 0
    ensures (k * x) % 255 == 0
  {
    var q := x / 255;
    assert k * x == 255 * (k * q);
  }

  /** Replacing one byte goes unseen exactly when the two values agree mod 255 (0x00 for 0xFF). */
  lemma OneByteError(d: seq<byte>, i: nat, v: byte)
    requires i < |d|
    ensures Fletcher16(d[i := v]) == Fletcher16(d) <==> v % 255 == d[i] % 255
  {
    Substitute(d, i, v);
    SameChecksum(d[i := v], d);
    CongruentIffSameRemainder(v, d[i]);
    if (v - d[i]) % 255 == 0 {
      ScaledMultiple(|d| - i, v - d[i]);
    }
  }

  lemma ShiftByMultiple(x: int, t: int)
    ensures Congruent(x + 255 * t, 0) <==> Congruent(x, 0)
  {}

  lemma CancelMultiple(x: int, k: int, y: int)
    ensures Congruent(y, 0) ==> (Congruent(x + k * y, 0) <==> Congruent(x, 0))
  {
    if Congruent(y, 0) {
      var w := y / 255;
      assert k * y == 255 * (k * w) by { assert y == 255 * w; }
      ShiftByMultiple(x, k * w);
    }
  }

  /** The weighted difference that two changes a and b make, with a + b split off. */
  lemma Regroup(n: int, i: int, j: int, a: int, b: int)
    ensures (n - i) * a + (n - j) * b == (j - i) * a + (n - j) * (a + b)
  {}

  lemma SubstituteTwo(d: seq<byte>, i: nat, j: nat, u: byte, v: byte)
    requires i < j < |d|
    ensures var e, a, b := d[i := u][j := v], u - d[i], v - d[j];
            && Total(e) - Total(d) == a + b
            && Weighted(e) - Weighted(d) == (j - i) * a + (|d| - j) * (a + b)
  {
    Substitute(d, i, u);
    Substitute(d[i := u], j, v);
    hide Total, Weighted;
    Regroup(|d|, i, j, u - d[i], v - d[j]);
  }

  /** Replacing two bytes goes unseen exactly when the changes cancel and the distance
      between them annihilates the change. */
  lemma TwoByteError(d: seq<byte>, i: nat, j: nat, u: byte, v: byte)
    requires i < j < |d|
    ensures Fletcher16(d[i := u][j := v]) == Fletcher16(d)
            <==> Congruent(u - d[i] + v - d[j], 0) && Congruent((j - i) * (u - d[i]), 0)
  {
    hide Total, Weighted, Fletcher16;
    var a, b := u - d[i], v - d[j];
    SubstituteTwo(d, i, j, u, v);
    SameChecksum(d[i := u][j := v], d);
    CancelMultiple((j - i) * a, |d| - j, a + b);
  }

  /** gcd(k, 255) = 1, with 255 = 3 * 5 * 17. */
  predicate CoprimeTo255(k: int) {
    k % 3 != 0 && k % 5 != 0 && k % 17 != 0
  }

  lemma ReduceFactor(p: int, k: int, a: int)
    requires p > 0 && (k * a) % p == 0
    ensures ((k % p) * a) % p == 0
  {
    var q, r := k / p, (k * a) / p;
    assert k == q * p + k % p;
    assert (k % p) * a == p * (r - q * a) by {
      assert k * a == q * p * a + (k % p) * a;
    }
    MultipleHasNoRemainder(p, r - q * a);
  }

  lemma MultipleBounds(p: int, t: int)
    requires p > 0
    ensures t >= 1 ==> p * t >= p
    ensures t <= -1 ==> p * t <= -p
  {}

  lemma MultipleHasNoRemainder(p: int, q: int)
    requires p > 0
    ensures (p * q) % p == 0
  {
    var m := p * q;
    assert m % p == p * (q - m / p);
    MultipleBounds(p, q - m / p);
  }

  /** The inverse of r modulo 17. */
  function Inverse17(r: int): (s: int)
    requires 0 < r < 17
    ensures (r * s) % 17 == 1
  {
    match r
    case 2 => 9 case 3 => 6 case 4 => 13 case 5 => 7 case 6 => 3 case 7 => 5 case 8 => 15 case 9 => 2
    case 10 => 12 case 11 => 14 case 12 => 10 case 13 => 4 case 14 => 11 case 15 => 8
    case _ => r
  }

  lemma CancelFactor(p: int, r: int, s: int, m: int, q: int, a: int)
    requires r * s == p * m + 1 && r * a == p * q
    ensures a == p * (s * q - m * a)
  {
    calc {
      p * (s * q - m * a);
      s * (p * q) - (p * m) * a;
      s * (r * a) - (r * s - 1) * a;
      a;
    }
  }

  lemma Euclid3(k: int, a: int)
    requires (k * a) % 3 == 0 && k % 3 != 0
    ensures a % 3 == 0
  {
    ReduceFactor(3, k, a);
    if k % 3 == 1 {} else {}
  }

  lemma Cancel5(r: int, a: int)
    requires 0 < r < 5 && (r * a) % 5 == 0
    ensures a % 5 == 0
  {
    if r == 1 {} else if r == 2 {} else if r == 3 {} else {}
  }

  lemma Euclid5(k: int, a: int)
    requires (k * a) % 5 == 0 && k % 5 != 0
    ensures a % 5 == 0
  {
    ReduceFactor(5, k, a);
    Cancel5(k % 5, a);
  }

  lemma Cancel17(r: int, s: int, a: int)
    requires (r * s) % 17 == 1 && (r * a) % 17 == 0
    ensures a % 17 == 0
  {
    var x, y := r * s, r * a;
    var m, q := x / 17, y / 17;
    assert x == 17 * m + 1 && y == 17 * q;
    CancelFactor(17, r, s, m, q, a);
  }

  lemma Euclid17(k: int, a: int)
    requires (k * a) % 17 == 0 && k % 17 != 0
    ensures a % 17 == 0
  {
    ReduceFactor(17, k, a);
    Cancel17(k % 17, Inverse17(k % 17), a);
  }

  lemma FactorOfMultiple(k: int, p: int, a: int)
    requires p > 0 && 255 % p == 0 && (k * a) % 255 == 0
    ensures (k * a) % p == 0
  {
    var q := (k * a) / 255;
    assert 255 == p * (255 / p);
    assert k * a == p * ((255 / p) * q);
    MultipleHasNoRemainder(p, (255 / p) * q);
  }

  lemma ThreeFactors(a: int)
    requires a % 3 == 0 && a % 5 == 0 && a % 17 == 0
    ensures a % 255 == 0
  {
    var w := 2 * (a / 5) - a / 3;
    assert a == 15 * w;
    assert a == 255 * (8 * (a / 17) - 7 * w);
  }

  lemma CoprimeCancels(k: int, a: int)
    requires CoprimeTo255(k) && (k * a) % 255 == 0
    ensures a % 255 == 0
  {
    FactorOfMultiple(k, 3, a);
    FactorOfMultiple(k, 5, a);
    FactorOfMultiple(k, 17, a);
    Euclid3(k, a);
    Euclid5(k, a);
    Euclid17(k, a);
    ThreeFactors(a);
  }

  /** Two replaced bytes at a distance coprime to 255 are seen as soon as one of them
      really changes mod 255. */
  lemma TwoByteErrorDetected(d: seq<byte>, i: nat, j: nat, u: byte, v: byte)
    requires i < j < |d| && CoprimeTo255(j - i)
    requires u % 255 != d[i] % 255 || v % 255 != d[j] % 255
    ensures Fletcher16(d[i := u][j := v]) != Fletcher16(d)
  {
    TwoByteError(d, i, j, u, v);
    var a, b := u - d[i], v - d[j];
    if Congruent(a + b, 0) && Congruent((j - i) * a, 0) {
      CoprimeCancels(j - i, a);
      BothUnchanged(a, b);
      CongruentIffSameRemainder(u, d[i]);
      CongruentIffSameRemainder(v, d[j]);
    }
  }

  lemma BothUnchanged(a: int, b: int)
    requires a % 255 == 0 && Congruent(a + b, 0)
    ensures b % 255 == 0
  {}
}
