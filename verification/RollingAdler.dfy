/** The rolling checksum, and the Adler-32 of section 2.2 of RFC 1950 it is meant to follow. */
module RollingAdler {
  import opened Bytes
  import opened Arithmetic

  const MOD: int := 65521

  // ---------------------------------------------------------------- Adler-32

  /** The two sums after the bytes, starting from (a, b). */
  function Adler(a: nat, b: nat, data: seq<Byte>): (nat, nat) {
    if data == [] then (a % MOD, b % MOD)
    else
      var sums := Adler(a, b, data[..|data| - 1]);
      var s1 := (sums.0 + data[|data| - 1]) % MOD;
      (s1, (sums.1 + s1) % MOD)
  }

  function Packed(s1: int, s2: int): int {
    s2 * 0x1_0000 + s1
  }

  /** The checksum of section 2.2 of RFC 1950. */
  function Checksum(data: seq<Byte>): int {
    var sums := Adler(1, 0, data);
    Packed(sums.0, sums.1)
  }

  function Sum(d: seq<Byte>): nat {
    if d == [] then 0 else Sum(d[..|d| - 1]) + d[|d| - 1]
  }

  /** Each byte times its distance from the end, the last byte counting once. */
  function Weighted(d: seq<Byte>): nat {
    if d == [] then 0 else Weighted(d[..|d| - 1]) + Sum(d)
  }

  lemma {:induction false} AdlerClosed(a: nat, b: nat, data: seq<Byte>)
    ensures Adler(a, b, data) == ((a + Sum(data)) % MOD, (b + |data| * a + Weighted(data)) % MOD)
  {
    if data != [] {
      AdlerClosed(a, b, data[..|data| - 1]);
      var n := |data|;
      assert n * a == (n - 1) * a + a;
      var s1, s2 := a + Sum(data[..n - 1]), b + (n - 1) * a + Weighted(data[..n - 1]);
      AddMods(s1, data[n - 1]);
      AddMods(s2, s1 + data[n - 1]);
    }
  }

  lemma AddMods(a: nat, b: nat)
    ensures (a % MOD + b) % MOD == (a + b) % MOD == (a % MOD + b % MOD) % MOD
  {}

  /** Dropping the first byte. */
  lemma {:induction false} WithoutFirst(d: seq<Byte>)
    requires d != []
    ensures Sum(d) == d[0] + Sum(d[1..])
    ensures Weighted(d) == |d| * d[0] + Weighted(d[1..])
  {
    var n := |d| - 1;
    if n > 0 {
      WithoutFirst(d[..n]);
      assert d[..n][1..] == d[1..][..n - 1];
      assert (n + 1) * d[0] == n * d[0] + d[0];
    }
  }

  function Slid(w: seq<Byte>, next: Byte): seq<Byte>
    requires w != []
  {
    w[1..] + [next]
  }

  lemma SlidSums(w: seq<Byte>, next: Byte)
    requires w != []
    ensures Sum(Slid(w, next)) == Sum(w) - w[0] + next
    ensures Weighted(Slid(w, next)) == Weighted(w) - |w| * w[0] + Sum(Slid(w, next))
  {
    WithoutFirst(w);
    assert Slid(w, next)[..|w| - 1] == w[1..];
  }

  // ---------------------------------------------------------------- the rolling state

  datatype Rolling = Rolling(windowSize: nat, s1: nat, s2: nat)

  /** The state follows window w: c and e are what the two sums carry besides the bytes, and
      after k rolls c has been added k times to the second. */
  ghost predicate Follows(r: Rolling, w: seq<Byte>, c: int, e: int, k: nat) {
    && r.windowSize == |w|
    && r.s1 == (c + Sum(w)) % MOD
    && r.s2 == (e + k * c + Weighted(w)) % MOD
  }

  /** What Init computes from the running value s1 and the first window: both stored sums come
      from the whole 32-bit checksum, the first one as its remainder. */
  function Started(s1: nat, w: seq<Byte>): Rolling {
    var sums := Adler(s1, 0, w);
    Rolling(|w|, Packed(sums.0, sums.1) % MOD, sums.1)
  }

  function Rolled(r: Rolling, out: Byte, next: Byte): Rolling {
    var s1 := (r.s1 - out + next) % MOD;
    Rolling(r.windowSize, s1, (r.s2 - r.windowSize * out % U32 + s1) % MOD)
  }

  /** The product in Roll is taken in 32 bits; wrapping shifts the sum by 225 per wrap. */
  lemma WrapShifts(n: nat, out: Byte)
    requires n < U32
    ensures var q := n * out / U32;
      n * out % U32 == n * out - q * U32 && 0 <= q < 255 && (q == 0 <==> n * out < U32)
  {
    MulMonotone(n, U32 - 1, out);
    assert (U32 - 1) * out <= (U32 - 1) * 255;
    assert n * out <= (U32 - 1) * 255;
  }

  lemma ModShift(a: int, q: int)
    requires 0 <= q < 255
    ensures (a + q * U32) % MOD == a % MOD <==> q == 0
  {
    assert U32 == 65551 * MOD + 225;
    var x, y := a % MOD, (a + 225 * q) % MOD;
    assert (a + q * U32) % MOD == y by {
      DivModUnique(a + q * U32, MOD, (a + 225 * q) / MOD + 65551 * q, y);
    }
    if q > 0 {
      var p := (a + 225 * q) / MOD - a / MOD;
      assert x == y ==> 225 * q == p * MOD;
    }
  }

  /** A roll that removes the oldest byte keeps following, with one more c in the second sum,
      exactly when the 32-bit product does not wrap. */
  lemma RollFollowsIff(r: Rolling, w: seq<Byte>, c: int, e: int, k: nat, next: Byte)
    requires w != [] && |w| < U32 && Follows(r, w, c, e, k)
    ensures Follows(Rolled(r, w[0], next), Slid(w, next), c, e, k + 1) <==> |w| * w[0] < U32
  {
    var p := |w| * w[0];
    SlidSums(w, next);
    WrapShifts(|w|, w[0]);
    MulNext(k, c, k + 1);
    FirstSum(c + Sum(w), w[0], next);
    SecondSumIff(e + k * c + Weighted(w), p, p / U32, c + Sum(Slid(w, next)));
  }

  lemma FirstSum(a: int, out: int, next: int)
    ensures (a % MOD - out + next) % MOD == (a - out + next) % MOD
  {}

  /** The second sum after a roll, with the product p of window length and outgoing byte. */
  lemma SecondSumIff(s2: int, p: int, q: int, s1: int)
    requires p % U32 == p - q * U32 && 0 <= q < 255
    ensures (s2 % MOD - p % U32 + s1 % MOD) % MOD == (s2 - p + s1) % MOD <==> q == 0
  {
    SecondSum(s2, p % U32, s1);
    ModShift(s2 - p + s1, q);
  }

  lemma SecondSum(s2: int, x: int, s1: int)
    ensures (s2 % MOD - x + s1 % MOD) % MOD == (s2 - x + s1) % MOD
  {}

  lemma MulNext(k: nat, c: int, k': nat)
    requires k' == k + 1
    ensures k' * c == k * c + c
  {}

  /** The arithmetic of a roll, with the product p of window length and outgoing byte. */
  lemma RollSums(a: int, b: int, p: int, q: int, out: int, next: int)
    requires p % U32 == p - q * U32
    ensures var s1 := (a % MOD - out + next) % MOD;
      && s1 == (a - out + next) % MOD
      && (b % MOD - p % U32 + s1) % MOD == (b - p + q * U32 + a - out + next) % MOD
  {
    var s1 := a - out + next;
    FirstSum(a, out, next);
    SecondSum(b, p % U32, s1);
  }

  /** In any case a roll keeps following, with 2^32 more in the second sum for each wrap. */
  lemma RollFollows(r: Rolling, w: seq<Byte>, c: int, e: int, k: nat, next: Byte, q: nat, e': int, k': nat)
    requires w != [] && |w| < U32 && Follows(r, w, c, e, k) && q == |w| * w[0] / U32
    requires e' == e + U32 * q && k' == k + 1
    ensures Follows(Rolled(r, w[0], next), Slid(w, next), c, e', k')
  {
    var p := |w| * w[0];
    SlidSums(w, next);
    WrapShifts(|w|, w[0]);
    MulNext(k, c, k');
    RollSums(c + Sum(w), e + k * c + Weighted(w), p, q, w[0], next);
  }

  /** The state after the first k rolls over a stream, from the state at its first window. */
  function RolledBy(r: Rolling, stream: seq<Byte>, n: nat, k: nat): Rolling
    requires k + n <= |stream| && n > 0
  {
    if k == 0 then r
    else Rolled(RolledBy(r, stream, n, k - 1), stream[k - 1], stream[k - 1 + n])
  }

  /** How often the products of the first k rolls wrap. */
  function Wraps(stream: seq<Byte>, n: nat, k: nat): nat
    requires k <= |stream|
  {
    if k == 0 then 0 else Wraps(stream, n, k - 1) + n * stream[k - 1] / U32
  }

  /** Short windows never wrap. */
  lemma {:induction false} ShortNeverWraps(stream: seq<Byte>, n: nat, k: nat)
    requires k <= |stream| && n * 255 < U32
    ensures Wraps(stream, n, k) == 0
  {
    if k > 0 {
      ShortNeverWraps(stream, n, k - 1);
      MulMonotone(stream[k - 1], 255, n);
    }
  }

  lemma MoreWraps(e: int, wraps: nat, q: nat)
    ensures e + U32 * wraps + U32 * q == e + U32 * (wraps + q)
  {}

  /** The closed form after any number of rolls over windows of any 32-bit length. */
  lemma {:induction false} EveryRollFollows(r: Rolling, stream: seq<Byte>, n: nat, k: nat, c: int, e: int)
    requires k + n <= |stream| && 0 < n < U32 && Follows(r, stream[..n], c, e, 0)
    ensures Follows(RolledBy(r, stream, n, k), stream[k..k + n], c, e + U32 * Wraps(stream, n, k), k)
  {
    if k > 0 {
      EveryRollFollows(r, stream, n, k - 1, c, e);
      var w, next, wraps := stream[k - 1..k - 1 + n], stream[k - 1 + n], Wraps(stream, n, k - 1);
      assert |w| == n && w[0] == stream[k - 1];
      var q := n * stream[k - 1] / U32;
      MoreWraps(e, wraps, q);
      RollFollows(RolledBy(r, stream, n, k - 1), w, c, e + U32 * wraps, k - 1, next, q,
                  e + U32 * Wraps(stream, n, k), k);
      assert Slid(w, next) == stream[k..k + n];
    }
  }

  // ---------------------------------------------------------------- what Init starts from

  /** After Init the first sum carries 15 times the second sum of the first window besides the
      starting value, because the remainder is taken of the whole checksum. */
  lemma InitFollows(a: nat, w: seq<Byte>)
    ensures Follows(Started(a, w), w, a + 15 * Adler(a, 0, w).1, |w| * a, 0)
  {
    AdlerClosed(a, 0, w);
    var b := Adler(a, 0, w).1;
    var x := a + Sum(w);
    DivModUnique(b * 0x1_0000 + x % MOD, MOD, b + (15 * b + x) / MOD - x / MOD, (15 * b + x) % MOD);
  }

  /** Fifteen is invertible. */
  lemma FifteenTimes(x: int, y: int)
    requires 0 <= y < MOD && 0 <= x < MOD
    ensures (15 * (x - y)) % MOD == 0 <==> x == y
  {
    var d := x - y;
    if (15 * d) % MOD == 0 {
      var q := 15 * d / MOD;
      assert 15 * d == q * MOD;
      assert d == MOD * d - 4368 * (15 * d) == MOD * (d - 4368 * q);
    }
  }

  lemma ModEqual(a: int, b: int)
    ensures a % MOD == b % MOD <==> (a - b) % MOD == 0
  {
    if (a - b) % MOD == 0 {
      DivModUnique(a, MOD, (a - b) / MOD + b / MOD, b % MOD);
    }
  }

  /** After k rolls from a fresh Init the value read is the window's own Adler-32 exactly when the
      first window's second sum is zero and k, counted with 225 for each wrapped product, is a
      multiple of the modulus. */
  lemma GetIsChecksumIff(stream: seq<Byte>, n: nat, k: nat)
    requires k + n <= |stream| && 0 < n < U32
    ensures var r, w := RolledBy(Started(1, stream[..n]), stream, n, k), stream[k..k + n];
      Packed(r.s1, r.s2) == Checksum(w)
      <==> Adler(1, 0, stream[..n]).1 == 0 && (k + 225 * Wraps(stream, n, k)) % MOD == 0
  {
    RolledFromStart(stream, n, k);
    ChecksumIff(RolledBy(Started(1, stream[..n]), stream, n, k), stream[k..k + n], Adler(1, 0, stream[..n]).1, k,
                Wraps(stream, n, k));
  }

  lemma RolledFromStart(stream: seq<Byte>, n: nat, k: nat)
    requires k + n <= |stream| && 0 < n < U32
    ensures var b := Adler(1, 0, stream[..n]).1;
      b < MOD && Follows(RolledBy(Started(1, stream[..n]), stream, n, k), stream[k..k + n], 1 + 15 * b,
                         n + U32 * Wraps(stream, n, k), k)
  {
    AdlerClosed(1, 0, stream[..n]);
    InitFollows(1, stream[..n]);
    EveryRollFollows(Started(1, stream[..n]), stream, n, k, 1 + 15 * Adler(1, 0, stream[..n]).1, n);
  }

  lemma ChecksumIff(r: Rolling, w: seq<Byte>, b: nat, k: nat, wraps: nat)
    requires Follows(r, w, 1 + 15 * b, |w| + U32 * wraps, k) && b < MOD
    ensures Packed(r.s1, r.s2) == Checksum(w) <==> b == 0 && (k + 225 * wraps) % MOD == 0
  {
    AdlerClosed(1, 0, w);
    SumsEqualIff(r, w, b, k, 0, |w|, wraps);
    PackedInjective(r.s1, r.s2, Adler(1, 0, w).0, Adler(1, 0, w).1);
    assert b == 0 ==> k * (1 + 15 * b) == k;
  }

  lemma PackedInjective(a: int, b: int, a': int, b': int)
    requires 0 <= a < MOD && 0 <= a' < MOD
    ensures Packed(a, b) == Packed(a', b') <==> a == a' && b == b'
  {}

  /** Two states over the same window: one with k rolls and some wraps behind it from a first
      window with second sum b, one as a start from second sum b' would have it. */
  lemma SumsEqualIff(r: Rolling, w: seq<Byte>, b: nat, k: nat, b': nat, e: int, wraps: nat)
    requires Follows(r, w, 1 + 15 * b, e + U32 * wraps, k) && b < MOD && b' < MOD
    ensures r.s1 == (1 + 15 * b' + Sum(w)) % MOD && r.s2 == (e + Weighted(w)) % MOD
            <==> b == b' && (k * (1 + 15 * b) + 225 * wraps) % MOD == 0
  {
    ModEqual(1 + 15 * b + Sum(w), 1 + 15 * b' + Sum(w));
    FifteenTimes(b, b');
    var x := k * (1 + 15 * b);
    ModEqual(e + U32 * wraps + x + Weighted(w), e + Weighted(w));
    WrapsReduce(x, wraps);
  }

  lemma WrapsReduce(x: int, wraps: nat)
    ensures (x + U32 * wraps) % MOD == (x + 225 * wraps) % MOD
  {
    var y := x + 225 * wraps;
    DivModUnique(x + U32 * wraps, MOD, y / MOD + 65551 * wraps, y % MOD);
  }

  /** Rolling to a window agrees with a fresh Init of that window exactly when both windows have
      the same second sum, and the k added constants and the wraps cancel. */
  lemma RolledIsFreshIff(stream: seq<Byte>, n: nat, k: nat)
    requires k + n <= |stream| && 0 < n < U32
    ensures RolledBy(Started(1, stream[..n]), stream, n, k) == Started(1, stream[k..k + n])
            <==> Cancel(Adler(1, 0, stream[..n]).1, Adler(1, 0, stream[k..k + n]).1, k, Wraps(stream, n, k))
  {
    RolledFromStart(stream, n, k);
    StartFollows(stream[k..k + n]);
    FreshIff(RolledBy(Started(1, stream[..n]), stream, n, k), Started(1, stream[k..k + n]), stream[k..k + n],
             Adler(1, 0, stream[..n]).1, Adler(1, 0, stream[k..k + n]).1, k, n, Wraps(stream, n, k));
  }

  /** The second sums b and b' are equal, and the k constants added and the wraps cancel. */
  predicate Cancel(b: nat, b': nat, k: nat, wraps: nat) {
    b == b' && (k * (1 + 15 * b) + 225 * wraps) % MOD == 0
  }

  lemma StartFollows(w: seq<Byte>)
    ensures var b := Adler(1, 0, w).1; b < MOD && Follows(Started(1, w), w, 1 + 15 * b, |w|, 0)
  {
    AdlerClosed(1, 0, w);
    InitFollows(1, w);
  }

  lemma FreshIff(r: Rolling, started: Rolling, w: seq<Byte>, b: nat, b': nat, k: nat, n: nat, wraps: nat)
    requires Follows(r, w, 1 + 15 * b, n + U32 * wraps, k) && Follows(started, w, 1 + 15 * b', n, 0)
    requires b < MOD && b' < MOD
    ensures r == started <==> Cancel(b, b', k, wraps)
  {
    SumsEqualIff(r, w, b, k, b', n, wraps);
  }

  // ---------------------------------------------------------------- the class

  class RollingAdler32 {
    var windowSize: nat
    var s1: nat
    var s2: nat
    var full: bool

    ghost predicate Valid()
      reads this
    {
      windowSize < U32 && s1 < MOD && s2 < MOD
    }

    ghost function State(): Rolling
      reads this
    {
      Rolling(windowSize, s1, s2)
    }

    constructor ()
      ensures Valid() && State() == Rolling(0, 1, 0) && !full
    {
      windowSize, s1, s2, full := 0, 1, 0, false;
    }

    method Reset()
      modifies this
      ensures Valid() && State() == Rolling(0, 1, 0) && !full
    {
      windowSize, s1, s2, full := 0, 1, 0, false;
    }

    /** Starts from the current first sum, whatever it is. */
    method Init(data: seq<Byte>, size: nat)
      requires Valid() && 0 < size <= |data| && size < U32
      modifies this
      ensures Valid() && full && State() == Started(old(s1), data[..size])
      ensures Follows(State(), data[..size], old(s1) + 15 * s2, size * old(s1), 0)
    {
      ghost var w := data[..size];
      InitFollows(s1, w);
      AdlerClosed(s1, 0, w);
      var value := Adler32(s1, data, size);
      windowSize := size;
      s2 := value / 0x1_0000;
      s1 := value % MOD;
      full := true;
    }

    /** zlib's adler32 on a value whose second sum is zero. */
    static method Adler32(start: nat, data: seq<Byte>, len: nat) returns (value: nat)
      requires start < MOD && len <= |data|
      ensures value == Packed(Adler(start, 0, data[..len]).0, Adler(start, 0, data[..len]).1)
      ensures value / 0x1_0000 == Adler(start, 0, data[..len]).1
    {
      var a, b := start, 0;
      for i := 0 to len
        invariant a < MOD && b < MOD && (a, b) == Adler(start, 0, data[..i])
      {
        assert data[..i + 1][..i] == data[..i];
        a := (a + data[i]) % MOD;
        b := (b + a) % MOD;
      }
      value := b * 0x1_0000 + a;
      DivModUnique(value, 0x1_0000, b, a);
    }

    /** Moves the window by one byte: the sums change by what leaves and what enters, and no
        32-bit value wraps but, in a window that is too long, the product. */
    method Roll(out: Byte, next: Byte)
      requires Valid()
      modifies this`s1, this`s2
      ensures Valid() && State() == Rolled(old(State()), out, next)
    {
      ghost var was := State();
      var t1 := s1 + MOD - out;
      s1 := if t1 >= MOD then t1 - MOD else t1;
      var contribution := windowSize * out % U32 % MOD;
      var t2 := s2 + MOD - contribution;
      s2 := if t2 >= MOD then t2 - MOD else t2;
      s1 := s1 + next;
      if s1 >= MOD {
        s1 := s1 - MOD;
      }
      s2 := s2 + s1;
      if s2 >= MOD {
        s2 := s2 - MOD;
      }
      ghost var p := if s1 == was.s1 - out + next then 0 else if s1 > was.s1 - out + next then 1 else -1;
      ghost var q := if s2 == was.s2 - contribution + s1 then 0 else if s2 > was.s2 - contribution + s1 then 1 else -1;
      StepsAreRolled(was, out, next, s1, s2, p, q);
    }

    function Get(): (value: int)
      requires Valid()
      reads this
      ensures value == Packed(s1, s2) && 0 <= value < U32
    {
      s2 * 0x1_0000 + s1
    }
  }

  /** The subtractions that replace remainders give the remainders. */
  lemma StepsAreRolled(r: Rolling, out: Byte, next: Byte, s1: int, s2: int, p: int, q: int)
    requires r.s1 < MOD && r.s2 < MOD && 0 <= s1 < MOD && 0 <= s2 < MOD
    requires s1 == r.s1 - out + next + p * MOD
    requires s2 == r.s2 - r.windowSize * out % U32 % MOD + s1 + q * MOD
    ensures Rolled(r, out, next) == Rolling(r.windowSize, s1, s2)
  {
    var x, y := r.s1 - out + next, r.windowSize * out % U32;
    DivModUnique(x, MOD, -p, s1);
    DivModUnique(r.s2 - y + s1, MOD, -q - y / MOD, s2);
  }
}
