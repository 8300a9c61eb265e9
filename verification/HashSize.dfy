/** The size of nginx's server-name hash buckets: rounded up to a power of two by smearing bits, and large
    enough for every name the configuration contains. */
module HashSize {
  import opened ConfigEquality
  import opened Redirects
  import opened Words

  // ----- Two's complement -----

  // Or and shift are those of integers of any width: on 64-bit words they stay within the word.

  function Pow2(k: nat): nat {
    if k == 0 then 1 else 2 * Pow2(k - 1)
  }

  function Abs(v: int): nat {
    if v < 0 then -v else v
  }

  /** The bit of `v` with weight 2^i. */
  predicate Bit(v: int, i: nat)
    decreases i
  {
    if i == 0 then v % 2 == 1 else Bit(v / 2, i - 1)
  }

  /** The arithmetic shift v >> k. */
  function Shr(v: int, k: nat): int
    decreases k
  {
    if k == 0 then v else Shr(v / 2, k - 1)
  }

  /** The bitwise or. */
  function Or(a: int, b: int): int
    decreases Abs(a) + Abs(b)
  {
    if -1 <= a <= 0 && -1 <= b <= 0 then (if a == 0 then b else a)
    else 2 * Or(a / 2, b / 2) + if a % 2 == 1 || b % 2 == 1 then 1 else 0
  }

  ghost predicate IsPowerOf2(x: int) {
    exists k: nat :: x == Pow2(k)
  }

  function OrShr(v: int, k: nat): int {
    Or(v, Shr(v, k))
  }

  /** The smearing steps from shift `k` on, each twice as far as the one before, up to shift 16. */
  function SmearFrom(v: int, k: nat): int
    requires k > 0
    decreases 32 - k
  {
    if k >= 32 then v else SmearFrom(OrShr(v, k), 2 * k)
  }

  function Smear(v: int): int {
    SmearFrom(v, 1)
  }

  function RoundUp(v: int): int {
    Wrap(Smear(Wrap(v - 1)) + 1)
  }

  method NextPowerOf2(n: int) returns (v: int)
    ensures v == RoundUp(n)
  {
    v := Wrap(n - 1);
    ghost var u := v;
    v := Or(v, Shr(v, 1));
    assert Smear(u) == SmearFrom(v, 2);
    v := Or(v, Shr(v, 2));
    assert Smear(u) == SmearFrom(v, 4);
    v := Or(v, Shr(v, 4));
    assert Smear(u) == SmearFrom(v, 8);
    v := Or(v, Shr(v, 8));
    assert Smear(u) == SmearFrom(v, 16);
    v := Or(v, Shr(v, 16));
    assert Smear(u) == v;
    v := Wrap(v + 1);
  }

  // ----- Which bits smearing sets -----

  lemma {:induction false} BitOr(a: int, b: int, i: nat)
    ensures Bit(Or(a, b), i) <==> Bit(a, i) || Bit(b, i)
    decreases i
  {
    if -1 <= a <= 0 && -1 <= b <= 0 {
      BitSign(i);
    } else if i > 0 {
      BitOr(a / 2, b / 2, i - 1);
      assert Or(a, b) / 2 == Or(a / 2, b / 2);
    }
  }

  lemma {:induction false} BitSign(i: nat)
    ensures Bit(-1, i) && !Bit(0, i)
  {
    if i > 0 {
      BitSign(i - 1);
    }
  }

  lemma {:induction false} BitShr(v: int, k: nat, i: nat)
    ensures Bit(Shr(v, k), i) <==> Bit(v, i + k)
    decreases k
  {
    if k > 0 {
      BitShr(v / 2, k - 1, i);
    }
  }

  /** Some bit of `v` among the `w` positions from `i` upwards is set. */
  ghost predicate Window(v: int, i: nat, w: nat) {
    exists j: nat :: i <= j < i + w && Bit(v, j)
  }

  /** One smearing step doubles the window. */
  lemma OrShrWindow(v: int, u: int, w: nat, i: nat)
    requires forall i: nat :: Bit(u, i) <==> Window(v, i, w)
    ensures Bit(OrShr(u, w), i) <==> Window(v, i, 2 * w)
  {
    BitOr(u, Shr(u, w), i);
    BitShr(u, w, i);
    if Window(v, i, 2 * w) {
      var j: nat :| i <= j < i + 2 * w && Bit(v, j);
      if j < i + w {
        assert Window(v, i, w);
      } else {
        assert Window(v, i + w, w);
      }
    }
    if Window(v, i, w) {
      var j: nat :| i <= j < i + w && Bit(v, j);
      assert Window(v, i, 2 * w);
    }
    if Window(v, i + w, w) {
      var j: nat :| i + w <= j < i + w + w && Bit(v, j);
      assert Window(v, i, 2 * w);
    }
  }

  lemma OrShrWindows(v: int, u: int, w: nat)
    requires forall i: nat :: Bit(u, i) <==> Window(v, i, w)
    ensures forall i: nat :: Bit(OrShr(u, w), i) <==> Window(v, i, 2 * w)
  {
    forall i: nat ensures Bit(OrShr(u, w), i) <==> Window(v, i, 2 * w) {
      OrShrWindow(v, u, w, i);
    }
  }

  lemma {:induction false} SmearWindows(v: int, u: int, w: nat)
    requires w == 1 || w == 2 || w == 4 || w == 8 || w == 16 || w == 32
    requires forall i: nat :: Bit(u, i) <==> Window(v, i, w)
    ensures forall i: nat {:trigger Window(v, i, 32)} :: Bit(SmearFrom(u, w), i) <==> Window(v, i, 32)
    decreases 32 - w
  {
    if w < 32 {
      OrShrWindows(v, u, w);
      SmearWindows(v, OrShr(u, w), 2 * w);
    }
  }

  /** Five smearing steps set exactly the bits that have a set bit at most 31 positions above. */
  lemma SmearBits(v: int)
    ensures forall i: nat {:trigger Window(v, i, 32)} :: Bit(Smear(v), i) <==> Window(v, i, 32)
  {
    forall i: nat ensures Bit(v, i) <==> Window(v, i, 1) {
      if Bit(v, i) {
        assert i <= i < i + 1;
      }
    }
    SmearWindows(v, v, 1);
  }

  // ----- The rounded value -----

  /** The position of the highest set bit. */
  function Highest(v: int): nat
    requires v > 0
  {
    if v == 1 then 0 else 1 + Highest(v / 2)
  }

  lemma {:induction false} HighestBit(v: int, i: nat)
    requires v > 0
    ensures Bit(v, Highest(v)) && (i > Highest(v) ==> !Bit(v, i))
    ensures Pow2(Highest(v)) <= v < Pow2(Highest(v) + 1)
  {
    if v == 1 {
      assert Pow2(1) == 2;
      if i > 0 {
        BitSign(i - 1);
      }
    } else {
      HighestBit(v / 2, if i > 0 then i - 1 else 0);
    }
  }

  /** A number is determined by its bits. */
  lemma {:induction false} SameBits(u: int, k: nat)
    requires u >= -1 && forall i: nat :: Bit(u, i) <==> i < k
    ensures u == Pow2(k) - 1
    decreases k
  {
    assert Bit(u, 0) <==> 0 < k;
    if k > 0 {
      forall i: nat ensures Bit(u / 2, i) <==> i < k - 1 {
        assert Bit(u, i + 1) <==> i + 1 < k;
      }
      SameBits(u / 2, k - 1);
    } else if u > 0 {
      HighestBit(u, 0);
    }
  }

  lemma {:induction false} OnesBits(k: nat, i: nat)
    ensures Bit(Pow2(k) - 1, i) <==> i < k
  {
    if k == 0 {
      BitSign(i);
    } else if i > 0 {
      assert (Pow2(k) - 1) / 2 == Pow2(k - 1) - 1;
      OnesBits(k - 1, i - 1);
    }
  }

  lemma {:induction false} OrNonNegative(a: int, b: int)
    requires a >= 0 && b >= 0
    ensures Or(a, b) >= 0
    decreases a + b
  {
    if !(a == 0 && b == 0) {
      OrNonNegative(a / 2, b / 2);
    }
  }

  lemma {:induction false} ShrNonNegative(v: int, k: nat)
    requires v >= 0
    ensures Shr(v, k) >= 0
  {
    if k > 0 {
      ShrNonNegative(v / 2, k - 1);
    }
  }

  lemma OrShrNonNegative(v: int, k: nat)
    requires v >= 0
    ensures OrShr(v, k) >= 0
  {
    ShrNonNegative(v, k);
    OrNonNegative(v, Shr(v, k));
  }

  lemma {:induction false} SmearNonNegative(v: int, k: nat)
    requires v >= 0 && k > 0
    ensures SmearFrom(v, k) >= 0
    decreases 32 - k
  {
    if k < 32 {
      OrShrNonNegative(v, k);
      SmearNonNegative(OrShr(v, k), 2 * k);
    }
  }

  /** Below the highest bit of `v` there are no 32 zero bits in a row. */
  ghost predicate NoLongGap(v: int)
    requires v > 0
  {
    forall i: nat :: i <= Highest(v) ==> Window(v, i, 32)
  }

  lemma {:induction false} Pow2Grows(j: nat, k: nat)
    ensures k < Pow2(k)
    ensures j < k ==> Pow2(j) < Pow2(k)
    ensures Pow2(j) == Pow2(k) ==> j == k
    decreases j + k
  {
    if j > 0 && k > 0 {
      Pow2Grows(j - 1, k - 1);
    } else if k > 0 {
      Pow2Grows(0, k - 1);
    } else if j > 0 {
      Pow2Grows(j - 1, 0);
    }
  }

  lemma FilledWindows(v: int, s: int)
    requires v > 0 && NoLongGap(v) && s >= 0
    requires forall i: nat {:trigger Window(v, i, 32)} :: Bit(s, i) <==> Window(v, i, 32)
    ensures s == Pow2(Highest(v) + 1) - 1
  {
    forall i: nat ensures Bit(s, i) <==> i < Highest(v) + 1 {
      SmearTop(v, i);
      assert Bit(s, i) <==> Window(v, i, 32);
    }
    SameBits(s, Highest(v) + 1);
  }

  lemma SmearOnes(v: int)
    requires v > 0 && NoLongGap(v)
    ensures Smear(v) == Pow2(Highest(v) + 1) - 1
  {
    SmearNonNegative(v, 1);
    SmearBits(v);
    FilledWindows(v, Smear(v));
  }

  /** Smearing sets no bit above the highest. */
  lemma SmearTop(v: int, i: nat)
    requires v > 0
    ensures i > Highest(v) ==> !Window(v, i, 32)
  {
    if i > Highest(v) {
      forall j: nat | i <= j < i + 32 ensures !Bit(v, j) {
        HighestBit(v, j);
      }
    }
  }

  lemma NextPower(v: int, h: nat, r: int)
    requires Pow2(h) < v <= r == Pow2(h + 1)
    ensures IsPowerOf2(r) && forall k: nat :: Pow2(k) >= v ==> Pow2(k) >= r
  {
    forall k: nat | Pow2(k) >= v ensures Pow2(k) >= r {
      Pow2Grows(k, h);
      Pow2Grows(h + 1, k);
    }
  }

  lemma NoGapRounds(v: int)
    requires 2 <= v <= Pow2(62) && NoLongGap(v - 1)
    ensures IsPowerOf2(RoundUp(v)) && RoundUp(v) >= v
    ensures forall k: nat :: Pow2(k) >= v ==> Pow2(k) >= RoundUp(v)
  {
    HighestBit(v - 1, 0);
    NoGapValue(v);
    NextPower(v, Highest(v - 1), RoundUp(v));
  }

  lemma NoGapValue(v: int)
    requires 2 <= v <= Pow2(62) && NoLongGap(v - 1)
    ensures RoundUp(v) == Pow2(Highest(v - 1) + 1)
  {
    Powers();
    SmearOnes(v - 1);
    HighestBelow(v - 1, 62);
  }

  lemma PowerHasNoGap(u: int, r: int, k: nat)
    requires u > 0 && r + 1 == Pow2(k)
    requires forall i: nat {:trigger Window(u, i, 32)} :: Bit(r, i) <==> Window(u, i, 32)
    ensures NoLongGap(u)
  {
    HighestBit(u, 0);
    var h := Highest(u);
    assert Window(u, h, 32);
    OnesBits(k, h);
    forall i: nat | i <= h ensures Window(u, i, 32) {
      OnesBits(k, i);
    }
  }

  /** For every size from 2 the result is a power of two exactly when a word has one that large and the size less
      one has no 32 zero bits in a row below its highest bit; then it is the least power of two that is not below
      the size. */
  lemma RoundUpExact(v: int)
    requires 2 <= v <= MAX_INT
    ensures IsPowerOf2(RoundUp(v)) <==> v <= Pow2(62) && NoLongGap(v - 1)
    ensures v <= Pow2(62) && NoLongGap(v - 1) ==>
              RoundUp(v) >= v && forall k: nat :: Pow2(k) >= v ==> Pow2(k) >= RoundUp(v)
  {
    if v <= Pow2(62) && NoLongGap(v - 1) {
      NoGapRounds(v);
    } else if IsPowerOf2(RoundUp(v)) {
      RoundsOnlyWithoutGap(v);
    }
  }

  lemma Powers()
    ensures Pow2(62) == 0x4000_0000_0000_0000 && Pow2(63) == MAX_INT + 1
  {
    Pow2Add(31, 31);
    assert Pow2(8) == 256;
    Pow2Add(8, 8);
    Pow2Add(16, 8);
    Pow2Add(24, 7);
    assert Pow2(7) == 128;
  }

  lemma {:induction false} Pow2Add(j: nat, k: nat)
    ensures Pow2(j + k) == Pow2(j) * Pow2(k)
  {
    if j > 0 {
      Pow2Add(j - 1, k);
      Double(Pow2(j - 1), Pow2(k));
    }
  }

  lemma Double(a: int, b: int)
    ensures (2 * a) * b == 2 * (a * b)
  {
  }

  /** A number below 2^k has its highest bit below position k. */
  lemma HighestBelow(u: int, k: nat)
    requires 0 < u < Pow2(k)
    ensures Highest(u) < k && Pow2(Highest(u) + 1) <= Pow2(k)
  {
    HighestBit(u, 0);
    Pow2Grows(k, Highest(u));
    Pow2Grows(Highest(u) + 1, k);
  }

  /** Smearing a word leaves a word. */
  lemma SmearInWord(u: int)
    requires 0 < u <= MAX_INT
    ensures 0 <= Smear(u) <= MAX_INT
  {
    SmearNonNegative(u, 1);
    SmearBits(u);
    Powers();
    HighestBelow(u, 63);
    forall i: nat | i >= 63 ensures !Bit(Smear(u), i) {
      SmearTop(u, i);
      assert Bit(Smear(u), i) <==> Window(u, i, 32);
    }
    BitsBelow(Smear(u), 63);
  }

  lemma BitsBelow(s: int, k: nat)
    requires s >= 0 && forall i: nat | i >= k :: !Bit(s, i)
    ensures s < Pow2(k)
  {
    Pow2Grows(0, k);
    if s > 0 {
      HighestBit(s, 0);
      Pow2Grows(Highest(s) + 1, k);
    }
  }

  lemma RoundsOnlyWithoutGap(v: int)
    requires 2 <= v <= MAX_INT && IsPowerOf2(RoundUp(v))
    ensures v <= Pow2(62) && NoLongGap(v - 1)
  {
    var u, s := v - 1, Smear(v - 1);
    var k: nat :| RoundUp(v) == Pow2(k);
    SmearInWord(u);
    Pow2Grows(0, k);
    NotWrapped(s);
    WordOfOnes(u, s, k);
  }

  lemma WordOfOnes(u: int, s: int, k: nat)
    requires u > 0 && s == Smear(u) && s < MAX_INT && s + 1 == Pow2(k)
    ensures u < Pow2(62) && NoLongGap(u)
  {
    OnesHaveNoGap(u, k);
    SmearOnes(u);
    TopFits(u);
  }

  lemma OnesHaveNoGap(u: int, k: nat)
    requires u > 0 && Smear(u) + 1 == Pow2(k)
    ensures NoLongGap(u)
  {
    SmearBits(u);
    PowerHasNoGap(u, Smear(u), k);
  }

  lemma NotWrapped(s: int)
    requires 0 <= s <= MAX_INT && Wrap(s + 1) > 0
    ensures s < MAX_INT && Wrap(s + 1) == s + 1
  {
  }

  lemma TopFits(u: int)
    requires u > 0 && Pow2(Highest(u) + 1) <= MAX_INT
    ensures u < Pow2(62)
  {
    HighestBit(u, 0);
    PowerBelowWord(Highest(u) + 1);
  }

  lemma PowerBelowWord(k: nat)
    requires Pow2(k) <= MAX_INT
    ensures Pow2(k) <= Pow2(62)
  {
    Powers();
    Pow2Grows(63, k);
    Pow2Grows(k, 62);
  }

  lemma ShortHasNoGap(u: int)
    requires 0 < u < Pow2(32)
    ensures NoLongGap(u)
  {
    HighestBit(u, 0);
    Pow2Grows(32, Highest(u));
    forall i: nat | i <= Highest(u) ensures Window(u, i, 32) {
      assert i <= Highest(u) < i + 32 && Bit(u, Highest(u));
    }
  }

  /** Up to 2^32 there is no gap to fear. */
  lemma RoundUpSmall(v: int)
    requires 1 <= v <= Pow2(32)
    ensures IsPowerOf2(RoundUp(v)) && RoundUp(v) >= v
    ensures forall k: nat :: Pow2(k) >= v ==> Pow2(k) >= RoundUp(v)
  {
    if v == 1 {
      RoundUpOne();
    } else {
      ShortHasNoGap(v - 1);
      Pow2Grows(32, 62);
      NoGapRounds(v);
    }
  }

  lemma {:induction false} ShrSign(v: int, k: nat)
    requires -1 <= v <= 0
    ensures Shr(v, k) == v && OrShr(v, k) == v
  {
    if k > 0 {
      ShrSign(v, k - 1);
    }
  }

  lemma {:induction false} SmearSign(v: int, k: nat)
    requires -1 <= v <= 0 && k > 0
    ensures SmearFrom(v, k) == v
    decreases 32 - k
  {
    if k < 32 {
      ShrSign(v, k);
      SmearSign(v, 2 * k);
    }
  }

  lemma RoundUpOne()
    ensures RoundUp(1) == 1 && IsPowerOf2(1) && forall k: nat :: Pow2(k) >= 1
  {
    SmearSign(0, 1);
    assert 1 == Pow2(0);
    forall k: nat ensures Pow2(k) >= 1 {
      Pow2Grows(0, k);
    }
  }

  /** The size zero stays zero, which is no power of two. */
  lemma RoundUpZero()
    ensures RoundUp(0) == 0
  {
    SmearSign(-1, 1);
  }

  /** Beyond 2^32 there are sizes that are not rounded to a power of two: one more than any power. */
  lemma RoundUpGap(k: nat)
    requires 32 <= k <= 62
    ensures !IsPowerOf2(RoundUp(Pow2(k) + 1))
  {
    Pow2Grows(0, k);
    PowerHasGap(k);
    Powers();
    Pow2Grows(k, 62);
    RoundUpExact(Pow2(k) + 1);
  }

  lemma PowerHasGap(k: nat)
    requires k >= 32 && Pow2(k) > 0
    ensures !NoLongGap(Pow2(k))
  {
    forall j: nat | j < 32 ensures !Bit(Pow2(k), j) {
      PowerBits(k, j);
    }
    assert !Window(Pow2(k), 0, 32);
  }

  lemma {:induction false} PowerBits(k: nat, i: nat)
    ensures Bit(Pow2(k), i) <==> i == k
  {
    if k == 0 {
      if i > 0 {
        BitSign(i - 1);
      }
    } else if i > 0 {
      assert Pow2(k) / 2 == Pow2(k - 1);
      PowerBits(k - 1, i - 1);
    }
  }

  // ----- Bucket sizes -----

  /** The hash bucket a key needs: 16 bytes, and the key with 2 bytes aligned to words of 8.  Masking with ^7
      clears the three low bits. */
  function BucketSize(longest: nat): int {
    RoundUp(RawSize(longest))
  }

  function RawSize(longest: nat): (r: int)
    ensures 24 <= r && longest + 18 <= r <= longest + 25 && r % 8 == 0
  {
    var n := longest + 2 + 7;
    16 + (n - n % 8)
  }

  /** Room for the names of a server: a redirecting server is also reached under a name with "www." in front. */
  predicate Fits(s: Server, n: nat) {
    |if s.redirectFromToWWW then "www." + s.hostname else s.hostname| <= n && forall a | a in s.aliases :: |a| <= n
  }

  /** No more room than one of the names needs. */
  predicate IsNameLength(s: Server, n: nat) {
    n == |if s.redirectFromToWWW then "www." + s.hostname else s.hostname| || exists a | a in s.aliases :: |a| == n
  }

  /** The loop that finds the longest name: nothing is longer, and something is that long. */
  method LongestName(servers: seq<Server>) returns (longestName: nat)
    ensures forall s | s in servers :: Fits(s, longestName)
    ensures longestName == 0 || exists s | s in servers :: IsNameLength(s, longestName)
  {
    longestName := 0;
    for i := 0 to |servers|
      invariant forall k | 0 <= k < i :: Fits(servers[k], longestName)
      invariant longestName == 0 || exists s | s in servers :: IsNameLength(s, longestName)
    {
      var srv := servers[i];
      assert srv in servers;
      var hostnameLength := |srv.hostname|;
      if srv.redirectFromToWWW {
        hostnameLength := hostnameLength + 4;
      }
      if longestName < hostnameLength {
        longestName := hostnameLength;
        assert IsNameLength(srv, longestName);
      }
      for j := 0 to |srv.aliases|
        invariant hostnameLength <= longestName
        invariant forall k | 0 <= k < i :: Fits(servers[k], longestName)
        invariant forall k | 0 <= k < j :: |srv.aliases[k]| <= longestName
        invariant longestName == 0 || exists s | s in servers :: IsNameLength(s, longestName)
      {
        if longestName < |srv.aliases[j]| {
          longestName := |srv.aliases[j]|;
          assert srv.aliases[j] in srv.aliases;
          assert IsNameLength(srv, longestName);
        }
      }
    }
  }

  /** The chosen bucket is a power of two of at least 32 bytes that holds every server name, every alias and the
      source name of every redirect with 18 bytes to spare. */
  lemma BucketHoldsEveryName(servers: seq<Server>, longest: nat, s: Server, name: string)
    requires forall s | s in servers :: Fits(s, longest)
    requires longest <= Pow2(32) - 25
    requires s in servers
    requires name == s.hostname || name in s.aliases || (s.redirectFromToWWW && name == RedirectSource(s.hostname))
    ensures IsPowerOf2(BucketSize(longest)) && BucketSize(longest) >= 32
    ensures BucketSize(longest) >= 18 + |name| && BucketSize(longest) < 2 * (longest + 25)
  {
    RoundUpSmall(RawSize(longest));
    assert Fits(s, longest);
    var k: nat :| BucketSize(longest) == Pow2(k);
    PowersBelow32(k);
    assert k > 0 ==> Pow2(k) == 2 * Pow2(k - 1);
  }

  lemma PowersBelow32(k: nat)
    ensures Pow2(5) == 32 && (Pow2(k) > 16 ==> Pow2(k) >= 32)
  {
    assert Pow2(4) == 16;
    Pow2Grows(k, 5);
    Pow2Grows(k, 4);
    Pow2Grows(5, k);
  }
}
