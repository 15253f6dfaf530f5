/**
 * The integer side of the noise generator: the stateless hash that turns
 * seeds into pseudo-random words, the permutation table it shuffles
 * (Fisher-Yates, one hashed draw per position), the three-level hash
 * into that table, the cell-and-fraction split of a coordinate, and the
 * smooth-step easing curves.
 *
 * `unsigned int` is `bv32`; floats are `real`. The random unit vectors of
 * the basis are left out, so the seed that reaches the shuffle is a
 * parameter.
 */
module Noise {

  // ---------------------------------------------------------------------
  // The hash

  /** `randhash`: xor, wrapping multiply, shift and add on a 32-bit word. */
  function Randhash(seed: bv32): bv32
  {
    var i := (seed ^ 12345391) * 2654435769;
    var i := i ^ ((i << 6) ^ (i >> 26));
    var i := i * 2654435769;
    i + ((i << 5) ^ (i >> 12))
  }

  /**
   * Worked values of the hash, from its 32-bit arithmetic: the consecutive
   * seeds 0, 1, 2 give scattered words, and the seed equal to the xor
   * constant is the one that hashes to 0.
   */
  lemma RandhashValues()
    ensures Randhash(0) == 155489619
    ensures Randhash(1) == 548517411
    ensures Randhash(2) == 1909112175
    ensures Randhash(12345391) == 0
  {
  }

  // ---------------------------------------------------------------------
  // The permutation table

  /** The table's size `n`. */
  const N: nat := 128

  /** `0, 1, ..., n - 1`: the table before shuffling. */
  function Identity(n: nat): (r: seq<int>)
    ensures |r| == n && forall i :: 0 <= i < n ==> r[i] == i
  {
    seq(n, i requires 0 <= i < n => i)
  }

  /** A table holding each of `0 .. n - 1` once. */
  ghost predicate IsPermutation(s: seq<int>)
  {
    multiset(s) == multiset(Identity(|s|))
  }

  /** Every entry of a permutation lies in `0 .. n - 1`. */
  lemma PermutationRange(s: seq<int>, x: nat)
    requires IsPermutation(s) && x < |s|
    ensures 0 <= s[x] < |s|
  {
    assert s[x] in multiset(s);
    assert s[x] in multiset(Identity(|s|));
    assert s[x] in Identity(|s|);
  }

  /** Entries `i` and `j` exchanged. */
  function Swap(s: seq<int>, i: nat, j: nat): (r: seq<int>)
    requires i < |s| && j < |s|
    ensures |r| == |s| && r[i] == s[j] && r[j] == s[i]
  {
    s[i := s[j]][j := s[i]]
  }

  /** A swap leaves every other entry where it was. */
  lemma SwapElsewhere(s: seq<int>, i: nat, j: nat, k: nat)
    requires i < |s| && j < |s| && k < |s| && k != i && k != j
    ensures Swap(s, i, j)[k] == s[k]
  {
  }

  lemma SwapPermutes(s: seq<int>, i: nat, j: nat)
    requires i < |s| && j < |s|
    ensures multiset(Swap(s, i, j)) == multiset(s)
  {
    var t := s[i := s[j]];
    assert multiset(t) == multiset(s) - multiset{s[i]} + multiset{s[j]};
    assert multiset(t[j := s[i]]) == multiset(t) - multiset{t[j]} + multiset{s[i]};
  }

  /**
   * The seed hashed for the swap of position `i`: `seed` for position 1,
   * incremented once per position after it, wrapping at 2^32.
   */
  function SeedAt(seed: bv32, i: nat): bv32
  {
    if i <= 1 then seed else SeedAt(seed, i - 1) + 1
  }

  lemma SeedNext(seed: bv32, i: nat)
    requires 1 <= i
    ensures SeedAt(seed, i + 1) == SeedAt(seed, i) + 1
  {
  }

  /** The words a hash gives for the swaps from `seed`, by position. */
  function HashWords(hash: bv32 -> bv32, seed: bv32): nat -> nat
  {
    i => hash(SeedAt(seed, i)) as nat
  }

  /** The position that position `i` is swapped with, given the hashed word `w`: `w % (i + 1)`. */
  function Draw(w: nat, i: nat): (j: nat)
    ensures j <= i
  {
    w % (i + 1)
  }

  /**
   * The table before the swap of position `i` (positions `1 .. i - 1` done),
   * the swap of position `p` using the word `words(p)`.
   */
  function ShuffleUpTo(s: seq<int>, words: nat -> nat, i: nat): (r: seq<int>)
    requires 1 <= i <= |s|
    ensures |r| == |s|
  {
    if i == 1 then s else Swap(ShuffleUpTo(s, words, i - 1), i - 1, Draw(words(i - 1), i - 1))
  }

  /** One more step of the shuffle swaps position `i` with its draw. */
  lemma SwapStep(s: seq<int>, words: nat -> nat, i: nat, before: seq<int>, after: seq<int>)
    requires 1 <= i < |s| && before == ShuffleUpTo(s, words, i)
    requires after == Swap(before, i, Draw(words(i), i))
    ensures after == ShuffleUpTo(s, words, i + 1)
  {
  }

  /** `reinitialize`'s result: positions `1 .. n - 1` each swapped once, in order. */
  function Shuffle(s: seq<int>, seed: bv32): seq<int>
    requires 1 <= |s|
  {
    ShuffleUpTo(s, HashWords(Randhash, seed), |s|)
  }

  /** The shuffle only rearranges: it keeps a permutation a permutation. */
  lemma {:induction false} ShufflePermutes(s: seq<int>, words: nat -> nat, i: nat)
    requires 1 <= i <= |s|
    ensures multiset(ShuffleUpTo(s, words, i)) == multiset(s)
  {
    if i > 1 {
      ShufflePermutes(s, words, i - 1);
      StepPermutes(s, words, i);
    }
  }

  /** The swap of position `i - 1` keeps the entries. */
  lemma StepPermutes(s: seq<int>, words: nat -> nat, i: nat)
    requires 1 < i <= |s|
    ensures multiset(ShuffleUpTo(s, words, i)) == multiset(ShuffleUpTo(s, words, i - 1))
  {
    SwapPermutes(ShuffleUpTo(s, words, i - 1), i - 1, Draw(words(i - 1), i - 1));
  }

  /** Positions from `i` on have not been swapped yet, so they still hold their entries. */
  lemma {:induction false} ShuffleLeavesTail(s: seq<int>, words: nat -> nat, i: nat, k: nat)
    requires 1 <= i <= k < |s|
    ensures ShuffleUpTo(s, words, i)[k] == s[k]
  {
    if i > 1 {
      ShuffleLeavesTail(s, words, i - 1, k);
      SwapElsewhere(ShuffleUpTo(s, words, i - 1), i - 1, Draw(words(i - 1), i - 1), k);
    }
  }

  /**
   * The shuffle reads the words of positions `1 .. i - 1` and nothing else:
   * hashes that agree on those seeds give the same table.
   */
  lemma {:induction false} ShuffleUsesWords(s: seq<int>, words: nat -> nat, words': nat -> nat, i: nat)
    requires 1 <= i <= |s|
    requires forall p :: 1 <= p < i ==> words(p) == words'(p)
    ensures ShuffleUpTo(s, words, i) == ShuffleUpTo(s, words', i)
  {
    if i > 1 {
      ShuffleUsesWords(s, words, words', i - 1);
    }
  }

  /** Reshuffling a permutation table, from any seed, gives a permutation table. */
  lemma ShuffleKeepsPermutation(s: seq<int>, seed: bv32)
    requires 1 <= |s| && IsPermutation(s)
    ensures IsPermutation(Shuffle(s, seed))
  {
    ShufflePermutes(s, HashWords(Randhash, seed), |s|);
  }

  // ---------------------------------------------------------------------
  // Index arithmetic

  /** An `int` converted to `unsigned int`. */
  function Unsigned(x: int): nat
  {
    x % 0x1_0000_0000
  }

  /** `2^32` is a multiple of 128, so the conversion does not change a value modulo 128. */
  lemma UnsignedModN(x: int)
    ensures Unsigned(x) % N == x % N
  {
    var q := x / 0x1_0000_0000;
    assert x == q * 0x1_0000_0000 + Unsigned(x);
    assert q * 0x1_0000_0000 == (q * 0x200_0000) * N;
    ModShift(Unsigned(x), q * 0x200_0000);
  }

  lemma ModShift(r: int, m: int)
    ensures (m * N + r) % N == r % N
  {
  }

  predicate InInt32(x: int)
  {
    -0x8000_0000 <= x < 0x8000_0000
  }

  class Noise3 {
    var perm: array<int>

    ghost predicate Valid()
      reads this, perm
    {
      perm.Length == N && IsPermutation(perm[..])
    }

    /**
     * The constructor's integer part: `perm[i] = i` for every `i`, then the
     * shuffle, with the seed left over from sampling the basis.
     */
    constructor(shuffleSeed: bv32)
      ensures Valid() && fresh(perm)
      ensures perm[..] == Shuffle(Identity(N), shuffleSeed)
    {
      var table := new int[N];
      for i := 0 to N
        invariant forall k :: 0 <= k < i ==> table[k] == k
      {
        table[i] := i;
      }
      assert table[..] == Identity(N);
      perm := table;
      new;
      Reinitialize(shuffleSeed);
    }

    /** `reinitialize`: a Fisher-Yates shuffle of the table from `seed`, which keeps it a permutation. */
    method Reinitialize(seed: bv32)
      requires Valid()
      modifies perm
      ensures Valid()
      ensures perm[..] == Shuffle(old(perm[..]), seed)
    {
      ghost var before := perm[..];
      ShuffleTable(perm, Randhash, seed);
      ShuffleKeepsPermutation(before, seed);
    }

    /**
     * The loop of `reinitialize`, for any hash: position `i` from 1 up is
     * swapped with position `hash(seed++) % (i + 1)`.
     */
    static method ShuffleTable(table: array<int>, hash: bv32 -> bv32, seed: bv32)
      requires table.Length >= 1
      modifies table
      ensures table[..] == ShuffleUpTo(old(table[..]), HashWords(hash, seed), table.Length)
    {
      ghost var original := table[..];
      var s := seed;
      var i := 1;
      while i < table.Length
        invariant 1 <= i <= table.Length
        invariant s == SeedAt(seed, i)
        invariant table[..] == ShuffleUpTo(original, HashWords(hash, seed), i)
      {
        SwapWithDraw(table, hash(s), i, original, HashWords(hash, seed));
        SeedNext(seed, i);
        s := s + 1;
        i := i + 1;
      }
    }

    /** The swap of position `i` with position `w % (i + 1)`, where `w` is position `i`'s word. */
    static method SwapWithDraw(table: array<int>, w: bv32, i: nat, ghost original: seq<int>, ghost words: nat -> nat)
      requires 1 <= i < table.Length == |original|
      requires table[..] == ShuffleUpTo(original, words, i) && words(i) == w as nat
      modifies table
      ensures table[..] == ShuffleUpTo(original, words, i + 1)
    {
      var j := (w as int) % (i + 1);
      ghost var before := table[..];
      table[i], table[j] := table[j], table[i];
      SwapStep(original, words, i, before, table[..]);
    }

    /**
     * `hash_index`: three chained lookups, each index reduced modulo `n`
     * after conversion to unsigned. The sums stay clear of `int` overflow.
     */
    function HashIndex(i: int, j: int, k: int): (r: nat)
      reads this, perm
      requires Valid() && InInt32(i) && InInt32(j + N) && InInt32(k + N)
      ensures r < N
    {
      var a := perm[Unsigned(i) % N];
      PermutationRange(perm[..], Unsigned(i) % N);
      var b := perm[Unsigned(a + j) % N];
      PermutationRange(perm[..], Unsigned(a + j) % N);
      var c := perm[Unsigned(b + k) % N];
      PermutationRange(perm[..], Unsigned(b + k) % N);
      Unsigned(c)
    }

    /** The lookups are at the positions the mathematical `mod 128` gives, for any sign. */
    lemma HashIndexMod(i: int, j: int, k: int)
      requires Valid() && InInt32(i) && InInt32(j + N) && InInt32(k + N)
      ensures var a := perm[i % N]; var b := perm[(a + j) % N];
        HashIndex(i, j, k) == perm[(b + k) % N]
    {
      UnsignedModN(i);
      var a := perm[i % N];
      UnsignedModN(a + j);
      var b := perm[(a + j) % N];
      UnsignedModN(b + k);
      PermutationRange(perm[..], (b + k) % N);
    }
  }

  // ---------------------------------------------------------------------
  // Cells and fractions

  /**
   * `get_barycentric`: the cell `i = floor(x)` clamped to `i_low ..
   * i_high - 2`, and the fraction `f` of the way across it (0 below the
   * range, 1 above it).
   */
  function Barycentric(x: real, low: int, high: int): (r: (int, real))
    ensures 0.0 <= r.1 <= 1.0
    ensures low <= high - 2 ==> low <= r.0 <= high - 2
    ensures x.Floor < low ==> r == (low, 0.0)
    ensures low <= x.Floor <= high - 2 ==> r.0 as real + r.1 == x && r.1 < 1.0
  {
    var s := x.Floor;
    if s < low then (low, 0.0)
    else if s > high - 2 then (high - 2, 1.0)
    else (s, x - s as real)
  }

  /** Above the range the point sits at the far end of the last cell. */
  lemma BarycentricAbove(x: real, low: int, high: int)
    requires low <= high - 2 < x.Floor
    ensures Barycentric(x, low, high) == (high - 2, 1.0)
  {
  }

  /** `lerp`: `(1 - f) * v0 + f * v1`. */
  function Lerp(v0: real, v1: real, f: real): real
  {
    (1.0 - f) * v0 + f * v1
  }

  /** The interpolation meets both ends and stays between them. */
  lemma LerpBetween(v0: real, v1: real, f: real)
    requires 0.0 <= f <= 1.0 && v0 <= v1
    ensures Lerp(v0, v1, 0.0) == v0 && Lerp(v0, v1, 1.0) == v1
    ensures v0 <= Lerp(v0, v1, f) <= v1
  {
    assert Lerp(v0, v1, f) == v0 + f * (v1 - v0);
    NonNegative(f, v1 - v0);
    NonNegative(1.0 - f, v1 - v0);
    assert (1.0 - f) * (v1 - v0) == (v1 - v0) - f * (v1 - v0);
  }

  lemma NonNegative(a: real, b: real)
    requires a >= 0.0 && b >= 0.0
    ensures a * b >= 0.0
  {
  }

  // ---------------------------------------------------------------------
  // Easing

  /** `smooth_step`: 0 below 0, 1 above 1, `r^3 (10 + r (-15 + 6 r))` between. */
  function SmoothStep(r: real): real
  {
    if r < 0.0 then 0.0
    else if r > 1.0 then 1.0
    else r * r * r * (10.0 + r * (-15.0 + r * 6.0))
  }

  /** The curve meets 0 and 1 at the ends of `[0, 1]` and never leaves `[0, 1]`. */
  lemma SmoothStepRange(r: real)
    ensures SmoothStep(0.0) == 0.0 && SmoothStep(1.0) == 1.0
    ensures 0.0 <= SmoothStep(r) <= 1.0
  {
    if 0.0 <= r <= 1.0 {
      Quintic(r);
    }
  }

  /** `6r^2 - 15r + 10` has no real root, and `1 - s(r) = (1 - r)^3 (6r^2 + 3r + 1)`. */
  lemma Quintic(r: real)
    requires 0.0 <= r <= 1.0
    ensures 0.0 <= r * r * r * (10.0 + r * (-15.0 + r * 6.0)) <= 1.0
  {
    var q := 10.0 + r * (-15.0 + r * 6.0);
    assert q == 6.0 * ((r - 1.25) * (r - 1.25)) + 0.625;
    Square(r - 1.25);
    NonNegative(r, r);
    NonNegative(r * r, r);
    NonNegative(r * r * r, q);
    var u := 1.0 - r;
    var w := 6.0 * r * r + 3.0 * r + 1.0;
    NonNegative(r * r, 6.0);
    assert w >= 1.0;
    assert 1.0 - r * r * r * q == u * u * u * w;
    NonNegative(u, u);
    NonNegative(u * u, u);
    NonNegative(u * u * u, w);
  }

  lemma Square(a: real)
    ensures a * a >= 0.0
  {
  }

  /** `ramp`: smooth step stretched to `[-1, 1]`. */
  function Ramp(r: real): real
  {
    SmoothStep((r + 1.0) / 2.0) * 2.0 - 1.0
  }

  /** Below -1 the ramp is -1, above 1 it is 1, and it stays within `[-1, 1]`. */
  lemma RampRange(r: real)
    ensures r <= -1.0 ==> Ramp(r) == -1.0
    ensures r >= 1.0 ==> Ramp(r) == 1.0
    ensures -1.0 <= Ramp(r) <= 1.0
  {
    SmoothStepRange((r + 1.0) / 2.0);
  }
}
