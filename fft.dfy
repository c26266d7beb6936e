/** The fixed-size radix-2 FFT of MelSpec.kt (`FFT512.fftReal`): copy a real
    frame into the output buffers, permute them into bit-reversed order, then run
    the butterfly passes over a precomputed twiddle table.

    The twiddle values (the cosine and sine of -2*pi*i/N) are parameters, and the
    double-precision arithmetic is exact real arithmetic here: what is modelled
    is the index structure and the order of the updates, not the rounding. */
module Fft {
  import opened Arith

  const N: nat := 512
  const LogN: nat := 9

  /** `cosTable` and `sinTable`, N/2 entries each. */
  datatype Twiddles = Twiddles(cos: seq<real>, sin: seq<real>)

  predicate ValidTwiddles(tw: Twiddles)
  {
    |tw.cos| == N / 2 && |tw.sin| == N / 2
  }

  lemma SizeFacts()
    ensures Pow2(LogN) == N && Pow2(LogN - 1) == N / 2
  {
    assert Pow2(8) == 256;
  }

  // ---------------------------------------------------------------------------
  // Bit reversal

  /** The low `b` bits of `x`, in reverse order. */
  function Rev(x: nat, b: nat): nat
  {
    if b == 0 then 0 else TopBit(x % 2 == 1, b) + Rev(x / 2, b - 1)
  }

  /** The value of bit `b - 1` when it is set. */
  function TopBit(isSet: bool, b: nat): nat
    requires b >= 1
  {
    if isSet then Pow2(b - 1) else 0
  }

  lemma {:induction false} RevBound(x: nat, b: nat)
    ensures Rev(x, b) < Pow2(b)
  {
    if b > 0 {
      RevBound(x / 2, b - 1);
    }
  }

  /** Reversing a number whose top bit is `top` moves that bit to the bottom. */
  lemma {:induction false} RevTop(top: bool, z: nat, b: nat)
    requires b >= 1 && z < Pow2(b - 1)
    ensures Rev(TopBit(top, b) + z, b) == 2 * Rev(z, b - 1) + (if top then 1 else 0)
  {
    var y := TopBit(top, b) + z;
    if b == 1 {
      assert z == 0;
    } else {
      var h := Pow2(b - 2);
      assert Pow2(b - 1) == 2 * h;
      assert y % 2 == z % 2;
      assert y / 2 == TopBit(top, b - 1) + z / 2;
      RevTop(top, z / 2, b - 1);
    }
  }

  /** Bit reversal is an involution on b-bit numbers. */
  lemma {:induction false} RevRev(x: nat, b: nat)
    requires x < Pow2(b)
    ensures Rev(Rev(x, b), b) == x
  {
    if b > 0 {
      var q := x / 2;
      RevBound(q, b - 1);
      RevRev(q, b - 1);
      RevTop(x % 2 == 1, Rev(q, b - 1), b);
    }
  }

  /** What the inner `while (j >= bit)` loop of the bit reversal, followed by
      `j += bit`, leaves in `j` when it starts with `bit == Pow2(e)`: it clears
      the leading one bits of `j` and sets the first zero bit. */
  function RevIncr(j: nat, e: nat): nat
    requires j < 2 * Pow2(e) - 1
    decreases e
  {
    if j >= Pow2(e) then RevIncr(j - Pow2(e), e - 1) else j + Pow2(e)
  }

  /** The reversed-order increment: the loop turns Rev(i) into Rev(i + 1). */
  lemma {:induction false} RevStep(i: nat, b: nat)
    requires b >= 1 && i + 1 < Pow2(b)
    ensures Rev(i, b) < 2 * Pow2(b - 1) - 1
    ensures Rev(i + 1, b) == RevIncr(Rev(i, b), b - 1)
    decreases b, 1
  {
    if i % 2 == 0 {
      RevStepEven(i, b);
    } else {
      RevStepOdd(i, b);
    }
  }

  /** An even `i` has its lowest bit clear: `Rev(i)` lacks the top bit and
      gets it from the increment. */
  lemma RevStepEven(i: nat, b: nat)
    requires b >= 1 && i + 1 < Pow2(b) && i % 2 == 0
    ensures Rev(i, b) < Pow2(b - 1)
    ensures Rev(i + 1, b) == Rev(i, b) + Pow2(b - 1)
  {
    RevBound(i / 2, b - 1);
    assert (i + 1) / 2 == i / 2 && (i + 1) % 2 == 1;
  }

  /** An odd `i` has its lowest bit set: the increment clears the top bit of
      `Rev(i)` and carries into the lower bits. */
  lemma {:induction false} RevStepOdd(i: nat, b: nat)
    requires b >= 1 && i + 1 < Pow2(b) && i % 2 == 1
    ensures Rev(i, b) < 2 * Pow2(b - 1) - 1
    ensures Rev(i + 1, b) == RevIncr(Rev(i, b), b - 1)
    decreases b, 0
  {
    var q := i / 2;
    var P := Pow2(b - 1);
    assert b >= 2 && P == 2 * Pow2(b - 2);
    assert (i + 1) / 2 == q + 1 && (i + 1) % 2 == 0;
    RevStep(q, b - 1);
    assert Rev(i, b) == P + Rev(q, b - 1);
    assert Rev(i + 1, b) == Rev(q + 1, b - 1);
  }

  /** The value of the 512-element buffer after the bit-reversal loop. */
  function BitReversed(s: seq<real>): (r: seq<real>)
    requires |s| == N
    ensures |r| == N
  {
    RevBoundAll();
    seq(N, k requires 0 <= k < N => s[Rev(k, LogN)])
  }

  lemma RevBoundAll()
    ensures forall k :: 0 <= k < N ==> Rev(k, LogN) < N
  {
    SizeFacts();
    forall k | 0 <= k < N { RevBound(k, LogN); }
  }

  /** Applying the permutation twice restores the buffer: each pair `(i, Rev(i))`
      is exchanged and exchanged back. */
  lemma BitReversedInvolution(s: seq<real>)
    requires |s| == N
    ensures BitReversed(BitReversed(s)) == s
  {
    forall k | 0 <= k < N
      ensures BitReversed(BitReversed(s))[k] == s[k]
    {
      RevN(k);
    }
  }

  /** The inner `while (j >= bit)` loop of `fftReal` followed by `j += bit`,
      started with `bit == 2^e`. */
  method ReversedIncrement(j0: nat, bit0: nat, ghost e0: nat) returns (j: nat)
    requires bit0 == Pow2(e0) && j0 < 2 * bit0 - 1
    ensures j == RevIncr(j0, e0)
  {
    j := j0;
    var bit := bit0;
    ghost var e: nat := e0;
    while j >= bit
      invariant bit == Pow2(e) && j < 2 * bit - 1
      invariant RevIncr(j, e) == RevIncr(j0, e0)
      decreases e
    {
      HalveBit(j, e);
      j := j - bit;
      bit := bit / 2;
      e := e - 1;
    }
    j := j + bit;
  }

  /** One visit of the swap loop's index update: `bit` starts at `N / 2`. */
  method NextReversed(i: nat, j0: nat) returns (j: nat)
    requires 1 <= i < N - 1 && j0 == Rev(i - 1, LogN)
    ensures j == Rev(i, LogN) && j < N
  {
    ReversedSuccessor(i);
    RevN(i);
    j := ReversedIncrement(j0, N / 2, LogN - 1);
  }

  /** Started from `j == Rev(i - 1)` with `bit == N / 2`, that loop yields the
      reversal of `i`. */
  lemma ReversedSuccessor(i: nat)
    requires 1 <= i < N - 1
    ensures Pow2(LogN - 1) == N / 2 && Rev(i - 1, LogN) < 2 * (N / 2) - 1
    ensures RevIncr(Rev(i - 1, LogN), LogN - 1) == Rev(i, LogN)
  {
    SizeFacts();
    RevStep(i - 1, LogN);
  }

  /** One round of that inner loop keeps its invariant. */
  lemma HalveBit(j: nat, e: nat)
    requires j < 2 * Pow2(e) - 1 && j >= Pow2(e)
    ensures e >= 1 && Pow2(e) / 2 == Pow2(e - 1)
    ensures j - Pow2(e) < 2 * Pow2(e - 1) - 1
    ensures RevIncr(j, e) == RevIncr(j - Pow2(e), e - 1)
  {
  }

  /** Reversal is a bijection of `0 .. N-1` onto itself. */
  lemma RevN(k: nat)
    requires k < N
    ensures Rev(k, LogN) < N && Rev(Rev(k, LogN), LogN) == k
  {
    SizeFacts();
    RevBound(k, LogN);
    RevRev(k, LogN);
  }

  /** Which original element sits at position `k` once positions `1 .. i-1` have
      been visited by the swap loop. */
  function Placed(k: nat, i: nat): (r: nat)
    ensures k < N ==> r < N
  {
    if k < N then RevN(k); (if k < i || Rev(k, LogN) < i then Rev(k, LogN) else k)
    else k
  }

  /** The position whose old value lands at `k` when step `i` swaps `i` and `j`
      (only when `i < j`). */
  function Swapped(k: nat, i: nat, j: nat): nat
  {
    if i < j && k == i then j else if i < j && k == j then i else k
  }

  /** Step `i` of the swap loop turns the placement after `i - 1` steps into the
      placement after `i` steps. */
  lemma PlacedStep(k: nat, i: nat)
    requires k < N && 1 <= i < N - 1
    ensures Placed(k, i + 1) == Placed(Swapped(k, i, Rev(i, LogN)), i)
  {
    var j := Rev(i, LogN);
    RevN(i);
    RevN(k);
    if i < j && k == i {
      assert Placed(k, i + 1) == j;
      assert Placed(j, i) == j;
    } else if i < j && k == j {
      assert Placed(k, i + 1) == i;
      assert Placed(i, i) == i;
    } else if k == i {
      assert Placed(k, i + 1) == j;
    } else if Rev(k, LogN) == i {
      assert k == j && j < i;
      assert Placed(k, i + 1) == i;
    } else {
      assert Placed(k, i + 1) == Placed(k, i);
    }
  }

  /** Exchanges `a[i]` and `a[j]`. */
  method Swap(a: array<real>, i: nat, j: nat)
    requires i < a.Length && j < a.Length
    modifies a
    ensures a[..] == old(a[..])[i := old(a[j])][j := old(a[i])]
    ensures multiset(a[..]) == multiset(old(a[..]))
  {
    a[i], a[j] := a[j], a[i];
  }

  /** `cur` holds the elements of `orig` as placed after `i - 1` swap steps. */
  predicate PlacedAfter(cur: seq<real>, orig: seq<real>, i: nat)
    requires |cur| == N && |orig| == N
  {
    forall k {:trigger Placed(k, i)} :: 0 <= k < N ==> cur[k] == orig[Placed(k, i)]
  }

  /** Before the first step nothing has moved. */
  lemma FirstPlacement(s: seq<real>)
    requires |s| == N
    ensures Rev(0, LogN) == 0 && PlacedAfter(s, s, 1)
  {
    forall k | 0 <= k < N
      ensures Placed(k, 1) == k
    {
      RevN(k);
      RevN(0);
    }
  }

  /** The swap of step `i` keeps the placement invariant. */
  lemma SwapStep(orig: seq<real>, cur: seq<real>, next: seq<real>, i: nat)
    requires |cur| == N && |orig| == N && 1 <= i < N - 1
    requires PlacedAfter(cur, orig, i)
    requires var j := Rev(i, LogN);
      j < N && next == if i < j then cur[i := cur[j]][j := cur[i]] else cur
    ensures |next| == N && PlacedAfter(next, orig, i + 1)
  {
    RevN(i);
    forall k | 0 <= k < N
      ensures next[k] == orig[Placed(k, i + 1)]
    {
      PlacedStep(k, i);
    }
  }

  /** The bit-reversal permutation of `fftReal`: for each `i` in `1 until N-1`,
      step `j` to the reversal of `i` and swap the pair once, when `i < j`. */
  method BitReverse(re: array<real>, im: array<real>)
    requires re.Length == N && im.Length == N && re != im
    modifies re, im
    ensures re[..] == BitReversed(old(re[..])) && im[..] == BitReversed(old(im[..]))
    ensures multiset(re[..]) == multiset(old(re[..]))
    ensures multiset(im[..]) == multiset(old(im[..]))
  {
    ghost var re0, im0 := re[..], im[..];
    FirstPlacement(re0);
    FirstPlacement(im0);
    var j := 0;
    for i := 1 to N - 1
      invariant j == Rev(i - 1, LogN)
      invariant PlacedAfter(re[..], re0, i) && PlacedAfter(im[..], im0, i)
      invariant multiset(re[..]) == multiset(re0) && multiset(im[..]) == multiset(im0)
    {
      j := NextReversed(i, j);
      SwapPair(re, im, re0, im0, i, j);
    }
    LastPlacement(re0, re[..]);
    LastPlacement(im0, im[..]);
  }

  /** Step `i` of the swap loop on both arrays: `re[i]` and `re[j]` change
      places when `i < j`, and so do `im[i]` and `im[j]`. */
  method SwapPair(re: array<real>, im: array<real>, ghost re0: seq<real>, ghost im0: seq<real>, i: nat, j: nat)
    requires re.Length == N && im.Length == N && re != im && |re0| == N && |im0| == N
    requires 1 <= i < N - 1 && j == Rev(i, LogN) && j < N
    requires PlacedAfter(re[..], re0, i) && PlacedAfter(im[..], im0, i)
    modifies re, im
    ensures PlacedAfter(re[..], re0, i + 1) && PlacedAfter(im[..], im0, i + 1)
    ensures multiset(re[..]) == multiset(old(re[..])) && multiset(im[..]) == multiset(old(im[..]))
  {
    ghost var reBefore, imBefore := re[..], im[..];
    if i < j {
      Swap(re, i, j);
      Swap(im, i, j);
    }
    SwapStep(re0, reBefore, re[..], i);
    SwapStep(im0, imBefore, im[..], i);
  }

  /** After the last step every position holds the element of its reversal. */
  lemma LastPlacement(orig: seq<real>, cur: seq<real>)
    requires |orig| == N && |cur| == N && PlacedAfter(cur, orig, N - 1)
    ensures cur == BitReversed(orig)
  {
    SizeFacts();
    AllOnes(LogN);
    forall k | 0 <= k < N
      ensures cur[k] == BitReversed(orig)[k]
    {
      assert Placed(k, N - 1) == Rev(k, LogN);
    }
  }

  /** The all-ones number is its own reversal. */
  lemma {:induction false} AllOnes(b: nat)
    ensures Rev(Pow2(b) - 1, b) == Pow2(b) - 1
  {
    if b > 0 {
      var x := Pow2(b) - 1;
      assert Pow2(b) == 2 * Pow2(b - 1);
      assert x % 2 == 1 && x / 2 == Pow2(b - 1) - 1;
      AllOnes(b - 1);
    }
  }

  // ---------------------------------------------------------------------------
  // Butterfly passes

  /** The complex product (wr + i*wi) * (vr + i*vi), as `tRe`/`tIm` in `fftReal`. */
  function CMul(wr: real, wi: real, vr: real, vi: real): (real, real)
  {
    (wr * vr - wi * vi, wr * vi + wi * vr)
  }

  /** The butterfly lengths the outer loop runs through: `len = 2, 4, ..., N`. */
  predicate PassLength(len: nat)
  {
    len == 2 || len == 4 || len == 8 || len == 16 || len == 32
    || len == 64 || len == 128 || len == 256 || len == 512
  }

  /** `len shl 1` is again a pass length, or it ends the loop. */
  lemma NextPassLength(len: nat)
    requires PassLength(len)
    ensures PassLength(len * 2) || len * 2 == 2 * N
    ensures len * 2 > N <==> len == N
  {
  }

  /** In the pass of length `len`, position `p` is the top of a butterfly when
      `p % len < half`; its partner `p + half` and its twiddle index
      `(p % len) * step` stay in range, and likewise for a bottom position. */
  lemma PassIndex(len: nat, p: nat)
    requires PassLength(len) && p < N
    ensures var half, step := len / 2, N / len;
      if p % len < half then p + half < N && (p % len) * step < N / 2
      else p >= half && (p % len - half) * step < N / 2
  {
    if len == 2 {
    } else if len == 4 {
    } else if len == 8 {
    } else if len == 16 {
    } else if len == 32 {
    } else if len == 64 {
    } else if len == 128 {
    } else if len == 256 {
    } else {
    }
  }

  /** A block of `len` starting at a multiple of `len` below `N` fits. */
  lemma NextBlock(i: nat, len: nat)
    requires PassLength(len) && i % len == 0 && i < N
    ensures i + len <= N && (i + len) % len == 0
  {
    if len == 2 {
    } else if len == 4 {
    } else if len == 8 {
    } else if len == 16 {
    } else if len == 32 {
    } else if len == 64 {
    } else if len == 128 {
    } else if len == 256 {
    } else {
    }
  }

  /** Position `p` after the pass of length `len`, read off the buffers before it. */
  function PassAt(re: seq<real>, im: seq<real>, tw: Twiddles, len: nat, p: nat): (real, real)
    requires |re| == N && |im| == N && ValidTwiddles(tw) && PassLength(len) && p < N
  {
    PassIndex(len, p);
    var half, step := len / 2, N / len;
    var q := p % len;
    if q < half then
      var k := q * step;
      var t := CMul(tw.cos[k], tw.sin[k], re[p + half], im[p + half]);
      (re[p] + t.0, im[p] + t.1)
    else
      var k := (q - half) * step;
      var t := CMul(tw.cos[k], tw.sin[k], re[p], im[p]);
      (re[p - half] - t.0, im[p - half] - t.1)
  }

  /** The whole buffer after the pass of length `len`. */
  function Pass(re: seq<real>, im: seq<real>, tw: Twiddles, len: nat): (r: (seq<real>, seq<real>))
    requires |re| == N && |im| == N && ValidTwiddles(tw) && PassLength(len)
    ensures |r.0| == N && |r.1| == N
  {
    (seq(N, p requires 0 <= p < N => PassAt(re, im, tw, len, p).0),
     seq(N, p requires 0 <= p < N => PassAt(re, im, tw, len, p).1))
  }

  /** The passes of length `len`, `2 * len`, ..., `N` in order. */
  function Passes(re: seq<real>, im: seq<real>, tw: Twiddles, len: nat): (r: (seq<real>, seq<real>))
    requires |re| == N && |im| == N && ValidTwiddles(tw) && (PassLength(len) || len == 2 * N)
    ensures |r.0| == N && |r.1| == N
    decreases 2 * N - len
  {
    if len > N then (re, im)
    else
      var next := Pass(re, im, tw, len);
      NextPassLength(len);
      Passes(next.0, next.1, tw, len * 2)
  }

  function Zeros(n: nat): (z: seq<real>)
    ensures |z| == n && forall k :: 0 <= k < n ==> z[k] == 0.0
  {
    seq(n, _ => 0.0)
  }

  /** The (re, im) buffers `fftReal` produces for the real frame `x`. */
  function Fft(x: seq<real>, tw: Twiddles): (r: (seq<real>, seq<real>))
    requires |x| == N && ValidTwiddles(tw)
    ensures |r.0| == N && |r.1| == N
  {
    Passes(BitReversed(x), Zeros(N), tw, 2)
  }

  /** The butterfly at offset `j2` of the block starting at `i` produces the
      pass's values at its two positions from the values there before the pass. */
  lemma ButterflyAt(re: seq<real>, im: seq<real>, tw: Twiddles, len: nat, i: nat, j2: nat)
    requires |re| == N && |im| == N && ValidTwiddles(tw) && PassLength(len)
    requires i % len == 0 && i + len <= N && j2 < len / 2
    ensures var half, k := len / 2, j2 * (N / len);
      k < N / 2 &&
      var t := CMul(tw.cos[k], tw.sin[k], re[i + j2 + half], im[i + j2 + half]);
      PassAt(re, im, tw, len, i + j2) == (re[i + j2] + t.0, im[i + j2] + t.1) &&
      PassAt(re, im, tw, len, i + j2 + len / 2) == (re[i + j2] - t.0, im[i + j2] - t.1)
  {
    var half := len / 2;
    ModInBlock(i + j2, i, len);
    ModInBlock(i + j2 + half, i, len);
    PassIndex(len, i + j2);
  }

  /** The twiddle index `j2 * step` of a butterfly is inside the table. */
  lemma TwiddleIndex(len: nat, j2: nat)
    requires PassLength(len) && j2 < len / 2
    ensures j2 * (N / len) < N / 2
  {
    PassIndex(len, j2);
    assert j2 % len == j2;
  }

  /** `(re, im)` hold the pass's values on the butterflies `0 .. j2-1` of the
      block starting at `i`, and the values `(reIn, imIn)` elsewhere. */
  predicate BlockDone(re: seq<real>, im: seq<real>, reIn: seq<real>, imIn: seq<real>,
                      re0: seq<real>, im0: seq<real>, tw: Twiddles, len: nat, i: nat, j2: nat)
    requires |re| == N && |im| == N && |reIn| == N && |imIn| == N && |re0| == N && |im0| == N
    requires ValidTwiddles(tw) && PassLength(len)
  {
    forall p :: 0 <= p < N ==>
      (re[p], im[p]) == (if i <= p < i + j2 || i + len / 2 <= p < i + len / 2 + j2
                         then PassAt(re0, im0, tw, len, p) else (reIn[p], imIn[p]))
  }

  /** One butterfly extends the finished part of the block by one pair. */
  lemma BlockStep(re: seq<real>, im: seq<real>, re1: seq<real>, im1: seq<real>,
                  reIn: seq<real>, imIn: seq<real>, re0: seq<real>, im0: seq<real>,
                  tw: Twiddles, len: nat, i: nat, j2: nat)
    requires |re| == N && |im| == N && |reIn| == N && |imIn| == N && |re0| == N && |im0| == N
    requires ValidTwiddles(tw) && PassLength(len) && i % len == 0 && i + len <= N && j2 < len / 2
    requires forall p :: i <= p < i + len ==> reIn[p] == re0[p] && imIn[p] == im0[p]
    requires BlockDone(re, im, reIn, imIn, re0, im0, tw, len, i, j2)
    requires var top, bot, k := i + j2, i + j2 + len / 2, j2 * (N / len);
      k < N / 2 &&
      var t := CMul(tw.cos[k], tw.sin[k], re[bot], im[bot]);
      re1 == re[top := re[top] + t.0][bot := re[top] - t.0] &&
      im1 == im[top := im[top] + t.1][bot := im[top] - t.1]
    ensures |re1| == N && |im1| == N
    ensures BlockDone(re1, im1, reIn, imIn, re0, im0, tw, len, i, j2 + 1)
  {
    ButterflyAt(re0, im0, tw, len, i, j2);
  }

  /** One butterfly: `u` at `top` and `v` at `bot` become `u + w*v` and `u - w*v`. */
  method Butterfly(re: array<real>, im: array<real>, top: nat, bot: nat, wr: real, wi: real)
    requires re != im && top < bot < re.Length && bot < im.Length
    modifies re, im
    ensures var t := CMul(wr, wi, old(re[bot]), old(im[bot]));
      re[..] == old(re[..])[top := old(re[top]) + t.0][bot := old(re[top]) - t.0] &&
      im[..] == old(im[..])[top := old(im[top]) + t.1][bot := old(im[top]) - t.1]
  {
    var uRe := re[top];
    var uIm := im[top];
    var vRe := re[bot];
    var vIm := im[bot];
    var (tRe, tIm) := CMul(wr, wi, vRe, vIm);
    re[top] := uRe + tRe;
    im[top] := uIm + tIm;
    re[bot] := uRe - tRe;
    im[bot] := uIm - tIm;
  }

  /** The inner `for (j2 in 0 until half)` loop on the block starting at `i`:
      pairs `(i + j2, i + j2 + half)`, twiddle index `k = j2 * step`. */
  method Butterflies(re: array<real>, im: array<real>, tw: Twiddles, len: nat, i: nat,
                     ghost re0: seq<real>, ghost im0: seq<real>)
    requires re.Length == N && im.Length == N && re != im && |re0| == N && |im0| == N
    requires ValidTwiddles(tw) && PassLength(len) && i % len == 0 && i + len <= N
    requires forall p :: i <= p < i + len ==> re[p] == re0[p] && im[p] == im0[p]
    modifies re, im
    ensures BlockDone(re[..], im[..], old(re[..]), old(im[..]), re0, im0, tw, len, i, len / 2)
  {
    ghost var reIn, imIn := re[..], im[..];
    var step := N / len;
    var half := len / 2;
    var k := 0;
    for j2 := 0 to half
      invariant k == j2 * step
      invariant BlockDone(re[..], im[..], reIn, imIn, re0, im0, tw, len, i, j2)
    {
      TwiddleIndex(len, j2);
      ButterflyStep(re, im, tw, len, i, j2, k, reIn, imIn, re0, im0);
      MulSucc(j2, step);
      k := k + step;
    }
  }

  /** Iteration `j2` of the inner loop: the butterfly on `(i + j2, i + j2 +
      half)` with the twiddle at `k`. */
  method ButterflyStep(re: array<real>, im: array<real>, tw: Twiddles, len: nat, i: nat, j2: nat, k: nat,
                       ghost reIn: seq<real>, ghost imIn: seq<real>, ghost re0: seq<real>, ghost im0: seq<real>)
    requires re.Length == N && im.Length == N && re != im && |reIn| == N && |imIn| == N && |re0| == N && |im0| == N
    requires ValidTwiddles(tw) && PassLength(len) && i % len == 0 && i + len <= N && j2 < len / 2
    requires k == j2 * (N / len) && k < N / 2
    requires forall p :: i <= p < i + len ==> reIn[p] == re0[p] && imIn[p] == im0[p]
    requires BlockDone(re[..], im[..], reIn, imIn, re0, im0, tw, len, i, j2)
    modifies re, im
    ensures BlockDone(re[..], im[..], reIn, imIn, re0, im0, tw, len, i, j2 + 1)
  {
    ghost var reCur, imCur := re[..], im[..];
    var wr := tw.cos[k];
    var wi := tw.sin[k];
    Butterfly(re, im, i + j2, i + j2 + len / 2, wr, wi);
    BlockStep(reCur, imCur, re[..], im[..], reIn, imIn, re0, im0, tw, len, i, j2);
  }

  /** `(re, im)` hold the pass's values below `i` and the values before the
      pass from `i` on. */
  predicate PassDone(re: seq<real>, im: seq<real>, re0: seq<real>, im0: seq<real>,
                     tw: Twiddles, len: nat, i: nat)
    requires |re| == N && |im| == N && |re0| == N && |im0| == N
    requires ValidTwiddles(tw) && PassLength(len)
  {
    forall p :: 0 <= p < N ==>
      (re[p], im[p]) == (if p < i then PassAt(re0, im0, tw, len, p) else (re0[p], im0[p]))
  }

  /** Finishing the block at `i` extends the finished prefix to `i + len`. */
  lemma BlockFinished(re: seq<real>, im: seq<real>, reIn: seq<real>, imIn: seq<real>,
                      re0: seq<real>, im0: seq<real>, tw: Twiddles, len: nat, i: nat)
    requires |re| == N && |im| == N && |reIn| == N && |imIn| == N && |re0| == N && |im0| == N
    requires ValidTwiddles(tw) && PassLength(len) && i + len <= N
    requires PassDone(reIn, imIn, re0, im0, tw, len, i)
    requires BlockDone(re, im, reIn, imIn, re0, im0, tw, len, i, len / 2)
    ensures PassDone(re, im, re0, im0, tw, len, i + len)
  {
    assert len == len / 2 + len / 2;
  }

  /** One pass of the butterfly loops: blocks of `len` starting at `i = 0, len, ...`. */
  method ButterflyPass(re: array<real>, im: array<real>, tw: Twiddles, len: nat)
    requires re.Length == N && im.Length == N && re != im
    requires ValidTwiddles(tw) && PassLength(len)
    modifies re, im
    ensures (re[..], im[..]) == Pass(old(re[..]), old(im[..]), tw, len)
  {
    ghost var re0, im0 := re[..], im[..];
    var i := 0;
    while i < N
      invariant 0 <= i <= N && i % len == 0
      invariant PassDone(re[..], im[..], re0, im0, tw, len, i)
      decreases N - i
    {
      NextBlock(i, len);
      ghost var reIn, imIn := re[..], im[..];
      Butterflies(re, im, tw, len, i, re0, im0);
      BlockFinished(re[..], im[..], reIn, imIn, re0, im0, tw, len, i);
      i := i + len;
    }
    PassComplete(re[..], im[..], re0, im0, tw, len);
  }

  /** Once every block is done the buffers hold the pass. */
  lemma PassComplete(re: seq<real>, im: seq<real>, re0: seq<real>, im0: seq<real>,
                     tw: Twiddles, len: nat)
    requires |re| == N && |im| == N && |re0| == N && |im0| == N
    requires ValidTwiddles(tw) && PassLength(len)
    requires PassDone(re, im, re0, im0, tw, len, N)
    ensures (re, im) == Pass(re0, im0, tw, len)
  {
    assert re == Pass(re0, im0, tw, len).0;
    assert im == Pass(re0, im0, tw, len).1;
  }

  /** `FFT512.fftReal`: copy `N` samples from `input[offset..]` and clear the
      imaginary part, permute, then run the passes for `len = 2, 4, ..., N`. */
  method FftReal(input: array<real>, offset: nat, outRe: array<real>, outIm: array<real>, tw: Twiddles)
    requires offset + N <= input.Length && outRe.Length == N && outIm.Length == N
    requires outRe != outIm && input != outRe && input != outIm
    requires ValidTwiddles(tw)
    modifies outRe, outIm
    ensures (outRe[..], outIm[..]) == Fft(input[offset..offset + N], tw)
  {
    for i := 0 to N
      invariant forall p :: 0 <= p < i ==> outRe[p] == input[offset + p] && outIm[p] == 0.0
    {
      outRe[i] := input[offset + i];
      outIm[i] := 0.0;
    }
    assert outRe[..] == input[offset..offset + N];
    assert outIm[..] == Zeros(N);
    BitReverse(outRe, outIm);
    BitReversedZeros();
    var len := 2;
    while len <= N
      invariant PassLength(len) || len == 2 * N
      invariant Passes(outRe[..], outIm[..], tw, len) == Fft(input[offset..offset + N], tw)
      decreases 2 * N - len
    {
      NextPassLength(len);
      ButterflyPass(outRe, outIm, tw, len);
      len := len * 2;
    }
  }

  /** Permuting the cleared imaginary part leaves it cleared. */
  lemma BitReversedZeros()
    ensures BitReversed(Zeros(N)) == Zeros(N)
  {
    forall k | 0 <= k < N
      ensures BitReversed(Zeros(N))[k] == 0.0
    {
      RevN(k);
    }
  }
}
