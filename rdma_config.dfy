/**
 * Build-time constants of the messenger and the 2 MiB page-alignment macro
 * (include/rdma_messenger/rdma_config.h).
 *
 * ALIGN_TO_PAGE_2MB is evaluated by the source on `size_t` (64-bit) operands:
 * the addition wraps modulo 2^64 and the mask `~(HUGE_PAGE_SIZE_2MB - 1)` is an
 * `int` that sign-extends to the 64-bit word 2^64 - 2^21.  The model spells out
 * both: the wrap as `% UINT64_LIMIT`, the bitwise AND bit by bit.
 */
module RdmaConfig {
  import opened Wrappers

  const SUPPORT_HUGE_PAGE: bool := false
  const HUGE_PAGE_SIZE_2MB: nat := 2 * 1024 * 1024

  const RECV_WQE_PER_QP: nat := 64
  const SEND_WQE_PER_QP: nat := 64

  const SGE_MSG_SIZE: nat := 32 * 1024 * 1024
  const CQE_PER_CQ: nat := 4096

  const IO_WORKER_NUMS: nat := 20

  const SUPPORT_SRQ: bool := true
  const SRQ_WQE: nat := RECV_WQE_PER_QP * 64

  const FIN_WRID: nat := 0xCAFEBEEF
  const BEACON_WRID: nat := 0xDEADBEEF

  /** 2^n. */
  function Pow2(n: nat): (p: nat)
    ensures p >= 1
  {
    if n == 0 then 1 else 2 * Pow2(n - 1)
  }

  /** The C operator `&` on unsigned words, one bit at a time from the lowest. */
  function BitAnd(a: nat, b: nat): nat
    decreases a
  {
    if a == 0 || b == 0 then 0
    else 2 * BitAnd(a / 2, b / 2) + (if a % 2 == 1 && b % 2 == 1 then 1 else 0)
  }

  /** `~(HUGE_PAGE_SIZE_2MB - 1)` once converted to a 64-bit `size_t`. */
  const ALIGN_MASK_2MB: nat := UINT64_LIMIT - HUGE_PAGE_SIZE_2MB

  /** ALIGN_TO_PAGE_2MB(x) on a 64-bit word. */
  function AlignToPage2MB(x: nat): nat
    requires x < UINT64_LIMIT
  {
    BitAnd((x + (HUGE_PAGE_SIZE_2MB - 1)) % UINT64_LIMIT, ALIGN_MASK_2MB)
  }

  lemma Pow2Values()
    ensures Pow2(21) == HUGE_PAGE_SIZE_2MB
    ensures Pow2(64) == UINT64_LIMIT
  {
    assert Pow2(10) == 1024;
    assert Pow2(21) == 2 * 1024 * 1024 by {
      assert Pow2(20) == 1024 * 1024 by {
        assert Pow2(20) == Pow2(10) * Pow2(10) by { Pow2Add(10, 10); }
      }
    }
    assert Pow2(64) == UINT64_LIMIT by {
      Pow2Add(32, 32);
      assert Pow2(32) == 0x1_0000_0000 by {
        Pow2Add(16, 16);
        assert Pow2(16) == 0x1_0000 by { Pow2Add(10, 6); }
      }
    }
  }

  lemma {:induction false} Pow2Add(m: nat, n: nat)
    ensures Pow2(m + n) == Pow2(m) * Pow2(n)
    decreases m
  {
    if m > 0 {
      Pow2Add(m - 1, n);
    }
  }

  /** Splitting a remainder modulo 2p into its lowest bit and the rest. */
  lemma ModDoubleSplit(v: nat, p: nat)
    requires p > 0
    ensures v % (2 * p) == 2 * ((v / 2) % p) + v % 2
  {
    var q, r := v / 2, v % 2;
    var a, b := q / p, q % p;
    assert v == 2 * p * a + (2 * b + r);
    assert 0 <= 2 * b + r < 2 * p;
    ModUnique(v, 2 * p, a, 2 * b + r);
  }

  lemma ModUnique(v: nat, d: nat, a: nat, b: nat)
    requires d > 0 && v == d * a + b && b < d
    ensures v % d == b && v / d == a
  {
    var a', b' := v / d, v % d;
    assert d * a' + b' == d * a + b;
    if a' < a {
      MulStep(d, a', a - a');
      assert false;
    } else if a' > a {
      MulStep(d, a, a' - a);
      assert false;
    }
  }

  lemma MulStep(d: nat, x: nat, k: nat)
    requires k >= 1
    ensures d * (x + k) == d * x + d * k && d * k >= d
  {
    assert d * k == d * (k - 1) + d;
  }

  /**
   * AND-ing a word below 2^n with the mask whose bits k..n-1 are set clears
   * exactly the low k bits.
   */
  lemma {:induction false} ClearLowBits(v: nat, n: nat, k: nat)
    requires k <= n && v < Pow2(n)
    ensures Pow2(k) <= Pow2(n)
    ensures BitAnd(v, Pow2(n) - Pow2(k)) == v - v % Pow2(k)
    decreases n
  {
    Pow2Monotone(k, n);
    if v == 0 {
      ModUnique(0, Pow2(k), 0, 0);
    } else if k == n {
      ModUnique(v, Pow2(n), 0, v);
    } else if k == 0 {
      Pow2Monotone(0, n - 1);
      ClearLowBits(v / 2, n - 1, 0);
      ClearStepAllOnes(v, n);
    } else {
      Pow2Monotone(k - 1, n - 1);
      ClearLowBits(v / 2, n - 1, k - 1);
      ClearStepShift(v, n, k);
    }
  }

  /** One step of ClearLowBits when no low bit is cleared: the mask is all ones. */
  lemma ClearStepAllOnes(v: nat, n: nat)
    requires 0 < v < Pow2(n) && n >= 1
    requires BitAnd(v / 2, Pow2(n - 1) - 1) == v / 2 - (v / 2) % 1
    ensures BitAnd(v, Pow2(n) - 1) == v - v % 1
  {
    var h, low := v / 2, v % 2;
    ModUnique(h, 1, h, 0);
    ModUnique(v, 1, v, 0);
    var pn, b := Pow2(n - 1), Pow2(n) - 1;
    ModUnique(b, 2, pn - 1, 1);
    assert BitAnd(v, b) == 2 * BitAnd(h, pn - 1) + low;
  }

  /** One step of ClearLowBits when the mask's lowest bit is clear. */
  lemma ClearStepShift(v: nat, n: nat, k: nat)
    requires 0 < v < Pow2(n) && 0 < k < n
    requires Pow2(k - 1) <= Pow2(n - 1)
    requires BitAnd(v / 2, Pow2(n - 1) - Pow2(k - 1)) == v / 2 - (v / 2) % Pow2(k - 1)
    ensures Pow2(k) <= Pow2(n)
    ensures BitAnd(v, Pow2(n) - Pow2(k)) == v - v % Pow2(k)
  {
    var h, low := v / 2, v % 2;
    var pn, pk := Pow2(n - 1), Pow2(k - 1);
    assert Pow2(n) - Pow2(k) == 2 * (pn - pk);
    var r := h % pk;
    assert BitAnd(v, Pow2(n) - Pow2(k)) == 2 * BitAnd(h, pn - pk);
    ModDoubleSplit(v, pk);
    assert v % Pow2(k) == 2 * r + low;
  }

  lemma {:induction false} Pow2Monotone(k: nat, n: nat)
    requires k <= n
    ensures Pow2(k) <= Pow2(n)
    decreases n
  {
    if k < n {
      Pow2Monotone(k, n - 1);
    }
  }

  /** The macro rounds down the biased sum to a multiple of 2 MiB. */
  lemma AlignIsRoundDown(x: nat)
    requires x < UINT64_LIMIT
    ensures var v := (x + (HUGE_PAGE_SIZE_2MB - 1)) % UINT64_LIMIT;
            AlignToPage2MB(x) == v - v % HUGE_PAGE_SIZE_2MB
  {
    Pow2Values();
    ClearLowBits((x + (HUGE_PAGE_SIZE_2MB - 1)) % UINT64_LIMIT, 64, 21);
  }

  /** ALIGN_TO_PAGE_2MB always yields a multiple of the huge-page size, below 2^64. */
  lemma AlignIsMultiple(x: nat)
    requires x < UINT64_LIMIT
    ensures AlignToPage2MB(x) % HUGE_PAGE_SIZE_2MB == 0
    ensures AlignToPage2MB(x) < UINT64_LIMIT
  {
    AlignIsRoundDown(x);
    var v := (x + (HUGE_PAGE_SIZE_2MB - 1)) % UINT64_LIMIT;
    ModUnique(v - v % HUGE_PAGE_SIZE_2MB, HUGE_PAGE_SIZE_2MB, v / HUGE_PAGE_SIZE_2MB, 0);
  }

  /** Without 64-bit overflow the result is the least multiple of 2 MiB not below x. */
  lemma AlignRoundsUp(x: nat)
    requires x + (HUGE_PAGE_SIZE_2MB - 1) < UINT64_LIMIT
    ensures x <= AlignToPage2MB(x) < x + HUGE_PAGE_SIZE_2MB
  {
    AlignIsRoundDown(x);
  }

  lemma DivExact(x: nat, d: nat)
    requires d > 0 && x % d == 0
    ensures x == d * (x / d)
  {
  }

  /** A multiple of 2 MiB below 2^64 leaves room for a whole page above it. */
  lemma MultipleBelowTop(a: nat)
    requires HUGE_PAGE_SIZE_2MB * a < UINT64_LIMIT
    ensures HUGE_PAGE_SIZE_2MB * a <= UINT64_LIMIT - HUGE_PAGE_SIZE_2MB
  {
    var m, top := HUGE_PAGE_SIZE_2MB, 0x800_0000_0000;
    assert m * top == UINT64_LIMIT;
    if a > top {
      MulStep(m, top, a - top);
    } else if a < top {
      MulStep(m, a, top - a);
    }
  }

  /** A multiple of 2 MiB is left as it is. */
  lemma AlignFixesMultiples(x: nat)
    requires x < UINT64_LIMIT && x % HUGE_PAGE_SIZE_2MB == 0
    ensures AlignToPage2MB(x) == x
  {
    AlignIsRoundDown(x);
    var m := HUGE_PAGE_SIZE_2MB;
    var a := x / m;
    DivExact(x, m);
    MultipleBelowTop(a);
    var v := x + (m - 1);
    ModUnique(v, UINT64_LIMIT, 0, v);
    ModUnique(v, m, a, m - 1);
  }

  /** Aligning twice is aligning once. */
  lemma AlignIdempotent(x: nat)
    requires x < UINT64_LIMIT
    ensures AlignToPage2MB(x) < UINT64_LIMIT
    ensures AlignToPage2MB(AlignToPage2MB(x)) == AlignToPage2MB(x)
  {
    AlignIsMultiple(x);
    AlignFixesMultiples(AlignToPage2MB(x));
  }

  /** Near the top of the word the biased sum wraps and the "rounded up" value is 0. */
  lemma AlignWrapsAtTop()
    ensures AlignToPage2MB(UINT64_LIMIT - 1) == 0
  {
    AlignIsRoundDown(UINT64_LIMIT - 1);
  }

  /**
   * The sizing constants agree with each other: the shared receive queue is 64
   * times a queue pair's receive depth, each region length (depth times chunk
   * size, 2^31 bytes) fits the `uint32_t` fields that hold it, and the two
   * reserved work-request ids are distinct and non-zero.
   */
  lemma ConstantsConsistent()
    ensures SRQ_WQE == RECV_WQE_PER_QP * 64 == 4096
    ensures RECV_WQE_PER_QP * SGE_MSG_SIZE == SEND_WQE_PER_QP * SGE_MSG_SIZE == 0x8000_0000
    ensures RECV_WQE_PER_QP * SGE_MSG_SIZE < UINT32_LIMIT
    ensures FIN_WRID != BEACON_WRID && FIN_WRID != 0 && BEACON_WRID != 0
  {
  }
}
