/**
 * The index advancer `handleIndex` (src/index.ts:61-88): the new active
 * index after a key press, from the key, the current index, the number of
 * collected children and the wrap flag.
 */
module Advance {
  import opened Direction

  /**
   * The code as written: a previous key steps back, or wraps to the last
   * child at index 0; a next key steps forward, or wraps to the first child at
   * the last index; every other case keeps the index. A previous key that
   * neither steps nor wraps falls through to the next-key test.
   */
  function HandleIndex(isRtl: bool, key: string, currentIdx: int, childrenLength: nat, shouldWrap: bool): (r: int)
    ensures r == currentIdx || r == currentIdx - 1 || r == currentIdx + 1 || r == 0 || r == childrenLength - 1
  {
    if key in PrevKeys(isRtl) && currentIdx > 0 then currentIdx - 1
    else if key in PrevKeys(isRtl) && shouldWrap && currentIdx == 0 then childrenLength - 1
    else if key in NextKeys(isRtl) && currentIdx < childrenLength - 1 then currentIdx + 1
    else if key in NextKeys(isRtl) && shouldWrap && currentIdx == childrenLength - 1 then 0
    else currentIdx
  }

  /**
   * The indices a controller's `currentIdx` can hold: a child's index when
   * there is at least one child; 0 or -1 when there is none (a previous key
   * with wrapping at index 0 yields `0 - 1`).
   */
  predicate IndexInvariant(idx: int, childrenLength: nat) {
    if childrenLength == 0 then idx == 0 || idx == -1 else 0 <= idx < childrenLength
  }

  /** A key that is neither previous nor next leaves the index alone. */
  lemma OtherKeyKeepsIndex(isRtl: bool, key: string, idx: int, n: nat, wrap: bool)
    requires key !in PrevKeys(isRtl) && key !in NextKeys(isRtl)
    ensures HandleIndex(isRtl, key, idx, n, wrap) == idx
  {
  }

  /** Away from the ends, previous and next step by one whatever the wrap flag. */
  lemma InteriorStepsIgnoreWrap(isRtl: bool, key: string, idx: int, n: nat, wrap: bool)
    ensures key in PrevKeys(isRtl) && idx > 0 ==> HandleIndex(isRtl, key, idx, n, wrap) == idx - 1
    ensures key in NextKeys(isRtl) && 0 <= idx < n - 1 ==> HandleIndex(isRtl, key, idx, n, wrap) == idx + 1
  {
    KeySetsPartitionUsedKeys(isRtl);
  }

  /** With wrapping, previous at the first child goes to the last and next at the last goes to the first. */
  lemma WrapAtEnds(isRtl: bool, key: string, n: nat)
    requires n >= 1
    ensures key in PrevKeys(isRtl) ==> HandleIndex(isRtl, key, 0, n, true) == n - 1
    ensures key in NextKeys(isRtl) ==> HandleIndex(isRtl, key, n - 1, n, true) == 0
  {
    KeySetsPartitionUsedKeys(isRtl);
  }

  /** Without wrapping, previous at the first child and next at the last keep the index. */
  lemma ClampAtEnds(isRtl: bool, key: string, n: nat)
    requires n >= 1
    ensures key in PrevKeys(isRtl) ==> HandleIndex(isRtl, key, 0, n, false) == 0
    ensures key in NextKeys(isRtl) ==> HandleIndex(isRtl, key, n - 1, n, false) == n - 1
  {
    KeySetsPartitionUsedKeys(isRtl);
  }

  /** From a child's index, the result is again a child's index. */
  lemma ResultInRange(isRtl: bool, key: string, idx: int, n: nat, wrap: bool)
    requires n >= 1 && 0 <= idx < n
    ensures 0 <= HandleIndex(isRtl, key, idx, n, wrap) < n
  {
  }

  /** Every key press keeps the controller's index invariant, the empty case included. */
  lemma PreservesIndexInvariant(isRtl: bool, key: string, idx: int, n: nat, wrap: bool)
    requires IndexInvariant(idx, n)
    ensures IndexInvariant(HandleIndex(isRtl, key, idx, n, wrap), n)
  {
  }

  /**
   * With no children, wrapping and a previous key at index 0, the code yields
   * -1; the only other move from 0 or -1 is a next key with wrapping at -1,
   * which yields 0.
   */
  lemma EmptyCollectionAsWritten(isRtl: bool, key: string, idx: int, wrap: bool)
    requires idx == 0 || idx == -1
    ensures HandleIndex(isRtl, key, idx, 0, wrap) ==
      if key in PrevKeys(isRtl) && wrap && idx == 0 then -1
      else if key in NextKeys(isRtl) && wrap && idx == -1 then 0
      else idx
  {
    KeySetsPartitionUsedKeys(isRtl);
  }

  /** Reference definition with wrapping: next is the successor and previous the predecessor modulo n. */
  lemma WrappingIsModular(isRtl: bool, key: string, idx: int, n: nat)
    requires n >= 1 && 0 <= idx < n
    ensures key in NextKeys(isRtl) ==> HandleIndex(isRtl, key, idx, n, true) == (idx + 1) % n
    ensures key in PrevKeys(isRtl) ==> HandleIndex(isRtl, key, idx, n, true) == (idx - 1) % n
  {
    KeySetsPartitionUsedKeys(isRtl);
    if idx + 1 < n { ModOfRange(idx + 1, n); } else { assert (idx + 1) % n == n % n == 0; }
    if idx > 0 { ModOfRange(idx - 1, n); } else { ModShift(n - 1, n, -1); ModOfRange(n - 1, n); }
  }

  /** Reference definition without wrapping: next and previous move by one, clamped to the ends. */
  lemma ClampingIsSaturating(isRtl: bool, key: string, idx: int, n: nat)
    requires n >= 1 && 0 <= idx < n
    ensures key in NextKeys(isRtl) ==> HandleIndex(isRtl, key, idx, n, false) == Min(idx + 1, n - 1)
    ensures key in PrevKeys(isRtl) ==> HandleIndex(isRtl, key, idx, n, false) == Max(idx - 1, 0)
  {
    KeySetsPartitionUsedKeys(isRtl);
  }

  function Min(a: int, b: int): int { if a <= b then a else b }
  function Max(a: int, b: int): int { if a >= b then a else b }

  /** The index after pressing the same key `k` times. */
  function Presses(isRtl: bool, key: string, k: nat, idx: int, n: nat, wrap: bool): int {
    if k == 0 then idx
    else HandleIndex(isRtl, key, Presses(isRtl, key, k - 1, idx, n, wrap), n, wrap)
  }

  /** With wrapping, `k` next presses advance by `k` modulo n, and `k` previous presses go back by `k`. */
  lemma {:induction false} WrappingPressesCycle(isRtl: bool, key: string, k: nat, idx: int, n: nat)
    requires n >= 1 && 0 <= idx < n
    requires key in NextKeys(isRtl) || key in PrevKeys(isRtl)
    ensures key in NextKeys(isRtl) ==> Presses(isRtl, key, k, idx, n, true) == (idx + k) % n
    ensures key in PrevKeys(isRtl) ==> Presses(isRtl, key, k, idx, n, true) == (idx - k) % n
  {
    KeySetsPartitionUsedKeys(isRtl);
    if k > 0 {
      WrappingPressesCycle(isRtl, key, k - 1, idx, n);
      var before := Presses(isRtl, key, k - 1, idx, n, true);
      if key in NextKeys(isRtl) {
        assert before == (idx + k - 1) % n;
        WrappingIsModular(isRtl, key, before, n);
        ModStep(idx + k - 1, n, 1);
      } else {
        assert before == (idx - (k - 1)) % n;
        WrappingIsModular(isRtl, key, before, n);
        ModStep(idx - (k - 1), n, -1);
      }
    }
  }

  /** Without wrapping, `k` next presses stop at the last child and `k` previous presses at the first. */
  lemma {:induction false} ClampingPressesSaturate(isRtl: bool, key: string, k: nat, idx: int, n: nat)
    requires n >= 1 && 0 <= idx < n
    requires key in NextKeys(isRtl) || key in PrevKeys(isRtl)
    ensures key in NextKeys(isRtl) ==> Presses(isRtl, key, k, idx, n, false) == Min(idx + k, n - 1)
    ensures key in PrevKeys(isRtl) ==> Presses(isRtl, key, k, idx, n, false) == Max(idx - k, 0)
  {
    if k > 0 {
      ClampingPressesSaturate(isRtl, key, k - 1, idx, n);
      var before := Presses(isRtl, key, k - 1, idx, n, false);
      ClampingIsSaturating(isRtl, key, before, n);
    }
  }

  lemma ModOfRange(a: int, n: int)
    requires 0 <= a < n
    ensures a % n == a
  {
  }

  /** Dafny's `%` is the Euclidean remainder: the remainder of a division is unique. */
  lemma ModUnique(a: int, n: int, q: int, r: int)
    requires n >= 1 && 0 <= r < n && a == q * n + r
    ensures a % n == r
  {
    var q0, r0 := a / n, a % n;
    assert a == q0 * n + r0;
    assert (q - q0) * n == r0 - r;
    if q > q0 {
      MulAtLeast(q - q0, n);
    } else if q < q0 {
      MulAtLeast(q0 - q, n);
    }
  }

  lemma MulAtLeast(d: int, n: int)
    requires d >= 1 && n >= 1
    ensures d * n >= n
  {
  }

  lemma ModShift(a: int, n: int, q: int)
    requires n >= 1
    ensures (a + q * n) % n == a % n
  {
    assert a + q * n == (a / n + q) * n + a % n;
    ModUnique(a + q * n, n, a / n + q, a % n);
  }

  lemma ModStep(a: int, n: int, d: int)
    requires n >= 1
    ensures (a % n + d) % n == (a + d) % n
  {
    assert a % n + d == (a + d) + (-(a / n)) * n;
    ModShift(a + d, n, -(a / n));
  }
}
