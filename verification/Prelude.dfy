/**
 The integer widths, the byte type and the small result datatypes that every
 component of the model shares.
 */
module Prelude {

  const TWO_32: int := 0x1_0000_0000
  const TWO_64: int := 0x1_0000_0000_0000_0000

  type Byte = b: int | 0 <= b < 0x100
  type U32 = n: int | 0 <= n < TWO_32
  type I32 = n: int | -0x8000_0000 <= n < 0x8000_0000
  type U64 = n: int | 0 <= n < TWO_64

  datatype Option<+T> = None | Some(value: T)

  datatype Result<+T, +E> = Ok(value: T) | Err(error: E)

  /** Durations and instants are counted in nanoseconds. */
  const SECOND: nat := 1_000_000_000

  lemma MulMono(a: nat, b: nat, c: nat)
    requires a <= b
    ensures a * c <= b * c
  {}

  function Min(a: int, b: int): int { if a < b then a else b }

  function Max(a: int, b: int): int { if a < b then b else a }

  /** `u64::saturating_sub` (and `u32`): subtraction that stops at zero. */
  function SaturatingSub(a: nat, b: nat): nat { if a < b then 0 else a - b }

  function Flatten<T>(parts: seq<seq<T>>): seq<T> {
    if parts == [] then [] else parts[0] + Flatten(parts[1..])
  }

  lemma {:induction false} FlattenAppend<T>(a: seq<seq<T>>, b: seq<seq<T>>)
    ensures Flatten(a + b) == Flatten(a) + Flatten(b)
  {
    if a == [] {
      assert a + b == b;
    } else {
      FlattenAppend(a[1..], b);
      assert (a + b)[1..] == a[1..] + b;
      assert a[0] + (Flatten(a[1..]) + Flatten(b)) == (a[0] + Flatten(a[1..])) + Flatten(b);
    }
  }

  lemma {:induction false} FlattenSnoc<T>(a: seq<seq<T>>, x: seq<T>)
    ensures Flatten(a + [x]) == Flatten(a) + x
  {
    FlattenAppend(a, [x]);
    assert Flatten([x]) == x + Flatten([]) == x;
  }

  /** A set of integers inside `[lo, hi)` has at most `hi - lo` elements. */
  lemma {:induction false} BoundedSetSize(s: set<int>, lo: int, hi: int)
    requires lo <= hi
    requires forall n | n in s :: lo <= n < hi
    ensures |s| <= hi - lo
    decreases hi - lo
  {
    if lo == hi {
      assert forall x :: x !in s;
      assert s == {};
    } else {
      BoundedSetSize(s - {hi - 1}, lo, hi - 1);
    }
  }

  /** A set of integers inside `[0, n)` with `n` elements is the whole interval. */
  lemma {:induction false} FullSet(s: set<int>, n: nat)
    requires forall k | k in s :: 0 <= k < n
    requires |s| == n
    ensures forall k | 0 <= k < n :: k in s
  {
    forall k | 0 <= k < n ensures k in s {
      if k !in s {
        // Move n - 1 into k's place: still n elements, now inside [0, n - 1).
        if n - 1 in s {
          var moved := s - {n - 1} + {k};
          BoundedSetSize(moved, 0, n - 1);
        } else {
          BoundedSetSize(s, 0, n - 1);
        }
      }
    }
  }

  /** The interval `[0, n)` as a set. */
  function Below(n: nat): (s: set<int>)
    ensures forall k :: k in s <==> 0 <= k < n
    ensures |s| == n
  {
    if n == 0 then {} else Below(n - 1) + {n - 1}
  }
}
