/** Machine numbers and a search, shared by all components. */
module Basics {

  type Byte = b: nat | b < 256

  const U32_MAX: nat := 0xFFFF_FFFF
  type U32 = n: nat | n <= U32_MAX

  const NANOS_PER_SEC: nat := 1_000_000_000

  function Pow256(n: nat): (p: nat)
    ensures p >= 1
  {
    if n == 0 then 1 else 256 * Pow256(n - 1)
  }

  /** Where an element first occurs; the length if it does not. */
  function IndexOf<T(==)>(s: seq<T>, x: T): (i: nat)
    ensures i <= |s| && x !in s[..i]
    ensures i < |s| ==> s[i] == x
    ensures i == |s| <==> x !in s
  {
    if s == [] || s[0] == x then 0
    else
      var i := IndexOf(s[1..], x) + 1;
      assert s[..i] == [s[0]] + s[1..][..i - 1];
      assert s == [s[0]] + s[1..];
      i
  }

  lemma {:induction false} IndexAfter<T>(head: seq<T>, x: T, tail: seq<T>)
    requires x !in head
    ensures IndexOf(head + [x] + tail, x) == |head|
  {
    if head != [] {
      IndexAfter(head[1..], x, tail);
      assert (head + [x] + tail)[1..] == head[1..] + [x] + tail;
    }
  }
}
