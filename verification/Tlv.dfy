/**
  The tag-length-value walker, in its only instance: a one-byte tag, a two-byte
  big-endian length and the value. The consumer of the items may refuse one,
  depending on what it has seen before.
 */
module Tlv {
  import opened Basics

  datatype RawItem = RawItem(tag: Byte, value: seq<Byte>)
  type Item = i: RawItem | |i.value| < 65536 witness RawItem(0, [])

  datatype Outcome = Ok | NotEnoughData | Refused(item: Item)

  /** Whether the consumer refuses an item after having taken the earlier ones. */
  type Consumer = (seq<Item>, Item) -> bool

  const HEADER: nat := 3

  function Length(buf: seq<Byte>): (n: nat)
    requires |buf| >= 2
    ensures n < 65536
  {
    var high: nat := buf[0];
    256 * high + buf[1]
  }

  // ---------------------------------------------------------------------------
  // What a byte string of items is

  function EncodeItem(item: Item): (bs: seq<Byte>)
    ensures |bs| == HEADER + |item.value|
  {
    [item.tag, |item.value| / 256, |item.value| % 256] + item.value
  }

  lemma ItemShape(item: Item, rest: seq<Byte>)
    ensures var bs := EncodeItem(item) + rest;
            && bs[0] == item.tag
            && 256 * (bs[1] as int) + bs[2] as int == |item.value|
            && Length(bs[1..]) == |item.value|
            && bs[HEADER..][..|item.value|] == item.value
            && bs[HEADER..][|item.value|..] == rest
  {
  }

  function Encode(items: seq<Item>): (bs: seq<Byte>) {
    if items == [] then [] else EncodeItem(items[0]) + Encode(items[1..])
  }

  /** The bytes do not begin with a complete item. */
  predicate Truncated(bs: seq<Byte>) {
    |bs| < HEADER || |bs| < HEADER + Length(bs[1..])
  }

  ghost predicate Taken(items: seq<Item>, refuses: Consumer) {
    forall i :: 0 <= i < |items| ==> !refuses(items[..i], items[i])
  }

  /**
    What a walk over `v` must report: the items delivered are the leading items of `v`,
    none skipped or read twice, up to the end, a truncated rest or a refusal. No items at
    all is a truncation.
   */
  ghost predicate Walks(v: seq<Byte>, refuses: Consumer, outcome: Outcome, items: seq<Item>) {
    && Taken(items, refuses)
    && match outcome
       case Ok => items != [] && v == Encode(items)
       case NotEnoughData =>
         && Encode(items) <= v
         && Truncated(v[|Encode(items)|..])
         && (items != [] ==> Encode(items) != v)
       case Refused(item) =>
         && Encode(items + [item]) <= v
         && refuses(items, item)
  }

  lemma {:induction false} EncodeAppend(items: seq<Item>, item: Item)
    ensures Encode(items + [item]) == Encode(items) + EncodeItem(item)
  {
    if items == [] {
      assert [item][1..] == [];
      assert items + [item] == [item];
    } else {
      EncodeAppend(items[1..], item);
      assert (items + [item])[1..] == items[1..] + [item];
      var head, rest, last := EncodeItem(items[0]), Encode(items[1..]), EncodeItem(item);
      assert head + (rest + last) == (head + rest) + last;
    }
  }

  /** The walk has come to `offset` and delivered `items`. */
  ghost predicate At(v: seq<Byte>, offset: nat, items: seq<Item>) {
    offset <= |v| && v[..offset] == Encode(items)
  }

  lemma RestAt(v: seq<Byte>, offset: nat, items: seq<Item>)
    requires At(v, offset, items)
    ensures |Encode(items)| == offset && Encode(items) <= v
    ensures v[|Encode(items)|..] == v[offset..]
    ensures offset < |v| ==> Encode(items) != v
    ensures offset == |v| ==> Encode(items) == v
  {
  }

  lemma {:induction false} NextAt(v: seq<Byte>, offset: nat, items: seq<Item>, item: Item)
    requires At(v, offset, items)
    requires offset + HEADER + |item.value| <= |v|
    requires v[offset..offset + HEADER + |item.value|] == EncodeItem(item)
    ensures At(v, offset + HEADER + |item.value|, items + [item])
  {
    var next := offset + HEADER + |item.value|;
    EncodeAppend(items, item);
    assert v[..next] == v[..offset] + v[offset..next];
  }

  lemma TakenMore(items: seq<Item>, item: Item, refuses: Consumer)
    requires Taken(items, refuses) && !refuses(items, item)
    ensures Taken(items + [item], refuses)
  {
    var all := items + [item];
    forall i | 0 <= i < |all| ensures !refuses(all[..i], all[i]) {
      assert all[..i] == items[..i];
    }
  }

  method ParseTlv(v: seq<Byte>, refuses: Consumer) returns (outcome: Outcome, items: seq<Item>)
    ensures Walks(v, refuses, outcome, items)
  {
    var offset := 0;
    items := [];
    while true
      invariant At(v, offset, items)
      invariant items != [] ==> offset < |v|
      invariant Taken(items, refuses)
      decreases |v| - offset
    {
      RestAt(v, offset, items);
      if offset + HEADER > |v| {
        return NotEnoughData, items;
      }
      var buf := v[offset..];
      var tag, len := buf[0], Length(buf[1..]);
      if offset + HEADER + len > |v| {
        return NotEnoughData, items;
      }
      var item: Item := RawItem(tag, v[offset + HEADER..offset + HEADER + len]);
      ItemAt(v, offset, item);
      NextAt(v, offset, items, item);
      RestAt(v, offset + HEADER + len, items + [item]);
      if refuses(items, item) {
        return Refused(item), items;
      }
      TakenMore(items, item, refuses);
      offset, items := offset + HEADER + len, items + [item];
      if offset == |v| {
        return Ok, items;
      }
    }
  }

  lemma ItemAt(v: seq<Byte>, offset: nat, item: Item)
    requires offset + HEADER <= |v|
    requires offset + HEADER + Length(v[offset..][1..]) <= |v|
    requires item == RawItem(v[offset], v[offset + HEADER..offset + HEADER + Length(v[offset..][1..])])
    ensures v[offset..offset + HEADER + |item.value|] == EncodeItem(item)
  {
  }

  // ---------------------------------------------------------------------------
  // The report is determined by the bytes

  /** One item off the front: equal byte strings begin with equal items. */
  lemma SameHead(a: Item, x: seq<Byte>, b: Item, y: seq<Byte>)
    requires EncodeItem(a) + x == EncodeItem(b) + y
    ensures a == b && x == y
  {
    ItemShape(a, x);
    ItemShape(b, y);
  }

  lemma {:induction false} Unfold(items: seq<Item>, rest: seq<Byte>)
    requires items != []
    ensures Encode(items) + rest == EncodeItem(items[0]) + (Encode(items[1..]) + rest)
  {
  }

  lemma Regroup(a: seq<Item>, b: seq<Item>)
    requires 0 < |a| <= |b| && a[0] == b[0] && a[1..] == b[1..][..|a| - 1]
    ensures a == b[..|a|] && b[1..][|a| - 1..] == b[|a|..]
  {
  }

  /** Two decompositions of the same bytes agree as far as both go. */
  lemma {:induction false} SamePrefix(a: seq<Item>, x: seq<Byte>, b: seq<Item>, y: seq<Byte>)
    requires Encode(a) + x == Encode(b) + y && |a| <= |b|
    ensures a == b[..|a|] && x == Encode(b[|a|..]) + y
    decreases |a|
  {
    if a == [] {
      assert b[|a|..] == b;
      assert [] + x == x;
    } else {
      Unfold(a, x);
      Unfold(b, y);
      SameHead(a[0], Encode(a[1..]) + x, b[0], Encode(b[1..]) + y);
      SamePrefix(a[1..], x, b[1..], y);
      Regroup(a, b);
    }
  }

  /** The items of a complete byte string are unique. */
  lemma {:induction false} EncodeInjective(a: seq<Item>, b: seq<Item>)
    requires Encode(a) == Encode(b)
    ensures a == b
    decreases |a|
  {
    if |a| <= |b| {
      assert Encode(a) + [] == Encode(a) && Encode(b) + [] == Encode(b);
      SamePrefix(a, [], b, []);
      assert |Encode(b[|a|..])| == 0;
    } else {
      EncodeInjective(b, a);
    }
  }

  /** Bytes that begin with a complete item are not truncated. */
  lemma NotTruncated(item: Item, rest: seq<Byte>)
    ensures !Truncated(EncodeItem(item) + rest)
  {
  }

  /**
    With a consumer that takes everything, the walk succeeds exactly on the non-empty
    concatenations of items, and then delivers those.
   */
  lemma {:induction false} SucceedsIff(v: seq<Byte>, refuses: Consumer, outcome: Outcome, items: seq<Item>)
    requires forall before, item :: !refuses(before, item)
    requires Walks(v, refuses, outcome, items)
    ensures outcome.Ok? <==> exists all :: all != [] && v == Encode(all)
    ensures forall all :: all != [] && v == Encode(all) ==> items == all
  {
    forall all | all != [] && v == Encode(all) ensures outcome.Ok? && items == all {
      if outcome.Ok? {
        EncodeInjective(items, all);
      } else {
        CompleteRest(items, all);
      }
    }
    if outcome.Ok? {
      assert items != [] && v == Encode(items);
    }
  }

  /** Walking over complete items, what is left is never truncated before the end. */
  lemma {:induction false} CompleteRest(items: seq<Item>, all: seq<Item>)
    requires Encode(items) <= Encode(all)
    ensures Encode(items) == Encode(all) || !Truncated(Encode(all)[|Encode(items)|..])
  {
    var rest := Encode(all)[|Encode(items)|..];
    assert Encode(items) + rest == Encode(all) + [];
    if |items| <= |all| {
      SamePrefix(items, rest, all, []);
      if |items| < |all| {
        var left := all[|items|..];
        NotTruncated(left[0], Encode(left[1..]));
      }
    } else {
      SamePrefix(all, [], items, rest);
    }
  }

  lemma Behind(head: seq<Byte>, rest: seq<Byte>)
    ensures (head + rest)[|head|..] == rest
  {
  }

  lemma Restored(bytes: seq<Byte>, head: seq<Byte>)
    requires head <= bytes
    ensures bytes == head + bytes[|head|..]
  {
  }

  lemma {:induction false} WalkPrefix(v: seq<Byte>, refuses: Consumer, outcome: Outcome, items: seq<Item>)
    requires Walks(v, refuses, outcome, items)
    ensures Encode(items) <= v
    ensures outcome.Refused? ==> EncodeItem(outcome.item) <= v[|Encode(items)|..]
  {
    if outcome.Refused? {
      EncodeAppend(items, outcome.item);
      var n, m := |Encode(items)|, |EncodeItem(outcome.item)|;
      assert v[..n + m] == Encode(items) + EncodeItem(outcome.item);
      assert v[n..][..m] == v[..n + m][n..];
    }
  }

  /** A walk stops at a truncated rest, at the end, or at an item that it refuses. */
  lemma {:induction false} StopsThere(v: seq<Byte>, refuses: Consumer, o: Outcome, items: seq<Item>,
                                      next: Item, more: seq<Byte>)
    requires Walks(v, refuses, o, items)
    requires v == Encode(items) + (EncodeItem(next) + more)
    ensures o == Refused(next)
  {
    var rest := EncodeItem(next) + more;
    WalkPrefix(v, refuses, o, items);
    Behind(Encode(items), rest);
    NotTruncated(next, more);
    if o.Refused? {
      Restored(rest, EncodeItem(o.item));
      SameHead(o.item, rest[|EncodeItem(o.item)|..], next, more);
    }
  }

  /** A walk does not stop before an item that another correct walk takes. */
  lemma {:induction false} NotShorter(v: seq<Byte>, refuses: Consumer, o: Outcome, items: seq<Item>,
                                      o': Outcome, items': seq<Item>)
    requires Walks(v, refuses, o, items) && Walks(v, refuses, o', items')
    ensures |items'| <= |items|
    ensures |items'| == |items| ==> items' == items
  {
    WalkPrefix(v, refuses, o, items);
    WalkPrefix(v, refuses, o', items');
    var k, rest, rest' := |items|, v[|Encode(items)|..], v[|Encode(items')|..];
    Restored(v, Encode(items));
    Restored(v, Encode(items'));
    if |items| <= |items'| {
      SamePrefix(items, rest, items', rest');
      if |items| < |items'| {
        var left := items'[k..];
        Unfold(left, rest');
        StopsThere(v, refuses, o, items, left[0], Encode(left[1..]) + rest');
      }
    }
  }

  /** Bytes and consumer determine the outcome and the delivered items. */
  lemma {:induction false} WalksUnique(v: seq<Byte>, refuses: Consumer, o: Outcome, items: seq<Item>,
                                       o': Outcome, items': seq<Item>)
    requires Walks(v, refuses, o, items) && Walks(v, refuses, o', items')
    ensures o == o' && items == items'
  {
    NotShorter(v, refuses, o, items, o', items');
    NotShorter(v, refuses, o', items', o, items);
    WalkPrefix(v, refuses, o, items);
    WalkPrefix(v, refuses, o', items');
    var rest := v[|Encode(items)|..];
    Restored(v, Encode(items));
    if o.Refused? {
      Restored(rest, EncodeItem(o.item));
      StopsThere(v, refuses, o', items, o.item, rest[|EncodeItem(o.item)|..]);
    } else if o'.Refused? {
      Restored(rest, EncodeItem(o'.item));
      StopsThere(v, refuses, o, items, o'.item, rest[|EncodeItem(o'.item)|..]);
    }
  }
}
