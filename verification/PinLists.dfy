/**
 Bookkeeping of pins. Outstanding pins are kept in the order they were made, each with the transaction
 that made it; a transaction's own pin list is its part of that list.
 */
module PinLists {
  import opened Types

  datatype Pin = Pin(tx: nat, blk: BlockId)

  /** How often block `b` is pinned, by anyone. */
  function Count(pins: seq<Pin>, b: BlockId): nat {
    if pins == [] then 0
    else Count(pins[..|pins| - 1], b) + if pins[|pins| - 1].blk == b then 1 else 0
  }

  /** The pin list of transaction `t`. */
  function ListOf(pins: seq<Pin>, t: nat): seq<BlockId> {
    if pins == [] then []
    else
      var p := pins[|pins| - 1];
      ListOf(pins[..|pins| - 1], t) + if p.tx == t then [p.blk] else []
  }

  /** Removes the first occurrence, as `std::find` and `erase` do. */
  function Erase<T(==)>(s: seq<T>, x: T): seq<T> {
    if s == [] then [] else if s[0] == x then s[1..] else [s[0]] + Erase(s[1..], x)
  }

  lemma {:induction false} CountFront(pins: seq<Pin>, b: BlockId)
    requires pins != []
    ensures Count(pins, b) == (if pins[0].blk == b then 1 else 0) + Count(pins[1..], b)
  {
    if |pins| > 1 {
      assert pins[1..][..|pins| - 2] == pins[..|pins| - 1][1..];
      CountFront(pins[..|pins| - 1], b);
    }
  }

  lemma {:induction false} ListFront(pins: seq<Pin>, t: nat)
    requires pins != []
    ensures ListOf(pins, t) == (if pins[0].tx == t then [pins[0].blk] else []) + ListOf(pins[1..], t)
  {
    if |pins| > 1 {
      assert pins[1..][..|pins| - 2] == pins[..|pins| - 1][1..];
      ListFront(pins[..|pins| - 1], t);
    }
  }

  lemma AddPin(pins: seq<Pin>, p: Pin, t: nat, b: BlockId)
    ensures Count(pins + [p], b) == Count(pins, b) + if p.blk == b then 1 else 0
    ensures ListOf(pins + [p], t) == ListOf(pins, t) + if p.tx == t then [p.blk] else []
  {
    assert (pins + [p])[..|pins|] == pins;
  }

  lemma {:induction false} EraseCount(pins: seq<Pin>, p: Pin, b: BlockId)
    requires p in pins
    ensures Count(Erase(pins, p), b) == Count(pins, b) - if p.blk == b then 1 else 0
  {
    CountFront(pins, b);
    if pins[0] != p {
      EraseCount(pins[1..], p, b);
      var e := [pins[0]] + Erase(pins[1..], p);
      CountFront(e, b);
      assert e[1..] == Erase(pins[1..], p);
    }
  }

  lemma EraseFront<T>(x: T, rest: seq<T>, y: T)
    ensures Erase([x] + rest, y) == if x == y then rest else [x] + Erase(rest, y)
  {
    assert ([x] + rest)[1..] == rest;
  }

  lemma {:induction false} EraseList(pins: seq<Pin>, p: Pin, t: nat)
    requires p in pins
    ensures ListOf(Erase(pins, p), t) == if p.tx == t then Erase(ListOf(pins, t), p.blk) else ListOf(pins, t)
  {
    hide ListOf;
    var rest := ListOf(pins[1..], t);
    ListFront(pins, t);
    assert [] + rest == rest;
    EraseFront(pins[0].blk, rest, p.blk);
    if pins[0] != p {
      EraseList(pins[1..], p, t);
      var e := [pins[0]] + Erase(pins[1..], p);
      ListFront(e, t);
      assert e[1..] == Erase(pins[1..], p);
      assert [] + ListOf(e[1..], t) == ListOf(e[1..], t);
    }
  }

  /** Erasing a pin of `p.tx` lowers one count by one and shortens only that transaction's list. */
  lemma ErasePin(pins: seq<Pin>, p: Pin, t: nat, b: BlockId)
    requires p in pins
    ensures Count(Erase(pins, p), b) == Count(pins, b) - if p.blk == b then 1 else 0
    ensures ListOf(Erase(pins, p), t) == if p.tx == t then Erase(ListOf(pins, t), p.blk) else ListOf(pins, t)
  {
    EraseCount(pins, p, b);
    EraseList(pins, p, t);
  }

  lemma {:induction false} InList(pins: seq<Pin>, t: nat, b: BlockId)
    ensures b in ListOf(pins, t) <==> Pin(t, b) in pins
    ensures Pin(t, b) in pins ==> Count(pins, b) > 0
  {
    if pins != [] {
      InList(pins[..|pins| - 1], t, b);
      assert pins == pins[..|pins| - 1] + [pins[|pins| - 1]];
    }
  }

  lemma {:induction false} EraseKeeps<T>(s: seq<T>, x: T, y: T)
    requires x != y
    ensures y in Erase(s, x) <==> y in s
  {
    if s != [] && s[0] != x {
      EraseKeeps(s[1..], x, y);
    }
  }
}
