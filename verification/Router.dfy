/**
  Where a search key goes in an index node: byte-lexicographic order, the router that
  `find_child_ptr` implements, and how routing behaves across keys and across inserts.
 */
module Router {
  import opened Wrappers
  import opened Bytes
  import opened SlottedPage
  import opened IndexPage

  // ---------- Key order ----------

  /** `<` on byte slices. */
  predicate Less(a: seq<Byte>, b: seq<Byte>) {
    b != [] && (a == [] || a[0] < b[0] || (a[0] == b[0] && Less(a[1..], b[1..])))
  }

  /** Up to `k` the two agree, and there `a` ends or has the smaller byte. */
  predicate FirstDifference(a: seq<Byte>, b: seq<Byte>, k: nat) {
    k <= |a| && k < |b| && a[..k] == b[..k] && (k == |a| || a[k] < b[k])
  }

  /** Bytes are compared as numbers at the first place where the slices differ; a prefix comes first. */
  lemma LessIsFirstDifference(a: seq<Byte>, b: seq<Byte>)
    ensures Less(a, b) <==> exists k :: FirstDifference(a, b, k)
  {
    if Less(a, b) {
      var k := DifferenceOf(a, b);
    }
    forall k | FirstDifference(a, b, k)
      ensures Less(a, b)
    {
      DifferenceOrders(a, b, k);
    }
  }

  lemma {:induction false} DifferenceOf(a: seq<Byte>, b: seq<Byte>) returns (k: nat)
    requires Less(a, b)
    ensures FirstDifference(a, b, k)
  {
    k := 0;
    if a != [] && a[0] == b[0] {
      var d := DifferenceOf(a[1..], b[1..]);
      k := d + 1;
      assert a[..k] == [a[0]] + a[1..][..d] && b[..k] == [b[0]] + b[1..][..d];
    }
  }

  lemma {:induction false} DifferenceOrders(a: seq<Byte>, b: seq<Byte>, k: nat)
    requires FirstDifference(a, b, k)
    ensures Less(a, b)
    decreases k
  {
    if k > 0 {
      assert a[0] == a[..k][0] == b[..k][0] == b[0];
      assert a[1..][..k - 1] == a[..k][1..] == b[..k][1..] == b[1..][..k - 1];
      DifferenceOrders(a[1..], b[1..], k - 1);
    }
  }

  lemma {:induction false} LessIrreflexive(a: seq<Byte>)
    ensures !Less(a, a)
  {
    if a != [] {
      LessIrreflexive(a[1..]);
    }
  }

  lemma {:induction false} LessTransitive(a: seq<Byte>, b: seq<Byte>, c: seq<Byte>)
    requires Less(a, b) && Less(b, c)
    ensures Less(a, c)
  {
    if a != [] && a[0] == b[0] == c[0] {
      LessTransitive(a[1..], b[1..], c[1..]);
    }
  }

  lemma {:induction false} LessTotal(a: seq<Byte>, b: seq<Byte>)
    ensures Less(a, b) || a == b || Less(b, a)
  {
    if a != [] && b != [] && a[0] == b[0] {
      LessTotal(a[1..], b[1..]);
      assert a == [a[0]] + a[1..] && b == [b[0]] + b[1..];
    }
  }

  /** The step every routing proof needs: `a <= b` and `b < c` give `a < c`. */
  lemma LessAfterLeq(a: seq<Byte>, b: seq<Byte>, c: seq<Byte>)
    requires !Less(b, a) && Less(b, c)
    ensures Less(a, c)
  {
  }

  // ---------- The router ----------

  /** The first slot from `from` on whose key is above `key`, or the slot count. */
  function FirstAbove(seps: seq<Separator>, from: nat, key: seq<Byte>): (r: nat)
    requires from <= |seps|
    ensures from <= r <= |seps|
    ensures forall j :: from <= j < r ==> !Less(key, seps[j].key)
    ensures r < |seps| ==> Less(key, seps[r].key)
    decreases |seps| - from
  {
    if from == |seps| || Less(key, seps[from].key) then from
    else FirstAbove(seps, from + 1, key)
  }

  lemma FirstAboveUnique(seps: seq<Separator>, from: nat, key: seq<Byte>, r: nat)
    requires from <= r <= |seps|
    requires forall j :: from <= j < r ==> !Less(key, seps[j].key)
    requires r < |seps| ==> Less(key, seps[r].key)
    ensures r == FirstAbove(seps, from, key)
  {
  }

  datatype Route = ToSibling | ToSlot(slot: nat) | Nowhere

  /** With a right sibling, slot 0 holds the high key and is not a separator. */
  function Skip(n: Node): nat { if n.sibling != 0 then 1 else 0 }

  predicate Routable(n: Node) { Skip(n) <= |n.seps| }

  predicate AboveHighKey(n: Node, key: seq<Byte>)
    requires Routable(n)
  {
    n.sibling != 0 && Less(n.seps[0].key, key)
  }

  function RouteOf(n: Node, key: seq<Byte>): Route
    requires Routable(n)
  {
    if AboveHighKey(n, key) then ToSibling
    else
      var i := FirstAbove(n.seps, Skip(n), key);
      if i < |n.seps| then ToSlot(i) else Nowhere
  }

  function Target(n: Node, key: seq<Byte>): Option<U64>
    requires Routable(n)
  {
    match RouteOf(n, key)
    case ToSibling => Some(n.sibling)
    case ToSlot(i) => Some(n.seps[i].child)
    case Nowhere => None
  }

  /** `r` is the child of the first slot from `from` on whose key is above `key`, or none is above. */
  ghost predicate FirstChildAbove(seps: seq<Separator>, from: nat, key: seq<Byte>, r: Option<U64>) {
    match r
    case Some(child) =>
      exists i :: from <= i < |seps| && Less(key, seps[i].key) && seps[i].child == child &&
        forall j :: from <= j < i ==> !Less(key, seps[j].key)
    case None => forall j :: from <= j < |seps| ==> !Less(key, seps[j].key)
  }

  /** The sibling strictly above the high key; otherwise, the high key itself included, a child. */
  ghost predicate SearchResult(n: Node, key: seq<Byte>, r: Option<U64>) {
    && (n.sibling != 0 && n.seps != [] && Less(n.seps[0].key, key) ==> r == Some(n.sibling))
    && (n.sibling != 0 && n.seps != [] && !Less(n.seps[0].key, key) ==> FirstChildAbove(n.seps, 1, key, r))
    && (n.sibling == 0 ==> FirstChildAbove(n.seps, 0, key, r))
  }

  lemma TargetIsSearchResult(n: Node, key: seq<Byte>)
    requires Routable(n)
    ensures SearchResult(n, key, Target(n, key))
  {
    hide Less;
    var i := FirstAbove(n.seps, Skip(n), key);
    assert i < |n.seps| ==> FirstChildAbove(n.seps, Skip(n), key, Some(n.seps[i].child));
  }

  /** These cases leave one answer only. */
  lemma SearchResultIsTarget(n: Node, key: seq<Byte>, r: Option<U64>)
    requires Routable(n) && SearchResult(n, key, r)
    ensures r == Target(n, key)
  {
    hide Less;
    if !AboveHighKey(n, key) {
      var from := Skip(n);
      assert FirstChildAbove(n.seps, from, key, r);
      if r.Some? {
        var i :| from <= i < |n.seps| && Less(key, n.seps[i].key) && n.seps[i].child == r.value &&
          forall j :: from <= j < i ==> !Less(key, n.seps[j].key);
        FirstAboveUnique(n.seps, from, key, i);
      } else {
        FirstAboveUnique(n.seps, from, key, |n.seps|);
      }
    }
  }

  // ---------- Monotonicity ----------

  function Rank(n: Node, r: Route): nat {
    match r
    case ToSlot(i) => i
    case Nowhere => |n.seps|
    case ToSibling => |n.seps| + 1
  }

  /** On any node, sorted or not, a larger key is never routed to an earlier place. */
  lemma RoutingIsMonotone(n: Node, k1: seq<Byte>, k2: seq<Byte>)
    requires Routable(n) && !Less(k2, k1)
    ensures Rank(n, RouteOf(n, k1)) <= Rank(n, RouteOf(n, k2))
  {
    if !AboveHighKey(n, k2) {
      if AboveHighKey(n, k1) {
        LessTotal(k1, k2);
        if Less(k1, k2) {
          LessTransitive(n.seps[0].key, k1, k2);
        }
        assert false;
      }
      var i := FirstAbove(n.seps, Skip(n), k2);
      if i < |n.seps| {
        LessAfterLeq(k1, k2, n.seps[i].key);
        assert FirstAbove(n.seps, Skip(n), k1) <= i;
      }
    }
  }

  // ---------- Sorted nodes ----------

  predicate SortedFrom(seps: seq<Separator>, from: nat) {
    forall i, j :: from <= i < j < |seps| ==> Less(seps[i].key, seps[j].key)
  }

  /** Binary search for the first key above `key` between `lo` and `hi`. */
  function BinarySearch(seps: seq<Separator>, lo: nat, hi: nat, key: seq<Byte>): nat
    requires lo <= hi <= |seps|
    decreases hi - lo
  {
    if lo == hi then lo
    else
      var mid := (lo + hi) / 2;
      if Less(key, seps[mid].key) then BinarySearch(seps, lo, mid, key)
      else BinarySearch(seps, mid + 1, hi, key)
  }

  /** On sorted separators the linear scan finds what binary search finds. */
  lemma {:induction false} BinarySearchAgrees(seps: seq<Separator>, from: nat, lo: nat, hi: nat, key: seq<Byte>)
    requires SortedFrom(seps, from) && from <= lo <= hi <= |seps|
    requires forall j :: from <= j < lo ==> !Less(key, seps[j].key)
    requires hi < |seps| ==> Less(key, seps[hi].key)
    ensures BinarySearch(seps, lo, hi, key) == FirstAbove(seps, from, key)
    decreases hi - lo
  {
    if lo == hi {
      FirstAboveUnique(seps, from, key, lo);
    } else {
      var mid := (lo + hi) / 2;
      if Less(key, seps[mid].key) {
        BinarySearchAgrees(seps, from, lo, mid, key);
      } else {
        forall j | from <= j < mid + 1
          ensures !Less(key, seps[j].key)
        {
          if j < mid && Less(key, seps[j].key) {
            LessTransitive(key, seps[j].key, seps[mid].key);
          }
        }
        BinarySearchAgrees(seps, from, mid + 1, hi, key);
      }
    }
  }

  lemma SortedRoutingIsBinarySearch(n: Node, key: seq<Byte>)
    requires Routable(n) && SortedFrom(n.seps, Skip(n)) && !AboveHighKey(n, key)
    ensures var i := BinarySearch(n.seps, Skip(n), |n.seps|, key);
      RouteOf(n, key) == if i < |n.seps| then ToSlot(i) else Nowhere
  {
    BinarySearchAgrees(n.seps, Skip(n), Skip(n), |n.seps|, key);
  }

  // ---------- Inserting a separator ----------

  /** The keys, below the high key or without one, that a separator put at slot `i` takes over. */
  predicate InRange(seps: seq<Separator>, from: nat, i: nat, s: Separator, key: seq<Byte>)
    requires from <= i <= |seps|
  {
    (i > from ==> !Less(key, seps[i - 1].key)) && Less(key, s.key)
  }

  lemma FirstAboveAfterInsert(seps: seq<Separator>, from: nat, i: nat, s: Separator, key: seq<Byte>)
    requires from <= i <= |seps| && SortedFrom(Insert(seps, i, s), from)
    ensures var f := FirstAbove(seps, from, key);
      FirstAbove(Insert(seps, i, s), from, key) ==
        if InRange(seps, from, i, s, key) then i else Bump(i, f)
    ensures InRange(seps, from, i, s, key) ==> i <= FirstAbove(seps, from, key)
  {
    var after, f := Insert(seps, i, s), FirstAbove(seps, from, key);
    if InRange(seps, from, i, s, key) {
      forall j | from <= j < i
        ensures !Less(key, seps[j].key)
      {
        assert after[j] == seps[j] && after[i - 1] == seps[i - 1];
        if j < i - 1 && Less(key, seps[j].key) {
          LessTransitive(key, seps[j].key, seps[i - 1].key);
        }
      }
      FirstAboveUnique(after, from, key, i);
    } else if f < i {
      FirstAboveUnique(after, from, key, f);
    } else {
      forall j | from <= j < f + 1
        ensures !Less(key, after[j].key)
      {
        assert j == i || after[j] == seps[if j < i then j else j - 1];
      }
      FirstAboveUnique(after, from, key, f + 1);
    }
  }

  predicate TakenOver(n: Node, i: nat, s: Separator, key: seq<Byte>)
    requires Routable(n) && Skip(n) <= i <= |n.seps|
  {
    !AboveHighKey(n, key) && InRange(n.seps, Skip(n), i, s, key)
  }

  /**
    A separator inserted where it keeps the node sorted reroutes exactly the keys from the
    previous separator (inclusive) up to its own key (exclusive) that are not above the high
    key, and it takes them all; every other key keeps its target.
   */
  lemma InsertReroutesOneRange(n: Node, i: nat, s: Separator, key: seq<Byte>)
    requires Routable(n) && Skip(n) <= i <= |n.seps|
    requires NodeStep(n, InsertCell(i, s)).status == Ok
    requires SortedFrom(Insert(n.seps, i, s), Skip(n))
    ensures var m := NodeStep(n, InsertCell(i, s)).node;
      && Routable(m)
      && (TakenOver(n, i, s, key) <==> RouteOf(m, key) == ToSlot(i))
      && (TakenOver(n, i, s, key) ==> Target(m, key) == Some(s.child))
      && (!TakenOver(n, i, s, key) ==> Target(m, key) == Target(n, key))
  {
    var m := NodeStep(n, InsertCell(i, s)).node;
    assert m.seps == Insert(n.seps, i, s) && m.sibling == n.sibling;
    FirstAboveAfterInsert(n.seps, Skip(n), i, s, key);
    RerouteFromSlots(n, m, i, s, key);
  }

  lemma RerouteFromSlots(n: Node, m: Node, i: nat, s: Separator, key: seq<Byte>)
    requires Routable(n) && Skip(n) <= i <= |n.seps| && m.sibling == n.sibling && m.seps == Insert(n.seps, i, s)
    requires FirstAbove(m.seps, Skip(n), key) ==
      if InRange(n.seps, Skip(n), i, s, key) then i else Bump(i, FirstAbove(n.seps, Skip(n), key))
    ensures Routable(m)
    ensures TakenOver(n, i, s, key) <==> RouteOf(m, key) == ToSlot(i)
    ensures Target(m, key) == if TakenOver(n, i, s, key) then Some(s.child) else Target(n, key)
  {
  }
}
