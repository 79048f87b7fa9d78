/**
 * The proxy pool of AutoProxy: `ProxyItem` and `ProxyQueue`.
 *
 * `ProxyQueue` keeps its items ascending by priority (lower leaves first) and
 * never holds two equal items. Items are compared as the dataclass compares
 * them: both the priority and the proxy must match. The proxy type is a type
 * parameter, so nothing here depends on how two proxies are compared.
 */
module Pool {
  import opened Wrappers

  /** A pool entry; lower priorities leave the queue first. */
  datatype Item<P> = Item(priority: int, proxy: P)

  /** Ascending by priority. */
  predicate Sorted<P>(s: seq<Item<P>>) {
    forall i, j :: 0 <= i < j < |s| ==> s[i].priority <= s[j].priority
  }

  /** No item occurs twice. */
  predicate NoDup<P(==)>(s: seq<Item<P>>) {
    forall i, j :: 0 <= i < j < |s| ==> s[i] != s[j]
  }

  /** Index of the first occurrence of `x`. */
  function FirstIndex<P(==)>(s: seq<Item<P>>, x: Item<P>): (k: nat)
    requires x in s
    ensures k < |s| && s[k] == x
    ensures forall j :: 0 <= j < k ==> s[j] != x
  {
    if s[0] == x then 0 else 1 + FirstIndex(s[1..], x)
  }

  /** `deque.remove(x)`: drops the first occurrence of `x`. */
  function RemoveFirst<P(==)>(s: seq<Item<P>>, x: Item<P>): (r: seq<Item<P>>)
    requires x in s
    ensures |r| == |s| - 1
  {
    if s[0] == x then s[1..] else [s[0]] + RemoveFirst(s[1..], x)
  }

  /** `s` without the element at index `k`. */
  function RemoveAt<P>(s: seq<Item<P>>, k: nat): (r: seq<Item<P>>)
    requires k < |s|
    ensures |r| == |s| - 1
    ensures forall i :: 0 <= i < |r| ==> r[i] == s[if i < k then i else i + 1]
  {
    s[..k] + s[k + 1..]
  }

  /** `x` placed at index `k` of `s`, everything else shifted along. */
  function InsertAt<P>(s: seq<Item<P>>, k: nat, x: Item<P>): (r: seq<Item<P>>)
    requires k <= |s|
    ensures |r| == |s| + 1 && r[k] == x
    ensures forall i :: 0 <= i < k ==> r[i] == s[i]
    ensures forall i :: k < i < |r| ==> r[i] == s[i - 1]
  {
    s[..k] + [x] + s[k..]
  }

  /**
   * Where `_put` inserts an item of priority `p`: just before the first item
   * whose priority is at least `p`, or at the end when there is none.
   */
  function InsertPos<P>(s: seq<Item<P>>, p: int): (k: nat)
    ensures k <= |s|
    ensures forall j :: 0 <= j < k ==> s[j].priority < p
    ensures k < |s| ==> p <= s[k].priority
  {
    if s == [] || p <= s[0].priority then 0 else 1 + InsertPos(s[1..], p)
  }

  /** The queue after the removal step of `_put`: without `x` if it was there. */
  function WithoutItem<P(==)>(s: seq<Item<P>>, x: Item<P>): seq<Item<P>> {
    if x in s then RemoveFirst(s, x) else s
  }

  /** The index at which `_put` places `x`. */
  function PutIndex<P(==)>(s: seq<Item<P>>, x: Item<P>): nat {
    InsertPos(WithoutItem(s, x), x.priority)
  }

  /** The queue contents after `_put(x)`. */
  function PutResult<P(==)>(s: seq<Item<P>>, x: Item<P>): seq<Item<P>> {
    var t := WithoutItem(s, x);
    InsertAt(t, InsertPos(t, x.priority), x)
  }

  // ---------------------------------------------------------------------
  // Removal

  /** Removing the first occurrence is removing at the first index. */
  lemma {:induction false} RemoveFirstAt<P>(s: seq<Item<P>>, k: nat)
    requires k < |s|
    requires forall j :: 0 <= j < k ==> s[j] != s[k]
    ensures RemoveFirst(s, s[k]) == RemoveAt(s, k)
  {
    if k > 0 {
      assert s[1..][k - 1] == s[k];
      RemoveFirstAt(s[1..], k - 1);
      assert s[..k] == [s[0]] + s[1..][..k - 1];
      assert s[k + 1..] == s[1..][k..];
    }
  }

  /** In a duplicate-free queue, removing `s[k]` by value removes exactly index `k`. */
  lemma RemoveChosen<P>(s: seq<Item<P>>, k: nat)
    requires NoDup(s) && k < |s|
    ensures RemoveFirst(s, s[k]) == RemoveAt(s, k)
  {
    RemoveFirstAt(s, k);
  }

  /** Removing one element keeps the queue sorted and duplicate-free. */
  lemma RemoveAtKeeps<P>(s: seq<Item<P>>, k: nat)
    requires k < |s|
    ensures Sorted(s) ==> Sorted(RemoveAt(s, k))
    ensures NoDup(s) ==> NoDup(RemoveAt(s, k)) && s[k] !in RemoveAt(s, k)
    ensures multiset(RemoveAt(s, k)) == multiset(s) - multiset{s[k]}
  {
    var r := RemoveAt(s, k);
    if Sorted(s) {
      forall i, j | 0 <= i < j < |r| ensures r[i].priority <= r[j].priority {
        var i', j' := if i < k then i else i + 1, if j < k then j else j + 1;
        assert r[i] == s[i'] && r[j] == s[j'];
      }
    }
    if NoDup(s) {
      forall i, j | 0 <= i < j < |r| ensures r[i] != r[j] {
        var i', j' := if i < k then i else i + 1, if j < k then j else j + 1;
        assert r[i] == s[i'] && r[j] == s[j'];
      }
      forall i | 0 <= i < |r| ensures r[i] != s[k] {
        var i' := if i < k then i else i + 1;
        assert r[i] == s[i'] && i' != k;
      }
    }
    assert s == s[..k] + [s[k]] + s[k + 1..];
  }

  /** `deque.remove` on a value of the queue keeps both invariants and drops that value once. */
  lemma RemoveFirstKeeps<P>(s: seq<Item<P>>, x: Item<P>)
    requires x in s
    ensures Sorted(s) ==> Sorted(RemoveFirst(s, x))
    ensures NoDup(s) ==> NoDup(RemoveFirst(s, x)) && x !in RemoveFirst(s, x)
    ensures multiset(RemoveFirst(s, x)) == multiset(s) - multiset{x}
  {
    var k := FirstIndex(s, x);
    RemoveFirstAt(s, k);
    RemoveAtKeeps(s, k);
  }

  // ---------------------------------------------------------------------
  // Insertion

  /**
   * `InsertPos` is the only index with every earlier item strictly lower
   * than `p` and the item at it, if any, at least `p`: the first index the
   * scan of `_put` can stop at.
   */
  lemma {:induction false} InsertPosUnique<P>(s: seq<Item<P>>, p: int, k: nat)
    requires k <= |s|
    requires forall j :: 0 <= j < k ==> s[j].priority < p
    requires k < |s| ==> p <= s[k].priority
    ensures k == InsertPos(s, p)
  {
    if k > 0 {
      assert s[0].priority < p;
      InsertPosUnique(s[1..], p, k - 1);
    }
  }

  lemma InsertAtSorted<P>(t: seq<Item<P>>, x: Item<P>)
    requires Sorted(t)
    ensures Sorted(InsertAt(t, InsertPos(t, x.priority), x))
  {
    var k := InsertPos(t, x.priority);
    var r := InsertAt(t, k, x);
    forall i, j | 0 <= i < j < |r| ensures r[i].priority <= r[j].priority {
      if j < k {
      } else if j == k {
      } else if i < k {
        assert r[i] == t[i] && r[j] == t[j - 1];
      } else if i == k {
        assert t[k].priority <= t[j - 1].priority;
      } else {
        assert r[i] == t[i - 1] && r[j] == t[j - 1];
      }
    }
  }

  lemma InsertAtNoDup<P>(t: seq<Item<P>>, k: nat, x: Item<P>)
    requires k <= |t| && NoDup(t) && x !in t
    ensures NoDup(InsertAt(t, k, x))
  {
    var r := InsertAt(t, k, x);
    forall i, j | 0 <= i < j < |r| ensures r[i] != r[j] {
      var i' := if i < k then i else i - 1;
      var j' := if j < k then j else j - 1;
      if i != k && j != k {
        assert r[i] == t[i'] && r[j] == t[j'] && i' < j';
      } else if i == k {
        assert r[j] == t[j'];
      } else {
        assert r[i] == t[i'];
      }
    }
  }

  // ---------------------------------------------------------------------
  // Properties of `_put`

  /** `_put` keeps the queue sorted ascending by priority. */
  lemma PutSorted<P>(s: seq<Item<P>>, x: Item<P>)
    requires Sorted(s)
    ensures Sorted(PutResult(s, x))
  {
    if x in s {
      RemoveFirstKeeps(s, x);
    }
    InsertAtSorted(WithoutItem(s, x), x);
  }

  /** `_put` never creates a duplicate, and the new item is always present. */
  lemma PutNoDup<P>(s: seq<Item<P>>, x: Item<P>)
    requires NoDup(s)
    ensures NoDup(PutResult(s, x)) && x in PutResult(s, x)
  {
    var t := WithoutItem(s, x);
    if x in s {
      RemoveFirstKeeps(s, x);
    }
    InsertAtNoDup(t, InsertPos(t, x.priority), x);
  }

  /**
   * `_put` replaces an equal item when there was one (same length) and grows
   * the queue by one otherwise; no other item is lost or gained.
   */
  lemma PutContents<P>(s: seq<Item<P>>, x: Item<P>)
    ensures multiset(PutResult(s, x)) == if x in s then multiset(s) else multiset(s) + multiset{x}
    ensures |PutResult(s, x)| == if x in s then |s| else |s| + 1
  {
    var t := WithoutItem(s, x);
    var k := InsertPos(t, x.priority);
    assert PutResult(s, x) == t[..k] + [x] + t[k..];
    assert t == t[..k] + t[k..];
    if x in s {
      RemoveFirstKeeps(s, x);
      assert multiset(s)[x] >= 1;
      assert multiset(t) + multiset{x} == multiset(s);
    }
  }

  /** The other items keep their relative order: taking `x` back out gives the old queue without `x`. */
  lemma PutKeepsOrder<P>(s: seq<Item<P>>, x: Item<P>)
    requires NoDup(s)
    ensures x in PutResult(s, x)
    ensures RemoveFirst(PutResult(s, x), x) == WithoutItem(s, x)
  {
    var t := WithoutItem(s, x);
    var k := InsertPos(t, x.priority);
    var r := PutResult(s, x);
    if x in s {
      RemoveFirstKeeps(s, x);
    }
    assert x !in t;
    forall j | 0 <= j < k ensures r[j] != r[k] {
      assert r[j] == t[j];
    }
    RemoveFirstAt(r, k);
    InsertThenRemove(t, k, x);
  }

  lemma InsertThenRemove<P>(t: seq<Item<P>>, k: nat, x: Item<P>)
    requires k <= |t|
    ensures RemoveAt(InsertAt(t, k, x), k) == t
  {
    assert RemoveAt(InsertAt(t, k, x), k) == t[..k] + t[k..];
  }

  /**
   * `_put` places `x` immediately before the first remaining item whose
   * priority is at least its own, or at the end.
   */
  lemma PutPlaces<P>(s: seq<Item<P>>, x: Item<P>)
    ensures PutIndex(s, x) < |PutResult(s, x)|
    ensures PutResult(s, x)[PutIndex(s, x)] == x
    ensures forall j :: 0 <= j < PutIndex(s, x) ==> PutResult(s, x)[j].priority < x.priority
    ensures PutIndex(s, x) + 1 < |PutResult(s, x)| ==> x.priority <= PutResult(s, x)[PutIndex(s, x) + 1].priority
    ensures PutIndex(s, x) + 1 == |PutResult(s, x)| <==>
              forall y :: y in WithoutItem(s, x) ==> y.priority < x.priority
  {
    var t := WithoutItem(s, x);
    var k := InsertPos(t, x.priority);
    var r := PutResult(s, x);
    if k < |t| {
      assert t[k] in t && t[k].priority >= x.priority;
    } else {
      forall y | y in t ensures y.priority < x.priority {
        var j :| 0 <= j < |t| && t[j] == y;
      }
    }
  }

  /** Ties: the newly put item precedes every other item of the same priority. */
  lemma PutNewestFirst<P>(s: seq<Item<P>>, x: Item<P>, j: nat)
    requires j < |PutResult(s, x)|
    requires PutResult(s, x)[j] != x && PutResult(s, x)[j].priority == x.priority
    ensures PutIndex(s, x) < j
  {
    PutPlaces(s, x);
  }

  /** Tie-break scenario: putting A(10), B(20), C(10) in that order leaves C, A, B. */
  lemma TieBreakScenario<P>(a: P, b: P, c: P)
    requires a != c
    ensures PutResult(PutResult(PutResult([], Item(10, a)), Item(20, b)), Item(10, c))
            == [Item(10, c), Item(10, a), Item(20, b)]
  {
    var s1 := PutResult([], Item(10, a));
    assert WithoutItem([], Item(10, a)) == [];
    assert s1 == [Item(10, a)];
    var s2 := PutResult(s1, Item(20, b));
    assert WithoutItem(s1, Item(20, b)) == s1;
    assert InsertPos(s1, 20) == 1;
    assert s2 == [Item(10, a), Item(20, b)];
    assert WithoutItem(s2, Item(10, c)) == s2;
    assert InsertPos(s2, 10) == 0;
    assert PutResult(s2, Item(10, c)) == [Item(10, c)] + s2;
  }

  /**
   * Equality covers the priority: the same proxy put at two different
   * priorities is held twice.
   */
  lemma SameProxyTwice<P>(p: P)
    ensures PutResult([Item(0, p)], Item(50, p)) == [Item(0, p), Item(50, p)]
  {
    assert Item(50, p) !in [Item(0, p)];
    assert InsertPos([Item(0, p)], 50) == 1;
  }

  /** The non-blocking outcomes of `get_random`. */
  datatype Timeout = Forever | Seconds(t: real)
  datatype Taken<P> = Got(item: Item<P>) | EmptyError | ValueError | Waits

  /**
   * The `for`/`else` scan of `_put`: the insertion index of priority `p`.
   * On an empty queue the `else` branch leaves 1, one past the end.
   */
  method ScanIndex<P>(q: seq<Item<P>>, p: int) returns (i: nat)
    ensures i == if q == [] then 1 else InsertPos(q, p)
  {
    i := 0;
    var found := false;
    var j := 0;
    while j < |q|
      invariant 0 <= j <= |q| && !found
      invariant forall k :: 0 <= k < j ==> q[k].priority < p
      invariant i == if j == 0 then 0 else j - 1
    {
      i := j;
      if p <= q[j].priority {
        found := true;
        break;
      }
      j := j + 1;
    }
    if !found {
      i := i + 1;
    }
    InsertPosUnique(q, p, if i <= |q| then i else |q|);
  }

  /** The queue object: Python's `Queue` whose `_put` is overridden. */
  class ProxyQueue<P(==)> {
    var items: seq<Item<P>>

    ghost predicate Valid()
      reads this
    {
      Sorted(items) && NoDup(items)
    }

    constructor ()
      ensures Valid() && items == []
    {
      items := [];
    }

    /** `put` / `_put`: drop an equal item, then insert before the first item of priority at least `x`'s. */
    method Put(x: Item<P>)
      requires Valid()
      modifies this
      ensures Valid()
      ensures items == PutResult(old(items), x)
    {
      PutSorted(items, x);
      PutNoDup(items, x);
      var q := items;
      if x in q {
        q := RemoveFirst(q, x);
      }
      var i := ScanIndex(q, x.priority);
      // deque.insert appends when the index is past the end
      var at := if i <= |q| then i else |q|;
      items := q[..at] + [x] + q[at..];
    }

    /** `get_random`: take out some element, or report why not. */
    method GetRandom(block: bool, timeout: Timeout) returns (r: Taken<P>)
      requires Valid()
      modifies this
      ensures Valid()
      ensures r.ValueError? <==> block && timeout.Seconds? && timeout.t < 0.0
      ensures r.Waits? <==> block && timeout.Forever? && old(items) == []
      ensures r.Got? <==> old(items) != [] && !(block && timeout.Seconds? && timeout.t < 0.0)
      ensures r.Got? ==> r.item in old(items) && items == RemoveFirst(old(items), r.item)
      ensures !r.Got? ==> items == old(items)
    {
      if !block {
        if |items| == 0 {
          return EmptyError;
        }
      } else if timeout.Forever? {
        if |items| == 0 {
          // not_empty.wait() with no other producer: the call never returns
          return Waits;
        }
      } else if timeout.t < 0.0 {
        return ValueError;
      } else if |items| == 0 {
        // the deadline passes with nothing put
        return EmptyError;
      }
      var k :| 0 <= k < |items|;
      var x := items[k];
      RemoveFirstKeeps(items, x);
      items := RemoveFirst(items, x);
      return Got(x);
    }

    /** `get_nowait`, inherited from `Queue`: pop the head, or report `Empty`. */
    method GetNowait() returns (r: Option<Item<P>>)
      requires Valid()
      modifies this
      ensures Valid()
      ensures old(items) == [] ==> r == None && items == old(items)
      ensures old(items) != [] ==> r == Some(old(items)[0]) && items == old(items)[1..]
      ensures r.Some? ==> forall y :: y in old(items) ==> r.value.priority <= y.priority
    {
      if |items| == 0 {
        return None;
      }
      r := Some(items[0]);
      RemoveAtKeeps(items, 0);
      assert RemoveAt(items, 0) == items[1..];
      items := items[1..];
    }
  }
}
