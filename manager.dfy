/**
 * `ProxyManager` of AutoProxy: filling the pool from the paginated listing
 * service, one cycle of the verification loop, and writing the chosen proxy
 * into the system proxy settings.
 *
 * The listing service is a finite map from page number to response (a page
 * it does not serve answers with a fault), the probe outcome is a parameter, and the registry is a map from key to value with a
 * counter of settings refreshes.
 */
module Manager {
  import opened Wrappers
  import opened Pool

  /** An `httpx.Proxy` built from the text `protocol://ip:port` of a listing record. */
  datatype Proxy = Proxy(scheme: string, host: string, port: string)

  /**
   * An `httpx.Proxy` object. It defines no equality of its own, so objects
   * compare by identity: `id` tells apart two objects made from one text.
   */
  datatype Handle = Handle(id: nat, proxy: Proxy)

  /** `str(proxy.url)`. */
  function Url(p: Proxy): string {
    p.scheme + "://" + p.host + ":" + p.port
  }

  /** The `ProxyServer` registry value, `host:port`. */
  function ServerAddress(p: Proxy): string {
    p.host + ":" + p.port
  }

  /** Every priority lies in [0, 100). */
  predicate InRange<P(==)>(s: seq<Item<P>>) {
    forall y :: y in s ==> 0 <= y.priority < 100
  }

  /** `put` of an in-range item keeps the whole queue in range. */
  lemma PutInRange<P>(s: seq<Item<P>>, x: Item<P>)
    requires InRange(s) && 0 <= x.priority < 100
    ensures InRange(PutResult(s, x))
  {
    PutContents(s, x);
    forall y | y in PutResult(s, x) ensures 0 <= y.priority < 100 {
      assert y in multiset(PutResult(s, x));
      assert y == x || y in multiset(s);
    }
  }

  /** Removing one element keeps the queue in range. */
  lemma RemoveFirstInRange<P>(s: seq<Item<P>>, x: Item<P>)
    requires x in s && InRange(s)
    ensures InRange(RemoveFirst(s, x))
  {
    RemoveFirstKeeps(s, x);
    forall y | y in RemoveFirst(s, x) ensures 0 <= y.priority < 100 {
      assert y in multiset(RemoveFirst(s, x));
      assert y in multiset(s);
    }
  }

  /** Every proxy object in the pool was created before the `next`-th one. */
  predicate Minted(s: seq<Item<Handle>>, next: nat) {
    forall y :: y in s ==> y.proxy.id < next
  }

  lemma PutMinted(s: seq<Item<Handle>>, x: Item<Handle>, next: nat)
    requires Minted(s, next) && x.proxy.id < next
    ensures Minted(PutResult(s, x), next)
  {
    PutContents(s, x);
    forall y | y in PutResult(s, x) ensures y.proxy.id < next {
      assert y in multiset(PutResult(s, x));
      assert y == x || y in multiset(s);
    }
  }

  lemma RemoveFirstMinted(s: seq<Item<Handle>>, x: Item<Handle>, next: nat)
    requires x in s && Minted(s, next)
    ensures Minted(RemoveFirst(s, x), next)
  {
    RemoveFirstKeeps(s, x);
    forall y | y in RemoveFirst(s, x) ensures y.proxy.id < next {
      assert y in multiset(RemoveFirst(s, x));
      assert y in multiset(s);
    }
  }

  /** No proxy object sits in two pool entries. */
  predicate Distinct(s: seq<Item<Handle>>) {
    forall i, j :: 0 <= i < j < |s| ==> s[i].proxy != s[j].proxy
  }

  /** No entry of `s` holds the object `h`. */
  predicate Absent(s: seq<Item<Handle>>, h: Handle) {
    forall y :: y in s ==> y.proxy != h
  }

  /** Putting an object the pool does not hold keeps every object in one entry. */
  lemma PutDistinct(s: seq<Item<Handle>>, x: Item<Handle>)
    requires Distinct(s) && Absent(s, x.proxy)
    ensures Distinct(PutResult(s, x))
  {
    assert x !in s;
    var k := InsertPos(s, x.priority);
    var r := InsertAt(s, k, x);
    assert PutResult(s, x) == r;
    forall i, j | 0 <= i < j < |r| ensures r[i].proxy != r[j].proxy {
      if i == k {
        assert r[j] == s[j - 1] && s[j - 1] in s;
      } else if j == k {
        assert r[i] == s[i] && s[i] in s;
      } else {
        var i', j' := if i < k then i else i - 1, if j < k then j else j - 1;
        assert r[i] == s[i'] && r[j] == s[j'];
      }
    }
  }

  /** Dropping index `k` leaves each object in one entry, and none holding the one at `k`. */
  lemma RemoveAtDistinct(s: seq<Item<Handle>>, k: nat)
    requires k < |s| && Distinct(s)
    ensures Distinct(RemoveAt(s, k)) && Absent(RemoveAt(s, k), s[k].proxy)
  {
    var r := RemoveAt(s, k);
    forall i, j | 0 <= i < j < |r| ensures r[i].proxy != r[j].proxy {
      var i', j' := if i < k then i else i + 1, if j < k then j else j + 1;
      assert r[i] == s[i'] && r[j] == s[j'];
    }
    forall y | y in r ensures y.proxy != s[k].proxy {
      var i :| 0 <= i < |r| && r[i] == y;
      var i' := if i < k then i else i + 1;
      assert r[i] == s[i'] && i' != k;
    }
  }

  /** Taking an entry out leaves each object in one entry, and none holding the one taken. */
  lemma RemoveFirstDistinct(s: seq<Item<Handle>>, x: Item<Handle>)
    requires x in s && Distinct(s)
    ensures Distinct(RemoveFirst(s, x)) && Absent(RemoveFirst(s, x), x.proxy)
  {
    var k := FirstIndex(s, x);
    RemoveFirstAt(s, k);
    RemoveAtDistinct(s, k);
  }

  /** The objects `httpx.Proxy(...)` creates for `ps`, in order, the first being the `next`-th. */
  function Mint(ps: seq<Proxy>, next: nat): (hs: seq<Handle>)
    ensures |hs| == |ps|
  {
    if ps == [] then [] else [Handle(next, ps[0])] + Mint(ps[1..], next + 1)
  }

  /** The `k`-th object created for `ps` is the `next + k`-th and wraps `ps[k]`. */
  lemma {:induction false} MintAt(ps: seq<Proxy>, next: nat, k: nat)
    requires k < |ps|
    ensures Mint(ps, next)[k] == Handle(next + k, ps[k])
    decreases k
  {
    if k > 0 {
      MintAt(ps[1..], next + 1, k - 1);
    }
  }

  /** Creating objects for `a` and then for `b` is creating them for `a + b`. */
  lemma MintAppend(a: seq<Proxy>, b: seq<Proxy>, next: nat)
    ensures Mint(a + b, next) == Mint(a, next) + Mint(b, next + |a|)
  {
    var l, r := Mint(a + b, next), Mint(a, next) + Mint(b, next + |a|);
    assert |l| == |r|;
    forall k | 0 <= k < |l| ensures l[k] == r[k] {
      MintAt(a + b, next, k);
      if k >= |a| {
        MintAt(b, next + |a|, k - |a|);
        assert r[k] == Mint(b, next + |a|)[k - |a|];
      } else {
        MintAt(a, next, k);
      }
    }
  }

  // ---------------------------------------------------------------------
  // Successive puts

  /** The queue after putting each proxy of `ps`, in order, at one priority. */
  function PutEach<P(==)>(s: seq<Item<P>>, ps: seq<P>, priority: int): seq<Item<P>>
    decreases |ps|
  {
    if ps == [] then s
    else PutResult(PutEach(s, ps[..|ps| - 1], priority), Item(priority, ps[|ps| - 1]))
  }

  /** Putting a run of proxies keeps the queue sorted, duplicate-free and in range. */
  lemma {:induction false} PutEachValid<P>(s: seq<Item<P>>, ps: seq<P>, priority: int)
    requires Sorted(s) && NoDup(s)
    ensures Sorted(PutEach(s, ps, priority)) && NoDup(PutEach(s, ps, priority))
    ensures InRange(s) && 0 <= priority < 100 ==> InRange(PutEach(s, ps, priority))
    decreases |ps|
  {
    if ps != [] {
      var x := Item(priority, ps[|ps| - 1]);
      var t := PutEach(s, ps[..|ps| - 1], priority);
      PutEachValid(s, ps[..|ps| - 1], priority);
      PutSorted(t, x);
      PutNoDup(t, x);
      if InRange(s) && 0 <= priority < 100 {
        PutInRange(t, x);
      }
    }
  }

  /**
   * Nothing is rolled back: every old item and every proxy put is in the
   * queue afterwards, and the queue grows by at most one per put.
   */
  lemma {:induction false} PutEachContains<P>(s: seq<Item<P>>, ps: seq<P>, priority: int)
    ensures forall y :: y in s ==> y in PutEach(s, ps, priority)
    ensures forall p :: p in ps ==> Item(priority, p) in PutEach(s, ps, priority)
    ensures |PutEach(s, ps, priority)| <= |s| + |ps|
    decreases |ps|
  {
    if ps != [] {
      var init, last := ps[..|ps| - 1], ps[|ps| - 1];
      SplitLast([], ps);
      PutEachContains(s, init, priority);
      PutGrows(PutEach(s, init, priority), Item(priority, last));
      forall p | p in ps ensures Item(priority, p) in PutEach(s, ps, priority) {
        if p != last {
          assert p in init;
        }
      }
    }
  }

  /** One `put` keeps every item and adds at most the new one. */
  lemma PutGrows<P>(t: seq<Item<P>>, x: Item<P>)
    ensures x in PutResult(t, x)
    ensures forall y :: y in t ==> y in PutResult(t, x)
    ensures |PutResult(t, x)| <= |t| + 1
  {
    PutContents(t, x);
    assert x in multiset(PutResult(t, x));
    forall y | y in t ensures y in PutResult(t, x) {
      assert y in multiset(t);
    }
  }

  /** Putting one more proxy after a run. */
  lemma PutEachSnoc<P>(s: seq<Item<P>>, ps: seq<P>, p: P, priority: int)
    ensures PutEach(s, ps + [p], priority) == PutResult(PutEach(s, ps, priority), Item(priority, p))
  {
    assert (ps + [p])[..|ps|] == ps;
  }

  lemma SplitLast<T>(a: seq<T>, b: seq<T>)
    requires b != []
    ensures b == b[..|b| - 1] + [b[|b| - 1]]
    ensures a + b == (a + b[..|b| - 1]) + [b[|b| - 1]]
  {
    assert b == b[..|b| - 1] + [b[|b| - 1]];
  }

  /**
   * Freshly created proxy objects are never equal to anything pooled, so a
   * run of puts of new objects grows the queue by exactly one per put, even
   * when two of them name the same `protocol://ip:port`.
   */
  lemma {:induction false} PutEachFresh(s: seq<Item<Handle>>, ps: seq<Proxy>, next: nat, priority: int)
    requires Minted(s, next)
    ensures |PutEach(s, Mint(ps, next), priority)| == |s| + |ps|
    ensures Minted(PutEach(s, Mint(ps, next), priority), next + |ps|)
    decreases |ps|
  {
    if ps != [] {
      var init, last := ps[..|ps| - 1], ps[|ps| - 1];
      SplitLast([], ps);
      MintAppend(init, [last], next);
      assert Mint([last], next + |init|) == [Handle(next + |init|, last)];
      var hs := Mint(ps, next);
      assert hs[..|hs| - 1] == Mint(init, next);
      PutEachFresh(s, init, next, priority);
      var t := PutEach(s, Mint(init, next), priority);
      var x := Item(priority, Handle(next + |init|, last));
      assert x !in t;
      PutContents(t, x);
      PutMinted(t, x, next + |ps|);
    }
  }

  /** A page listing the same proxy twice adds two pool entries. */
  lemma SameRecordTwice(s: seq<Item<Handle>>, a: Record, next: nat)
    requires Minted(s, next) && a.Entry?
    ensures |PutEach(s, Mint(GoodPrefix([a, a]), next), 50)| == |s| + 2
  {
    assert GoodPrefix([a, a]) == [ToProxy(a)] + GoodPrefix([a]);
    PutEachFresh(s, GoodPrefix([a, a]), next, 50);
  }

  /** Putting `a` and then `b` is putting `a + b`. */
  lemma {:induction false} PutEachAppend<P>(s: seq<Item<P>>, a: seq<P>, b: seq<P>, priority: int)
    ensures PutEach(PutEach(s, a, priority), b, priority) == PutEach(s, a + b, priority)
    decreases |b|
  {
    if b == [] {
      assert a + b == a;
    } else {
      var init, x := b[..|b| - 1], b[|b| - 1];
      SplitLast(a, b);
      PutEachAppend(s, a, init, priority);
      PutEachSnoc(s, a + init, x, priority);
      PutEachSnoc(PutEach(s, a, priority), init, x, priority);
    }
  }

  // ---------------------------------------------------------------------
  // The fetch loop

  /** One record of a listing page: well-formed, or one whose conversion raises. */
  datatype Record = Entry(protocol: string, ip: string, port: string) | Malformed

  /** A listing response: a fault (network, JSON, missing `data`), or a page. */
  datatype Response = Fault | Page(records: seq<Record>, lastPage: Option<int>)

  /** The listing service: the response to each page it serves; any other page answers with a fault. */
  type Listing = map<nat, Response>

  /** The request for `page` (`client.get(...).json()`). */
  function Respond(listing: Listing, page: nat): Response {
    if page in listing then listing[page] else Fault
  }

  /** `max_page`: `math.inf` before the first response, then `last_page`. */
  datatype Bound = Unbounded | AtMost(n: int)

  /** The loop condition `page < max_page`. */
  predicate Below(page: int, b: Bound) {
    b.Unbounded? || page < b.n
  }

  datatype Status = Done | Failed

  /** What a fetch does: the pages it requests, the proxies it puts (in order), how it ends. */
  datatype FetchRun = FetchRun(requested: seq<nat>, puts: seq<Proxy>, status: Status)

  function ToProxy(r: Record): Proxy
    requires r.Entry?
  {
    Proxy(r.protocol, r.ip, r.port)
  }

  /** The proxies put from one page before the first record that raises. */
  function GoodPrefix(recs: seq<Record>): (ps: seq<Proxy>)
    ensures |ps| <= |recs|
    ensures forall k :: 0 <= k < |ps| ==> recs[k].Entry? && ps[k] == ToProxy(recs[k])
    ensures |ps| < |recs| ==> recs[|ps|].Malformed?
  {
    if recs == [] || recs[0].Malformed? then []
    else [ToProxy(recs[0])] + GoodPrefix(recs[1..])
  }

  /** One step of `GoodPrefix` at index `j`. */
  lemma GoodPrefixStep(recs: seq<Record>, j: nat)
    requires j < |recs|
    ensures GoodPrefix(recs[j..]) == if recs[j].Malformed? then [] else [ToProxy(recs[j])] + GoodPrefix(recs[j + 1..])
  {
    assert recs[j..][0] == recs[j] && recs[j..][1..] == recs[j + 1..];
  }

  /** Creating and putting one more object is one more put, with the next id. */
  lemma PutMintSnoc(s: seq<Item<Handle>>, done: seq<Proxy>, next: nat, p: Proxy, priority: int)
    ensures PutEach(s, Mint(done + [p], next), priority)
      == PutResult(PutEach(s, Mint(done, next), priority), Item(priority, Handle(next + |done|, p)))
  {
    MintAppend(done, [p], next);
    assert Mint([p], next + |done|) == [Handle(next + |done|, p)];
    PutEachSnoc(s, Mint(done, next), Handle(next + |done|, p), priority);
  }

  /** `PutMintSnoc` for a pool known only by its contents before and after the put. */
  lemma PutMintStep(s: seq<Item<Handle>>, done: seq<Proxy>, next: nat, p: Proxy, id: nat,
                    before: seq<Item<Handle>>, after: seq<Item<Handle>>)
    requires before == PutEach(s, Mint(done, next), 50) && id == next + |done|
    requires after == PutResult(before, Item(50, Handle(id, p)))
    ensures after == PutEach(s, Mint(done + [p], next), 50)
  {
    var h := Handle(next + |done|, p);
    assert Handle(id, p) == h;
    assert after == PutResult(before, Item(50, h));
    PutMintSnoc(s, done, next, p, 50);
  }

  /** `MintAppend`, with the id of the first object created for `b` named by the caller. */
  lemma MintSplit(a: seq<Proxy>, b: seq<Proxy>, next: nat, mid: nat)
    requires mid == next + |a|
    ensures Mint(a + b, next) == Mint(a, next) + Mint(b, mid)
  {
    MintAppend(a, b, next);
  }

  /** Two runs of creating and putting objects are one run over both. */
  lemma PutMintAppend(s: seq<Item<Handle>>, a: seq<Proxy>, b: seq<Proxy>, next: nat, mid: nat,
                      before: seq<Item<Handle>>, after: seq<Item<Handle>>)
    requires before == PutEach(s, Mint(a, next), 50) && mid == next + |a|
    requires after == PutEach(before, Mint(b, mid), 50)
    ensures after == PutEach(s, Mint(a + b, next), 50)
  {
    MintSplit(a, b, next, mid);
    PutEachAppend(s, Mint(a, next), Mint(b, mid), 50);
  }

  lemma AppendAssoc<T>(a: seq<T>, b: seq<T>, c: seq<T>)
    ensures a + (b + c) == (a + b) + c
  {
  }

  /** A page is put completely exactly when none of its records raises. */
  lemma {:induction false} GoodPrefixComplete(recs: seq<Record>)
    ensures |GoodPrefix(recs)| == |recs| <==> forall k :: 0 <= k < |recs| ==> recs[k].Entry?
  {
    if recs != [] && recs[0].Entry? {
      GoodPrefixComplete(recs[1..]);
      assert forall k :: 0 < k < |recs| ==> recs[k] == recs[1..][k - 1];
    }
  }

  /** The proxies a fetch puts from one response. */
  function PagePuts(resp: Response): seq<Proxy> {
    if resp.Page? then GoodPrefix(resp.records) else []
  }

  /** A response that ends the loop with an exception: a fault, a record that raises, no `last_page`. */
  predicate Faulty(resp: Response) {
    resp.Fault? || |GoodPrefix(resp.records)| < |resp.records| || resp.lastPage.None?
  }

  /** The pages from `page` on that the listing serves: a bound on the rest of a run. */
  function Remaining(listing: Listing, page: nat): nat {
    |set p | p in listing && p >= page|
  }

  lemma RemainingShrinks(listing: Listing, page: nat)
    requires page in listing
    ensures Remaining(listing, page + 1) < Remaining(listing, page)
  {
    var later := set p | p in listing && p >= page + 1;
    assert (set p | p in listing && p >= page) == later + {page};
  }

  /** The loop of `fetch_proxy` from `page` on, while `page < max_page`. */
  function Run(listing: Listing, page: nat, maxPage: Bound): FetchRun
    decreases Remaining(listing, page)
  {
    if !Below(page, maxPage) then FetchRun([], [], Done)
    else
      var resp := Respond(listing, page);
      if Faulty(resp) then FetchRun([page], PagePuts(resp), Failed)
      else
        RemainingShrinks(listing, page);
        var rest := Run(listing, page + 1, AtMost(resp.lastPage.value));
        FetchRun([page] + rest.requested, GoodPrefix(resp.records) + rest.puts, rest.status)
  }

  /** A whole `fetch_proxy` call: from page 1 with no bound yet. */
  function Fetch(listing: Listing): FetchRun {
    Run(listing, 1, Unbounded)
  }

  /** A run that follows the requests `requested` having put `puts`. */
  function Then(requested: seq<nat>, puts: seq<Proxy>, rest: FetchRun): FetchRun {
    FetchRun(requested + rest.requested, puts + rest.puts, rest.status)
  }

  /** What follows the request of `page`: the rest of the loop, unless the response ends it. */
  function Continue(listing: Listing, page: nat): FetchRun {
    var resp := Respond(listing, page);
    if Faulty(resp) then FetchRun([], [], Failed)
    else Run(listing, page + 1, AtMost(resp.lastPage.value))
  }

  lemma ThenNothing(requested: seq<nat>, puts: seq<Proxy>, r: FetchRun)
    ensures Then(requested, puts, FetchRun([], [], r.status)) == FetchRun(requested, puts, r.status)
  {
    assert requested + [] == requested && puts + [] == puts;
  }

  lemma ThenStep(requested: seq<nat>, puts: seq<Proxy>, a: seq<nat>, b: seq<Proxy>, rest: FetchRun)
    ensures Then(requested, puts, Then(a, b, rest)) == Then(requested + a, puts + b, rest)
  {
    AppendAssoc(requested, a, rest.requested);
    AppendAssoc(puts, b, rest.puts);
  }

  // Bookkeeping of the loop in `FetchProxy`: `Fetch` is what was done so far followed by `Run`.

  lemma FetchStart(listing: Listing)
    ensures Fetch(listing) == Then([], [], Run(listing, 1, Unbounded))
  {
    ThenStep([], [], [], [], Fetch(listing));
  }

  lemma RunAdvance(listing: Listing, requested: seq<nat>, puts: seq<Proxy>, page: nat, maxPage: Bound)
    requires Fetch(listing) == Then(requested, puts, Run(listing, page, maxPage))
    requires Below(page, maxPage)
    ensures Faulty(Respond(listing, page)) ==>
      Fetch(listing) == FetchRun(requested + [page], puts + PagePuts(Respond(listing, page)), Failed)
    ensures Respond(listing, page).Fault? ==> puts + PagePuts(Respond(listing, page)) == puts
    ensures !Faulty(Respond(listing, page)) ==>
      Fetch(listing) == Then(requested + [page], puts + GoodPrefix(Respond(listing, page).records),
                             Run(listing, page + 1, AtMost(Respond(listing, page).lastPage.value)))
  {
    var resp := Respond(listing, page);
    var r := Run(listing, page, maxPage);
    if Faulty(resp) {
      assert r == Then([page], PagePuts(resp), FetchRun([], [], Failed));
    } else {
      assert r == Then([page], PagePuts(resp), Continue(listing, page));
    }
    ThenStep(requested, puts, [page], PagePuts(resp), Continue(listing, page));
    if Faulty(resp) {
      ThenNothing(requested + [page], puts + PagePuts(resp), Continue(listing, page));
      assert resp.Fault? ==> puts + PagePuts(resp) == puts;
    }
  }

  // Properties of the fetch loop

  /** A response that continues the loop: a page with a `last_page` above `next`. */
  predicate Allows(resp: Response, next: int) {
    resp.Page? && resp.lastPage.Some? && next < resp.lastPage.value
  }

  /** The proxies put from the given pages, in order. */
  function PutsOf(listing: Listing, pages: seq<nat>): seq<Proxy> {
    if pages == [] then [] else PagePuts(Respond(listing, pages[0])) + PutsOf(listing, pages[1..])
  }

  /**
   * Pages are requested consecutively from `page`, and each request after the
   * first only when the previous response reported a `last_page` above it.
   */
  lemma {:induction false} RunPages(listing: Listing, page: nat, maxPage: Bound)
    ensures var r := Run(listing, page, maxPage);
      (r.requested != [] <==> Below(page, maxPage)) &&
      (forall k :: 0 <= k < |r.requested| ==> r.requested[k] == page + k) &&
      (forall k :: 0 < k < |r.requested| ==> Allows(Respond(listing, r.requested[k] - 1), r.requested[k]))
    decreases Remaining(listing, page)
  {
    var r := Run(listing, page, maxPage);
    var resp := Respond(listing, page);
    if Below(page, maxPage) && !Faulty(resp) {
      var next := AtMost(resp.lastPage.value);
      var rest := Run(listing, page + 1, next);
      RemainingShrinks(listing, page);
      RunPages(listing, page + 1, next);
      assert r.requested == [page] + rest.requested;
      forall k | 0 < k < |r.requested|
        ensures r.requested[k] == page + k
        ensures Allows(Respond(listing, r.requested[k] - 1), r.requested[k])
      {
        assert r.requested[k] == rest.requested[k - 1];
        if k > 1 {
          assert rest.requested[k - 2] == page + k - 1;
        }
      }
    }
  }

  /** The last page a run requests. */
  function LastRequested(r: FetchRun, page: nat): int {
    page + |r.requested| - 1
  }

  /**
   * How a run ends: a clean finish means the bound stopped the loop (the
   * last response's `last_page` did not exceed the next page); a fault means
   * the last response was faulty.
   */
  lemma {:induction false} RunEnds(listing: Listing, page: nat, maxPage: Bound)
    ensures var r := Run(listing, page, maxPage);
      r.status == Done && r.requested != [] ==>
        !Faulty(Respond(listing, LastRequested(r, page))) &&
        !Allows(Respond(listing, LastRequested(r, page)), LastRequested(r, page) + 1)
    ensures var r := Run(listing, page, maxPage);
      r.status == Failed ==> r.requested != [] && Faulty(Respond(listing, LastRequested(r, page)))
    decreases Remaining(listing, page)
  {
    var resp := Respond(listing, page);
    if Below(page, maxPage) && !Faulty(resp) {
      var next := AtMost(resp.lastPage.value);
      var r := Run(listing, page, maxPage);
      var rest := Run(listing, page + 1, next);
      assert |r.requested| == 1 + |rest.requested| && r.status == rest.status;
      RemainingShrinks(listing, page);
      RunEnds(listing, page + 1, next);
      if rest.requested == [] {
        RunPages(listing, page + 1, next);
        assert LastRequested(r, page) == page;
        assert !Allows(resp, page + 1);
      } else {
        assert LastRequested(r, page) == LastRequested(rest, page + 1);
      }
    }
  }

  /** Every response before the last one of a run was clean. */
  lemma {:induction false} RunCleanBefore(listing: Listing, page: nat, maxPage: Bound)
    ensures forall k :: 0 <= k < |Run(listing, page, maxPage).requested| - 1 ==>
      !Faulty(Respond(listing, Run(listing, page, maxPage).requested[k]))
    decreases Remaining(listing, page)
  {
    var r := Run(listing, page, maxPage);
    var resp := Respond(listing, page);
    if Below(page, maxPage) && !Faulty(resp) {
      var next := AtMost(resp.lastPage.value);
      var rest := Run(listing, page + 1, next);
      RemainingShrinks(listing, page);
      RunCleanBefore(listing, page + 1, next);
      assert r.requested == [page] + rest.requested;
      assert |r.requested| == 1 + |rest.requested|;
      forall k | 0 < k < |r.requested| - 1 ensures !Faulty(Respond(listing, r.requested[k])) {
        assert r.requested[k] == rest.requested[k - 1];
      }
    }
  }

  /** The proxies a run puts are those of the pages it requests, in request order. */
  lemma {:induction false} RunPuts(listing: Listing, page: nat, maxPage: Bound)
    ensures Run(listing, page, maxPage).puts == PutsOf(listing, Run(listing, page, maxPage).requested)
    decreases Remaining(listing, page)
  {
    var r := Run(listing, page, maxPage);
    var resp := Respond(listing, page);
    if Below(page, maxPage) {
      if Faulty(resp) {
        assert r.requested == [page];
        assert PutsOf(listing, [page]) == PagePuts(resp) + PutsOf(listing, []);
      } else {
        var next := AtMost(resp.lastPage.value);
        var rest := Run(listing, page + 1, next);
        RemainingShrinks(listing, page);
        RunPuts(listing, page + 1, next);
        assert r.requested == [page] + rest.requested;
        assert r.requested[1..] == rest.requested;
      }
    }
  }

  /**
   * Page `k` is requested only as the `k`-th request, and only when page
   * `k - 1` reported a `last_page` above `k`: the page named `last_page` by
   * its predecessor is never requested.
   */
  lemma FetchConsecutive(listing: Listing, k: nat)
    requires k < |Fetch(listing).requested|
    ensures Fetch(listing).requested[k] == k + 1
    ensures k > 0 ==> Respond(listing, k).Page? && Respond(listing, k).lastPage.Some? &&
                      k + 1 < Respond(listing, k).lastPage.value
  {
    RunPages(listing, 1, Unbounded);
  }

  /** Page 1 is always requested. */
  lemma FetchFirstPage(listing: Listing)
    ensures Fetch(listing).requested != [] && Fetch(listing).requested[0] == 1
  {
    RunPages(listing, 1, Unbounded);
  }

  /** `[a, a + 1, ..., b - 1]`. */
  function Range(a: nat, b: nat): (r: seq<nat>)
    decreases b - a
  {
    if a >= b then [] else [a] + Range(a + 1, b)
  }

  /** A response reporting `last_page = n` whose records are all well-formed. */
  predicate Steady(resp: Response, n: int) {
    resp.Page? && resp.lastPage == Some(n) && forall k :: 0 <= k < |resp.records| ==> resp.records[k].Entry?
  }

  lemma {:induction false} RunSteady(listing: Listing, page: nat, n: int)
    requires forall p: nat :: page <= p < n ==> Steady(Respond(listing, p), n)
    ensures Run(listing, page, AtMost(n)).requested == Range(page, if n <= page then page else n)
    ensures Run(listing, page, AtMost(n)).status == Done
    decreases n - page
  {
    if page < n {
      assert Steady(Respond(listing, page), n);
      GoodPrefixComplete(Respond(listing, page).records);
      RunSteady(listing, page + 1, n);
    }
  }

  /**
   * A listing whose pages all report `last_page = n`: the fetch requests
   * pages 1 .. n-1 (only page 1 when n <= 2) and finishes cleanly; page n is
   * never requested.
   */
  lemma FetchSteady(listing: Listing, n: int)
    requires forall p: nat :: 1 <= p < (if n <= 2 then 2 else n) ==> Steady(Respond(listing, p), n)
    ensures Fetch(listing).requested == Range(1, if n <= 2 then 2 else n)
    ensures Fetch(listing).status == Done
  {
    assert Steady(Respond(listing, 1), n);
    GoodPrefixComplete(Respond(listing, 1).records);
    RunSteady(listing, 2, n);
  }

  /**
   * Two pages, both reporting `last_page = 2`: only page 1 is requested, so
   * only its three proxies are put and page 2's records never reach the pool.
   */
  lemma TwoPageListing(a: Record, b: Record, c: Record, d: Record, e: Record)
    requires a.Entry? && b.Entry? && c.Entry? && d.Entry? && e.Entry?
    ensures var listing := map[1 := Page([a, b, c], Some(2)), 2 := Page([d, e], Some(2))];
      Fetch(listing) == FetchRun([1], [ToProxy(a), ToProxy(b), ToProxy(c)], Done)
  {
    var listing := map[1 := Page([a, b, c], Some(2)), 2 := Page([d, e], Some(2))];
    assert GoodPrefix([a, b, c]) == [ToProxy(a)] + GoodPrefix([b, c]);
    assert GoodPrefix([b, c]) == [ToProxy(b)] + GoodPrefix([c]);
    assert GoodPrefix([c]) == [ToProxy(c)] + GoodPrefix([]);
    assert Run(listing, 2, AtMost(2)) == FetchRun([], [], Done);
  }

  // ---------------------------------------------------------------------
  // The verification step

  /** The outcome of the liveness request through a proxy. */
  datatype Probe = Reachable | Unreachable

  /**
   * What one cycle of `averify_proxy` puts back for `item`: priority 0 after
   * a successful probe, priority + 10 after a failed one unless that reaches
   * 100, in which case nothing is put back.
   */
  function Rescore<P>(item: Item<P>, probe: Probe): (r: Option<Item<P>>)
    ensures r.Some? ==> r.value.proxy == item.proxy
    ensures r.None? <==> probe == Unreachable && item.priority + 10 >= 100
    ensures 0 <= item.priority ==> r.Some? ==> 0 <= r.value.priority < 100
    ensures probe == Reachable ==> r == Some(Item(0, item.proxy))
    ensures probe == Unreachable && r.Some? ==> r.value.priority == item.priority + 10
  {
    match probe
    case Reachable => Some(Item(0, item.proxy))
    case Unreachable =>
      var demoted := Item(item.priority + 10, item.proxy);
      if demoted.priority < 100 then Some(demoted) else None
  }

  /** The pool after the verification cycle puts back (or drops) `item`. */
  function Requeue<P(==)>(s: seq<Item<P>>, item: Item<P>, probe: Probe): seq<Item<P>> {
    match Rescore(item, probe)
    case None => s
    case Some(back) => PutResult(s, back)
  }

  // ---------------------------------------------------------------------
  // The system proxy settings

  datatype RegValue = RegInt(i: int) | RegStr(s: string)

  /** One `set_reg_key(key, value)`. */
  datatype Write = Write(key: string, value: RegValue)

  datatype StoreAfter = StoreAfter(store: map<string, RegValue>, missing: Option<string>)

  /**
   * A run of `set_reg_key` calls: each writes its key, except that the
   * first key the store does not hold raises and stops the run.
   */
  function WriteKeys(st: map<string, RegValue>, ws: seq<Write>): StoreAfter {
    if ws == [] then StoreAfter(st, None)
    else if ws[0].key !in st then StoreAfter(st, Some(ws[0].key))
    else WriteKeys(st[ws[0].key := ws[0].value], ws[1..])
  }

  /** `set_reg_key` never creates a key, and keys a run does not write keep their values. */
  lemma {:induction false} WriteKeysKeep(st: map<string, RegValue>, ws: seq<Write>)
    ensures WriteKeys(st, ws).store.Keys == st.Keys
    ensures forall k :: k in st && (forall i :: 0 <= i < |ws| ==> ws[i].key != k) ==>
      WriteKeys(st, ws).store[k] == st[k]
  {
    if ws != [] && ws[0].key in st {
      WriteKeysKeep(st[ws[0].key := ws[0].value], ws[1..]);
      assert forall i :: 0 < i < |ws| ==> ws[i] == ws[1..][i - 1];
    }
  }

  /** A run fails exactly when some key is absent, and then names the first absent key of the run. */
  lemma {:induction false} WriteKeysFails(st: map<string, RegValue>, ws: seq<Write>)
    ensures WriteKeys(st, ws).missing.None? <==> forall i :: 0 <= i < |ws| ==> ws[i].key in st
    ensures WriteKeys(st, ws).missing.Some? ==>
      exists i :: 0 <= i < |ws| && ws[i].key !in st && (forall j :: 0 <= j < i ==> ws[j].key in st) &&
        WriteKeys(st, ws).missing == Some(ws[i].key)
  {
    if ws != [] && ws[0].key in st {
      var st' := st[ws[0].key := ws[0].value];
      WriteKeysFails(st', ws[1..]);
      assert st'.Keys == st.Keys;
      assert forall i :: 0 < i < |ws| ==> ws[i] == ws[1..][i - 1];
      if WriteKeys(st, ws).missing.Some? {
        var i :| 0 <= i < |ws| - 1 && ws[1..][i].key !in st' && (forall j :: 0 <= j < i ==> ws[1..][j].key in st') &&
          WriteKeys(st', ws[1..]).missing == Some(ws[1..][i].key);
        assert ws[i + 1].key !in st;
        assert forall j :: 0 < j < i + 1 ==> ws[j].key in st;
      }
    }
  }

  /**
   * A run that meets its first absent key at index `i` raises there: the
   * writes before `i` stay in the store and the writes after it never happen.
   */
  lemma {:induction false} WriteKeysStopsAt(st: map<string, RegValue>, ws: seq<Write>, i: nat)
    requires i < |ws| && ws[i].key !in st
    requires forall j :: 0 <= j < i ==> ws[j].key in st
    ensures WriteKeys(st, ws) == StoreAfter(WriteKeys(st, ws[..i]).store, Some(ws[i].key))
    ensures WriteKeys(st, ws[..i]).missing == None
  {
    if i > 0 {
      var st' := st[ws[0].key := ws[0].value];
      assert st'.Keys == st.Keys;
      assert forall j :: 0 <= j < i - 1 ==> ws[1..][j] == ws[j + 1];
      WriteKeysStopsAt(st', ws[1..], i - 1);
      assert ws[..i][0] == ws[0] && ws[..i][1..] == ws[1..][..i - 1];
    }
  }

  /** After a clean run each key holds the value last written to it. */
  lemma {:induction false} WriteKeysLast(st: map<string, RegValue>, ws: seq<Write>)
    ensures WriteKeys(st, ws).missing.None? ==>
      forall i :: 0 <= i < |ws| && (forall j :: i < j < |ws| ==> ws[j].key != ws[i].key) ==>
        ws[i].key in WriteKeys(st, ws).store && WriteKeys(st, ws).store[ws[i].key] == ws[i].value
  {
    if ws != [] && ws[0].key in st {
      var st' := st[ws[0].key := ws[0].value];
      var rest := ws[1..];
      WriteKeysLast(st', rest);
      WriteKeysKeep(st', rest);
      var r := WriteKeys(st', rest);
      assert WriteKeys(st, ws) == r;
      if r.missing.None? {
        forall i | 0 <= i < |ws| && (forall j :: i < j < |ws| ==> ws[j].key != ws[i].key)
          ensures ws[i].key in r.store && r.store[ws[i].key] == ws[i].value
        {
          if i == 0 {
            forall j | 0 <= j < |rest| ensures rest[j].key != ws[0].key {
              assert rest[j] == ws[j + 1];
            }
          } else {
            assert ws[i] == rest[i - 1];
            forall j | i - 1 < j < |rest| ensures rest[j].key != rest[i - 1].key {
              assert rest[j] == ws[j + 1];
            }
          }
        }
      }
    }
  }

  /** The writes of `set_proxy` for proxy `p`. */
  function ApplyWrites(p: Proxy): seq<Write> {
    [ Write("ProxyEnable", RegInt(1)),
      Write("ProxyOverride", RegStr("*.local;<local>")),
      Write("ProxyServer", RegStr(ServerAddress(p))) ]
  }

  /** The write of `stop_proxy`. */
  function StopWrites(): seq<Write> {
    [Write("ProxyEnable", RegInt(0))]
  }

  /**
   * When the three keys exist, `set_proxy` sets exactly them: enabled,
   * the local bypass list and `host:port`; every other key is unchanged.
   */
  lemma ApplyWritesSpec(st: map<string, RegValue>, p: Proxy)
    requires "ProxyEnable" in st && "ProxyOverride" in st && "ProxyServer" in st
    ensures WriteKeys(st, ApplyWrites(p)).missing == None
    ensures WriteKeys(st, ApplyWrites(p)).store ==
      st["ProxyEnable" := RegInt(1)]["ProxyOverride" := RegStr("*.local;<local>")]["ProxyServer" := RegStr(ServerAddress(p))]
  {
    var st1 := st["ProxyEnable" := RegInt(1)];
    var st2 := st1["ProxyOverride" := RegStr("*.local;<local>")];
    assert WriteKeys(st, ApplyWrites(p)) == WriteKeys(st1, ApplyWrites(p)[1..]);
    assert WriteKeys(st1, ApplyWrites(p)[1..]) == WriteKeys(st2, ApplyWrites(p)[2..]);
  }

  /** `stop_proxy` is idempotent on the store. */
  lemma StopIdempotent(st: map<string, RegValue>)
    ensures WriteKeys(WriteKeys(st, StopWrites()).store, StopWrites()) == WriteKeys(st, StopWrites())
  {
  }

  /** The outcome of `set_proxy`: `None`, the proxy URL, or the key whose lookup raised. */
  datatype Applied = NoProxy | Applied(url: string) | KeyMissing(key: string)

  class ProxyManager {
    const queue: ProxyQueue<Handle>
    var store: map<string, RegValue>
    var refreshes: nat
    /** How many `httpx.Proxy` objects have been created; the next one gets this id. */
    var created: nat

    /**
     * The pool is sorted, duplicate-free, every priority is in [0, 100),
     * every proxy object in it was created earlier, and no object sits in
     * two entries.
     */
    ghost predicate Valid()
      reads this, queue
    {
      queue.Valid() && InRange(queue.items) && Minted(queue.items, created) && Distinct(queue.items)
    }

    /** `__init__`: an empty pool over the current registry values. */
    constructor (settings: map<string, RegValue>)
      ensures Valid() && fresh(queue)
      ensures queue.items == [] && store == settings && refreshes == 0 && created == 0
    {
      queue := new ProxyQueue();
      store := settings;
      refreshes := 0;
      created := 0;
    }

    /** `fetch_proxy`: put every listed proxy at priority 50, page by page, swallowing faults. */
    method FetchProxy(listing: Listing) returns (requested: seq<nat>, status: Status)
      requires Valid()
      modifies this`created, queue
      ensures Valid()
      ensures requested == Fetch(listing).requested && status == Fetch(listing).status
      ensures queue.items == PutEach(old(queue.items), Mint(Fetch(listing).puts, old(created)), 50)
      ensures created == old(created) + |Fetch(listing).puts|
    {
      ghost var q0, c0: nat := queue.items, created;
      var maxPage := Unbounded;
      var page: nat := 1;
      ghost var puts: seq<Proxy> := [];
      requested := [];
      status := Done;
      FetchStart(listing);
      while Below(page, maxPage)
        invariant Valid() && status == Done
        invariant queue.items == PutEach(q0, Mint(puts, c0), 50)
        invariant created == c0 + |puts|
        invariant Fetch(listing) == Then(requested, puts, Run(listing, page, maxPage))
        decreases Remaining(listing, page)
      {
        var resp := Respond(listing, page);
        RunAdvance(listing, requested, puts, page, maxPage);
        requested := requested + [page];
        if resp.Fault? {
          status := Failed;
          break;
        }
        ghost var before, c: nat := queue.items, created;
        var complete := PutPage(resp.records);
        ghost var got := GoodPrefix(resp.records);
        PutMintAppend(q0, puts, got, c0, c, before, queue.items);
        puts := puts + got;
        if !complete || resp.lastPage.None? {
          status := Failed;
          break;
        }
        RemainingShrinks(listing, page);
        maxPage := AtMost(resp.lastPage.value);
        page := page + 1;
      }
      if status == Done {
        ThenNothing(requested, puts, Run(listing, page, maxPage));
      }
      assert Fetch(listing).puts == puts;
      assert queue.items == PutEach(q0, Mint(puts, c0), 50);
    }

    /** The `for dic in ...` loop of `fetch_proxy`: put each record at 50 until one raises. */
    method PutPage(recs: seq<Record>) returns (complete: bool)
      requires Valid()
      modifies this`created, queue
      ensures Valid()
      ensures complete <==> |GoodPrefix(recs)| == |recs|
      ensures queue.items == PutEach(old(queue.items), Mint(GoodPrefix(recs), old(created)), 50)
      ensures created == old(created) + |GoodPrefix(recs)|
    {
      ghost var q0, c0: nat := queue.items, created;
      ghost var done: seq<Proxy> := [];
      ghost var hs: seq<Handle> := [];
      var j := 0;
      while j < |recs|
        invariant 0 <= j <= |recs|
        invariant Valid()
        invariant GoodPrefix(recs) == done + GoodPrefix(recs[j..]) && |done| == j
        invariant hs == Mint(done, c0)
        invariant queue.items == PutEach(q0, hs, 50)
        invariant created == c0 + |done|
      {
        GoodPrefixStep(recs, j);
        if recs[j].Malformed? {
          assert GoodPrefix(recs) == done + [] == done;
          return false;
        }
        var p := ToProxy(recs[j]);
        hs := PutNew(p, q0, done, c0);
        AppendAssoc(done, [p], GoodPrefix(recs[j + 1..]));
        done := done + [p];
        j := j + 1;
      }
      assert GoodPrefix(recs) == done;
      return true;
    }

    /** `httpx.Proxy(...)` for one record, put at the fetch priority 50. */
    method PutNew(p: Proxy, ghost base: seq<Item<Handle>>, ghost done: seq<Proxy>, ghost first: nat)
        returns (ghost hs: seq<Handle>)
      requires Valid()
      requires queue.items == PutEach(base, Mint(done, first), 50) && created == first + |done|
      modifies this`created, queue
      ensures Valid() && created == old(created) + 1
      ensures hs == Mint(done + [p], first) && queue.items == PutEach(base, hs, 50)
    {
      var id := created;
      var item := Item(50, Handle(id, p));
      ghost var before := queue.items;
      assert id == first + |done|;
      assert Absent(queue.items, item.proxy);
      created := id + 1;
      PutItem(item);
      PutMintStep(base, done, first, p, id, before, queue.items);
      hs := Mint(done + [p], first);
    }

    /** One cycle of `averify_proxy`: take a random item, probe it, put it back rescored or drop it. */
    method VerifyStep(probe: Probe) returns (taken: Option<Item<Handle>>)
      requires Valid()
      modifies queue
      ensures Valid()
      ensures taken.None? <==> old(queue.items) == []
      ensures taken.None? ==> queue.items == old(queue.items)
      ensures taken.Some? ==> taken.value in old(queue.items)
      ensures taken.Some? ==> queue.items == Requeue(RemoveFirst(old(queue.items), taken.value), taken.value, probe)
      ensures taken.Some? && Rescore(taken.value, probe).None? ==> taken.value !in queue.items
      ensures taken.Some? && Rescore(taken.value, probe).None? ==>
        forall y :: y in queue.items ==> y.proxy != taken.value.proxy
    {
      var r := queue.GetRandom(true, Seconds(2.0));
      if !r.Got? {
        // Empty: the cycle does nothing
        return None;
      }
      var item := r.item;
      taken := Some(item);
      RemoveFirstKeeps(old(queue.items), item);
      RemoveFirstInRange(old(queue.items), item);
      RemoveFirstMinted(old(queue.items), item, created);
      RemoveFirstDistinct(old(queue.items), item);
      PutBack(item, probe);
    }

    /** The `try`/`except` of `averify_proxy`: put `item` back at 0 if reachable, else demote it by 10 or drop it. */
    method PutBack(taken: Item<Handle>, probe: Probe)
      requires Valid() && 0 <= taken.priority && taken.proxy.id < created
      requires Absent(queue.items, taken.proxy)
      modifies queue
      ensures Valid()
      ensures queue.items == Requeue(old(queue.items), taken, probe)
    {
      ghost var q0 := queue.items;
      var item := taken;
      if probe == Reachable {
        item := item.(priority := 0);
        assert Requeue(q0, taken, probe) == PutResult(q0, item);
        PutItem(item);
      } else {
        item := item.(priority := item.priority + 10);
        if item.priority < 100 {
          assert Requeue(q0, taken, probe) == PutResult(q0, item);
          PutItem(item);
        } else {
          assert Requeue(q0, taken, probe) == q0;
        }
      }
    }

    /** `_put` of an item whose priority is in range and whose proxy object exists but is not pooled. */
    method PutItem(item: Item<Handle>)
      requires Valid() && 0 <= item.priority < 100 && item.proxy.id < created
      requires Absent(queue.items, item.proxy)
      modifies queue
      ensures Valid() && queue.items == PutResult(old(queue.items), item)
    {
      PutInRange(queue.items, item);
      PutMinted(queue.items, item, created);
      PutDistinct(queue.items, item);
      queue.Put(item);
    }

    /** `set_reg_key`: the type lookup raises when the key is absent. */
    method SetRegKey(w: Write) returns (ok: bool)
      modifies this`store
      ensures ok == (w.key in old(store))
      ensures store == if ok then old(store)[w.key := w.value] else old(store)
      ensures refreshes == old(refreshes)
    {
      ok := w.key in store;
      if ok {
        store := store[w.key := w.value];
      }
    }

    /** `refresh_reg_setting`: tell the networking stack to reload the settings. */
    method RefreshRegSetting()
      modifies this`refreshes
      ensures store == old(store) && refreshes == old(refreshes) + 1
    {
      refreshes := refreshes + 1;
    }

    /** The `set_reg_key` calls of `ws` in order, stopping at the first that raises. */
    method SetRegKeys(ws: seq<Write>) returns (missing: Option<string>)
      modifies this`store
      ensures WriteKeys(old(store), ws) == StoreAfter(store, missing)
      ensures refreshes == old(refreshes)
    {
      var i := 0;
      missing := None;
      while i < |ws|
        invariant 0 <= i <= |ws| && refreshes == old(refreshes)
        invariant WriteKeys(old(store), ws) == WriteKeys(store, ws[i..])
      {
        var ok := SetRegKey(ws[i]);
        if !ok {
          missing := Some(ws[i].key);
          return;
        }
        i := i + 1;
      }
    }

    /** `set_proxy`: pop the best proxy and make it the system proxy. */
    method SetProxy() returns (r: Applied)
      requires Valid()
      modifies this`store, this`refreshes, queue
      ensures Valid()
      ensures old(queue.items) == [] ==>
        r == NoProxy && queue.items == [] && store == old(store) && refreshes == old(refreshes)
      ensures old(queue.items) != [] ==>
        var p := old(queue.items)[0].proxy.proxy;
        var after := WriteKeys(old(store), ApplyWrites(p));
        queue.items == old(queue.items)[1..] && store == after.store &&
        (after.missing.None? ==> r == Applied(Url(p)) && refreshes == old(refreshes) + 1) &&
        (after.missing.Some? ==> r == KeyMissing(after.missing.value) && refreshes == old(refreshes))
    {
      var head := queue.GetNowait();
      if head.None? {
        return NoProxy;
      }
      var p := head.value.proxy.proxy;
      var missing := SetRegKeys(ApplyWrites(p));
      if missing.Some? {
        return KeyMissing(missing.value);
      }
      RefreshRegSetting();
      r := Applied(Url(p));
    }

    /** `stop_proxy`: turn the system proxy off. */
    method StopProxy() returns (missing: Option<string>)
      modifies this`store, this`refreshes
      ensures queue.items == old(queue.items)
      ensures "ProxyEnable" in old(store) ==>
        missing == None && store == old(store)["ProxyEnable" := RegInt(0)] && refreshes == old(refreshes) + 1
      ensures "ProxyEnable" !in old(store) ==>
        missing == Some("ProxyEnable") && store == old(store) && refreshes == old(refreshes)
    {
      missing := SetRegKeys(StopWrites());
      if missing.None? {
        RefreshRegSetting();
      }
    }
  }
}
