# AutoProxy core in Dafny

AutoProxy is a desktop tool. It keeps a pool of free HTTP proxies and makes
the best one the Windows system proxy. This project models its core and
proves properties of the model:

- **The proxy pool** (`Pool`, `pool.dfy`). `ProxyItem` is a priority paired
  with a proxy. `ProxyQueue` is a queue: its `_put` drops an equal item and
  then inserts the new one before the first item whose priority is at least
  as large. The model also covers `get_random`, which removes an arbitrary
  item, and the inherited `get_nowait`, which pops the head. The queue
  is a class with a `seq` field. Each method is proved against a
  specification function (`PutResult`, `RemoveFirst`), and lemmas prove
  about those functions that the queue stays sorted and duplicate-free,
  what it contains, and how ties are ordered.
- **The manager** (`Manager`, `manager.dfy`):
  - `fetch_proxy`: the pagination loop over the listing service. The
    method is proved equal to the recursive function `Fetch`, and the
    lemmas about `Fetch` cover which pages are requested, which proxies
    are put, and how the loop ends.
  - One cycle of `averify_proxy`: take a random item, probe it, then put
    it back at 0, put it back demoted by 10, or drop it once it reaches 100.
  - `set_reg_key`, `refresh_reg_setting`, `set_proxy` and `stop_proxy`,
    over a registry modelled as a map.
  - The invariant that every priority stays in [0, 100).
  - Proxy identity. `httpx.Proxy` defines no equality, so two proxy objects
    are equal only when they are the same object. The model gives every
    object `fetch_proxy` creates a fresh id (`Handle`), counted by the
    manager's `created` field (`Mint`). The manager's invariant also holds
    that no object sits in two entries (`Distinct`): a fetch puts only new
    objects, and the verify cycle puts an item back only after taking its
    one entry out.
- **The log window** (`RollingLog`, `rolling_log.dfy`). `RollingHandler`
  keeps a bounded deque of formatted records. Each `emit` sends the deque,
  joined with newlines, to the widget.

The environment becomes parameters:

- The listing service is a finite map from page number to response. A
  page the map does not hold answers with a fault.
- The outcome of the probe request is a `Probe` value.
- The registry is a `map<string, RegValue>`. The settings refresh is a
  counter.
- The random choice of `get_random` is a nondeterministic choice (`:|`)
  of any index.

Behaviours of the code that a reader might not expect, given the
`ProxyQueue` docstring (auto_proxy/manager.py:37-41), which promises a
queue always sorted by priority and without duplicate proxies:

- **Dedup.** Items compare as a dataclass, on priority *and* proxy. A proxy
  already pooled at one priority is held twice when it is put at another
  (`Pool.SameProxyTwice`). Proxies compare by identity, and every fetch
  creates new proxy objects. So a proxy listed twice, or fetched again
  later, is pooled once per listing, never merged
  (`Manager.PutEachFresh`, `Manager.SameRecordTwice`).
- **Pagination.** Page 1 is always requested. After that the loop runs
  while `page < max_page`, with `max_page` the latest `last_page`. So
  under a steady `last_page = n` with n >= 2, pages 1 .. n-1 are requested
  and page n never is. For a two-page listing, only page 1 is fetched
  (`Manager.TwoPageListing`, `Manager.FetchSteady`).
- **Fetch errors.** Every exception in the fetch loop is caught and only
  logged. Proxies put before the fault stay in the pool (`Manager.PutEachContains`).

## Model

| member | source | states |
|---|---|---|
| Pool.RemoveFirst | auto_proxy/manager.py:50-51 | `deque.remove` shortens the queue by one (which element goes is stated by `RemoveFirstKeeps`) |
| Pool.InsertPos | auto_proxy/manager.py:53-58 | the scan stops at the first item whose priority is at least `p`: every earlier item is strictly lower, else the end |
| Pool.RemoveFirstAt | auto_proxy/manager.py:93-94 | removing the first occurrence of a value is removing its first index |
| Pool.RemoveChosen | auto_proxy/manager.py:93-94 | in a duplicate-free queue, removing the chosen element by value removes exactly the chosen index |
| Pool.RemoveAtKeeps | auto_proxy/manager.py:93-94 | removing one index keeps sortedness and no-duplicates, and removes exactly that item from the multiset |
| Pool.RemoveFirstKeeps | auto_proxy/manager.py:50-51 | `deque.remove` keeps sortedness and no-duplicates, removes one copy, and leaves no copy in a duplicate-free queue |
| Pool.InsertPosUnique | auto_proxy/manager.py:53-60 | the position `_put` picks is the only index with every earlier item strictly lower and the item at it, if any, at least the new priority |
| Pool.WithoutItem | auto_proxy/manager.py:50-51 | definition: the removal step of `_put`, `deque.remove` when an equal item is present and no change otherwise |
| Pool.InsertAtSorted | auto_proxy/manager.py:60 | inserting at that position keeps the queue sorted |
| Pool.InsertAtNoDup | auto_proxy/manager.py:60 | inserting an absent item keeps the queue duplicate-free |
| Pool.PutResult | auto_proxy/manager.py:43-60 | definition: the removal step, then the insert at `InsertPos`; `ProxyQueue.Put` is proved to compute it, and its properties are the lemmas below |
| Pool.PutSorted | auto_proxy/manager.py:40-60 | `_put` keeps the queue ascending by priority |
| Pool.PutNoDup | auto_proxy/manager.py:40-60 | `_put` never creates a duplicate, and the new item is present afterwards |
| Pool.PutContents | auto_proxy/manager.py:50-60 | the contents become old + item, with an equal old item replaced; length is unchanged on a replace and one more otherwise |
| Pool.PutKeepsOrder | auto_proxy/manager.py:50-60 | the other items keep their relative order: removing the new item gives the old queue without it |
| Pool.PutPlaces | auto_proxy/manager.py:53-60 | the item lands right before the first remaining item of priority at least its own; it lands last exactly when every remaining item is lower |
| Pool.PutNewestFirst | auto_proxy/manager.py:55 | among equal priorities, the item just put comes first |
| Pool.TieBreakScenario | auto_proxy/manager.py:43-60 | putting A(10), B(20), C(10) gives C, A, B |
| Pool.SameProxyTwice | auto_proxy/manager.py:23-33 | equality includes the priority: one proxy at priorities 0 and 50 is held twice |
| Pool.ProxyQueue.constructor | auto_proxy/manager.py:110 | a new queue is empty and valid |
| Pool.ScanIndex | auto_proxy/manager.py:53-58 | the `for`/`else` scan yields the insertion position `InsertPos`, and 1 on an empty queue |
| Pool.ProxyQueue.Put | auto_proxy/manager.py:43-60 | the for/else scan and the deque insert produce exactly `PutResult`; the queue stays sorted and duplicate-free |
| Pool.ProxyQueue.GetRandom | auto_proxy/manager.py:62-96 | ValueError iff blocking with a negative timeout. Waiting forever iff blocking without a timeout on an empty queue. Otherwise Empty iff the queue is empty. A returned item was in the queue and is removed once; any other outcome changes nothing |
| Pool.ProxyQueue.GetNowait | auto_proxy/manager.py:247 | Empty iff the queue is empty; otherwise pops the head, whose priority is minimal |
| Manager.Url | auto_proxy/manager.py:258-259 | definition: `str(proxy.url)` as `scheme://host:port` |
| Manager.ServerAddress | auto_proxy/manager.py:254 | definition: the `ProxyServer` value `host:port` |
| Manager.Mint | auto_proxy/manager.py:141-146 | the proxy objects created for a run of records: one per record, in order, with consecutive fresh ids |
| Manager.MintAt | auto_proxy/manager.py:141-146 | the k-th object created wraps the k-th proxy and has the k-th id after the start |
| Manager.MintAppend | auto_proxy/manager.py:140-146 | creating objects for two runs one after the other is creating them for the concatenation |
| Manager.Distinct | auto_proxy/manager.py:37-41 | definition: no proxy object sits in two entries, part of the pool invariant `ProxyManager.Valid` |
| Manager.Absent | auto_proxy/manager.py:50-60 | definition: no entry holds a given proxy object |
| Manager.PutMinted | auto_proxy/manager.py:141-146 | a put of an object that already exists keeps every pooled object one that exists |
| Manager.RemoveFirstMinted | auto_proxy/manager.py:93-94 | removing an item keeps every pooled object one that exists |
| Manager.PutDistinct | auto_proxy/manager.py:50-60 | putting an object no entry holds keeps each object in at most one entry |
| Manager.RemoveAtDistinct | auto_proxy/manager.py:93-94 | dropping one entry keeps each object in at most one entry, and no remaining entry holds the dropped object |
| Manager.RemoveFirstDistinct | auto_proxy/manager.py:93-94 | removing an item by value keeps each object in at most one entry, and no remaining entry holds its object |
| Manager.PutInRange | auto_proxy/manager.py:141-142 | putting an item with priority in [0, 100) keeps every priority in [0, 100) |
| Manager.RemoveFirstInRange | auto_proxy/manager.py:93-94 | removing an item keeps every priority in [0, 100) |
| Manager.PutEach | auto_proxy/manager.py:140-147 | definition: `_put` of each proxy in order at one priority; its properties are the lemmas below |
| Manager.PutEachValid | auto_proxy/manager.py:140-147 | a run of puts keeps the queue sorted, duplicate-free and in range |
| Manager.PutEachContains | auto_proxy/manager.py:140-147 | a run of puts loses no old item, holds every proxy put, and grows by at most one per put |
| Manager.PutGrows | auto_proxy/manager.py:50-60 | one put keeps every old item, holds the new one, and grows by at most one |
| Manager.PutEachSnoc | auto_proxy/manager.py:140-147 | bookkeeping: putting one more proxy after a run is one more `_put` |
| Manager.PutEachFresh | auto_proxy/manager.py:140-147 | putting newly created objects grows the pool by exactly one per put, even when records repeat, and every pooled object still exists |
| Manager.SameRecordTwice | auto_proxy/manager.py:140-147 | a page listing the same `protocol://ip:port` twice adds two pool entries |
| Manager.PutMintSnoc | auto_proxy/manager.py:140-147 | bookkeeping: creating and putting one more object is one more `_put` of the object with the next id |
| Manager.PutEachAppend | auto_proxy/manager.py:131-152 | putting page after page equals putting their concatenation |
| Manager.Respond | auto_proxy/manager.py:135-138 | definition: the response to the request for a page, a fault for a page the listing does not serve |
| Manager.Below | auto_proxy/manager.py:132 | definition: the loop condition `page < max_page`, always true while `max_page` is still `math.inf` |
| Manager.ToProxy | auto_proxy/manager.py:143-146 | definition: the `protocol://ip:port` proxy built from a well-formed record |
| Manager.PagePuts | auto_proxy/manager.py:140-147 | definition: the proxies put from one response, its good prefix, or none for a fault |
| Manager.GoodPrefix | auto_proxy/manager.py:140-147 | the proxies put from a page before a record raises: each comes from the well-formed record at its index, and when the page is cut short the record that stops it is malformed |
| Manager.GoodPrefixStep | auto_proxy/manager.py:140-147 | bookkeeping: one iteration of the record loop: a malformed record stops it, a good one is put |
| Manager.GoodPrefixComplete | auto_proxy/manager.py:140-147 | a page is put completely iff every record is well-formed |
| Manager.Faulty | auto_proxy/manager.py:132-152 | definition: a response that ends the loop with an exception: a fault, a record that raises, or no `last_page` |
| Manager.Run | auto_proxy/manager.py:132-152 | definition: the page loop from `page` under bound `max_page`, as requests, puts and outcome; the lemmas below state what it does |
| Manager.Fetch | auto_proxy/manager.py:128-152 | definition: the loop from page 1 with `max_page = inf` |
| Manager.RunAdvance | auto_proxy/manager.py:132-152 | bookkeeping: one iteration of the page loop: a faulty response ends the fetch as failed after its good records; otherwise the loop continues bounded by `last_page` |
| Manager.RunPages | auto_proxy/manager.py:128-152 | pages are requested consecutively from the start page. Something is requested iff the start is below the bound. Each later request needs the previous response to report a `last_page` above it |
| Manager.RunEnds | auto_proxy/manager.py:131-160 | a clean finish means the last response was clean and its `last_page` did not exceed the next page; a failure means the last response was faulty |
| Manager.RunCleanBefore | auto_proxy/manager.py:131-156 | every response before the last one was clean |
| Manager.RunPuts | auto_proxy/manager.py:132-152 | the proxies put are the good records of the requested pages, in request order |
| Manager.FetchConsecutive | auto_proxy/manager.py:128-152 | request k is page k+1, made only when page k reported a `last_page` above k+1 |
| Manager.FetchFirstPage | auto_proxy/manager.py:128-138 | page 1 is always requested |
| Manager.RunSteady | auto_proxy/manager.py:132-152 | under a steady `last_page = n`, the run from `page` requests exactly `page .. n-1` and finishes cleanly |
| Manager.FetchSteady | auto_proxy/manager.py:128-152 | under a steady `last_page = n`, the fetch requests pages 1 .. n-1 (page 1 alone when n <= 2) and finishes cleanly |
| Manager.TwoPageListing | auto_proxy/manager.py:128-152 | for a two-page listing, only page 1 is requested, and only its three proxies are put |
| Manager.Rescore | auto_proxy/manager.py:174-182 | a reachable proxy returns at 0. An unreachable one returns demoted by exactly 10. It is dropped iff it is unreachable and the demoted priority reaches 100. The proxy is unchanged and the result stays in [0, 100) |
| Manager.Requeue | auto_proxy/manager.py:174-182 | definition: the pool after the probe: the item put back as `Rescore` says, or nothing |
| Manager.WriteKeys | auto_proxy/manager.py:213-222 | definition: successive `set_reg_key` writes, stopping at the first absent key; the lemmas below state what it does |
| Manager.WriteKeysKeep | auto_proxy/manager.py:213-222 | writes never create keys, and keys a run does not write keep their values |
| Manager.WriteKeysFails | auto_proxy/manager.py:221 | a run fails iff some key is absent, and then names the first absent key of the run, every earlier key being present |
| Manager.WriteKeysStopsAt | auto_proxy/manager.py:213-222 | when the first absent key is at index i, the run's store is the first i writes applied and the run names that key |
| Manager.WriteKeysLast | auto_proxy/manager.py:222 | after a clean run each written key holds its last written value |
| Manager.ApplyWrites | auto_proxy/manager.py:252-254 | definition: the three `set_reg_key` calls of `set_proxy`, in order: enable 1, the local bypass list, `host:port` |
| Manager.StopWrites | auto_proxy/manager.py:264 | definition: the one `set_reg_key` call of `stop_proxy`, enable 0 |
| Manager.ApplyWritesSpec | auto_proxy/manager.py:252-254 | with the three keys present, `set_proxy` sets enable = 1, the local bypass list and `host:port`, and nothing else |
| Manager.StopIdempotent | auto_proxy/manager.py:264 | stopping twice leaves the store as stopping once |
| Manager.ProxyManager.constructor | auto_proxy/manager.py:102-111 | an empty, valid pool over the given registry values, with no proxy object created yet |
| Manager.ProxyManager.FetchProxy | auto_proxy/manager.py:117-160 | the requests and the outcome are those of `Fetch`; the final pool is the old one after putting a freshly created object for each proxy of `Fetch` at 50, in order; the pool stays sorted, duplicate-free and in range |
| Manager.ProxyManager.PutPage | auto_proxy/manager.py:140-147 | creates and puts an object for each proxy of the page's good prefix at priority 50, in order; reports completeness iff every record is well-formed |
| Manager.ProxyManager.PutNew | auto_proxy/manager.py:141-146 | creates one object with the next id and puts it at 50: one more step of the run |
| Manager.ProxyManager.PutItem | auto_proxy/manager.py:141-142 | `put` of an existing object that no entry holds, at a priority in range, computes `PutResult` and keeps the pool valid, each object in at most one entry |
| Manager.ProxyManager.VerifyStep | auto_proxy/manager.py:167-182 | on an empty pool, nothing. Otherwise the taken item was in the pool, is removed once and is put back as `Rescore` says; a dropped item is gone and no entry holds its object; the pool stays valid and in range, with each object in at most one entry |
| Manager.ProxyManager.PutBack | auto_proxy/manager.py:174-182 | the reachable branch puts the item back at 0; the other branch demotes by 10 and puts back only below 100, exactly as `Rescore` says |
| Manager.ProxyManager.SetRegKey | auto_proxy/manager.py:213-222 | fails iff the key is absent; otherwise sets exactly that key |
| Manager.ProxyManager.RefreshRegSetting | auto_proxy/manager.py:224-237 | one more refresh; the store is unchanged |
| Manager.ProxyManager.SetRegKeys | auto_proxy/manager.py:252-254 | successive `set_reg_key` calls give exactly `WriteKeys`, stopping at the first missing key |
| Manager.ProxyManager.SetProxy | auto_proxy/manager.py:239-259 | an empty pool returns None and changes nothing. Otherwise it pops the head and applies the three writes. It returns the URL and refreshes once iff all keys exist; else it reports the missing key, keeps the partial writes and does not refresh |
| Manager.ProxyManager.StopProxy | auto_proxy/manager.py:261-267 | sets ProxyEnable to 0 and refreshes when the key exists; otherwise reports it and changes nothing; the pool is untouched |
| RollingLog.LastN | auto_proxy/log.py:29 | the window is the suffix of the records, of length min(count, maxlen) |
| RollingLog.LastNAppend | auto_proxy/log.py:29-33 | appending to the window and trimming it equals the window of the extended history |
| RollingLog.AppendWindow | auto_proxy/log.py:29-33 | after an append the deque holds at most `max_size` records with the new one last; below `max_size` every old record is kept as a prefix; when full exactly the oldest is dropped; `maxlen` 0 keeps nothing |
| RollingLog.Join | auto_proxy/log.py:34 | `"\n".join`: the records separated by newlines, the empty text for no records |
| RollingLog.JoinSplit | auto_proxy/log.py:34 | for records without a newline, cutting the joined text at newlines gives back the records |
| RollingLog.RollingHandler.constructor | auto_proxy/log.py:24-29 | an empty deque of the given maximum size, 50 by default |
| RollingLog.RollingHandler.Emit | auto_proxy/log.py:31-34 | the deque becomes the last `maxSize` of old + record, never longer than `maxSize`, with the record last; it still holds the newest min(n, `maxSize`) of the n records ever emitted; the emitted text is the deque joined with newlines |

## Left out

- Locking and blocking are not modelled: the `Queue` mutex, the
  `not_empty`/`not_full` conditions and waits, `unfinished_tasks`, and
  the threads and asyncio loop that drive the manager. The model is
  sequential, so the blocking wait of `get_random` without a timeout on
  an empty queue is reported as the outcome `Waits`. A timed wait on an
  empty queue reports `Empty`, because no one can put meanwhile.
- Pool.ProxyQueue.GetRandom: the choice is any index, not a uniform random
  one. The distribution is not modelled.
- The `averify_proxy` loop itself (the 0.25 s `must_quit` pacing) is not
  modelled. Only one cycle, `VerifyStep`, is. The probe request and
  `proxy_hack`, which swaps the async client's transports, become the
  `Probe` parameter.
- The listing is finite, so every fetch ends. A service that keeps
  reporting a larger `last_page` without end is not modelled.
- HTTP and JSON: the `httpx` client and the JSON decoding of the listing
  service become the `Listing` map. A fault stands for any exception:
  request, JSON, or a missing `data` key. The fixed query parameters and
  the URL are not modelled.
- Manager.Proxy: the model keeps what `httpx.Proxy` parses from
  `protocol://ip:port` as three strings, without default ports, lowercasing
  or URL validation. A record `httpx` would reject is a `Malformed` record.
- Proxy identity is modelled only for the objects `fetch_proxy`
  creates, by a counter. Object allocation and garbage collection are not
  modelled. `Proxy`, the parsed address inside a `Handle`, compares by
  value; the queue itself is generic over the proxy type.
- The registry: winreg handles and value types (`REG_DWORD` versus
  `REG_SZ`) are not modelled. `QueryValueEx` on an absent value is a
  missing key. The two `InternetSetOptionW` calls are one refresh counter.
- Logging calls and `setup_log` (formatter, level, handler registration)
  are not modelled. Records reach `Emit` already formatted.
- RollingLog.RollingHandler.constructor: a negative `max_size`, which makes
  `deque` raise, is excluded by the type `nat`. The Qt signal is the
  returned text.
- `app.py` and `gui.py` (the GUI, its timers and threads) are not part of
  this model.
