/** The crawl frontier: items wait in host queues, in a bounded reservoir, behind it, or on disk, and
    are handed to workers one host at a time (src/crawler/frontier.cpp). Every method runs under the
    lock of the source, so a run is a sequence of calls; the clock only moves forward between reads. */
module CrawlFrontier {
  import opened Basics
  import Heaps
  import opened Queues
  import opened Schedule
  import opened Sweep

  const DISK_BACK_BACKUP_PERCENT: nat := 70
  const RESERVOIR_REFILL_PERCENT: nat := 50
  const DISK_BACK_REFILL_PERCENT: nat := 30

  // ---------------------------------------------------------------- where the items are

  function Flat(chunks: seq<seq<FrontierItem>>): seq<FrontierItem> {
    if chunks == [] then [] else Flat(chunks[..|chunks| - 1]) + chunks[|chunks| - 1]
  }

  /** How often x waits in its host's queue; no other host has it. */
  function InQueue(hosts: map<Text, HostQueue>, x: FrontierItem): nat {
    if HostKey(x.link) in hosts then multiset(hosts[HostKey(x.link)].items)[x] else 0
  }

  /** Every waiting item is in exactly one of the layers, or for the moment in hand. */
  ghost predicate Stocked(hosts: map<Text, HostQueue>, reservoir: seq<FrontierItem>, diskBack: seq<FrontierItem>,
                          chunks: seq<seq<FrontierItem>>, hand: multiset<FrontierItem>, stock: multiset<FrontierItem>)
  {
    forall x :: stock[x] == InQueue(hosts, x) + multiset(reservoir)[x] + multiset(diskBack)[x] + multiset(Flat(chunks))[x] + hand[x]
  }

  ghost function Holders(held: map<Worker, FrontierItem>, x: FrontierItem): set<Worker> {
    set w | w in held && held[w] == x
  }

  /** A worker that holds an item is remembered with its host, unless that has no name. */
  ghost predicate AtWork(active: map<Worker, Text>, held: map<Worker, FrontierItem>) {
    && (forall w :: w in active ==> w in held && active[w] == HostKey(held[w].link) != [])
    && (forall w :: w in held && w !in active ==> HostKey(held[w].link) == [])
  }

  /** The items workers hold. */
  ghost predicate InFlight(active: map<Worker, Text>, held: map<Worker, FrontierItem>, flying: multiset<FrontierItem>) {
    AtWork(active, held) && forall x :: flying[x] == |Holders(held, x)|
  }

  lemma IdleIsFree(active: map<Worker, Text>, held: map<Worker, FrontierItem>, flying: multiset<FrontierItem>, w: Worker)
    requires InFlight(active, held, flying) && w !in held
    ensures w !in active
  {
    hide HostKey, Holders;
  }

  lemma TakeUp(active: map<Worker, Text>, held: map<Worker, FrontierItem>, flying: multiset<FrontierItem>, w: Worker, item: FrontierItem)
    requires InFlight(active, held, flying) && w !in held
    ensures InFlight(Taken(active, w, HostKey(item.link)), held[w := item], flying + multiset{item})
  {
    hide HostKey, Holders;
    assert AtWork(Taken(active, w, HostKey(item.link)), held[w := item]);
    hide AtWork;
    forall x ensures (flying + multiset{item})[x] == |Holders(held[w := item], x)| { HeldMore(held, w, item, x); }
  }

  lemma HeldMore(held: map<Worker, FrontierItem>, w: Worker, item: FrontierItem, x: FrontierItem)
    requires w !in held
    ensures |Holders(held[w := item], x)| == |Holders(held, x)| + if x == item then 1 else 0
  {
    assert Holders(held[w := item], x) == Holders(held, x) + if x == item then {w} else {};
  }

  lemma LayDown(active: map<Worker, Text>, held: map<Worker, FrontierItem>, flying: multiset<FrontierItem>, w: Worker)
    requires InFlight(active, held, flying) && w in held
    ensures held[w] in flying && InFlight(active - {w}, held - {w}, flying - multiset{held[w]})
  {
    hide HostKey, Holders;
    assert AtWork(active - {w}, held - {w});
    hide AtWork;
    HeldLess(held, w, held[w]);
    forall x ensures (flying - multiset{held[w]})[x] == |Holders(held - {w}, x)| { HeldLess(held, w, x); }
  }

  lemma HeldLess(held: map<Worker, FrontierItem>, w: Worker, x: FrontierItem)
    requires w in held
    ensures |Holders(held - {w}, x)| == |Holders(held, x)| - if x == held[w] then 1 else 0
  {
    assert Holders(held - {w}, x) == Holders(held, x) - if x == held[w] then {w} else {};
    assert x == held[w] ==> w in Holders(held, x);
  }

  lemma FlatMore(chunks: seq<seq<FrontierItem>>, chunk: seq<FrontierItem>)
    ensures Flat(chunks + [chunk]) == Flat(chunks) + chunk
  {
    assert (chunks + [chunk])[..|chunks|] == chunks;
  }

  /** The layers behind the reservoir exchange items without losing any. */
  lemma LayersChange(hosts: map<Text, HostQueue>, reservoir: seq<FrontierItem>, diskBack: seq<FrontierItem>, chunks: seq<seq<FrontierItem>>,
                     hand: multiset<FrontierItem>, stock: multiset<FrontierItem>,
                     reservoir': seq<FrontierItem>, diskBack': seq<FrontierItem>, chunks': seq<seq<FrontierItem>>, hand': multiset<FrontierItem>)
    requires Stocked(hosts, reservoir, diskBack, chunks, hand, stock)
    requires multiset(reservoir) + multiset(diskBack) + multiset(Flat(chunks)) + hand
          == multiset(reservoir') + multiset(diskBack') + multiset(Flat(chunks')) + hand'
    ensures Stocked(hosts, reservoir', diskBack', chunks', hand', stock)
  {
    forall x ensures stock[x] == InQueue(hosts, x) + multiset(reservoir')[x] + multiset(diskBack')[x] + multiset(Flat(chunks'))[x] + hand'[x] {
      assert (multiset(reservoir) + multiset(diskBack) + multiset(Flat(chunks)) + hand)[x]
          == (multiset(reservoir') + multiset(diskBack') + multiset(Flat(chunks')) + hand')[x];
    }
  }

  /** One host's queue changes by what comes from, or goes into, the stock or the hand. */
  lemma QueueChanges(hosts: map<Text, HostQueue>, reservoir: seq<FrontierItem>, diskBack: seq<FrontierItem>, chunks: seq<seq<FrontierItem>>,
                     hand: multiset<FrontierItem>, stock: multiset<FrontierItem>, h: Text, q: HostQueue, hand': multiset<FrontierItem>,
                     stock': multiset<FrontierItem>)
    requires Stocked(hosts, reservoir, diskBack, chunks, hand, stock)
    requires var items := if h in hosts then hosts[h].items else [];
      && multiset(q.items) + hand' + stock == multiset(items) + hand + stock'
      && (forall x :: x in items || x in q.items ==> HostKey(x.link) == h)
    ensures Stocked(hosts[h := q], reservoir, diskBack, chunks, hand', stock')
  {
    var items := if h in hosts then hosts[h].items else [];
    forall x ensures stock'[x] == InQueue(hosts[h := q], x) + multiset(reservoir)[x] + multiset(diskBack)[x] + multiset(Flat(chunks))[x] + hand'[x] {
      assert (multiset(q.items) + hand' + stock)[x] == (multiset(items) + hand + stock')[x];
      if HostKey(x.link) != h {
        assert x !in items && x !in q.items;
      }
    }
  }

  /** The same items in the same queues. */
  ghost predicate SameItems(a: map<Text, HostQueue>, b: map<Text, HostQueue>) {
    && (forall h :: h in a <==> h in b)
    && (forall h :: h in a ==> a[h].items == b[h].items)
  }

  lemma SameItemsStocked(hosts: map<Text, HostQueue>, hosts': map<Text, HostQueue>, reservoir: seq<FrontierItem>,
                         diskBack: seq<FrontierItem>, chunks: seq<seq<FrontierItem>>, hand: multiset<FrontierItem>, stock: multiset<FrontierItem>)
    requires Stocked(hosts, reservoir, diskBack, chunks, hand, stock) && SameItems(hosts, hosts')
    ensures Stocked(hosts', reservoir, diskBack, chunks, hand, stock)
  {
    hide HostKey;
    forall x ensures InQueue(hosts', x) == InQueue(hosts, x) {
      if HostKey(x.link) in hosts { assert hosts[HostKey(x.link)].items == hosts'[HostKey(x.link)].items; }
    }
  }

  /** The items pushed, done with, waiting, with workers, and given up; and which worker holds which. */
  datatype Books = Books(entered: multiset<FrontierItem>, finished: multiset<FrontierItem>, stock: multiset<FrontierItem>,
                         flying: multiset<FrontierItem>, lost: multiset<FrontierItem>, held: map<Worker, FrontierItem>)

  const EMPTY_BOOKS := Books(multiset{}, multiset{}, multiset{}, multiset{}, multiset{}, map[])

  /** Nothing is doubled: what came in waits, is with a worker, is done with, or was lost; only items
      without host are ever lost; and the source's two counters say how much waits and how much is not
      done with. */
  ghost predicate Accounts(b: Books, queued: nat, pending: nat) {
    && b.entered == b.stock + b.flying + b.finished + b.lost
    && queued == |b.stock| && pending == |b.stock| + |b.flying| + |b.lost|
    && forall x :: x in b.lost ==> HostKey(x.link) == []
  }

  function In(b: Books, items: multiset<FrontierItem>): Books {
    b.(entered := b.entered + items, stock := b.stock + items)
  }

  lemma AccountIn(b: Books, queued: nat, pending: nat, item: FrontierItem)
    requires Accounts(b, queued, pending)
    ensures var now := In(b, multiset{item});
      Accounts(now, queued + 1, pending + 1) && now.stock == b.stock + multiset{item} && now.flying == b.flying && now.held == b.held
  {
  }

  /** The source closes the frontier only when all items that came in are done with. */
  lemma NothingPending(b: Books, queued: nat, pending: nat)
    requires Accounts(b, queued, pending)
    ensures pending == 0 <==> b.stock == multiset{} && b.flying == multiset{} && b.lost == multiset{}
    ensures pending == 0 <==> b.entered == b.finished
    ensures pending > queued <==> b.flying + b.lost != multiset{}
  {
    hide HostKey;
    var open := b.stock + b.flying + b.lost;
    assert b.entered == b.finished + open;
    assert |open| == pending;
    if b.entered == b.finished {
      forall x ensures open[x] == 0 { assert b.entered[x] == b.finished[x] + open[x]; }
    }
    assert pending - queued == |b.flying + b.lost|;
  }

  function Out(b: Books, w: Worker, item: FrontierItem): Books {
    b.(stock := b.stock - multiset{item}, flying := b.flying + multiset{item}, held := b.held[w := item])
  }

  lemma AccountOut(active: map<Worker, Text>, b: Books, queued: nat, pending: nat, w: Worker, item: FrontierItem)
    requires Accounts(b, queued, pending) && InFlight(active, b.held, b.flying) && item in b.stock && w !in b.held
    ensures queued > 0 && Accounts(Out(b, w, item), queued - 1, pending) && Out(b, w, item).stock == b.stock - multiset{item}
    ensures InFlight(Taken(active, w, HostKey(item.link)), Out(b, w, item).held, Out(b, w, item).flying)
  {
    hide HostKey, InFlight;
    TakeUp(active, b.held, b.flying, w, item);
  }

  function Back(b: Books, w: Worker): Books
    requires w in b.held
  {
    b.(stock := b.stock + multiset{b.held[w]}, flying := b.flying - multiset{b.held[w]}, held := b.held - {w})
  }

  lemma AccountBack(b: Books, queued: nat, pending: nat, w: Worker)
    requires Accounts(b, queued, pending) && w in b.held && b.held[w] in b.flying
    ensures Accounts(Back(b, w), queued + 1, pending)
  {
  }

  function Done(b: Books, w: Worker): Books
    requires w in b.held
  {
    b.(finished := b.finished + multiset{b.held[w]}, flying := b.flying - multiset{b.held[w]}, held := b.held - {w})
  }

  /** An item without host whose worker wants to snooze it is dropped. */
  function Dropped(b: Books, w: Worker): Books
    requires w in b.held
  {
    b.(lost := b.lost + multiset{b.held[w]}, flying := b.flying - multiset{b.held[w]}, held := b.held - {w})
  }

  lemma AccountDropped(b: Books, queued: nat, pending: nat, w: Worker)
    requires Accounts(b, queued, pending) && w in b.held && b.held[w] in b.flying && HostKey(b.held[w].link) == []
    ensures Accounts(Dropped(b, w), queued, pending)
  {
    hide HostKey;
  }

  lemma AccountDone(active: map<Worker, Text>, b: Books, queued: nat, pending: nat, w: Worker)
    requires Accounts(b, queued, pending) && InFlight(active, b.held, b.flying) && w in b.held
    ensures pending > 0 && Accounts(Done(b, w), queued, pending - 1) && Done(b, w).stock == b.stock
    ensures InFlight(active - {w}, Done(b, w).held, Done(b, w).flying)
  {
    hide HostKey, InFlight;
    LayDown(active, b.held, b.flying, w);
  }

  /** Items without address are passed over. */
  function WithLink(items: seq<FrontierItem>): seq<FrontierItem> {
    if items == [] then []
    else
      var last := items[|items| - 1];
      WithLink(items[..|items| - 1]) + if last.link == [] then [] else [last]
  }

  /** Many items pushed. */
  function Pushed(b: Books, items: seq<FrontierItem>): Books {
    In(b, multiset(WithLink(items)))
  }

  lemma NoneLinked()
    ensures WithLink([]) == []
  {
  }

  lemma LinkedMore(items: seq<FrontierItem>, i: nat)
    requires i < |items|
    ensures WithLink(items[..i + 1]) == WithLink(items[..i]) + if items[i].link == [] then [] else [items[i]]
  {
    assert items[..i + 1][..i] == items[..i];
  }

  lemma NothingPushed(b: Books)
    ensures Pushed(b, []) == b
  {
  }

  lemma PushedMore(b: Books, items: seq<FrontierItem>, i: nat)
    requires i < |items|
    ensures Pushed(b, items[..i + 1])
         == if items[i].link == [] then Pushed(b, items[..i]) else In(Pushed(b, items[..i]), multiset{items[i]})
  {
    assert items[..i + 1][..i] == items[..i];
  }

  lemma ItemEnters(hosts: map<Text, HostQueue>, reservoir: seq<FrontierItem>, diskBack: seq<FrontierItem>, chunks: seq<seq<FrontierItem>>,
                   stock: multiset<FrontierItem>, item: FrontierItem)
    requires Stocked(hosts, reservoir, diskBack, chunks, multiset{}, stock)
    ensures Stocked(hosts, reservoir, diskBack, chunks, multiset{item}, stock + multiset{item})
  {
    hide HostKey, InQueue, Flat;
  }

  lemma StoredInReservoir(hosts: map<Text, HostQueue>, reservoir: seq<FrontierItem>, diskBack: seq<FrontierItem>,
                          chunks: seq<seq<FrontierItem>>, stock: multiset<FrontierItem>, item: FrontierItem)
    requires Stocked(hosts, reservoir, diskBack, chunks, multiset{item}, stock)
    ensures Stocked(hosts, reservoir + [item], diskBack, chunks, multiset{}, stock)
  {
    hide Stocked, HostKey, Flat;
    LayersChange(hosts, reservoir, diskBack, chunks, multiset{item}, stock, reservoir + [item], diskBack, chunks, multiset{});
  }

  lemma StoredBehind(hosts: map<Text, HostQueue>, reservoir: seq<FrontierItem>, diskBack: seq<FrontierItem>,
                     chunks: seq<seq<FrontierItem>>, stock: multiset<FrontierItem>, item: FrontierItem,
                     diskBack': seq<FrontierItem>, chunks': seq<seq<FrontierItem>>)
    requires Stocked(hosts, reservoir, diskBack, chunks, multiset{item}, stock)
    requires Flat(chunks') + diskBack' == Flat(chunks) + diskBack
    ensures Stocked(hosts, reservoir, diskBack' + [item], chunks', multiset{}, stock)
  {
    hide Stocked, HostKey, Flat;
    assert multiset(Flat(chunks') + diskBack') == multiset(Flat(chunks) + diskBack);
    Shifted(multiset(reservoir), multiset(diskBack), multiset(Flat(chunks)), multiset(diskBack'), multiset(Flat(chunks')), multiset{item});
    LayersChange(hosts, reservoir, diskBack, chunks, multiset{item}, stock, reservoir, diskBack' + [item], chunks', multiset{});
  }

  lemma Shifted(a: multiset<FrontierItem>, b: multiset<FrontierItem>, c: multiset<FrontierItem>, b': multiset<FrontierItem>,
                c': multiset<FrontierItem>, d: multiset<FrontierItem>)
    requires c' + b' == c + b
    ensures a + b + c + d == a + (b' + d) + c' + multiset{}
  {
    assert a + b + c + d == a + (c + b) + d;
  }

  lemma InHand(hosts: map<Text, HostQueue>, reservoir: seq<FrontierItem>, diskBack: seq<FrontierItem>, chunks: seq<seq<FrontierItem>>,
               stock: multiset<FrontierItem>, rest: seq<FrontierItem>, promoted: seq<FrontierItem>)
    requires Stocked(hosts, reservoir, diskBack, chunks, multiset{}, stock)
    requires multiset(rest) + multiset(promoted) == multiset(reservoir)
    ensures Stocked(hosts, rest, diskBack, chunks, multiset(promoted), stock)
  {
    hide Stocked, Flat;
    var b, c := multiset(diskBack), multiset(Flat(chunks));
    assert multiset(rest) + b + c + multiset(promoted) == (multiset(rest) + multiset(promoted)) + b + c;
    LayersChange(hosts, reservoir, diskBack, chunks, multiset{}, stock, rest, diskBack, chunks, multiset(promoted));
  }

  lemma StartsEmpty()
    ensures Scheduled(map[], [], multiset{}, map[], 0, map[])
    ensures Stocked(map[], [], [], [], multiset{}, multiset{}) && InFlight(map[], map[], multiset{})
    ensures Accounts(EMPTY_BOOKS, 0, 0)
  {
  }

  // ---------------------------------------------------------------- the frontier

  /** What a round of pop comes to; in the last case the source wrote behind the end of the reservoir,
      and nothing is said about what follows. */
  datatype PopResult = Got(item: FrontierItem) | Closed | Wait | OutOfRange

  function ReadyTime(s: SleepingHost): real { s.readyAtMs as real }

  /** The chunk written last is read back. */
  predicate Loads(limit: nat, back: seq<FrontierItem>, chunks: seq<seq<FrontierItem>>, readable: bool) {
    |back| < limit * 30 / 100 && chunks != [] && readable
  }

  function BackThen(limit: nat, back: seq<FrontierItem>, chunks: seq<seq<FrontierItem>>, readable: bool): seq<FrontierItem> {
    if Loads(limit, back, chunks, readable) then back + chunks[|chunks| - 1] else back
  }

  function ChunksThen(limit: nat, back: seq<FrontierItem>, chunks: seq<seq<FrontierItem>>, readable: bool): seq<seq<FrontierItem>> {
    if Loads(limit, back, chunks, readable) then chunks[..|chunks| - 1] else chunks
  }

  /** How many items move from the back reservoir into the reservoir. */
  function Forward(limit: nat, reservoir: seq<FrontierItem>, back: seq<FrontierItem>): (n: nat)
    ensures n <= |back|
  {
    if |reservoir| < limit * 50 / 100 then Min(limit * 50 / 100, |back|) else 0
  }

  function ItemsAt(hosts: map<Text, HostQueue>, h: Text): seq<FrontierItem> {
    if h in hosts then hosts[h].items else []
  }

  /** The items of one host, in order. */
  function OfHost(items: seq<FrontierItem>, h: Text): seq<FrontierItem> {
    if items == [] then []
    else
      var last := items[|items| - 1];
      OfHost(items[..|items| - 1], h) + if HostKey(last.link) == h then [last] else []
  }

  /** Each item was queued last at its host, one after another. */
  ghost predicate Queued(hosts: map<Text, HostQueue>, hosts': map<Text, HostQueue>, items: seq<FrontierItem>) {
    forall h :: ItemsAt(hosts', h) == ItemsAt(hosts, h) + OfHost(items, h)
  }

  lemma QueuedMore(hosts: map<Text, HostQueue>, hosts1: map<Text, HostQueue>, hosts2: map<Text, HostQueue>, items: seq<FrontierItem>, i: nat)
    requires i < |items| && Queued(hosts, hosts1, items[..i]) && Queued(hosts1, hosts2, [items[i]])
    ensures Queued(hosts, hosts2, items[..i + 1])
  {
    hide HostKey, ItemsAt;
    assert items[..i + 1][..i] == items[..i];
    forall h ensures ItemsAt(hosts2, h) == ItemsAt(hosts, h) + OfHost(items[..i + 1], h) {
      OfOne(items[i], h);
      assert ItemsAt(hosts2, h) == ItemsAt(hosts1, h) + OfHost([items[i]], h);
    }
  }

  lemma QueuedNone(hosts: map<Text, HostQueue>)
    ensures Queued(hosts, hosts, [])
  {
  }

  lemma OfOne(item: FrontierItem, h: Text)
    ensures OfHost([item], h) == if HostKey(item.link) == h then [item] else []
  {
    assert [item][..0] == [];
  }

  lemma QueuedOne(hosts: map<Text, HostQueue>, q: HostQueue, item: FrontierItem)
    requires q.items == ItemsAt(hosts, HostKey(item.link)) + [item]
    ensures Queued(hosts, hosts[HostKey(item.link) := q], [item])
  {
    hide HostKey, OfHost;
    forall h { OfOne(item, h); }
  }

  class Frontier {
    var hostQueues: map<Text, HostQueue>
    var readyHosts: seq<Text>
    const sleepingHosts: PriorityQueue<SleepingHost>
    var reservoir: seq<FrontierItem>
    var diskBackReservoir: seq<FrontierItem>
    var reservoirSweepCursor: nat
    var closed: bool
    var pending: nat
    var queued: nat
    const autoCloseWhenDrained: bool
    const maxQueuedItems: nat
    const score: FrontierItem -> real

    /** The chunk files, the one written last at the end; their number is diskBackedChunksOnDisk. */
    var chunks: seq<seq<FrontierItem>>

    /** The host each worker thread is at work on. */
    var activeHost: map<Worker, Text>

    /** The monotonic clock as it was last read. */
    var clock: int

    /** Until when each host has been snoozed. */
    ghost var snoozed: map<Text, int>

    ghost var books: Books

    ghost predicate Scheduling()
      reads this`hostQueues, this`readyHosts, this`activeHost, this`clock, this`snoozed, sleepingHosts
    {
      && sleepingHosts.Valid() && sleepingHosts.key == ReadyTime
      && Scheduled(hostQueues, readyHosts, sleepingHosts.Contents(), activeHost, clock, snoozed)
    }

    /** No item is lost or doubled, and the counters are right, with the given items in hand. */
    ghost predicate Balanced(hand: multiset<FrontierItem>)
      reads this`hostQueues, this`reservoir, this`diskBackReservoir, this`chunks, this`activeHost, this`books, this`queued, this`pending
    {
      && Stocked(hostQueues, reservoir, diskBackReservoir, chunks, hand, books.stock)
      && InFlight(activeHost, books.held, books.flying)
      && Accounts(books, queued, pending)
      && 0 < maxQueuedItems && |reservoir| <= maxQueuedItems
    }

    ghost predicate Valid()
      reads this`hostQueues, this`reservoir, this`diskBackReservoir, this`chunks, this`activeHost, this`books, this`queued, this`pending,
        this`readyHosts, this`clock, this`snoozed, sleepingHosts
    {
      Scheduling() && Balanced(multiset{})
    }

    lemma ValidParts()
      requires Valid()
      ensures Scheduling() && Stocked(hostQueues, reservoir, diskBackReservoir, chunks, multiset{}, books.stock)
      ensures InFlight(activeHost, books.held, books.flying) && Accounts(books, queued, pending)
      ensures 0 < maxQueuedItems && |reservoir| <= maxQueuedItems
    {
      hide Frontier.Scheduling, Stocked, InFlight, Accounts;
    }

    lemma IsValid()
      requires Scheduling() && Stocked(hostQueues, reservoir, diskBackReservoir, chunks, multiset{}, books.stock)
      requires InFlight(activeHost, books.held, books.flying) && Accounts(books, queued, pending)
      requires 0 < maxQueuedItems && |reservoir| <= maxQueuedItems
      ensures Valid()
    {
      hide Frontier.Scheduling, Stocked, InFlight, Accounts;
    }

    lemma BalancedParts(hand: multiset<FrontierItem>)
      requires Balanced(hand)
      ensures Stocked(hostQueues, reservoir, diskBackReservoir, chunks, hand, books.stock)
      ensures InFlight(activeHost, books.held, books.flying) && Accounts(books, queued, pending)
      ensures 0 < maxQueuedItems && |reservoir| <= maxQueuedItems
    {
      hide Stocked, InFlight, Accounts;
    }

    lemma IsBalanced(hand: multiset<FrontierItem>)
      requires Stocked(hostQueues, reservoir, diskBackReservoir, chunks, hand, books.stock)
      requires InFlight(activeHost, books.held, books.flying) && Accounts(books, queued, pending)
      requires 0 < maxQueuedItems && |reservoir| <= maxQueuedItems
      ensures Balanced(hand)
    {
      hide Stocked, InFlight, Accounts;
    }

    /** Starts with the given items; a limit of 0 stands for a million. */
    constructor (items: seq<FrontierItem>, autoCloseWhenDrained: bool, maxQueuedItems: nat, score: FrontierItem -> real)
      ensures Valid() && fresh(sleepingHosts) && this.autoCloseWhenDrained == autoCloseWhenDrained
      ensures this.maxQueuedItems == (if maxQueuedItems != 0 then maxQueuedItems else 1000000) && this.score == score
      ensures books == Pushed(EMPTY_BOOKS, items) && activeHost == map[] && snoozed == map[]
      ensures closed <==> autoCloseWhenDrained && pending == 0
      ensures LinedUp(WithLink(items), [], [])
    {
      hide Frontier.Valid, Frontier.Balanced, Stocked, Scheduled, InFlight, Accounts, HostKey, PriorityQueue.Valid, Pushed, Frontier.LinedUp, WithLink;
      hostQueues, readyHosts, reservoir, diskBackReservoir, chunks := map[], [], [], [], [];
      sleepingHosts := new PriorityQueue(ReadyTime);
      reservoirSweepCursor, closed, pending, queued := 0, false, 0, 0;
      this.autoCloseWhenDrained, this.score := autoCloseWhenDrained, score;
      this.maxQueuedItems := if maxQueuedItems != 0 then maxQueuedItems else 1000000;
      activeHost, clock, snoozed := map[], 0, map[];
      books := EMPTY_BOOKS;
      new;
      StartsEmpty();
      IsValid();
      assert Flat(chunks) + diskBackReservoir == [];
      PushAll(items);
      if pending == 0 && autoCloseWhenDrained {
        closed := true;
      }
    }

    method ReadClock() returns (now: int)
      requires Scheduling()
      modifies this`clock
      ensures Scheduling() && now == clock && old(clock) <= clock
    {
      hide Scheduled;
      now :| clock <= now;
      TimePasses(hostQueues, readyHosts, sleepingHosts.Contents(), activeHost, clock, snoozed, now);
      clock := now;
    }

    // -------------------------------------------------------------- the layers behind the host queues

    /** Writes the first 70 percent of a full back reservoir to a chunk file, unless that fails. */
    method DoBackUp() returns (ghost written: bool)
      modifies this`diskBackReservoir, this`chunks
      ensures var back := old(diskBackReservoir);
        if |back| >= maxQueuedItems && written
        then chunks == old(chunks) + [back[..|back| * 70 / 100]] && diskBackReservoir == back[|back| * 70 / 100..]
        else chunks == old(chunks) && diskBackReservoir == back
      ensures Flat(chunks) + diskBackReservoir == old(Flat(chunks) + diskBackReservoir)
    {
      written := false;
      if |diskBackReservoir| < maxQueuedItems {
        return;
      }
      var backupCount := |diskBackReservoir| * DISK_BACK_BACKUP_PERCENT / 100;
      if backupCount > |diskBackReservoir| {
        backupCount := |diskBackReservoir|;
      }
      var success: bool := *;
      written := success;
      if !success {
        return;
      }
      FlatMore(chunks, diskBackReservoir[..backupCount]);
      assert (Flat(chunks) + diskBackReservoir[..backupCount]) + diskBackReservoir[backupCount..] == Flat(chunks) + diskBackReservoir;
      assert diskBackReservoir == diskBackReservoir[..backupCount] + diskBackReservoir[backupCount..];
      chunks := chunks + [diskBackReservoir[..backupCount]];
      diskBackReservoir := diskBackReservoir[backupCount..];
    }

    /** Reads the chunk written last back in, unless it cannot be found or read. */
    method LoadDiskBackedChunkFromDisk() returns (loaded: bool, readable: bool)
      modifies this`diskBackReservoir, this`chunks
      ensures multiset(Flat(chunks)) + multiset(diskBackReservoir) == old(multiset(Flat(chunks)) + multiset(diskBackReservoir))
      ensures loaded <==> old(chunks) != [] && readable
      ensures loaded ==> chunks == old(chunks)[..|old(chunks)| - 1]
                         && diskBackReservoir == old(diskBackReservoir) + old(chunks)[|old(chunks)| - 1]
      ensures !loaded ==> chunks == old(chunks) && diskBackReservoir == old(diskBackReservoir)
    {
      var found: bool, read: bool := *, *;
      readable := found && read;
      if |chunks| == 0 {
        return false, readable;
      }
      if !found || !read {
        return false, readable;
      }
      diskBackReservoir := diskBackReservoir + chunks[|chunks| - 1];
      chunks := chunks[..|chunks| - 1];
      return true, readable;
    }

    /** Moves the oldest items of the back reservoir into the reservoir. */
    method RefillReservoirFromDiskBacked()
      requires |reservoir| <= maxQueuedItems * RESERVOIR_REFILL_PERCENT / 100
      modifies this`reservoir, this`diskBackReservoir
      ensures |reservoir| <= maxQueuedItems
      ensures var n := if old(|reservoir|) < maxQueuedItems then Min(maxQueuedItems * 50 / 100, old(|diskBackReservoir|)) else 0;
        reservoir == old(reservoir) + old(diskBackReservoir)[..n] && diskBackReservoir == old(diskBackReservoir)[n..]
    {
      if |reservoir| >= maxQueuedItems || diskBackReservoir == [] {
        return;
      }
      var refillCount := maxQueuedItems * RESERVOIR_REFILL_PERCENT / 100;
      if refillCount > |diskBackReservoir| {
        refillCount := |diskBackReservoir|;
      }
      reservoir := reservoir + diskBackReservoir[..refillCount];
      diskBackReservoir := diskBackReservoir[refillCount..];
    }

    /** An item is last in the reservoir or, when that is full, last behind it. */
    ghost predicate Behind(item: FrontierItem, reservoir0: seq<FrontierItem>, back0: seq<FrontierItem>)
      reads this`reservoir, this`diskBackReservoir, this`chunks
    {
      if |reservoir0| < maxQueuedItems then reservoir == reservoir0 + [item] && Flat(chunks) + diskBackReservoir == back0
      else reservoir == reservoir0 && Flat(chunks) + diskBackReservoir == back0 + [item]
    }

    /** Where an item goes: into the reservoir, or behind it when that is full. */
    method Store(item: FrontierItem)
      requires |reservoir| <= maxQueuedItems
      requires Stocked(hostQueues, reservoir, diskBackReservoir, chunks, multiset{item}, books.stock)
      modifies this`reservoir, this`diskBackReservoir, this`chunks
      ensures Stocked(hostQueues, reservoir, diskBackReservoir, chunks, multiset{}, books.stock) && |reservoir| <= maxQueuedItems
      ensures Behind(item, old(reservoir), old(Flat(chunks) + diskBackReservoir))
    {
      hide Stocked, HostKey, Flat;
      ghost var back, disk := diskBackReservoir, chunks;
      if |reservoir| < maxQueuedItems {
        StoredInReservoir(hostQueues, reservoir, back, disk, books.stock, item);
        reservoir := reservoir + [item];
        return;
      }
      var _ := DoBackUp();
      StoredBehind(hostQueues, reservoir, back, disk, books.stock, item, diskBackReservoir, chunks);
      diskBackReservoir := diskBackReservoir + [item];
      assert Flat(chunks) + diskBackReservoir == old(Flat(chunks) + diskBackReservoir) + [item];
    }

    method PushInternal(item: FrontierItem)
      requires Valid()
      modifies this`reservoir, this`diskBackReservoir, this`chunks, this`pending, this`queued, this`books
      ensures Valid()
      ensures books == if item.link == [] then old(books) else In(old(books), multiset{item})
      ensures item.link == [] ==> reservoir == old(reservoir) && diskBackReservoir == old(diskBackReservoir) && chunks == old(chunks)
      ensures item.link != [] ==> Behind(item, old(reservoir), old(Flat(chunks) + diskBackReservoir))
    {
      hide Frontier.Valid, Frontier.Balanced, Frontier.Scheduling, Frontier.Behind, Stocked, InFlight, HostKey, Flat, Accounts;
      if item.link == [] {
        return;
      }
      ValidParts();
      AccountIn(books, queued, pending, item);
      ItemEnters(hostQueues, reservoir, diskBackReservoir, chunks, books.stock, item);
      hide In;
      pending := pending + 1;
      queued := queued + 1;
      books := In(books, multiset{item});
      Store(item);
      IsValid();
    }

    /** Items with an address have come in order: the first ones into the reservoir until that is full, the
        others behind it. */
    ghost predicate LinedUp(items: seq<FrontierItem>, reservoir0: seq<FrontierItem>, back0: seq<FrontierItem>)
      requires |reservoir0| <= maxQueuedItems
      reads this`reservoir, this`diskBackReservoir, this`chunks
    {
      var m := Min(maxQueuedItems - |reservoir0|, |items|);
      reservoir == reservoir0 + items[..m] && Flat(chunks) + diskBackReservoir == back0 + items[m..]
    }

    lemma NoneLinedUp(items: seq<FrontierItem>)
      requires items == [] && |reservoir| <= maxQueuedItems
      ensures LinedUp(items, reservoir, Flat(chunks) + diskBackReservoir)
    {
      hide Flat;
    }

    lemma OneLinedUp(items: seq<FrontierItem>, item: FrontierItem, reservoir0: seq<FrontierItem>, back0: seq<FrontierItem>,
                     reservoir1: seq<FrontierItem>, back1: seq<FrontierItem>)
      requires |reservoir0| <= maxQueuedItems && Behind(item, reservoir1, back1)
      requires var m := Min(maxQueuedItems - |reservoir0|, |items|);
        reservoir1 == reservoir0 + items[..m] && back1 == back0 + items[m..]
      ensures LinedUp(items + [item], reservoir0, back0)
    {
      hide Flat;
      var more := items + [item];
      var m, n := Min(maxQueuedItems - |reservoir0|, |items|), Min(maxQueuedItems - |reservoir0|, |more|);
      if n > m {
        assert m == |items| && items[m..] == [] && more[n..] == [] && more[..n] == items[..m] + [item];
      } else {
        assert more[..n] == items[..m] && more[n..] == items[m..] + [item];
      }
    }

    lemma LinedUpParts(items: seq<FrontierItem>, reservoir0: seq<FrontierItem>, back0: seq<FrontierItem>)
      requires |reservoir0| <= maxQueuedItems && LinedUp(items, reservoir0, back0)
      ensures var m := Min(maxQueuedItems - |reservoir0|, |items|);
        reservoir == reservoir0 + items[..m] && Flat(chunks) + diskBackReservoir == back0 + items[m..]
    {
      hide Flat;
    }

    lemma SameLinedUp(items: seq<FrontierItem>, reservoir0: seq<FrontierItem>, back0: seq<FrontierItem>,
                      reservoir1: seq<FrontierItem>, back1: seq<FrontierItem>)
      requires |reservoir0| <= maxQueuedItems && reservoir == reservoir1 && Flat(chunks) + diskBackReservoir == back1
      requires var m := Min(maxQueuedItems - |reservoir0|, |items|);
        reservoir1 == reservoir0 + items[..m] && back1 == back0 + items[m..]
      ensures LinedUp(items, reservoir0, back0)
    {
      hide Flat;
    }

    lemma ReservoirFits()
      requires Valid()
      ensures |reservoir| <= maxQueuedItems
    {
      hide Frontier.Scheduling, Stocked, InFlight, Accounts;
    }

    method PushAll(items: seq<FrontierItem>)
      requires Valid()
      modifies this`reservoir, this`diskBackReservoir, this`chunks, this`pending, this`queued, this`books
      ensures Valid()
      ensures books == Pushed(old(books), items)
      ensures |old(reservoir)| <= maxQueuedItems && LinedUp(WithLink(items), old(reservoir), old(Flat(chunks) + diskBackReservoir))
    {
      hide Frontier.Valid, HostKey, WithLink, In, Pushed, Frontier.LinedUp, Frontier.Behind, Flat;
      ReservoirFits();
      NoneLinked();
      NoneLinedUp([]);
      NothingPushed(books);
      assert items[..0] == [];
      for i := 0 to |items|
        invariant Valid()
        invariant books == Pushed(old(books), items[..i])
        invariant LinedUp(WithLink(items[..i]), old(reservoir), old(Flat(chunks) + diskBackReservoir))
      {
        PushedMore(old(books), items, i);
        LinkedMore(items, i);
        ghost var res, back := reservoir, Flat(chunks) + diskBackReservoir;
        LinedUpParts(WithLink(items[..i]), old(reservoir), old(Flat(chunks) + diskBackReservoir));
        PushInternal(items[i]);
        if items[i].link != [] {
          OneLinedUp(WithLink(items[..i]), items[i], old(reservoir), old(Flat(chunks) + diskBackReservoir), res, back);
        } else {
          assert WithLink(items[..i]) + [] == WithLink(items[..i]);
          SameLinedUp(WithLink(items[..i]), old(reservoir), old(Flat(chunks) + diskBackReservoir), res, back);
        }
      }
      assert items[..|items|] == items;
    }

    /** push and pushMany: a closed frontier takes nothing any more. */
    method PushMany(items: seq<FrontierItem>)
      requires Valid()
      modifies this`reservoir, this`diskBackReservoir, this`chunks, this`pending, this`queued, this`books
      ensures Valid()
      ensures books == if closed then old(books) else Pushed(old(books), items)
      ensures |old(reservoir)| <= maxQueuedItems
      ensures LinedUp(if closed then [] else WithLink(items), old(reservoir), old(Flat(chunks) + diskBackReservoir))
    {
      hide Frontier.Valid, HostKey, In, Pushed, Frontier.LinedUp, Flat, WithLink;
      ReservoirFits();
      NoneLinked();
      NoneLinedUp([]);
      NothingPushed(books);
      if closed || |items| == 0 {
        return;
      }
      PushAll(items);
    }

    // -------------------------------------------------------------- hosts

    /** A host with items that is neither in flight nor blocked becomes ready; a blocked one sleeps. */
    method ScheduleHost(h: Text, now: int)
      requires h in hostQueues && sleepingHosts.Valid()
      modifies this`hostQueues, this`readyHosts, sleepingHosts
      ensures sleepingHosts.Valid()
      ensures hostQueues == old(hostQueues)[h := Settled(old(hostQueues[h]), now)]
      ensures readyHosts == ReadyAfter(old(readyHosts), h, old(hostQueues[h]), now)
      ensures sleepingHosts.Contents() == SleepingAfter(old(sleepingHosts.Contents()), h, old(hostQueues[h]), now)
      ensures old(readyHosts) <= readyHosts
    {
      var host := hostQueues[h];
      if host.items == [] || host.inFlight || host.inReadyQueue {
        assert hostQueues == hostQueues[h := host];
        return;
      }
      if host.blockedUntilMs > now {
        if !host.inSleepingQueue {
          sleepingHosts.Push(SleepingHost(host.blockedUntilMs, host.sleepGeneration, h));
          host := host.(inSleepingQueue := true);
          hostQueues := hostQueues[h := host];
        }
        assert hostQueues == hostQueues[h := host];
        return;
      }
      if host.blockedUntilMs != 0 && host.blockedUntilMs <= now {
        host := host.(blockedUntilMs := 0);
      }
      host := host.(inSleepingQueue := false);
      readyHosts := readyHosts + [h];
      host := host.(inReadyQueue := true);
      hostQueues := hostQueues[h := host];
    }

    /** Wakes the hosts whose time has come. */
    method PromoteSleepingHosts(now: int)
      requires Scheduling() && now == clock
      modifies this`hostQueues, this`readyHosts, sleepingHosts
      ensures Scheduling() && SameItems(old(hostQueues), hostQueues) && (old(Stuck(hostQueues)) ==> Stuck(hostQueues))
      ensures Woken(old(hostQueues), hostQueues, old(sleepingHosts.Contents()), now)
      ensures forall s :: s in sleepingHosts.Contents() ==> now < s.readyAtMs
      ensures old(readyHosts) <= readyHosts
    {
      hide Scheduled, HostOk, Woken, Wakes, Awake;
      ghost var sleeping0 := sleepingHosts.Contents();
      NobodyWoken(hostQueues, sleeping0, now);
      while sleepingHosts.data != [] && sleepingHosts.data[0].readyAtMs <= now
        invariant old(readyHosts) <= readyHosts
        invariant Scheduling() && SameItems(old(hostQueues), hostQueues) && (old(Stuck(hostQueues)) ==> Stuck(hostQueues))
        invariant Woken(old(hostQueues), hostQueues, sleeping0, now) && sleepingHosts.Contents() <= sleeping0
        decreases |sleepingHosts.data|
      {
        ghost var hosts0 := hostQueues;
        ghost var woken, s := WakeNext(now);
        if woken { WokenMore(old(hostQueues), hosts0, sleeping0, now, s); }
      }
      forall s | s in sleepingHosts.Contents() ensures now < s.readyAtMs {
        TopFirst(sleepingHosts, s);
      }
    }

    /** The loop body of promoteSleepingHosts. */
    method WakeNext(now: int) returns (ghost woken: bool, ghost s: SleepingHost)
      requires Scheduling() && now == clock && sleepingHosts.data != [] && sleepingHosts.data[0].readyAtMs <= now
      modifies this`hostQueues, this`readyHosts, sleepingHosts
      ensures Scheduling() && SameItems(old(hostQueues), hostQueues) && (old(Stuck(hostQueues)) ==> Stuck(hostQueues))
      ensures |sleepingHosts.data| < old(|sleepingHosts.data|)
      ensures s in old(sleepingHosts.Contents()) && s.readyAtMs <= now && sleepingHosts.Contents() <= old(sleepingHosts.Contents())
      ensures s.hostKey in old(hostQueues) && (woken <==> Wakes(old(hostQueues)[s.hostKey], s, now))
      ensures hostQueues == if woken then old(hostQueues)[s.hostKey := Awake(old(hostQueues)[s.hostKey])] else old(hostQueues)
      ensures old(readyHosts) <= readyHosts
    {
      hide Scheduled, HostKey, SameItems, Stuck;
      ghost var sleeping0 := sleepingHosts.Contents();
      var top := sleepingHosts.ExtractTop();
      var sleeping := top.value;
      OneGone(sleeping0, sleepingHosts.Contents(), sleeping);
      hide PriorityQueue.Valid;
      EntryTaken(hostQueues, readyHosts, sleeping0, activeHost, clock, snoozed, sleeping);
      WakingKeeps(hostQueues, sleeping.hostKey);
      var h := sleeping.hostKey;
      var host := hostQueues[h];
      woken, s := Wakes(host, sleeping, now), sleeping;
      if host.sleepGeneration != sleeping.generation || host.items == [] || host.inFlight || host.inReadyQueue {
        return;
      }
      if host.blockedUntilMs > now {
        return;
      }
      host := host.(blockedUntilMs := 0, inSleepingQueue := false);
      readyHosts := readyHosts + [h];
      host := host.(inReadyQueue := true);
      hostQueues := hostQueues[h := host];
    }

    // -------------------------------------------------------------- promoting from the reservoir

    /** Puts an item in hand into its host's queue. */
    method EnqueueScheduledItem(item: FrontierItem, now: int, ghost hand: multiset<FrontierItem>)
      requires Scheduling() && Balanced(hand) && now == clock && item in hand
      modifies this`hostQueues, this`readyHosts, sleepingHosts
      ensures Scheduling() && Balanced(hand - multiset{item}) && (old(Stuck(hostQueues)) ==> Stuck(hostQueues))
      ensures Queued(old(hostQueues), hostQueues, [item])
      ensures forall s :: s in sleepingHosts.Contents() ==> s in old(sleepingHosts.Contents()) || clock < s.readyAtMs
      ensures old(readyHosts) <= readyHosts
    {
      hide Scheduled, Stocked, InFlight, Accounts, HostKey, Settled, ReadyAfter, SleepingAfter, Queued, PriorityQueue.Valid;
      var h := ExtractHostKey(item.link);
      ghost var hosts0 := hostQueues;
      ItemScheduled(hostQueues, readyHosts, sleepingHosts.Contents(), activeHost, clock, snoozed, item);
      QueueHosts(hosts0, readyHosts, sleepingHosts.Contents(), activeHost, clock, snoozed, h);
      var host := if h in hostQueues then hostQueues[h] else NEW_HOST;
      host := host.(items := host.items + [item]);
      ItemQueued(hosts0, reservoir, diskBackReservoir, chunks, hand, books.stock, h, host, now, item);
      hostQueues := hostQueues[h := host];
      ScheduleHost(h, now);
      assert hostQueues == hosts0[h := Settled(host, now)];
      SleepersLater(old(sleepingHosts.Contents()), h, host, now);
      SettledItems(host, now);
      QueuedOne(hosts0, Settled(host, now), item);
    }

    /** While no host is ready, sweeps the reservoir and promotes the best quarter of each window, until a
        sweep leaves the range. With a limit of at most 512 items, every window is the whole reservoir,
        and none does. */
    method PromoteReservoir(now: int) returns (ok: bool, readable: bool)
      requires Valid() && now == clock
      modifies this`hostQueues, this`readyHosts, this`reservoir, this`diskBackReservoir, this`chunks, this`reservoirSweepCursor,
        this`clock, sleepingHosts
      ensures !ok ==> maxQueuedItems > WINDOW
      ensures ok ==> Valid() && old(clock) <= clock
      ensures ok ==> BackMoved(old(reservoir), old(diskBackReservoir), old(chunks), readable)
      ensures old(readyHosts) != [] ==>
                ok && MovedForward(old(reservoir), old(diskBackReservoir), old(chunks), readable) && readyHosts == old(readyHosts) && hostQueues == old(hostQueues)
      ensures ok && readyHosts == [] ==> reservoir == []
      ensures ok && old(Stuck(hostQueues)) ==> Stuck(hostQueues)
      ensures ok ==> forall s :: s in sleepingHosts.Contents() ==> s in old(sleepingHosts.Contents()) || now < s.readyAtMs
    {
      hide Frontier.Valid, Frontier.Scheduling, Frontier.Balanced, AreBest, Pick, Queued, BackThen, ChunksThen, Forward;
      readable := Refill();
      if readyHosts != [] || reservoir == [] {
        return true, readable;
      }
      var nowMs := now;
      ghost var back, disk := diskBackReservoir, chunks;
      while readyHosts == [] && reservoir != []
        invariant diskBackReservoir == back && chunks == disk
        invariant Valid() && nowMs == clock && old(clock) <= clock && (old(Stuck(hostQueues)) ==> Stuck(hostQueues))
        invariant forall s :: s in sleepingHosts.Contents() ==> s in old(sleepingHosts.Contents()) || now < s.readyAtMs
        decreases |reservoir|
      {
        var swept, _ := SweepOnce(nowMs);
        ok := swept;
        if !ok {
          return;
        }
        ValidParts();
        nowMs := ReadClock();
        IsValid();
      }
      ok := true;
    }

    /** The two refills at the start of promoteReservoir. */
    method Refill() returns (readable: bool)
      requires Valid()
      modifies this`reservoir, this`diskBackReservoir, this`chunks
      ensures Valid()
      ensures MovedForward(old(reservoir), old(diskBackReservoir), old(chunks), readable)
    {
      hide Frontier.Valid, BackThen, ChunksThen;
      readable := LoadBack();
      MoveForward();
    }

    method LoadBack() returns (readable: bool)
      requires Valid()
      modifies this`diskBackReservoir, this`chunks
      ensures Valid()
      ensures diskBackReservoir == BackThen(maxQueuedItems, old(diskBackReservoir), old(chunks), readable)
      ensures chunks == ChunksThen(maxQueuedItems, old(diskBackReservoir), old(chunks), readable)
    {
      hide Frontier.Valid, Frontier.Scheduling, Frontier.Balanced, Stocked, InFlight, Accounts, HostKey, Flat;
      ValidParts();
      readable := false;
      var diskBackRefillSize := maxQueuedItems * DISK_BACK_REFILL_PERCENT / 100;
      if |diskBackReservoir| < diskBackRefillSize {
        ghost var back, disk := diskBackReservoir, chunks;
        var _, couldRead := LoadDiskBackedChunkFromDisk();
        readable := couldRead;
        Shifted(multiset(reservoir), multiset(back), multiset(Flat(disk)), multiset(diskBackReservoir), multiset(Flat(chunks)), multiset{});
        LayersChange(hostQueues, reservoir, back, disk, multiset{}, books.stock, reservoir, diskBackReservoir, chunks, multiset{});
        IsValid();
      }
    }

    method MoveForward()
      requires Valid()
      modifies this`reservoir, this`diskBackReservoir
      ensures Valid()
      ensures var n := Forward(maxQueuedItems, old(reservoir), old(diskBackReservoir));
        reservoir == old(reservoir) + old(diskBackReservoir)[..n] && diskBackReservoir == old(diskBackReservoir)[n..]
    {
      hide Frontier.Valid, Frontier.Scheduling, Frontier.Balanced, Stocked, InFlight, Accounts, HostKey, Flat;
      ValidParts();
      var refillChunkSize := maxQueuedItems * RESERVOIR_REFILL_PERCENT / 100;
      if |reservoir| < refillChunkSize {
        ghost var res, back := reservoir, diskBackReservoir;
        RefillReservoirFromDiskBacked();
        assert reservoir + diskBackReservoir == res + back;
        assert multiset(reservoir + diskBackReservoir) == multiset(res + back);
        LayersChange(hostQueues, res, back, chunks, multiset{}, books.stock, reservoir, diskBackReservoir, chunks, multiset{});
        IsValid();
      }
    }

    /** What comes forward: with less than 30 percent of the limit in the back reservoir, the chunk written
        last, if it can be read; then, with less than 50 percent of the limit in the reservoir, that many
        items of the back reservoir, oldest first. */
    ghost predicate MovedForward(reservoir0: seq<FrontierItem>, back0: seq<FrontierItem>, chunks0: seq<seq<FrontierItem>>, readable: bool)
      reads this`reservoir, this`diskBackReservoir, this`chunks
    {
      var back := BackThen(maxQueuedItems, back0, chunks0, readable);
      && reservoir == reservoir0 + back[..Forward(maxQueuedItems, reservoir0, back)]
      && BackMoved(reservoir0, back0, chunks0, readable)
    }

    /** Of that, what is left behind the reservoir. */
    ghost predicate BackMoved(reservoir0: seq<FrontierItem>, back0: seq<FrontierItem>, chunks0: seq<seq<FrontierItem>>, readable: bool)
      reads this`diskBackReservoir, this`chunks
    {
      var back := BackThen(maxQueuedItems, back0, chunks0, readable);
      && diskBackReservoir == back[Forward(maxQueuedItems, reservoir0, back)..]
      && chunks == ChunksThen(maxQueuedItems, back0, chunks0, readable)
    }

    /** The loop body of promoteReservoir. */
    method SweepOnce(nowMs: int) returns (ok: bool, ghost winners: seq<Candidate>)
      requires Valid() && nowMs == clock && reservoir != []
      modifies this`hostQueues, this`readyHosts, this`reservoir, this`reservoirSweepCursor, sleepingHosts
      ensures !ok ==> |old(reservoir)| > WINDOW && maxQueuedItems > WINDOW
      ensures var start := if old(reservoirSweepCursor) < |old(reservoir)| then old(reservoirSweepCursor) else 0;
        var scanned := Min(512, |old(reservoir)|);
        && 4 * (|winners| - 1) < scanned <= 4 * |winners| && AreBest(winners, old(reservoir), start, scanned, score)
        && Places(Indices(winners), |old(reservoir)|)
        && (ok ==> && reservoirSweepCursor == (if reservoir == [] then 0 else (start + scanned) % |old(reservoir)| % |reservoir|)
                   && multiset(reservoir) + multiset(Pick(old(reservoir), Indices(winners))) == multiset(old(reservoir))
                   && Queued(old(hostQueues), hostQueues, Pick(old(reservoir), Indices(winners))))
      ensures ok ==> Valid() && |reservoir| < old(|reservoir|) && (old(Stuck(hostQueues)) ==> Stuck(hostQueues))
      ensures ok ==> forall s :: s in sleepingHosts.Contents() ==> s in old(sleepingHosts.Contents()) || clock < s.readyAtMs
      ensures ok ==> old(readyHosts) <= readyHosts
    {
      hide Frontier.Valid, Frontier.Scheduling, Frontier.Balanced, Stocked, InFlight, Accounts, AreBest, Pick, Queued;
      ValidParts();
      if reservoirSweepCursor >= |reservoir| {
        reservoirSweepCursor := 0;
      }
      var scanned := if |reservoir| < WINDOW then |reservoir| else WINDOW;
      IsBalanced(multiset{});
      var promoted;
      promoted, winners := TakeWinners(scanned);
      ok := promoted.Some?;
      if ok {
        EnqueueAll(promoted.value, nowMs);
      }
    }

    /** Chooses the best quarter of the window and takes it out of the reservoir, if that stays in range. */
    method TakeWinners(scanned: nat) returns (r: Option<seq<FrontierItem>>, ghost winners: seq<Candidate>)
      requires Balanced(multiset{}) && reservoirSweepCursor < |reservoir| && 0 < scanned <= |reservoir|
      modifies this`reservoir, this`reservoirSweepCursor
      ensures 4 * (|winners| - 1) < scanned <= 4 * |winners| && AreBest(winners, old(reservoir), old(reservoirSweepCursor), scanned, score)
      ensures Places(Indices(winners), |old(reservoir)|)
      ensures r.Some? <==> StaysInRange(winners, old(reservoirSweepCursor), scanned, |old(reservoir)|)
      ensures r.Some? ==>
                && Balanced(multiset(r.value)) && r.value == Pick(old(reservoir), Indices(winners))
                && multiset(reservoir) + multiset(r.value) == multiset(old(reservoir)) && |reservoir| == old(|reservoir|) - |winners|
                && reservoirSweepCursor == if reservoir == [] then 0 else (old(reservoirSweepCursor) + scanned) % |old(reservoir)| % |reservoir|
    {
      hide Frontier.Balanced, Stocked, InFlight, Accounts, AreBest, Pick;
      BalancedParts(multiset{});
      var keep := (scanned * PROMOTION_PERCENT + 99) / 100;
      if keep == 0 {
        keep := 1;
      }
      if keep > scanned {
        keep := scanned;
      }
      var chosen := SelectWinners(reservoir, reservoirSweepCursor, scanned, keep, score);
      BestArePlaces(chosen, reservoir, reservoirSweepCursor, scanned, score);
      PlacesInRange(Indices(chosen), |reservoir|);
      winners := chosen;
      var promoted := Pick(reservoir, Indices(chosen));
      var nextCursor := (reservoirSweepCursor + scanned) % |reservoir|;
      var removed := RemoveWinners(reservoir, chosen, reservoirSweepCursor, scanned);
      if removed.None? {
        return None, chosen;
      }
      var rest := removed.value;
      InHand(hostQueues, reservoir, diskBackReservoir, chunks, books.stock, rest, promoted);
      reservoir := rest;
      reservoirSweepCursor := if reservoir != [] then nextCursor % |reservoir| else 0;
      IsBalanced(multiset(promoted));
      r := Some(promoted);
    }

    /** Enqueues the promoted items. */
    method EnqueueAll(promoted: seq<FrontierItem>, nowMs: int)
      requires Scheduling() && Balanced(multiset(promoted)) && nowMs == clock
      modifies this`hostQueues, this`readyHosts, sleepingHosts
      ensures Queued(old(hostQueues), hostQueues, promoted)
      ensures Valid() && (old(Stuck(hostQueues)) ==> Stuck(hostQueues))
      ensures forall s :: s in sleepingHosts.Contents() ==> s in old(sleepingHosts.Contents()) || clock < s.readyAtMs
      ensures old(readyHosts) <= readyHosts
    {
      hide Frontier.Scheduling, Frontier.Balanced, Queued;
      QueuedNone(hostQueues);
      assert promoted[..0] == [];
      assert promoted[0..] == promoted;
      for i := 0 to |promoted|
        invariant old(readyHosts) <= readyHosts
        invariant Queued(old(hostQueues), hostQueues, promoted[..i])
        invariant Scheduling() && Balanced(multiset(promoted[i..])) && (old(Stuck(hostQueues)) ==> Stuck(hostQueues))
        invariant forall s :: s in sleepingHosts.Contents() ==> s in old(sleepingHosts.Contents()) || clock < s.readyAtMs
      {
        assert promoted[i..] == [promoted[i]] + promoted[i + 1..];
        assert multiset(promoted[i..]) - multiset{promoted[i]} == multiset(promoted[i + 1..]);
        ghost var hosts1 := hostQueues;
        EnqueueScheduledItem(promoted[i], nowMs, multiset(promoted[i..]));
        QueuedMore(old(hostQueues), hosts1, hostQueues, promoted, i);
      }
      assert promoted[|promoted|..] == [] && promoted[..|promoted|] == promoted;
    }

    // -------------------------------------------------------------- workers

    /** The start of a round of pop: the clock is read, and the hosts that are due wake up. */
    method WakeAll() returns (now: int)
      requires Valid()
      modifies this`clock, this`hostQueues, this`readyHosts, sleepingHosts
      ensures Valid() && now == clock && old(clock) <= now && (old(Stuck(hostQueues)) ==> Stuck(hostQueues))
      ensures SameItems(old(hostQueues), hostQueues)
      ensures Woken(old(hostQueues), hostQueues, old(sleepingHosts.Contents()), now)
      ensures forall s :: s in sleepingHosts.Contents() ==> now < s.readyAtMs
      ensures old(readyHosts) <= readyHosts
    {
      hide Frontier.Valid, Frontier.Scheduling, Frontier.Balanced, Stocked, InFlight, Accounts, HostKey, Woken;
      ValidParts();
      now := ReadClock();
      ghost var hosts0 := hostQueues;
      PromoteSleepingHosts(now);
      SameItemsStocked(hosts0, hostQueues, reservoir, diskBackReservoir, chunks, multiset{}, books.stock);
      IsValid();
    }

    /** One round of pop: hands out the first item of the first ready host, or says that the frontier is
        closed, or that the worker has to wait. The host was not snoozed beyond now, no other worker has
        it, and a worker waits only when every host with items is in flight or blocked. After the first
        item without host no other such item is handed out. */
    method PopOnce(w: Worker) returns (r: PopResult, ghost asked: int, readable: bool)
      requires Valid() && w !in books.held
      modifies this, sleepingHosts
      ensures r.OutOfRange? ==> maxQueuedItems > WINDOW
      ensures !r.OutOfRange? ==> Valid() && old(clock) <= asked <= clock && closed == old(closed) && unchanged(`snoozed)
      ensures !r.OutOfRange? && old(Stuck(hostQueues)) ==> Stuck(hostQueues)
      ensures r.Got? ==>
                && HostKey(r.item.link) !in old(activeHost).Values && activeHost == Taken(old(activeHost), w, HostKey(r.item.link))
                && r.item in old(books.stock) && books == Out(old(books), w, r.item)
                && Until(snoozed, HostKey(r.item.link)) <= clock
      ensures r.Got? && HostKey(r.item.link) == [] ==> !old(Stuck(hostQueues)) && Stuck(hostQueues)
      ensures r.Closed? || r.Wait? ==> activeHost == old(activeHost) && books == old(books) && reservoir == [] && readyHosts == []
      ensures r.Closed? || r.Wait? ==>
                forall h :: h in hostQueues && hostQueues[h].items != [] && !hostQueues[h].inFlight ==> asked < hostQueues[h].blockedUntilMs
      ensures r.Closed? ==> closed
      ensures r.Wait? ==> !closed
      ensures !r.OutOfRange? ==> BackMoved(old(reservoir), old(diskBackReservoir), old(chunks), readable)
      ensures old(readyHosts) != [] ==>
                && r.Got? && HostKey(r.item.link) == old(readyHosts)[0] && old(readyHosts)[1..] <= readyHosts
                && HostKey(r.item.link) in old(hostQueues) && [r.item] <= old(hostQueues)[HostKey(r.item.link)].items
    {
      hide Frontier.Valid, Frontier.BackMoved, Frontier.MovedForward, HostKey, Woken, Stuck, Out;
      var now := WakeAll();
      asked := now;
      var ok;
      ok, readable := PromoteReservoir(now);
      if !ok {
        return OutOfRange, asked, readable;
      }
      if readyHosts != [] {
        var item := HandOut(w);
        return Got(item), asked, readable;
      }
      AllBlocked(asked);
      r := if closed then Closed else Wait;
    }

    lemma AllBlocked(asked: int)
      requires Valid() && readyHosts == [] && forall s :: s in sleepingHosts.Contents() ==> asked < s.readyAtMs
      ensures forall h :: h in hostQueues && hostQueues[h].items != [] && !hostQueues[h].inFlight ==> asked < hostQueues[h].blockedUntilMs
    {
      hide Stocked, InFlight, Accounts, HostKey, NoDuplicates;
      forall h | h in hostQueues && hostQueues[h].items != [] && !hostQueues[h].inFlight ensures asked < hostQueues[h].blockedUntilMs {
        assert WakeUp(h, hostQueues[h]) in sleepingHosts.Contents();
      }
    }

    /** Takes the first item of the first ready host. The source passes over hosts that are missing,
        in flight, or empty; there are none among the ready ones. */
    method HandOut(w: Worker) returns (item: FrontierItem)
      requires Valid() && w !in books.held && readyHosts != []
      modifies this`hostQueues, this`readyHosts, this`activeHost, this`queued, this`books
      ensures Valid()
      ensures var h := old(readyHosts)[0];
        && h in old(hostQueues) && old(hostQueues)[h].items != [] && item == old(hostQueues)[h].items[0] && HostKey(item.link) == h
        && readyHosts == old(readyHosts)[1..]
        && hostQueues == old(hostQueues)[h := old(hostQueues)[h].(inReadyQueue := false, inFlight := true, items := old(hostQueues)[h].items[1..])]
      ensures HostKey(item.link) !in old(activeHost).Values && activeHost == Taken(old(activeHost), w, HostKey(item.link))
      ensures HostKey(item.link) == [] ==> !old(Stuck(hostQueues)) && Stuck(hostQueues)
      ensures old(Stuck(hostQueues)) ==> Stuck(hostQueues)
      ensures item in old(books.stock) && books == Out(old(books), w, item)
      ensures Until(snoozed, HostKey(item.link)) <= clock
    {
      hide Frontier.Valid, Frontier.Scheduling, Frontier.Balanced, Scheduled, Stocked, InFlight, Accounts, HostKey, Stuck, PriorityQueue.Valid;
      ValidParts();
      ghost var hosts0 := hostQueues;
      SchedulingParts();
      IdleIsFree(activeHost, books.held, books.flying, w);
      HostHandedOut(hostQueues, readyHosts, sleepingHosts.Contents(), activeHost, clock, snoozed, w);
      var h := readyHosts[0];
      readyHosts := readyHosts[1..];
      var host := hostQueues[h].(inReadyQueue := false);
      item := host.items[0];
      host := host.(items := host.items[1..]);
      ItemTaken(hosts0, reservoir, diskBackReservoir, chunks, books.stock, h, host.(inFlight := true), item);
      TakingSticks(hosts0, h, host.(inFlight := true));
      AccountOut(activeHost, books, queued, pending, w, item);
      hide Out, Taken, Busy;
      queued := queued - 1;
      host := host.(inFlight := true);
      hostQueues := hostQueues[h := host];
      activeHost := Taken(activeHost, w, h);
      books := Out(books, w, item);
      IsScheduling();
      IsValid();
    }

    /** A worker's host is free again, if one is remembered. */
    method ReleaseActiveHost(w: Worker, now: int)
      requires Scheduling() && now == clock
      modifies this`hostQueues, this`readyHosts, this`activeHost, sleepingHosts
      ensures Scheduling() && SameItems(old(hostQueues), hostQueues) && activeHost == old(activeHost) - {w}
      ensures old(Stuck(hostQueues)) ==> Stuck(hostQueues)
      ensures old(readyHosts) <= readyHosts
      ensures w in old(activeHost) ==>
                && old(activeHost)[w] in old(hostQueues) && FreeAgain(old(hostQueues), hostQueues, old(activeHost)[w])
                && readyHosts == old(readyHosts) + if old(hostQueues)[old(activeHost)[w]].items != [] then [old(activeHost)[w]] else []
    {
      hide Frontier.Scheduling, Scheduled, HostKey, Settled, ReadyAfter, FreeAgain, SleepingAfter, PriorityQueue.Valid;
      if w !in activeHost {
        assert activeHost - {w} == activeHost;
        return;
      }
      SchedulingParts();
      ActiveNamed(w);
      HostDone(hostQueues, readyHosts, sleepingHosts.Contents(), activeHost, clock, snoozed, w);
      var h := activeHost[w];
      FlyingUnblocked(hostQueues, readyHosts, sleepingHosts.Contents(), activeHost, clock, snoozed, h);
      ghost var hosts0, ready0 := hostQueues, readyHosts;
      var host := hostQueues[h].(inFlight := false);
      hostQueues := hostQueues[h := host];
      ScheduleHost(h, now);
      assert hostQueues == hosts0[h := Settled(host, now)];
      SettledItems(host, now);
      FreedIs(hosts0, ready0, h, now);
      activeHost := activeHost - {w};
      IsScheduling();
    }

    /** A worker is done with its item. The last one closes the frontier, when it closes by itself. The
        counter is never 0 before, so the source's first branch is not taken. */
    method TaskDone(w: Worker)
      requires Valid() && w in books.held
      modifies this`hostQueues, this`readyHosts, this`activeHost, this`pending, this`books, this`closed, this`clock, sleepingHosts
      ensures Valid() && old(clock) <= clock
      ensures books == Done(old(books), w) && activeHost == old(activeHost) - {w}
      ensures closed == (old(closed) || (autoCloseWhenDrained && books.entered == books.finished))
      ensures old(Stuck(hostQueues)) ==> Stuck(hostQueues)
      ensures old(readyHosts) <= readyHosts
      ensures w in old(activeHost) ==>
                && old(activeHost)[w] in old(hostQueues) && FreeAgain(old(hostQueues), hostQueues, old(activeHost)[w])
                && readyHosts == old(readyHosts) + if old(hostQueues)[old(activeHost)[w]].items != [] then [old(activeHost)[w]] else []
    {
      hide Frontier.Valid, Frontier.Scheduling, Frontier.Balanced, Stocked, InFlight, Accounts, HostKey, SameItems, Stuck, Holders, FreeAgain;
      ValidParts();
      AccountDone(activeHost, books, queued, pending, w);
      hide Done;
      ghost var hosts0 := hostQueues;
      var now := ReadClock();
      pending := pending - 1;
      books := Done(books, w);
      ReleaseActiveHost(w, now);
      SameItemsStocked(hosts0, hostQueues, reservoir, diskBackReservoir, chunks, multiset{}, books.stock);
      NothingPending(books, queued, pending);
      IsValid();
      if pending == 0 {
        if autoCloseWhenDrained {
          closed := true;
        }
      }
    }

    lemma ActiveNamed(w: Worker)
      requires Scheduling() && w in activeHost
      ensures activeHost[w] != []
    {
      hide HostOk, NoDuplicates, PriorityQueue.Valid;
    }

    /** A worker puts its item back, and its host to sleep. Of a worker without host nothing is put back,
        and an item it held is lost. */
    method SnoozeCurrent(w: Worker, item: FrontierItem, readyAtMs: int)
      requires Valid() && (w in books.held ==> item == books.held[w])
      modifies this`hostQueues, this`readyHosts, this`activeHost, this`queued, this`books, this`snoozed, this`clock, sleepingHosts
      ensures Valid() && old(clock) <= clock
      ensures w !in old(activeHost) ==>
                && activeHost == old(activeHost) && snoozed == old(snoozed) && hostQueues == old(hostQueues)
                && books == if w in old(books).held then Dropped(old(books), w) else old(books)
      ensures old(Stuck(hostQueues)) ==> Stuck(hostQueues)
      ensures w in old(activeHost) ==>
                && w in old(books).held && activeHost == old(activeHost) - {w} && books == Back(old(books), w)
                && ItemInFront(old(hostQueues), hostQueues, item) && readyAtMs <= Until(snoozed, HostKey(item.link))
                && snoozed == SnoozedMore(old(snoozed), HostKey(item.link), readyAtMs)
      ensures old(readyHosts) <= readyHosts
      ensures w in old(activeHost) ==>
                && HostKey(item.link) in hostQueues
                && SleepsUntil(hostQueues[HostKey(item.link)], readyAtMs, clock)
                && readyHosts == if readyAtMs > clock then old(readyHosts) else old(readyHosts) + [HostKey(item.link)]
    {
      hide Frontier.Valid, Frontier.Scheduling, Frontier.Balanced, Stocked, InFlight, Accounts, HostKey, ItemInFront, SnoozedMore;
      ValidParts();
      if w !in activeHost {
        if w in books.held {
          HeldHostless(activeHost, books.held, books.flying, w);
          LayDown(activeHost, books.held, books.flying, w);
          AccountDropped(books, queued, pending, w);
          assert activeHost - {w} == activeHost;
          books := Dropped(books, w);
          IsValid();
        }
        return;
      }
      HeldFacts(activeHost, books.held, books.flying, w);
      LayDown(activeHost, books.held, books.flying, w);
      AccountBack(books, queued, pending, w);
      ghost var hosts0 := hostQueues;
      SnoozedNow(snoozed, HostKey(item.link), readyAtMs);
      var now := ReadClock();
      PutToSleep(w, item, readyAtMs, now);
      ItemReturned(hosts0, reservoir, diskBackReservoir, chunks, books.stock, hostQueues, item);
      queued := queued + 1;
      books := Back(books, w);
      IsValid();
    }

    /** The part of snoozeCurrent about hosts. */
    method PutToSleep(w: Worker, item: FrontierItem, readyAtMs: int, now: int)
      requires Scheduling() && w in activeHost && HostKey(item.link) == activeHost[w] && item.link != [] && now == clock
      modifies this`hostQueues, this`readyHosts, this`activeHost, this`snoozed, sleepingHosts
      ensures Scheduling() && activeHost == old(activeHost) - {w}
      ensures snoozed == SnoozedMore(old(snoozed), HostKey(item.link), readyAtMs)
      ensures ItemInFront(old(hostQueues), hostQueues, item) && (old(Stuck(hostQueues)) ==> Stuck(hostQueues))
      ensures old(readyHosts) <= readyHosts
      ensures HostKey(item.link) in hostQueues && SleepsUntil(hostQueues[HostKey(item.link)], readyAtMs, now)
      ensures readyHosts == if readyAtMs > now then old(readyHosts) else old(readyHosts) + [HostKey(item.link)]
    {
      hide Frontier.Scheduling, Scheduled, HostKey, Settled, ReadyAfter, SleepingAfter, ItemInFront, Stuck, SnoozedMore, PriorityQueue.Valid;
      SchedulingParts();
      ActiveNamed(w);
      HostPutToSleep(hostQueues, readyHosts, sleepingHosts.Contents(), activeHost, clock, snoozed, w, item, readyAtMs);
      var h := activeHost[w];
      FlyingUnblocked(hostQueues, readyHosts, sleepingHosts.Contents(), activeHost, clock, snoozed, h);
      QueueHosts(hostQueues, readyHosts, sleepingHosts.Contents(), activeHost, clock, snoozed, h);
      ghost var hosts0 := hostQueues;
      var host := hostQueues[h].(inFlight := false);
      if item.link != [] {
        host := host.(items := [item] + host.items);
      }
      if readyAtMs > host.blockedUntilMs {
        host := host.(blockedUntilMs := readyAtMs);
      }
      host := host.(sleepGeneration := host.sleepGeneration + 1);
      assert host == Snoozed(hosts0[h], item, readyAtMs);
      snoozed := SnoozedMore(snoozed, h, readyAtMs);
      activeHost := activeHost - {w};
      if host.blockedUntilMs > now {
        host := host.(inSleepingQueue := true);
        sleepingHosts.Push(SleepingHost(host.blockedUntilMs, host.sleepGeneration, h));
        hostQueues := hostQueues[h := host];
      } else {
        hostQueues := hostQueues[h := host];
        ghost var ready0 := readyHosts;
        ScheduleHost(h, now);
        assert hostQueues == hosts0[h := Settled(host, now)];
        SettledItems(host, now);
        ReadyAtOnce(ready0, h, host, readyAtMs, now);
      }
      PutInFront(hosts0, h, hostQueues[h], item);
      assert hostQueues == hosts0[h := hostQueues[h]];
      IsScheduling();
    }

    lemma SchedulingParts()
      requires Scheduling()
      ensures sleepingHosts.Valid() && sleepingHosts.key == ReadyTime
      ensures Scheduled(hostQueues, readyHosts, sleepingHosts.Contents(), activeHost, clock, snoozed)
    {
      hide Scheduled, PriorityQueue.Valid;
    }

    lemma IsScheduling()
      requires sleepingHosts.Valid() && sleepingHosts.key == ReadyTime
      requires Scheduled(hostQueues, readyHosts, sleepingHosts.Contents(), activeHost, clock, snoozed)
      ensures Scheduling()
    {
      hide Scheduled, PriorityQueue.Valid;
    }

    method Shutdown()
      requires Valid()
      modifies this`closed
      ensures Valid() && closed
    {
      hide Frontier.Scheduling, Frontier.Balanced;
      closed := true;
    }

    /** Some work is with workers, or lost. */
    method HasInFlightWork() returns (r: bool)
      requires Valid()
      ensures r <==> books.flying + books.lost != multiset{}
    {
      ValidParts();
      NothingPending(books, queued, pending);
      r := pending > queued;
    }

    method Empty() returns (r: bool)
      requires Valid()
      ensures r <==> books.stock == multiset{}
    {
      ValidParts();
      r := queued == 0;
    }

    /** What a checkpoint saves: everything that waits, except the items in chunk files. */
    method Snapshot() returns (result: seq<FrontierItem>)
      requires Valid()
      ensures multiset(result) + multiset(Flat(chunks)) == books.stock
    {
      hide Frontier.Valid, Frontier.Scheduling, Stocked, Scheduled, InFlight, Accounts, HostKey, Flat, PriorityQueue.Valid;
      ValidParts();
      SchedulingParts();
      result := [];
      var left := hostQueues.Keys;
      NothingShown(hostQueues);
      while left != {}
        invariant left <= hostQueues.Keys
        invariant Shows(hostQueues, hostQueues.Keys - left, multiset(result))
        decreases left
      {
        var h :| h in left;
        QueueHosts(hostQueues, readyHosts, sleepingHosts.Contents(), activeHost, clock, snoozed, h);
        ShowsMore(hostQueues, hostQueues.Keys - left, multiset(result), h);
        assert hostQueues.Keys - (left - {h}) == hostQueues.Keys - left + {h};
        result := result + hostQueues[h].items;
        left := left - {h};
      }
      assert hostQueues.Keys - left == hostQueues.Keys;
      AllShown(hostQueues, reservoir, diskBackReservoir, chunks, books.stock, result);
      result := result + reservoir + diskBackReservoir;
    }
  }

  /** The item is now first in its host's queue; nothing else moved. */
  ghost predicate ItemInFront(hosts: map<Text, HostQueue>, hosts': map<Text, HostQueue>, item: FrontierItem) {
    var h := HostKey(item.link);
    && h in hosts && h in hosts' && hosts' == hosts[h := hosts'[h]] && hosts'[h].items == [item] + hosts[h].items
    && forall x :: x in hosts[h].items ==> HostKey(x.link) == h
  }

  lemma PutInFront(hosts: map<Text, HostQueue>, h: Text, q: HostQueue, item: FrontierItem)
    requires h in hosts && HostKey(item.link) == h != [] && q.items == [item] + hosts[h].items
    requires forall x :: x in hosts[h].items ==> HostKey(x.link) == h
    ensures ItemInFront(hosts, hosts[h := q], item) && (Stuck(hosts) ==> Stuck(hosts[h := q]))
  {
    hide HostKey;
  }

  lemma ItemReturned(hosts: map<Text, HostQueue>, reservoir: seq<FrontierItem>, diskBack: seq<FrontierItem>, chunks: seq<seq<FrontierItem>>,
                     stock: multiset<FrontierItem>, hosts': map<Text, HostQueue>, item: FrontierItem)
    requires Stocked(hosts, reservoir, diskBack, chunks, multiset{}, stock) && ItemInFront(hosts, hosts', item)
    ensures Stocked(hosts', reservoir, diskBack, chunks, multiset{}, stock + multiset{item})
  {
    hide HostKey, Flat, Stocked;
    var h := HostKey(item.link);
    var items, more := hosts[h].items, hosts'[h].items;
    assert multiset(more) == multiset{item} + multiset(items);
    forall x | x in items || x in more ensures HostKey(x.link) == h { assert x == item || x in items; }
    assert multiset(more) + multiset{} + stock == multiset(items) + multiset{} + (stock + multiset{item});
    QueueChanges(hosts, reservoir, diskBack, chunks, multiset{}, stock, h, hosts'[h], multiset{}, stock + multiset{item});
  }

  lemma HeldHostless(active: map<Worker, Text>, held: map<Worker, FrontierItem>, flying: multiset<FrontierItem>, w: Worker)
    requires InFlight(active, held, flying) && w in held && w !in active
    ensures HostKey(held[w].link) == []
  {
    hide HostKey, Holders;
  }

  lemma HeldFacts(active: map<Worker, Text>, held: map<Worker, FrontierItem>, flying: multiset<FrontierItem>, w: Worker)
    requires InFlight(active, held, flying) && w in active
    ensures w in held && HostKey(held[w].link) == active[w] != [] && held[w].link != []
  {
    assert HostKey([]) == [];
  }

  /** The host of an item that was put back sleeps until just the given time, or is ready at once if that
      has come. */
  ghost predicate SleepsUntil(q: HostQueue, readyAtMs: int, now: int) {
    && !q.inFlight && q.inSleepingQueue == (readyAtMs > now) && q.inReadyQueue == (readyAtMs <= now)
    && q.blockedUntilMs == if readyAtMs > now then readyAtMs else 0
  }

  /** The host is free again, and ready if it has items; no other host has changed. */
  ghost predicate FreeAgain(hosts: map<Text, HostQueue>, hosts': map<Text, HostQueue>, h: Text)
    requires h in hosts
  {
    && h in hosts' && hosts' == hosts[h := hosts'[h]]
    && hosts'[h].items == hosts[h].items && !hosts'[h].inFlight && !hosts'[h].inSleepingQueue && hosts'[h].blockedUntilMs == 0
    && hosts'[h].inReadyQueue == (hosts[h].items != []) && hosts'[h].sleepGeneration == hosts[h].sleepGeneration
  }

  lemma FreedIs(hosts: map<Text, HostQueue>, ready: seq<Text>, h: Text, now: int)
    requires h in hosts && hosts[h].inFlight && hosts[h].blockedUntilMs == 0 && !hosts[h].inSleepingQueue && !hosts[h].inReadyQueue && now >= 0
    ensures FreeAgain(hosts, hosts[h := Settled(hosts[h].(inFlight := false), now)], h)
    ensures ReadyAfter(ready, h, hosts[h].(inFlight := false), now) == ready + if hosts[h].items != [] then [h] else []
  {
  }

  lemma ReadyAtOnce(ready: seq<Text>, h: Text, q: HostQueue, readyAtMs: int, now: int)
    requires q.items != [] && !q.inFlight && !q.inReadyQueue && q.blockedUntilMs <= now && readyAtMs <= now
    ensures SleepsUntil(Settled(q, now), readyAtMs, now) && ReadyAfter(ready, h, q, now) == ready + [h]
  {
  }

  lemma FlyingUnblocked(hosts: map<Text, HostQueue>, ready: seq<Text>, sleeping: multiset<SleepingHost>, active: map<Worker, Text>,
                        now: int, snoozed: map<Text, int>, h: Text)
    requires Scheduled(hosts, ready, sleeping, active, now, snoozed) && h in active.Values
    ensures now >= 0 && h in hosts && hosts[h].inFlight && hosts[h].blockedUntilMs == 0 && !hosts[h].inSleepingQueue && !hosts[h].inReadyQueue
  {
    hide HostKey;
    assert Busy(active, h);
    assert HostOk(h, hosts[h], ready, sleeping, active, now, Until(snoozed, h));
  }

  lemma SettledItems(q: HostQueue, now: int)
    ensures Settled(q, now).items == q.items && (q.inFlight ==> Settled(q, now).inFlight)
  {
  }

  lemma SleepersLater(sleeping: multiset<SleepingHost>, h: Text, q: HostQueue, now: int)
    ensures forall s :: s in SleepingAfter(sleeping, h, q, now) ==> s in sleeping || now < s.readyAtMs
  {
  }

  lemma ItemTaken(hosts: map<Text, HostQueue>, reservoir: seq<FrontierItem>, diskBack: seq<FrontierItem>, chunks: seq<seq<FrontierItem>>,
                  stock: multiset<FrontierItem>, h: Text, q: HostQueue, item: FrontierItem)
    requires Stocked(hosts, reservoir, diskBack, chunks, multiset{}, stock) && h in hosts
    requires hosts[h].items == [item] + q.items && forall i :: 0 <= i < |hosts[h].items| ==> HostKey(hosts[h].items[i].link) == h
    ensures item in stock && HostKey(item.link) == h
    ensures Stocked(hosts[h := q], reservoir, diskBack, chunks, multiset{}, stock - multiset{item})
  {
    hide HostKey, Flat;
    var items := hosts[h].items;
    assert items[0] == item;
    assert multiset(items) == multiset{item} + multiset(q.items);
    assert InQueue(hosts, item) > 0;
    forall x | x in items || x in q.items ensures HostKey(x.link) == h { assert x in items; }
    assert multiset(q.items) + multiset{} + stock == multiset(items) + multiset{} + (stock - multiset{item});
    QueueChanges(hosts, reservoir, diskBack, chunks, multiset{}, stock, h, q, multiset{}, stock - multiset{item});
  }

  /** Exactly the items queued at the given hosts. */
  ghost predicate Shows(hosts: map<Text, HostQueue>, shown: set<Text>, items: multiset<FrontierItem>) {
    forall x :: items[x] == if HostKey(x.link) in shown then InQueue(hosts, x) else 0
  }

  lemma NothingShown(hosts: map<Text, HostQueue>)
    ensures Shows(hosts, {}, multiset{}) && hosts.Keys - hosts.Keys == {}
  {
  }

  lemma ShowsMore(hosts: map<Text, HostQueue>, shown: set<Text>, items: multiset<FrontierItem>, h: Text)
    requires Shows(hosts, shown, items) && h in hosts && h !in shown
    requires forall x :: x in hosts[h].items ==> HostKey(x.link) == h
    ensures Shows(hosts, shown + {h}, items + multiset(hosts[h].items))
  {
    hide HostKey;
  }

  lemma AllShown(hosts: map<Text, HostQueue>, reservoir: seq<FrontierItem>, diskBack: seq<FrontierItem>, chunks: seq<seq<FrontierItem>>,
                 stock: multiset<FrontierItem>, shown: seq<FrontierItem>)
    requires Stocked(hosts, reservoir, diskBack, chunks, multiset{}, stock) && Shows(hosts, hosts.Keys, multiset(shown))
    ensures multiset(shown + reservoir + diskBack) + multiset(Flat(chunks)) == stock
  {
    hide HostKey, Flat;
    var all := multiset(shown) + multiset(reservoir) + multiset(diskBack) + multiset(Flat(chunks));
    forall x ensures all[x] == stock[x] {
    }
    assert all == stock;
  }

  /** The queue of an item's host holds only items of that host. */
  lemma QueueHosts(hosts: map<Text, HostQueue>, ready: seq<Text>, sleeping: multiset<SleepingHost>, active: map<Worker, Text>,
                   now: int, snoozed: map<Text, int>, h: Text)
    requires Scheduled(hosts, ready, sleeping, active, now, snoozed)
    ensures h in hosts ==> forall x :: x in hosts[h].items ==> HostKey(x.link) == h
  {
    hide HostKey;
    if h in hosts {
      HostFacts(h, hosts[h], ready, sleeping, active, now, Until(snoozed, h));
    }
  }

  lemma ItemQueued(hosts: map<Text, HostQueue>, reservoir: seq<FrontierItem>, diskBack: seq<FrontierItem>, chunks: seq<seq<FrontierItem>>,
                   hand: multiset<FrontierItem>, stock: multiset<FrontierItem>, h: Text, q: HostQueue, now: int, item: FrontierItem)
    requires Stocked(hosts, reservoir, diskBack, chunks, hand, stock) && item in hand && h == HostKey(item.link)
    requires q.items == (if h in hosts then hosts[h].items else []) + [item]
    requires h in hosts ==> forall x :: x in hosts[h].items ==> HostKey(x.link) == h
    ensures Stocked(hosts[h := Settled(q, now)], reservoir, diskBack, chunks, hand - multiset{item}, stock)
  {
    hide Stocked, HostKey, Flat;
    var items := if h in hosts then hosts[h].items else [];
    assert Settled(q, now).items == q.items;
    forall x | x in q.items ensures HostKey(x.link) == h { assert x in items || x == item; }
    assert multiset(q.items) == multiset(items) + multiset{item};
    assert multiset(q.items) + (hand - multiset{item}) + stock == multiset(items) + hand + stock;
    QueueChanges(hosts, reservoir, diskBack, chunks, hand, stock, h, Settled(q, now), hand - multiset{item}, stock);
  }

  lemma WakingKeeps(hosts: map<Text, HostQueue>, h: Text)
    requires h in hosts
    ensures SameItems(hosts, hosts[h := Awake(hosts[h])]) && (Stuck(hosts) ==> Stuck(hosts[h := Awake(hosts[h])]))
    ensures SameItems(hosts, hosts)
  {
  }

  lemma TakingSticks(hosts: map<Text, HostQueue>, h: Text, q: HostQueue)
    requires h in hosts && !hosts[h].inFlight && q.inFlight
    ensures h == [] ==> !Stuck(hosts) && Stuck(hosts[h := q])
    ensures Stuck(hosts) ==> Stuck(hosts[h := q])
  {
  }

  lemma NobodyWoken(hosts: map<Text, HostQueue>, sleeping: multiset<SleepingHost>, now: int)
    ensures Woken(hosts, hosts, sleeping, now)
  {
  }

  lemma OneGone(before: multiset<SleepingHost>, after: multiset<SleepingHost>, s: SleepingHost)
    requires before == after + multiset{s}
    ensures s in before && after == before - multiset{s}
  {
  }

  lemma TopFirst(q: PriorityQueue<SleepingHost>, s: SleepingHost)
    requires q.Valid() && q.key == ReadyTime && s in q.Contents()
    ensures q.data != [] && q.data[0].readyAtMs <= s.readyAtMs
  {
    var i :| 0 <= i < |q.data| && q.data[i] == s;
    Heaps.TopIsLeast(q.data, ReadyTime, i);
  }

  // ---------------------------------------------------------------- whole runs

  /** What workers and the crawler do with the frontier. Workers keep what they popped. */
  datatype Call = Push(items: seq<FrontierItem>) | Pop(w: Worker) | Finish(w: Worker) | Snooze(w: Worker, until: int) | Close

  /** What is remembered of a call: the host put to sleep, the item handed out and the clock then. */
  datatype Note = PutOff(host: Text, until: int) | Handed(item: FrontierItem, time: int) | Other

  lemma SnoozedLonger(snoozed: map<Text, int>, h: Text, readyAtMs: int, g: Text, until: int)
    requires g in snoozed && until <= Until(snoozed, g)
    ensures g in SnoozedMore(snoozed, h, readyAtMs) && until <= Until(SnoozedMore(snoozed, h, readyAtMs), g)
  {
  }

  /** All sleeps noted are still known to the frontier. */
  ghost predicate SleepsKept(trace: seq<Note>, snoozed: map<Text, int>) {
    forall i :: 0 <= i < |trace| && trace[i].PutOff? ==> trace[i].host in snoozed && trace[i].until <= Until(snoozed, trace[i].host)
  }

  /** No item was handed out before the time to which its host had been put to sleep. */
  ghost predicate SleepsObserved(trace: seq<Note>) {
    forall i, j :: 0 <= i < j < |trace| && trace[i].PutOff? && trace[j].Handed? && HostKey(trace[j].item.link) == trace[i].host ==>
      trace[i].until <= trace[j].time
  }

  lemma SleepsKeptMore(trace: seq<Note>, note: Note, snoozed: map<Text, int>, h: Text, until: int)
    requires SleepsKept(trace, snoozed) && SleepsObserved(trace)
    ensures !note.PutOff? ==> SleepsKept(trace + [note], snoozed)
    ensures note == PutOff(h, until) ==> SleepsKept(trace + [note], SnoozedMore(snoozed, h, until))
    ensures !note.Handed? || Until(snoozed, HostKey(note.item.link)) <= note.time ==> SleepsObserved(trace + [note])
  {
    hide HostKey, SnoozedMore, Until;
    var more := trace + [note];
    if note == PutOff(h, until) {
      SnoozedNow(snoozed, h, until);
      forall i | 0 <= i < |trace| && trace[i].PutOff?
        ensures trace[i].host in SnoozedMore(snoozed, h, until) && trace[i].until <= Until(SnoozedMore(snoozed, h, until), trace[i].host)
      {
        SnoozedLonger(snoozed, h, until, trace[i].host, trace[i].until);
      }
    }
  }

  lemma SnoozedNow(snoozed: map<Text, int>, h: Text, until: int)
    ensures h in SnoozedMore(snoozed, h, until) && until <= Until(SnoozedMore(snoozed, h, until), h)
  {
  }

  /** The frontier between two calls: what came in and where it is, whether it is closed, whether nothing can
      be handed out, and the clock. */
  datatype Moment = Moment(books: Books, closed: bool, idle: bool, clock: int)

  ghost function MomentOf(f: Frontier): Moment
    reads f`books, f`closed, f`reservoir, f`readyHosts, f`clock
  {
    Moment(f.books, f.closed, f.reservoir == [] && f.readyHosts == [], f.clock)
  }

  /** What one call does, and what is noted of it. */
  ghost predicate Does(before: Moment, call: Call, note: Note, after: Moment, autoClose: bool) {
    && before.clock <= after.clock
    && match call
       case Push(items) =>
         && note.Other? && after.closed == before.closed
         && after.books == if before.closed then before.books else Pushed(before.books, items)
       case Pop(w) =>
         && after.closed == before.closed
         && if w !in before.books.held && note.Handed?
            then note.time == after.clock && note.item in before.books.stock && after.books == Out(before.books, w, note.item)
            else note.Other? && after.books == before.books && (w in before.books.held || after.idle)
       case Finish(w) =>
         && note.Other? && after.books == (if w in before.books.held then Done(before.books, w) else before.books)
         && after.closed == (before.closed || (w in before.books.held && autoClose && after.books.entered == after.books.finished))
       case Snooze(w, until) =>
         && after.closed == before.closed
         && if w !in before.books.held then note.Other? && after.books == before.books
            else if note.Other? then HostKey(before.books.held[w].link) == [] && after.books == Dropped(before.books, w)
            else note == PutOff(HostKey(before.books.held[w].link), until) && after.books == Back(before.books, w)
       case Close => note.Other? && after.closed && after.books == before.books
  }

  /** The notes are those of the calls, in order, from the first moment to the last. */
  ghost predicate Follows(moments: seq<Moment>, calls: seq<Call>, trace: seq<Note>, autoClose: bool) {
    && |moments| == |trace| + 1 && |trace| <= |calls|
    && forall i :: 0 <= i < |trace| ==> Does(moments[i], calls[i], trace[i], moments[i + 1], autoClose)
  }

  lemma FollowsMore(moments: seq<Moment>, calls: seq<Call>, trace: seq<Note>, autoClose: bool, note: Note, after: Moment)
    requires Follows(moments, calls, trace, autoClose) && |trace| < |calls|
    requires Does(moments[|trace|], calls[|trace|], note, after, autoClose)
    ensures Follows(moments + [after], calls, trace + [note], autoClose)
  {
    hide Does;
    var ms, ts := moments + [after], trace + [note];
    forall i | 0 <= i < |ts| ensures Does(ms[i], calls[i], ts[i], ms[i + 1], autoClose) {
      if i < |trace| { assert Does(moments[i], calls[i], trace[i], moments[i + 1], autoClose); }
    }
  }

  /** A run: any calls at all by any workers, one after another; a call that a worker cannot make, since it
      has no item or has one already, is passed over. After a worker has put a host to sleep, no worker
      is handed an item of that host before the time given, whatever else is called in between. */
  method Run(f: Frontier, calls: seq<Call>) returns (trace: seq<Note>, broken: bool, ghost moments: seq<Moment>)
    requires f.Valid() && f.books.held == map[]
    modifies f, f.sleepingHosts
    ensures SleepsObserved(trace)
    ensures Follows(moments, calls, trace, f.autoCloseWhenDrained) && moments[0] == old(MomentOf(f))
    ensures broken ==> f.maxQueuedItems > WINDOW
    ensures !broken ==> f.Valid() && |trace| == |calls| && moments[|calls|] == MomentOf(f)
  {
    hide Frontier.Valid, HostKey, SnoozedMore, SleepsKept, SleepsObserved, Until, Stuck, ItemInFront, Follows, Does, MomentOf, Pushed, Out, Back, Done, Dropped;
    trace, broken := [], false;
    NothingSlept(f.snoozed);
    NothingDone(MomentOf(f), calls, f.autoCloseWhenDrained);
    moments := [MomentOf(f)];
    var holding: map<Worker, FrontierItem> := map[];
    for i := 0 to |calls|
      invariant f.Valid() && f.books.held == holding && |trace| == i && !broken
      invariant SleepsKept(trace, f.snoozed) && SleepsObserved(trace)
      invariant |moments| == i + 1 && Follows(moments, calls, trace, f.autoCloseWhenDrained)
      invariant moments[0] == old(MomentOf(f)) && moments[i] == MomentOf(f)
    {
      ghost var snoozed0 := f.snoozed;
      var done, note := RunOne(f, calls[i], holding);
      if !done {
        broken := true;
        return;
      }
      holding := Holding(holding, calls[i], note);
      SleepsKeptMore(trace, note, snoozed0, if note.PutOff? then note.host else [], if note.PutOff? then note.until else 0);
      FollowsMore(moments, calls, trace, f.autoCloseWhenDrained, note, MomentOf(f));
      trace := trace + [note];
      moments := moments + [MomentOf(f)];
    }
  }

  lemma NothingDone(moment: Moment, calls: seq<Call>, autoClose: bool)
    ensures Follows([moment], calls, [], autoClose)
  {
  }

  /** What the workers hold after a call. */
  function Holding(holding: map<Worker, FrontierItem>, call: Call, note: Note): map<Worker, FrontierItem> {
    match call
    case Pop(w) => if note.Handed? then holding[w := note.item] else holding
    case Finish(w) => holding - {w}
    case Snooze(w, _) => holding - {w}
    case _ => holding
  }

  /** The loop body of Run. */
  method RunOne(f: Frontier, call: Call, holding: map<Worker, FrontierItem>) returns (done: bool, note: Note)
    requires f.Valid() && f.books.held == holding
    modifies f, f.sleepingHosts
    ensures !done ==> f.maxQueuedItems > WINDOW
    ensures done ==> f.Valid() && f.books.held == Holding(holding, call, note)
    ensures done ==> Does(old(MomentOf(f)), call, note, MomentOf(f), f.autoCloseWhenDrained)
    ensures done ==> f.snoozed == if note.PutOff? then SnoozedMore(old(f.snoozed), note.host, note.until) else old(f.snoozed)
    ensures note.Handed? ==> Until(old(f.snoozed), HostKey(note.item.link)) <= note.time
  {
    hide Frontier.Valid, HostKey, SnoozedMore, Until, Holding, Does, Pushed, MomentOf;
    note, done := Other, true;
    match call {
      case Push(items) => CallPush(f, items, holding);
      case Pop(w) => done, note := CallPop(f, w, holding);
      case Finish(w) => CallFinish(f, w, holding);
      case Snooze(w, until) => note := CallSnooze(f, w, until, holding);
      case Close => CallClose(f, holding);
    }
  }

  method CallPush(f: Frontier, items: seq<FrontierItem>, holding: map<Worker, FrontierItem>)
    requires f.Valid() && f.books.held == holding
    modifies f, f.sleepingHosts
    ensures f.Valid() && f.books.held == Holding(holding, Push(items), Other) && f.snoozed == old(f.snoozed)
    ensures Does(old(MomentOf(f)), Push(items), Other, MomentOf(f), f.autoCloseWhenDrained)
  {
    hide Frontier.Valid, HostKey, Frontier.LinedUp, WithLink, Flat;
    f.PushMany(items);
  }

  method CallPop(f: Frontier, w: Worker, holding: map<Worker, FrontierItem>) returns (done: bool, note: Note)
    requires f.Valid() && f.books.held == holding
    modifies f, f.sleepingHosts
    ensures !done ==> f.maxQueuedItems > WINDOW
    ensures done ==> f.Valid() && f.books.held == Holding(holding, Pop(w), note)
    ensures done ==> Does(old(MomentOf(f)), Pop(w), note, MomentOf(f), f.autoCloseWhenDrained)
    ensures done ==> f.snoozed == if note.PutOff? then SnoozedMore(old(f.snoozed), note.host, note.until) else old(f.snoozed)
    ensures note.Handed? ==> Until(old(f.snoozed), HostKey(note.item.link)) <= note.time
  {
    hide Frontier.Valid, HostKey, SnoozedMore, Until, Stuck, Frontier.BackMoved, Flat;
    note, done := Other, true;
    if w !in holding {
      var r, _, _ := f.PopOnce(w);
      done := !r.OutOfRange?;
      if r.Got? { note := Handed(r.item, f.clock); }
    }
  }

  method CallFinish(f: Frontier, w: Worker, holding: map<Worker, FrontierItem>)
    requires f.Valid() && f.books.held == holding
    modifies f, f.sleepingHosts
    ensures f.Valid() && f.books.held == Holding(holding, Finish(w), Other) && f.snoozed == old(f.snoozed)
    ensures Does(old(MomentOf(f)), Finish(w), Other, MomentOf(f), f.autoCloseWhenDrained)
  {
    hide Frontier.Valid, HostKey, Stuck, FreeAgain;
    if w in holding {
      f.TaskDone(w);
    } else {
      assert holding - {w} == holding;
    }
  }

  method CallSnooze(f: Frontier, w: Worker, until: int, holding: map<Worker, FrontierItem>) returns (note: Note)
    requires f.Valid() && f.books.held == holding
    modifies f, f.sleepingHosts
    ensures f.Valid() && f.books.held == Holding(holding, Snooze(w, until), note) && (note.Other? || note.PutOff?)
    ensures Does(old(MomentOf(f)), Snooze(w, until), note, MomentOf(f), f.autoCloseWhenDrained)
    ensures f.snoozed == if note.PutOff? then SnoozedMore(old(f.snoozed), note.host, note.until) else old(f.snoozed)
  {
    hide Frontier.Valid, HostKey, SnoozedMore, Until, Stuck, ItemInFront, SleepsUntil;
    note := Other;
    if w in holding {
      var item, atHost := holding[w], w in f.activeHost;
      HeldHost(f, w);
      f.SnoozeCurrent(w, item, until);
      if atHost { note := PutOff(HostKey(item.link), until); }
    } else {
      assert holding - {w} == holding;
    }
  }

  method CallClose(f: Frontier, holding: map<Worker, FrontierItem>)
    requires f.Valid() && f.books.held == holding
    modifies f, f.sleepingHosts
    ensures f.Valid() && f.books.held == Holding(holding, Close, Other) && f.snoozed == old(f.snoozed)
    ensures Does(old(MomentOf(f)), Close, Other, MomentOf(f), f.autoCloseWhenDrained)
  {
    hide Frontier.Valid;
    f.Shutdown();
  }

  lemma HeldHost(f: Frontier, w: Worker)
    requires f.Valid() && w in f.books.held
    ensures w !in f.activeHost ==> HostKey(f.books.held[w].link) == []
  {
    hide Frontier.Scheduling, Stocked, Accounts, HostKey;
    if w !in f.activeHost { HeldHostless(f.activeHost, f.books.held, f.books.flying, w); }
  }

  /** Everything behind the reservoir, and the chunk files it is in. */
  function Backlog(back: seq<FrontierItem>, chunks: seq<seq<FrontierItem>>): nat {
    |back| + |Flat(chunks)| + |chunks|
  }

  /** Of what is behind a small reservoir, each round brings something forward. */
  lemma RoundShrinks(limit: nat, reservoir: seq<FrontierItem>, back: seq<FrontierItem>, chunks: seq<seq<FrontierItem>>, readable: bool)
    ensures var now := BackThen(limit, back, chunks, readable);
      Backlog(now[Forward(limit, reservoir, now)..], ChunksThen(limit, back, chunks, readable))
        <= Backlog(back, chunks) - Forward(limit, reservoir, now) - if Loads(limit, back, chunks, readable) then 1 else 0
  {
  }

  /** A worker asks again as long as it is told to wait while something is left that can come forward.
      That ends; and if it ends with waiting, nothing is left in the reservoir or the back reservoir, nor,
      as long as they can be read, in the chunk files. */
  method PopPatiently(f: Frontier, w: Worker) returns (r: PopResult, readable: bool)
    requires f.Valid() && w !in f.books.held && f.maxQueuedItems >= 2
    modifies f, f.sleepingHosts
    ensures r.OutOfRange? ==> f.maxQueuedItems > WINDOW
    ensures !r.OutOfRange? ==> f.Valid()
    ensures r.Got? ==> r.item in old(f.books).stock && f.books == Out(old(f.books), w, r.item)
    ensures r.Closed? || r.Wait? ==> f.books == old(f.books) && f.reservoir == [] && f.readyHosts == [] && (r.Closed? <==> f.closed)
    ensures r.Wait? ==> f.diskBackReservoir == [] && (f.maxQueuedItems >= 4 && readable ==> f.chunks == [])
  {
    hide Frontier.Valid, HostKey, Until, Stuck, Out, Taken, BackThen, ChunksThen, Forward, Flat, Loads;
    ghost var asked;
    r, asked, readable := f.PopOnce(w);
    while r.Wait? && (f.diskBackReservoir != [] || (f.maxQueuedItems >= 4 && readable && f.chunks != []))
      invariant !r.OutOfRange? ==> f.Valid()
      invariant r.OutOfRange? ==> f.maxQueuedItems > WINDOW
      invariant r.Got? ==> r.item in old(f.books).stock && f.books == Out(old(f.books), w, r.item)
      invariant r.Closed? || r.Wait? ==> f.books == old(f.books) && f.reservoir == [] && f.readyHosts == [] && (r.Closed? <==> f.closed)
      decreases r.Wait?, 2 * Backlog(f.diskBackReservoir, f.chunks) + if readable then 1 else 0
    {
      ghost var back, disk, could := f.diskBackReservoir, f.chunks, readable;
      r, asked, readable := f.PopOnce(w);
      if r.Wait? {
        RoundShrinks(f.maxQueuedItems, [], back, disk, readable);
        RoundMoves(f.maxQueuedItems, back, disk, readable);
      }
    }
  }

  lemma RoundMoves(limit: nat, back: seq<FrontierItem>, chunks: seq<seq<FrontierItem>>, readable: bool)
    requires limit >= 2
    ensures back != [] ==> Forward(limit, [], BackThen(limit, back, chunks, readable)) > 0
    ensures back == [] && limit >= 4 && chunks != [] && readable ==> Loads(limit, back, chunks, readable)
  {
  }

  lemma NothingSlept(snoozed: map<Text, int>)
    ensures SleepsKept([], snoozed) && SleepsObserved([])
  {
  }

  /** In every state a run can reach: no host is with two workers, each ready host is queued once, and
      each host with items is with a worker, ready, or asleep with an entry to wake it; only the one
      without name may instead be in flight with no worker remembered. */
  lemma EveryHostIsServed(f: Frontier, h: Text)
    requires f.Valid() && h in f.hostQueues && f.hostQueues[h].items != []
    ensures var q := f.hostQueues[h];
      || (q.inFlight && !q.inReadyQueue && (h == [] || exists w :: w in f.activeHost && f.activeHost[w] == h))
      || (q.inReadyQueue && !q.inFlight && h in f.readyHosts && q.blockedUntilMs == 0)
      || (!q.inFlight && !q.inReadyQueue && q.inSleepingQueue && WakeUp(h, q) in f.sleepingHosts.Contents())
    ensures forall v, w :: v in f.activeHost && w in f.activeHost && f.activeHost[v] == h && f.activeHost[w] == h ==> v == w
    ensures forall i, j :: 0 <= i < |f.readyHosts| && 0 <= j < |f.readyHosts| && f.readyHosts[i] == h && f.readyHosts[j] == h ==> i == j
  {
    hide Stocked, InFlight, Accounts, HostKey, PriorityQueue.Valid;
    assert HostOk(h, f.hostQueues[h], f.readyHosts, f.sleepingHosts.Contents(), f.activeHost, f.clock, Until(f.snoozed, h));
  }
}
