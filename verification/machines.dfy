/** A machine of the distributed crawl: it keeps the addresses that hash to it, sends the others on, and
    takes what others send (CrawlerWorkerThread, SendToPeerThread, processReceivedBatch in
    src/main_distributed.cpp). Delivery is not trusted: a batch may arrive any number of times, and any
    payload at all may arrive. */
module Machines {
  import opened Basics
  import opened Bloom
  import opened Wire

  /** A link on a page, already made absolute, with its anchor text. */
  datatype Link = Link(resolved: Text, anchorText: seq<Text>)

  /** What goes to the frontier. */
  datatype Discovered = Discovered(url: Text, seedDistance: nat)

  function Urls(items: seq<Discovered>): (s: seq<Text>)
    ensures |s| == |items| && forall i :: 0 <= i < |items| ==> s[i] == items[i].url
  {
    seq(|items|, i requires 0 <= i < |items| => items[i].url)
  }

  function ResolvedOf(links: seq<Link>): (s: seq<Text>)
    ensures |s| == |links| && forall i :: 0 <= i < |links| ==> s[i] == links[i].resolved
  {
    seq(|links|, i requires 0 <= i < |links| => links[i].resolved)
  }

  function RoutedUrls(links: seq<RoutedLink>): (s: seq<Text>)
    ensures |s| == |links| && forall i :: 0 <= i < |links| ==> s[i] == links[i].url
  {
    seq(|links|, i requires 0 <= i < |links| => links[i].url)
  }

  function Distances(links: seq<RoutedLink>): (s: seq<nat>)
    ensures |s| == |links| && forall i :: 0 <= i < |links| ==> s[i] == links[i].seedDistance
  {
    seq(|links|, i requires 0 <= i < |links| => links[i].seedDistance)
  }

  class Machine {
    const id: nat
    const machineCount: nat

    /** hashString, the quality checks with normalisation, and the list of allowed addresses. */
    const hash: Text -> nat
    const canonical: Text -> Option<Text>
    const allowed: Text -> bool
    const bloom: UrlBloomFilter

    /** Links waiting to be sent, by machine. */
    var batches: seq<seq<RoutedLink>>

    /** The batch that the sender for a machine has taken and not yet sent or put back: its readyBatch. */
    var inHand: seq<seq<RoutedLink>>

    /** By machine: all links ever put into batches, and those whose frame a connection took whole. */
    ghost var outgoing: seq<multiset<RoutedLink>>
    ghost var sentOut: seq<multiset<RoutedLink>>

    /** Every address ever put on this machine's frontier by discovery. */
    ghost var discovered: seq<Text>

    function Destination(url: Text): (m: nat)
      requires machineCount > 0
      ensures m < machineCount
    {
      hash(url) % machineCount
    }

    /** An address that passes the checks. */
    function Accepts(url: Text): Option<Text> {
      var c := canonical(url);
      if c.Some? && allowed(c.value) then c else None
    }

    /** All links hash to machine m. */
    ghost predicate ForMachine(batch: seq<RoutedLink>, m: nat)
      requires machineCount > 0
    {
      forall k :: 0 <= k < |batch| ==> Destination(batch[k].url) == m
    }

    /** Batches, waiting or in the hands of a sender, hold links of their machine only, and no link is
        lost: each one put into a batch is waiting, in hand, or was sent. */
    ghost predicate Routed()
      reads this`batches, this`inHand, this`outgoing, this`sentOut
    {
      && id < machineCount == |batches| == |inHand| == |outgoing| == |sentOut| && batches[id] == []
      && forall m :: 0 <= m < machineCount ==>
           Kept(m, batches[m], inHand[m], outgoing[m], sentOut[m])
    }

    ghost predicate Kept(m: nat, batch: seq<RoutedLink>, hand: seq<RoutedLink>, out: multiset<RoutedLink>, gone: multiset<RoutedLink>)
      requires machineCount > 0
    {
      ForMachine(batch, m) && ForMachine(hand, m) && out == multiset(batch) + multiset(hand) + gone
    }

    lemma KeptMore(m: nat, batch: seq<RoutedLink>, hand: seq<RoutedLink>, out: multiset<RoutedLink>, gone: multiset<RoutedLink>, link: RoutedLink)
      requires machineCount > 0 && Kept(m, batch, hand, out, gone) && Destination(link.url) == m
      ensures Kept(m, batch + [link], hand, out + multiset{link}, gone)
    {
    }

    lemma KeptMoved(m: nat, batch: seq<RoutedLink>, hand: seq<RoutedLink>, out: multiset<RoutedLink>, gone: multiset<RoutedLink>)
      requires machineCount > 0 && Kept(m, batch, hand, out, gone)
      ensures Kept(m, batch, [], out, gone + multiset(hand)) && Kept(m, batch + hand, [], out, gone)
      ensures hand == [] ==> Kept(m, [], batch, out, gone)
    {
    }

    /** Whatever was discovered hashes to this machine and was new, and the filter is made of just that. */
    ghost predicate Recorded()
      reads this`discovered, bloom
    {
      && machineCount > 0 && bloom.Valid() && NoDuplicates(discovered) && bloom.MadeOf(discovered)
      && forall u :: u in discovered ==> Destination(u) == id && bloom.Contains(u)
    }

    ghost predicate Valid()
      reads this`batches, this`inHand, this`outgoing, this`sentOut, this`discovered, bloom
    {
      Routed() && Recorded()
    }

    constructor (id: nat, machineCount: nat, hash: Text -> nat, canonical: Text -> Option<Text>, allowed: Text -> bool,
                 bitCount: nat, hashCount: nat, hashKey: Text -> KeyHash)
      requires id < machineCount
      ensures Valid() && fresh(bloom) && this.id == id && this.machineCount == machineCount && this.hash == hash
      ensures this.canonical == canonical && this.allowed == allowed && discovered == [] && bloom.hashKey == hashKey
    {
      this.id, this.machineCount, this.hash, this.canonical, this.allowed := id, machineCount, hash, canonical, allowed;
      bloom := new UrlBloomFilter(bitCount, hashCount, hashKey);
      batches := seq(machineCount, _ => []);
      inHand := seq(machineCount, _ => []);
      outgoing, sentOut := seq(machineCount, _ => multiset{}), seq(machineCount, _ => multiset{});
      discovered := [];
    }

    predicate ShouldOwnUrl(url: Text)
      requires machineCount > 0
      ensures id < machineCount ==> (ShouldOwnUrl(url) <==> Destination(url) == id)
    {
      machineCount <= 1 || Destination(url) == id
    }

    /** Queues an address of this machine unless the filter knows it. */
    method Discover(url: Text, seedDistance: nat, found: seq<Discovered>) returns (now: seq<Discovered>)
      requires Recorded() && Destination(url) == id
      modifies this`discovered, bloom
      ensures Recorded() && (url != [] ==> bloom.Contains(url)) && forall k :: old(bloom.Contains(k)) ==> bloom.Contains(k)
      ensures var added := NewItems(old(discovered), [Discovered(url, seedDistance)]);
        now == found + added && discovered == old(discovered) + Urls(added)
    {
      hide AllSet, AddsBitsOf, BitsOf, Grown, Collides;
      ghost var before := bloom.bits;
      KnownOrCollides(bloom.bits, discovered, url, bloom.hashKey, bloom.hashCount);
      OneItem(discovered, Discovered(url, seedDistance));
      var isNew := bloom.CheckAndInsert(url);
      now := found;
      if isNew {
        BitsOfMore(before, bloom.bits, discovered, url, bloom.hashKey, bloom.hashCount);
        now := found + [Discovered(url, seedDistance)];
        discovered := discovered + [url];
      }
    }

    lemma OneItem(queued: seq<Text>, item: Discovered)
      ensures NewItems(queued, [item]) == if IsNew(queued, item.url) then [item] else []
    {
      hide Machine.IsNew, Urls;
      assert [item][..0] == [];
      NoUrls([]);
      assert queued + [] == queued;
      assert [] + [item] == [item];
    }

    /** What a link on a page adds to the batch for machine m: the address, if it is accepted and hashes
        to m, one step farther from the seeds. */
    function OutgoingOf(link: Link, seedDistance: nat, m: nat): seq<RoutedLink>
      requires machineCount > 0
    {
      var c := Accepts(link.resolved);
      if c.Some? && Destination(c.value) == m != id then [RoutedLink(c.value, seedDistance + 1, link.anchorText)] else []
    }

    function Outgoing(links: seq<Link>, n: nat, seedDistance: nat, m: nat): seq<RoutedLink>
      requires n <= |links| && machineCount > 0
    {
      if n == 0 then [] else Outgoing(links, n - 1, seedDistance, m) + OutgoingOf(links[n - 1], seedDistance, m)
    }

    /** An address that was not queued before, and does not collide with those that were. */
    ghost predicate IsNew(queued: seq<Text>, url: Text) {
      && url != [] && url !in queued
      && bloom.bitCount > 0 && !Collides(queued, url, bloom.hashKey, bloom.hashCount, bloom.bitCount)
    }

    /** Of the candidates, in order, those that are new after the ones queued already. */
    ghost function NewItems(queued: seq<Text>, candidates: seq<Discovered>): seq<Discovered> {
      if candidates == [] then []
      else
        var front := NewItems(queued, candidates[..|candidates| - 1]);
        var last := candidates[|candidates| - 1];
        if IsNew(queued + Urls(front), last.url) then front + [last] else front
    }

    lemma NewItemsMore(queued: seq<Text>, candidates: seq<Discovered>, more: seq<Discovered>)
      requires |more| <= 1
      ensures NewItems(queued, candidates + more)
           == NewItems(queued, candidates) + NewItems(queued + Urls(NewItems(queued, candidates)), more)
    {
      hide Machine.IsNew, Machine.NewItems, Urls;
      var front := NewItems(queued, candidates);
      if more == [] {
        assert candidates + more == candidates;
        NoneNew(queued + Urls(front));
      } else {
        assert more == [more[0]];
        LastItem(queued, candidates, more[0]);
        OneItem(queued + Urls(front), more[0]);
      }
    }

    lemma LastItem(queued: seq<Text>, candidates: seq<Discovered>, item: Discovered)
      ensures var front := NewItems(queued, candidates);
        NewItems(queued, candidates + [item]) == if IsNew(queued + Urls(front), item.url) then front + [item] else front
    {
      hide Machine.IsNew, Urls;
      assert (candidates + [item])[..|candidates|] == candidates;
    }

    /** What an address offers to this machine's frontier, if it is accepted and belongs here. */
    function Own(raw: Text, seedDistance: nat): (items: seq<Discovered>)
      requires machineCount > 0
      ensures |items| <= 1
    {
      var c := Accepts(raw);
      if c.Some? && Destination(c.value) == id then [Discovered(c.value, seedDistance)] else []
    }

    /** The links of a page, one step farther from the seeds than it. */
    function OwnLinks(links: seq<Link>, n: nat, seedDistance: nat): seq<Discovered>
      requires n <= |links| && machineCount > 0
    {
      if n == 0 then [] else OwnLinks(links, n - 1, seedDistance) + Own(links[n - 1].resolved, seedDistance + 1)
    }

    /** Received links, with the distances received. */
    function OwnReceived(links: seq<RoutedLink>): seq<Discovered>
      requires machineCount > 0
    {
      if links == [] then []
      else
        var last := links[|links| - 1];
        OwnReceived(links[..|links| - 1]) + Own(last.url, last.seedDistance)
    }

    lemma OwnReceivedMore(links: seq<RoutedLink>, link: RoutedLink)
      requires machineCount > 0
      ensures OwnReceived(links + [link]) == OwnReceived(links) + Own(link.url, link.seedDistance)
    {
      hide Machine.Own;
      assert (links + [link])[..|links|] == links;
    }

    // -------------------------------------------------------------- where each address goes

    /** An address as found on a page or received leads to machine m under the given normalised one: it
        passes the checks, is allowed, and hashes to m. */
    ghost predicate Leads(raw: Text, m: nat, url: Text)
      requires machineCount > 0
    {
      canonical(raw) == Some(url) && allowed(url) && hash(url) % machineCount == m
    }

    /** The places idx, in order, are those of all addresses that lead to machine m, and lead to urls. */
    ghost predicate Chosen(raws: seq<Text>, m: nat, urls: seq<Text>, idx: seq<nat>)
      requires machineCount > 0
    {
      && |idx| == |urls| && (forall a, b :: 0 <= a < b < |idx| ==> idx[a] < idx[b])
      && (forall k :: 0 <= k < |idx| ==> idx[k] < |raws| && Leads(raws[idx[k]], m, urls[k]))
      && forall i, url :: 0 <= i < |raws| && Leads(raws[i], m, url) ==> i in idx
    }

    lemma ChosenMore(raws: seq<Text>, m: nat, urls: seq<Text>, idx: seq<nat>, raw: Text)
      requires machineCount > 0 && Chosen(raws, m, urls, idx)
      ensures forall url :: Leads(raw, m, url) ==> Chosen(raws + [raw], m, urls + [url], idx + [|raws|])
      ensures (forall url :: !Leads(raw, m, url)) ==> Chosen(raws + [raw], m, urls, idx)
    {
      hide Machine.Leads;
      assert |raws| in idx + [|raws|];
      forall i | i in idx ensures i in idx + [|raws|] {}
    }

    lemma AcceptedLeads(raw: Text, m: nat)
      requires machineCount > 0
      ensures var c := Accepts(raw);
        if c.Some? && Destination(c.value) == m then Leads(raw, m, c.value) else forall url :: !Leads(raw, m, url)
    {
    }

    /** What a page adds to the batch for machine m: of each of its links that leads there, in order, the
        address, one step farther from the seeds than the page, and the anchor text. */
    ghost predicate SentOn(links: seq<Link>, seedDistance: nat, m: nat, more: seq<RoutedLink>)
      requires machineCount > 0
    {
      exists idx: seq<nat> :: SentFrom(links, seedDistance, m, more, idx)
    }

    ghost predicate SentFrom(links: seq<Link>, seedDistance: nat, m: nat, more: seq<RoutedLink>, idx: seq<nat>)
      requires machineCount > 0
    {
      && Chosen(ResolvedOf(links), m, RoutedUrls(more), idx)
      && forall k :: 0 <= k < |more| ==> more[k].seedDistance == seedDistance + 1 && more[k].anchorText == links[idx[k]].anchorText
    }

    lemma {:induction false} OutgoingSent(links: seq<Link>, n: nat, seedDistance: nat, m: nat) returns (idx: seq<nat>)
      requires n <= |links| && machineCount > 0 && m != id
      ensures SentFrom(links[..n], seedDistance, m, Outgoing(links, n, seedDistance, m), idx)
    {
      hide Machine.OutgoingOf, Machine.SentFrom;
      if n == 0 {
        NoneSent(seedDistance, m);
        assert links[..0] == [];
        return [];
      }
      idx := OutgoingSent(links, n - 1, seedDistance, m);
      assert links[..n] == links[..n - 1] + [links[n - 1]];
      idx := SentMore(links[..n - 1], seedDistance, m, Outgoing(links, n - 1, seedDistance, m), idx, links[n - 1]);
    }

    lemma NoneSent(seedDistance: nat, m: nat)
      requires machineCount > 0
      ensures SentFrom([], seedDistance, m, [], [])
    {
    }

    lemma SentMore(links: seq<Link>, seedDistance: nat, m: nat, more: seq<RoutedLink>, idx: seq<nat>, link: Link) returns (now: seq<nat>)
      requires machineCount > 0 && m != id && SentFrom(links, seedDistance, m, more, idx)
      ensures SentFrom(links + [link], seedDistance, m, more + OutgoingOf(link, seedDistance, m), now)
    {
      hide Machine.Accepts, Machine.Leads, Machine.Chosen, Machine.Destination;
      ChosenMore(ResolvedOf(links), m, RoutedUrls(more), idx, link.resolved);
      AcceptedLeads(link.resolved, m);
      ChosenInRange(ResolvedOf(links), m, RoutedUrls(more), idx);
      var added := OutgoingOf(link, seedDistance, m);
      assert ResolvedOf(links + [link]) == ResolvedOf(links) + [link.resolved];
      if added != [] {
        assert RoutedUrls(more + added) == RoutedUrls(more) + [added[0].url];
        now := idx + [|links|];
      } else {
        assert more + added == more;
        now := idx;
      }
    }

    lemma ChosenInRange(raws: seq<Text>, m: nat, urls: seq<Text>, idx: seq<nat>)
      requires machineCount > 0 && Chosen(raws, m, urls, idx)
      ensures |idx| == |urls| && forall k :: 0 <= k < |idx| ==> idx[k] < |raws|
    {
    }

    /** What a machine may queue: of each address that leads to it, in order, the normalised one with the
        distance given. */
    ghost predicate Candidates(raws: seq<Text>, distances: seq<nat>, items: seq<Discovered>)
      requires machineCount > 0
    {
      exists idx: seq<nat> :: CandidatesFrom(raws, distances, items, idx)
    }

    ghost predicate CandidatesFrom(raws: seq<Text>, distances: seq<nat>, items: seq<Discovered>, idx: seq<nat>)
      requires machineCount > 0
    {
      && |distances| == |raws| && Chosen(raws, id, Urls(items), idx)
      && forall k :: 0 <= k < |items| ==> items[k].seedDistance == distances[idx[k]]
    }

    lemma NoCandidates()
      requires machineCount > 0
      ensures CandidatesFrom([], [], [], [])
    {
    }

    lemma CandidatesMore(raws: seq<Text>, distances: seq<nat>, items: seq<Discovered>, idx: seq<nat>, raw: Text, distance: nat)
      returns (now: seq<nat>)
      requires machineCount > 0 && CandidatesFrom(raws, distances, items, idx)
      ensures CandidatesFrom(raws + [raw], distances + [distance], items + Own(raw, distance), now)
    {
      hide Machine.Accepts, Machine.Leads, Machine.Chosen, Machine.Destination;
      ChosenMore(raws, id, Urls(items), idx, raw);
      AcceptedLeads(raw, id);
      ChosenInRange(raws, id, Urls(items), idx);
      var added := Own(raw, distance);
      UrlsJoin(items, added);
      if added != [] {
        assert Urls(added) == [added[0].url];
        now := idx + [|raws|];
      } else {
        assert items + added == items;
        now := idx;
      }
    }

    lemma {:induction false} OwnLinksAre(links: seq<Link>, n: nat, seedDistance: nat) returns (idx: seq<nat>)
      requires n <= |links| && machineCount > 0
      ensures CandidatesFrom(ResolvedOf(links[..n]), seq(n, _ => seedDistance + 1), OwnLinks(links, n, seedDistance), idx)
    {
      hide Machine.Own, Machine.CandidatesFrom;
      if n == 0 {
        NoCandidates();
        idx := [];
        assert seq(0, _ => seedDistance + 1) == [];
      } else {
        idx := OwnLinksAre(links, n - 1, seedDistance);
        idx := CandidatesMore(ResolvedOf(links[..n - 1]), seq(n - 1, _ => seedDistance + 1), OwnLinks(links, n - 1, seedDistance), idx,
                              links[n - 1].resolved, seedDistance + 1);
        assert ResolvedOf(links[..n]) == ResolvedOf(links[..n - 1]) + [links[n - 1].resolved];
        assert seq(n, _ => seedDistance + 1) == seq(n - 1, _ => seedDistance + 1) + [seedDistance + 1];
      }
    }

    lemma {:induction false} OwnReceivedAre(links: seq<RoutedLink>) returns (idx: seq<nat>)
      requires machineCount > 0
      ensures CandidatesFrom(RoutedUrls(links), Distances(links), OwnReceived(links), idx)
    {
      hide Machine.Own, Machine.CandidatesFrom;
      if links == [] {
        NoCandidates();
        idx := [];
      } else {
        var n := |links| - 1;
        idx := OwnReceivedAre(links[..n]);
        idx := CandidatesMore(RoutedUrls(links[..n]), Distances(links[..n]), OwnReceived(links[..n]), idx, links[n].url, links[n].seedDistance);
        assert RoutedUrls(links) == RoutedUrls(links[..n]) + [links[n].url];
        assert Distances(links) == Distances(links[..n]) + [links[n].seedDistance];
      }
    }

    /** Going through the candidates in order, each one is taken exactly if it is new after those queued
        before and those taken so far; cut[i] of them were taken from the first i. */
    ghost predicate TakesNew(queued: seq<Text>, candidates: seq<Discovered>, taken: seq<Discovered>, cut: seq<nat>) {
      && |cut| == |candidates| + 1 && cut[0] == 0 && cut[|candidates|] == |taken|
      && forall i :: 0 <= i < |candidates| ==> TakenIfNew(queued, candidates[i], taken, cut[i], cut[i + 1])
    }

    ghost predicate TakenIfNew(queued: seq<Text>, item: Discovered, taken: seq<Discovered>, n: nat, next: nat) {
      && n <= |taken|
      && if IsNew(queued + Urls(taken[..n]), item.url) then n < |taken| && taken[n] == item && next == n + 1 else next == n
    }

    lemma {:induction false} NewItemsTaken(queued: seq<Text>, candidates: seq<Discovered>) returns (cut: seq<nat>)
      ensures TakesNew(queued, candidates, NewItems(queued, candidates), cut)
    {
      hide Machine.IsNew, Urls;
      if candidates == [] { return [0]; }
      var n := |candidates| - 1;
      var front := NewItems(queued, candidates[..n]);
      cut := NewItemsTaken(queued, candidates[..n]);
      var all := NewItems(queued, candidates);
      assert all[..|front|] == front;
      forall i | 0 <= i < n ensures TakenIfNew(queued, candidates[i], all, cut[i], cut[i + 1]) {
        assert candidates[..n][i] == candidates[i] && TakenIfNew(queued, candidates[i], front, cut[i], cut[i + 1]);
        assert all[..cut[i]] == front[..cut[i]];
      }
      cut := cut + [|all|];
    }

    /** What a page puts on this machine's frontier. */
    ghost predicate FoundOnPage(queued: seq<Text>, links: seq<Link>, seedDistance: nat, found: seq<Discovered>)
      requires machineCount > 0
    {
      exists candidates, cut ::
        Candidates(ResolvedOf(links), seq(|links|, _ => seedDistance + 1), candidates) && TakesNew(queued, candidates, found, cut)
    }

    /** What a batch puts there. */
    ghost predicate FoundInBatch(queued: seq<Text>, links: seq<RoutedLink>, found: seq<Discovered>)
      requires machineCount > 0
    {
      exists candidates, cut :: Candidates(RoutedUrls(links), Distances(links), candidates) && TakesNew(queued, candidates, found, cut)
    }

    lemma PageFound(queued: seq<Text>, links: seq<Link>, seedDistance: nat)
      requires machineCount > 0
      ensures FoundOnPage(queued, links, seedDistance, NewItems(queued, OwnLinks(links, |links|, seedDistance)))
      ensures forall m :: m != id ==> SentOn(links, seedDistance, m, Outgoing(links, |links|, seedDistance, m))
    {
      hide Machine.CandidatesFrom, Machine.TakesNew, Machine.NewItems, Machine.SentFrom;
      assert links[..|links|] == links;
      var idx := OwnLinksAre(links, |links|, seedDistance);
      var candidates := OwnLinks(links, |links|, seedDistance);
      assert Candidates(ResolvedOf(links), seq(|links|, _ => seedDistance + 1), candidates);
      var cut := NewItemsTaken(queued, candidates);
      forall m: nat | m != id ensures SentOn(links, seedDistance, m, Outgoing(links, |links|, seedDistance, m)) {
        var sent := OutgoingSent(links, |links|, seedDistance, m);
      }
    }

    lemma BatchFound(queued: seq<Text>, links: seq<RoutedLink>)
      requires machineCount > 0
      ensures FoundInBatch(queued, links, NewItems(queued, OwnReceived(links)))
    {
      hide Machine.CandidatesFrom, Machine.TakesNew, Machine.NewItems;
      var idx := OwnReceivedAre(links);
      assert Candidates(RoutedUrls(links), Distances(links), OwnReceived(links));
      var cut := NewItemsTaken(queued, OwnReceived(links));
    }

    /** The links of a crawled page: those of other machines go into batches, each new one of this
        machine is returned for the frontier. */
    method RouteLinks(links: seq<Link>, seedDistance: nat) returns (found: seq<Discovered>)
      requires Valid()
      modifies this`batches, this`outgoing, this`discovered, bloom
      ensures Valid() && discovered == old(discovered) + Urls(found)
      ensures found == NewItems(old(discovered), OwnLinks(links, |links|, seedDistance))
      ensures FoundOnPage(old(discovered), links, seedDistance, found)
      ensures forall m :: 0 <= m < machineCount ==> batches[m] == old(batches[m]) + Outgoing(links, |links|, seedDistance, m)
      ensures batches[id] == [] && forall m :: 0 <= m < machineCount && m != id ==>
                old(batches[m]) <= batches[m] && SentOn(links, seedDistance, m, batches[m][|old(batches[m])|..])
      ensures forall i :: 0 <= i < |links| && Accepts(links[i].resolved).Some? ==> Handled(Accepts(links[i].resolved).value)
      ensures forall k :: old(bloom.Contains(k)) ==> bloom.Contains(k)
    {
      hide Urls, Machine.Recorded, Machine.Routed, Machine.Accepts, Machine.OutgoingOf, Machine.NewItems, Machine.Own, UrlBloomFilter.Contains,
        Machine.FoundOnPage, Machine.SentOn;
      NoneNew(discovered);
      found := [];
      NoUrls([]);
      CountPositive();
      for i := 0 to |links|
        invariant Valid() && bloom.Valid() && discovered == old(discovered) + Urls(found)
        invariant |batches| == machineCount
        invariant found == NewItems(old(discovered), OwnLinks(links, i, seedDistance))
        invariant forall m :: 0 <= m < machineCount ==> batches[m] == old(batches[m]) + Outgoing(links, i, seedDistance, m)
        invariant forall k :: 0 <= k < i && Accepts(links[k].resolved).Some? ==> Handled(Accepts(links[k].resolved).value)
        invariant forall k :: old(bloom.Contains(k)) ==> bloom.Contains(k)
      {
        ghost var before := found;
        found := RouteOne(links[i], seedDistance, found);
        UrlsJoin(before, found[|before|..]);
        assert before + found[|before|..] == found;
        NewItemsMore(old(discovered), OwnLinks(links, i, seedDistance), Own(links[i].resolved, seedDistance + 1));
      }
      PageFound(old(discovered), links, seedDistance);
      OwnBatch();
    }

    lemma OwnBatch()
      requires Valid()
      ensures batches[id] == []
    {
    }

    lemma NoneNew(queued: seq<Text>)
      ensures NewItems(queued, []) == []
    {
    }

    lemma CountPositive()
      requires Valid()
      ensures machineCount > 0 && id < machineCount == |batches| && bloom.Valid()
    {
    }

    /** The loop body of RouteLinks. */
    method RouteOne(link: Link, seedDistance: nat, found: seq<Discovered>) returns (now: seq<Discovered>)
      requires Valid()
      modifies this`batches, this`outgoing, this`discovered, bloom
      ensures found <= now && now[|found|..] == NewItems(old(discovered), Own(link.resolved, seedDistance + 1))
      ensures Valid() && bloom.Valid() && discovered == old(discovered) + Urls(now[|found|..])
      ensures machineCount == |batches| && forall m :: 0 <= m < machineCount ==> batches[m] == old(batches[m]) + OutgoingOf(link, seedDistance, m)
      ensures Accepts(link.resolved).Some? ==> Handled(Accepts(link.resolved).value)
      ensures forall k :: old(bloom.Contains(k)) ==> bloom.Contains(k)
    {
      hide Urls, Machine.Recorded, UrlBloomFilter.Contains, Machine.Accepts, NoDuplicates, Machine.Kept, Machine.NewItems;
      CountPositive();
      NoneNew(discovered);
      now := found;
      NoUrls(found[|found|..]);
      var c := Accepts(link.resolved);
      if c.Some? {
        var destination := Destination(c.value);
        if destination != id {
          var routed := RoutedLink(c.value, seedDistance + 1, link.anchorText);
          KeptMore(destination, batches[destination], inHand[destination], outgoing[destination], sentOut[destination], routed);
          batches := batches[destination := batches[destination] + [routed]];
          outgoing := outgoing[destination := outgoing[destination] + multiset{routed}];
        } else {
          now := Discover(c.value, seedDistance + 1, found);
          assert now[|found|..] == NewItems(old(discovered), Own(link.resolved, seedDistance + 1));
        }
      }
      CountPositive();
    }

    /** An address of this machine is known to the filter from now on. */
    ghost predicate Handled(url: Text)
      requires machineCount > 0 && bloom.Valid()
      reads bloom
    {
      Destination(url) == id && url != [] ==> bloom.Contains(url)
    }

    /** The accepted addresses of this machine among received links are known to the filter. */
    ghost predicate AllHandled(links: seq<RoutedLink>)
      requires machineCount > 0 && bloom.Valid()
      reads bloom
    {
      forall i :: 0 <= i < |links| && Accepts(links[i].url).Some? ==> Handled(Accepts(links[i].url).value)
    }

    /** One received link: taken only if it is accepted here and belongs here. */
    method TakeLink(link: RoutedLink, found: seq<Discovered>) returns (now: seq<Discovered>)
      requires Valid()
      modifies this`discovered, bloom
      ensures Valid() && bloom.Valid() && found <= now && discovered == old(discovered) + Urls(now[|found|..])
      ensures now[|found|..] == NewItems(old(discovered), Own(link.url, link.seedDistance))
      ensures Accepts(link.url).Some? ==> Handled(Accepts(link.url).value)
      ensures forall k :: old(bloom.Contains(k)) ==> bloom.Contains(k)
    {
      hide NoDuplicates, Urls, Machine.Recorded, Machine.Routed, UrlBloomFilter.Contains, Machine.Accepts, Machine.NewItems;
      CountPositive();
      NoneNew(discovered);
      now := found;
      NoUrls(found[|found|..]);
      var c := Accepts(link.url);
      if c.Some? && ShouldOwnUrl(c.value) {
        now := Discover(c.value, link.seedDistance, found);
        assert now[|found|..] == NewItems(old(discovered), Own(link.url, link.seedDistance));
      }
      CountPositive();
    }

    /** A received payload, whatever it is: what is accepted and belongs here is known afterwards, and
        each new one of it is returned for the frontier. */
    method ProcessReceivedBatch(payload: Text) returns (found: seq<Discovered>)
      requires Valid()
      modifies this`discovered, bloom
      ensures Valid() && discovered == old(discovered) + Urls(found)
      ensures AllHandled(ParsePayload(payload)) && found == NewItems(old(discovered), OwnReceived(ParsePayload(payload)))
      ensures FoundInBatch(old(discovered), ParsePayload(payload), found)
      ensures forall k :: old(bloom.Contains(k)) ==> bloom.Contains(k)
    {
      hide Urls, ParseLine, ParsePayload, Machine.Accepts, Machine.Recorded, Machine.Routed, UrlBloomFilter.Contains, Machine.NewItems, Machine.Own,
        Machine.OwnReceived, Machine.FoundInBatch;
      found := [];
      NoneNew(discovered);
      NoUrls(found);
      CountPositive();
      NoneReceived();
      var lineStart := 0;
      ghost var done: seq<RoutedLink> := [];
      assert payload[0..] == payload;
      while lineStart < |payload|
        invariant lineStart <= |payload|
        invariant Valid() && bloom.Valid() && discovered == old(discovered) + Urls(found)
        invariant ParsePayload(payload) == done + ParsePayload(payload[lineStart..])
        invariant AllHandled(done) && found == NewItems(old(discovered), OwnReceived(done))
        invariant forall k :: old(bloom.Contains(k)) ==> bloom.Contains(k)
        decreases |payload| - lineStart
      {
        var lineEnd := FindCharFrom(payload, NEWLINE, lineStart);
        var line := payload[lineStart..lineEnd];
        LineFirst(payload, lineStart, lineEnd);
        ghost var before := found;
        if line != [] {
          var link := ReadLine(line);
          found := TakeLink(link, found);
          UrlsJoin(before, found[|before|..]);
          assert before + found[|before|..] == found;
          NewItemsMore(old(discovered), OwnReceived(done), Own(link.url, link.seedDistance));
          OwnReceivedMore(done, link);
          done := done + [link];
        }
        ghost var rest := if lineEnd < |payload| then ParsePayload(payload[lineEnd + 1..]) else [];
        lineStart := if lineEnd < |payload| then lineEnd + 1 else lineEnd;
        assert payload[|payload|..] == [];
        NothingParsed();
        assert rest == ParsePayload(payload[lineStart..]);
        assert AllHandled(done);
      }
      assert payload[|payload|..] == [];
      NothingParsed();
      assert done + [] == done;
      BatchFound(old(discovered), done);
    }

    lemma NoneReceived()
      requires machineCount > 0
      ensures OwnReceived([]) == []
    {
    }

    /** Before sending: the batch for a machine, which is empty afterwards. Each machine has one sender. */
    method TakeBatch(peer: nat) returns (batch: seq<RoutedLink>)
      requires Valid() && peer < machineCount && inHand[peer] == []
      modifies this`batches, this`inHand
      ensures Valid() && batch == old(batches[peer]) == inHand[peer]
      ensures batches == old(batches)[peer := []] && inHand == old(inHand)[peer := batch]
    {
      hide Machine.Recorded, Machine.Kept;
      KeptMoved(peer, batches[peer], inHand[peer], outgoing[peer], sentOut[peer]);
      batch := batches[peer];
      batches := batches[peer := []];
      inHand := inHand[peer := batch];
    }

    /** After taking: sends the batch in hand over the given connections. When a connection takes its frame
        whole, the batch is gone; otherwise its links go back behind those that came meanwhile. */
    method SendHeld(peer: nat, attempts: seq<Socket?>) returns (sent: bool, ghost at: nat)
      requires Valid() && peer < machineCount && peer != id && Apart(attempts)
      modifies this`batches, this`inHand, this`sentOut, Opened(attempts)`sent
      ensures Valid() && inHand == old(inHand)[peer := []] && (sent <==> at < SEND_ATTEMPTS) && (sent <==> Carried(attempts, old(inHand[peer])))
      ensures sent ==> attempts[at] != null && attempts[at].sent == old(attempts[at].sent) + Frame(PrintLinks(old(inHand[peer])))
      ensures forall i :: 0 <= i < SEND_ATTEMPTS && i < at && attempts[i] != null ==>
                Broken(old(attempts[i].sent), attempts[i].sent, Frame(PrintLinks(old(inHand[peer])))) && !attempts[i].reliable
      ensures forall i :: at < i < SEND_ATTEMPTS && attempts[i] != null ==> attempts[i].sent == old(attempts[i].sent)
      ensures batches == if sent then old(batches) else old(batches)[peer := old(batches)[peer] + old(inHand)[peer]]
      ensures sentOut == if sent then old(sentOut)[peer := old(sentOut)[peer] + multiset(old(inHand)[peer])] else old(sentOut)
    {
      hide Machine.Recorded, Machine.Kept, Broken, Frame, PrintLinks, Apart;
      KeptMoved(peer, batches[peer], inHand[peer], outgoing[peer], sentOut[peer]);
      sent, at := SendBatch(inHand[peer], attempts);
      if sent {
        sentOut := sentOut[peer := sentOut[peer] + multiset(inHand[peer])];
      } else {
        batches := batches[peer := batches[peer] + inHand[peer]];
      }
      inHand := inHand[peer := []];
    }

    /** One round of SendToPeerThread: takes the batch for a machine and sends it. */
    method SendToPeer(peer: nat, attempts: seq<Socket?>) returns (sent: bool, ghost at: nat)
      requires Valid() && peer < machineCount && peer != id && inHand[peer] == [] && Apart(attempts)
      modifies this`batches, this`inHand, this`sentOut, Opened(attempts)`sent
      ensures Valid() && inHand == old(inHand) && (sent <==> at < SEND_ATTEMPTS) && (sent <==> Carried(attempts, old(batches[peer])))
      ensures sent ==> attempts[at] != null && attempts[at].sent == old(attempts[at].sent) + Frame(PrintLinks(old(batches[peer])))
      ensures batches == if sent then old(batches)[peer := []] else old(batches)
      ensures sentOut == if sent then old(sentOut)[peer := old(sentOut)[peer] + multiset(old(batches)[peer])] else old(sentOut)
    {
      hide Machine.Recorded, Machine.Kept, Broken, Frame, PrintLinks;
      var batch := TakeBatch(peer);
      assert forall i :: 0 <= i < SEND_ATTEMPTS && attempts[i] != null ==> attempts[i].sent == old(attempts[i].sent);
      sent, at := SendHeld(peer, attempts);
      assert [] + batch == batch;
    }
  }

  /** Attempts to send a batch: the first and five more. */
  const SEND_ATTEMPTS: nat := 6

  /** Of a frame, only a proper beginning went out. */
  ghost predicate Broken(before: seq<byte>, after: seq<byte>, frame: seq<byte>) {
    exists n :: 0 <= n < |frame| && after == before + frame[..n]
  }

  /** The connections of the attempts, null for one that could not be opened; a new one each time. */
  ghost predicate Apart(attempts: seq<Socket?>) {
    && |attempts| == SEND_ATTEMPTS
    && forall i, j :: 0 <= i < j < |attempts| && attempts[i] != null ==> attempts[i] != attempts[j]
  }

  ghost function Opened(attempts: seq<Socket?>): set<Socket> {
    set s: Socket | s in attempts
  }

  /** Some connection took the whole frame of the batch meanwhile. */
  twostate predicate Carried(attempts: seq<Socket?>, batch: seq<RoutedLink>)
    requires |attempts| == SEND_ATTEMPTS
    reads Opened(attempts)
  {
    exists i :: 0 <= i < SEND_ATTEMPTS && attempts[i] != null
                && attempts[i].sent == old(attempts[i].sent) + Frame(PrintLinks(batch))
  }

  /** sendBatchToPeerWithRetry: the batch as one frame, tried again on a new connection when that failed.
      Exactly one whole frame goes out, in the attempt at, or none does. */
  method SendBatch(batch: seq<RoutedLink>, attempts: seq<Socket?>) returns (sent: bool, ghost at: nat)
    requires Apart(attempts)
    modifies Opened(attempts)`sent
    ensures (sent <==> at < SEND_ATTEMPTS) && (sent <==> Carried(attempts, batch))
    ensures sent ==> attempts[at] != null && attempts[at].sent == old(attempts[at].sent) + Frame(PrintLinks(batch))
    ensures forall i :: 0 <= i < SEND_ATTEMPTS && i < at && attempts[i] != null ==>
              Broken(old(attempts[i].sent), attempts[i].sent, Frame(PrintLinks(batch))) && !attempts[i].reliable
    ensures forall i :: at < i < SEND_ATTEMPTS && attempts[i] != null ==> attempts[i].sent == old(attempts[i].sent)
  {
    hide Frame, PrintLinks;
    var payload := BuildPayload(batch);
    at := SEND_ATTEMPTS;
    for attempt := 0 to SEND_ATTEMPTS
      invariant at == SEND_ATTEMPTS
      invariant forall i :: 0 <= i < attempt && attempts[i] != null ==>
                  Broken(old(attempts[i].sent), attempts[i].sent, Frame(payload)) && !attempts[i].reliable
      invariant forall i :: attempt <= i < SEND_ATTEMPTS && attempts[i] != null ==> attempts[i].sent == old(attempts[i].sent)
    {
      if attempts[attempt] != null {
        assert attempts[attempt] in attempts;
        sent := attempts[attempt].SendFrame(payload);
        if sent {
          at := attempt;
          return;
        }
      }
    }
    sent := false;
  }

  // ---------------------------------------------------------------- the whole crawl

  /** The machines of one crawl: numbered in order, agreed on the hash. */
  ghost predicate Crawl(machines: seq<Machine>)
    reads set i | 0 <= i < |machines| :: machines[i], set i | 0 <= i < |machines| :: machines[i].bloom
  {
    && (forall i :: 0 <= i < |machines| ==>
          machines[i].id == i && machines[i].machineCount == |machines| && machines[i].hash == machines[0].hash && machines[i].Valid())
    && (forall i, j :: 0 <= i < j < |machines| ==> machines[i] != machines[j] && machines[i].bloom != machines[j].bloom)
  }

  /** What can happen at a machine: it crawled a page; a payload arrived, sent by whomever and however
      often; a sender took a batch; a sender tried to send the one in its hands. */
  datatype Event =
    | PageCrawled(links: seq<Link>, seedDistance: nat)
    | PayloadArrived(payload: Text)
    | BatchTaken(peer: nat)
    | BatchTried(peer: nat, attempts: seq<Socket?>)

  /** A sender takes a batch only after it is through with the one before. */
  ghost predicate Enabled(machine: Machine, event: Event)
    requires machine.Valid()
    reads machine, machine.bloom
  {
    match event
    case BatchTaken(peer) => peer < machine.machineCount && machine.inHand[peer] == []
    case BatchTried(peer, attempts) => peer < machine.machineCount && peer != machine.id && Apart(attempts)
    case _ => true
  }

  ghost function Connections(event: Event): set<Socket> {
    match event
    case BatchTried(_, attempts) => Opened(attempts)
    case _ => {}
  }

  /** Any event at any machine keeps the crawl in order, and does what it is said to do. */
  method Happens(machines: seq<Machine>, m: nat, event: Event) returns (found: seq<Discovered>)
    requires Crawl(machines) && m < |machines| && Enabled(machines[m], event)
    modifies machines[m], machines[m].bloom, Connections(event)`sent
    ensures Crawl(machines) && machines[m].discovered == old(machines[m].discovered) + Urls(found)
    ensures forall i :: 0 <= i < |machines| && i != m ==> machines[i].discovered == old(machines[i].discovered)
    ensures var at := machines[m];
      match event
      case PageCrawled(links, seedDistance) =>
        && at.FoundOnPage(old(at.discovered), links, seedDistance, found) && at.batches[m] == []
        && (forall p :: 0 <= p < |machines| && p != m ==>
              old(at.batches[p]) <= at.batches[p] && at.SentOn(links, seedDistance, p, at.batches[p][|old(at.batches[p])|..]))
        && at.inHand == old(at.inHand) && at.sentOut == old(at.sentOut)
      case PayloadArrived(payload) =>
        && at.FoundInBatch(old(at.discovered), ParsePayload(payload), found) && at.AllHandled(ParsePayload(payload))
        && at.batches == old(at.batches) && at.inHand == old(at.inHand) && at.sentOut == old(at.sentOut)
      case BatchTaken(peer) =>
        && found == [] && at.sentOut == old(at.sentOut)
        && at.batches == old(at.batches)[peer := []] && at.inHand == old(at.inHand)[peer := old(at.batches)[peer]]
      case BatchTried(peer, attempts) =>
        && found == [] && at.inHand == old(at.inHand)[peer := []]
        && if Carried(attempts, old(at.inHand[peer]))
           then at.batches == old(at.batches) && at.sentOut == old(at.sentOut)[peer := old(at.sentOut)[peer] + multiset(old(at.inHand)[peer])]
           else at.sentOut == old(at.sentOut) && at.batches == old(at.batches)[peer := old(at.batches)[peer] + old(at.inHand)[peer]]
  {
    hide Machine.Valid, Carried, Frame, PrintLinks, ParsePayload, Machine.NewItems, Machine.OwnLinks, Machine.OwnReceived, Machine.Outgoing,
      Machine.FoundOnPage, Machine.FoundInBatch, Machine.SentOn;
    match event
    case PageCrawled(links, seedDistance) => found := machines[m].RouteLinks(links, seedDistance);
    case PayloadArrived(payload) => found := machines[m].ProcessReceivedBatch(payload);
    case BatchTaken(peer) =>
      var _ := machines[m].TakeBatch(peer);
      found := [];
      NoUrls(found);
    case BatchTried(peer, attempts) =>
      var sent;
      ghost var at;
      sent, at := machines[m].SendHeld(peer, attempts);
      found := [];
      NoUrls(found);
  }

  /** In every state that the machines can reach, by any pages, any batches and any deliveries: an
      address discovered anywhere was discovered by the machine it hashes to, there once, and nowhere
      else. */
  lemma DiscoveredOnce(machines: seq<Machine>, i: nat, k: nat, j: nat, l: nat)
    requires Crawl(machines) && i < |machines| && k < |machines[i].discovered| && j < |machines| && l < |machines[j].discovered|
    requires machines[i].discovered[k] == machines[j].discovered[l]
    ensures machines[i].hash(machines[i].discovered[k]) % |machines| == i == j && k == l
  {
    assert machines[i].discovered[k] in machines[i].discovered && machines[j].discovered[l] in machines[j].discovered;
  }

  /** The address was discovered here, or all its probes fall on bits of others that were. */
  ghost predicate FoundOrCollides(m: Machine, url: Text)
    requires m.bloom.Valid()
    reads m, m.bloom
  {
    url in m.discovered || Collides(m.discovered, url, m.bloom.hashKey, m.bloom.hashCount, |m.bloom.bits|)
  }

  /** Nothing else is ever taken for a repetition. */
  lemma DroppedOnlyByCollision(m: Machine, url: Text)
    requires m.Valid() && url != []
    ensures m.bloom.Valid() && (m.bloom.Contains(url) <==> FoundOrCollides(m, url))
  {
    hide AllSet, BitsOf, Collides;
    KnownOrCollides(m.bloom.bits, m.discovered, url, m.bloom.hashKey, m.bloom.hashCount);
  }

  /** After a batch has arrived, every link of it whose address, as the receiver's checks make it, belongs
      to the receiver is discovered there, but for those that collide. */
  lemma BatchArrives(receiver: Machine, batch: seq<RoutedLink>, k: nat, url: Text)
    requires receiver.Valid() && receiver.AllHandled(ParsePayload(PrintLinks(batch)))
    requires (forall i :: 0 <= i < |batch| ==> CleanLink(batch[i])) && k < |batch|
    requires receiver.Leads(batch[k].url, receiver.id, url) && url != []
    ensures receiver.bloom.Valid() && FoundOrCollides(receiver, url)
  {
    hide ParsePayload, PrintLinks, AllSet, FoundOrCollides, BitsOf;
    PayloadRoundTrip(batch);
    DroppedOnlyByCollision(receiver, url);
  }

  lemma NoUrls(items: seq<Discovered>)
    requires items == []
    ensures Urls(items) == []
  {
  }

  lemma UrlsJoin(a: seq<Discovered>, b: seq<Discovered>)
    ensures Urls(a + b) == Urls(a) + Urls(b)
  {
  }

  /** A payload from a place on: its first line, and what is behind it. */
  lemma LineFirst(payload: Text, start: nat, end: nat)
    requires start < |payload| && end == Find(payload, NEWLINE, start)
    ensures ParsePayload(payload[start..])
         == (if payload[start..end] == [] then [] else [ParseLine(payload[start..end])])
            + if end < |payload| then ParsePayload(payload[end + 1..]) else []
  {
    hide Split, ParseLine, ParseLines;
    var line := payload[start..end];
    if end < |payload| {
      assert payload[start..] == line + [NEWLINE] + payload[end + 1..];
      SplitFirst(line, NEWLINE, payload[end + 1..]);
      LinesMore(line, Split(payload[end + 1..], NEWLINE));
    } else {
      assert line == payload[start..];
      SplitWhole(line, NEWLINE);
      LinesMore(line, []);
      assert [line] + [] == [line];
    }
  }

  lemma LinesMore(line: Text, lines: seq<Text>)
    ensures ParseLines([line] + lines) == (if line == [] then [] else [ParseLine(line)]) + ParseLines(lines)
    ensures ParseLines([]) == []
  {
    hide ParseLine;
    assert ([line] + lines)[1..] == lines;
  }

  lemma NothingParsed()
    ensures ParsePayload([]) == []
  {
    hide Split;
    SplitWhole([], NEWLINE);
    LinesMore([], []);
    var none: seq<Text> := [];
    assert [[]] + none == [[]];
  }
}
