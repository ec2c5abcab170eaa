/** What the crawl frontier keeps about hosts: who is ready, who sleeps until when, and who is being
    crawled (src/crawler/frontier.h, frontier.cpp). Plain values only; the frontier itself is in
    frontier.dfy. */
module Schedule {
  import opened Basics

  datatype FrontierItem = FrontierItem(link: Text, seedDistance: nat, failed: bool)

  datatype HostQueue = HostQueue(items: seq<FrontierItem>, blockedUntilMs: int, sleepGeneration: nat,
                                 inFlight: bool, inReadyQueue: bool, inSleepingQueue: bool)

  datatype SleepingHost = SleepingHost(readyAtMs: int, generation: nat, hostKey: Text)

  const NEW_HOST := HostQueue([], 0, 0, false, false, false)

  type Worker = nat

  // ---------------------------------------------------------------- the host of an address

  predicate SchemeAt(url: Text, i: nat) {
    i + 3 <= |url| && url[i] == 58 && url[i + 1] == 47 && url[i + 2] == 47
  }

  /** Behind the first "://" from i on, or 0. */
  function HostStart(url: Text, i: nat): (start: nat)
    ensures start <= |url|
    decreases |url| - i
  {
    if i >= |url| then 0 else if SchemeAt(url, i) then i + 3 else HostStart(url, i + 1)
  }

  predicate EndsHost(c: byte) { c == 47 || c == 58 || c == 63 || c == 35 }

  function HostEnd(url: Text, i: nat): (end: nat)
    requires i <= |url|
    ensures i <= end <= |url|
    decreases |url| - i
  {
    if i == |url| || EndsHost(url[i]) then i else HostEnd(url, i + 1)
  }

  function HostKey(url: Text): Text {
    var start := HostStart(url, 0);
    url[start..HostEnd(url, start)]
  }

  method ExtractHostKey(url: Text) returns (key: Text)
    ensures key == HostKey(url)
  {
    var hostStart, i := 0, 0;
    while i < |url|
      invariant i <= |url| && hostStart == 0 && HostStart(url, i) == HostStart(url, 0)
    {
      if SchemeAt(url, i) {
        hostStart := i + 3;
        break;
      }
      i := i + 1;
    }
    assert hostStart == HostStart(url, 0);
    var hostEnd := |url|;
    i := hostStart;
    while i < |url|
      invariant hostStart <= i <= |url| && hostEnd == |url| && HostEnd(url, i) == HostEnd(url, hostStart)
    {
      if EndsHost(url[i]) {
        hostEnd := i;
        break;
      }
      i := i + 1;
    }
    key := url[hostStart..hostEnd];
  }

  /** No "://" begins among the first n bytes. */
  predicate NoSeparator(url: Text, n: nat) {
    forall i :: 0 <= i < n ==> !SeparatorAt(url, i)
  }

  predicate SeparatorAt(url: Text, i: nat) { i + 3 <= |url| && url[i..i + 3] == [58, 47, 47] }

  /** Neither slash nor colon, question mark or hash. */
  predicate HostBytes(h: Text) {
    forall i :: 0 <= i < |h| ==> h[i] != 47 && h[i] != 58 && h[i] != 63 && h[i] != 35
  }

  /** What may stand behind a host: nothing, or something that begins with one of these. */
  predicate BehindHost(rest: Text) {
    rest != [] ==> rest[0] == 47 || rest[0] == 58 || rest[0] == 63 || rest[0] == 35
  }

  /** The host stands behind the first "://" and before the first slash, colon, question mark or hash. */
  lemma HostBehindScheme(scheme: Text, h: Text, rest: Text)
    requires NoSeparator(scheme + [58, 47, 47], |scheme|) && HostBytes(h) && BehindHost(rest)
    ensures HostKey(scheme + [58, 47, 47] + h + rest) == h
  {
    hide HostStart, HostEnd;
    var front := scheme + [58, 47, 47];
    var url := front + h + rest;
    assert url[|scheme|..|scheme| + 3] == [58, 47, 47];
    forall i | 0 <= i < |scheme| ensures !SchemeAt(url, i) {
      assert !SeparatorAt(front, i) && front[i..i + 3] == url[i..i + 3];
      SchemeSlice(url, i);
    }
    StartIs(url, 0, |scheme|);
    HostEndsAt(url, |front|, h, rest);
  }

  /** In an address without "://" it stands at the beginning. */
  lemma HostFirst(h: Text, rest: Text)
    requires NoSeparator(h + rest, |h + rest|) && HostBytes(h) && BehindHost(rest)
    ensures HostKey(h + rest) == h
  {
    hide HostStart, HostEnd;
    var url := h + rest;
    forall i | 0 <= i < |url| ensures !SchemeAt(url, i) {
      assert !SeparatorAt(url, i);
      if i + 3 <= |url| { SchemeSlice(url, i); }
    }
    StartIs(url, 0, |url|);
    HostEndsAt(url, 0, h, rest);
  }

  lemma {:induction false} StartIs(url: Text, i: nat, at: nat)
    requires i <= at <= |url| && (at < |url| ==> SchemeAt(url, at)) && forall j :: i <= j < at ==> !SchemeAt(url, j)
    ensures HostStart(url, i) == if at < |url| then at + 3 else 0
    decreases at - i
  {
    hide SchemeAt;
    if i < at { StartIs(url, i + 1, at); }
  }

  lemma HostEndsAt(url: Text, start: nat, h: Text, rest: Text)
    requires start + |h| + |rest| == |url| && url[start..] == h + rest && HostBytes(h) && BehindHost(rest)
    ensures url[start..HostEnd(url, start)] == h
  {
    var tail := url[start..];
    forall i | start <= i < start + |h| ensures url[i] == h[i - start] { assert url[i] == tail[i - start]; }
    if rest != [] { assert url[start + |h|] == tail[|h|] == rest[0]; }
    EndIs(url, start, start + |h|);
    assert url[start..start + |h|] == tail[..|h|];
  }

  lemma {:induction false} EndIs(url: Text, i: nat, end: nat)
    requires i <= end <= |url| && (end < |url| ==> EndsHost(url[end])) && forall j :: i <= j < end ==> !EndsHost(url[j])
    ensures HostEnd(url, i) == end
    decreases end - i
  {
    if i < end { EndIs(url, i + 1, end); }
  }

  /** Every address is of one of these two kinds. */
  lemma AddressParts(url: Text) returns (scheme: Option<Text>, h: Text, rest: Text)
    ensures HostBytes(h) && BehindHost(rest) && HostKey(url) == h
    ensures scheme.Some? ==> url == scheme.value + [58, 47, 47] + h + rest && NoSeparator(scheme.value + [58, 47, 47], |scheme.value|)
    ensures scheme.None? ==> url == h + rest && NoSeparator(url, |url|)
  {
    hide HostStart, HostEnd, NoSeparator;
    var start := HostStart(url, 0);
    var end := HostEnd(url, start);
    EndFound(url, start);
    h, rest := url[start..end], url[end..];
    FirstSeparator(url, 0);
    scheme := if start == 0 then None else Some(url[..start - 3]);
    if start > 0 { assert url[..start] == url[..start - 3] + [58, 47, 47]; }
  }

  lemma {:induction false} EndFound(url: Text, i: nat)
    requires i <= |url|
    ensures var end := HostEnd(url, i); HostBytes(url[i..end]) && BehindHost(url[end..])
    decreases |url| - i
  {
    if i < |url| && !EndsHost(url[i]) {
      EndFound(url, i + 1);
      var end := HostEnd(url, i + 1);
      assert url[i..end] == [url[i]] + url[i + 1..end];
    }
  }

  lemma SchemeSlice(url: Text, i: nat)
    requires i + 3 <= |url|
    ensures SchemeAt(url, i) <==> url[i..i + 3] == [58, 47, 47]
  {
    var t := url[i..i + 3];
    assert url[i] == t[0] && url[i + 1] == t[1] && url[i + 2] == t[2];
  }

  lemma CutSeparator(url: Text, i: nat)
    requires i + 3 <= |url| && NoSeparator(url, i)
    ensures NoSeparator(url[..i + 3], i)
  {
    var front := url[..i + 3];
    forall j | 0 <= j < i ensures !SeparatorAt(front, j) {
      assert !SeparatorAt(url, j) && front[j..j + 3] == url[j..j + 3];
    }
  }

  lemma {:induction false} FirstSeparator(url: Text, i: nat)
    requires i <= |url| && NoSeparator(url, i)
    ensures var start := HostStart(url, i);
      if start == 0 then NoSeparator(url, |url|)
      else start >= 3 && url[start - 3..start] == [58, 47, 47] && NoSeparator(url[..start], start - 3)
    decreases |url| - i
  {
    if i < |url| {
      if SchemeAt(url, i) {
        SchemeSlice(url, i);
        CutSeparator(url, i);
      } else {
        if i + 3 <= |url| { SchemeSlice(url, i); }
        FirstSeparator(url, i + 1);
      }
    }
  }

  /** Addresses that differ only behind the host, as in port or path, are of the same host. */
  lemma SameHost(scheme: Text, h: Text, a: Text, b: Text)
    requires NoSeparator(scheme + [58, 47, 47], |scheme|) && HostBytes(h) && BehindHost(a) && BehindHost(b)
    ensures HostKey(scheme + [58, 47, 47] + h + a) == HostKey(scheme + [58, 47, 47] + h + b)
  {
    HostBehindScheme(scheme, h, a);
    HostBehindScheme(scheme, h, b);
  }

  /** Which addresses have no host: where it should begin there is nothing, or a slash, colon, question
      mark or hash. */
  lemma NoHostIff(url: Text)
    ensures HostKey(url) == []
       <==> (NoSeparator(url, |url|) && BehindHost(url)) || exists scheme: Text, rest: Text :: IsHostless(url, scheme, rest)
  {
    hide HostKey, NoSeparator;
    var scheme, h, rest := AddressParts(url);
    if HostKey(url) == [] {
      assert h + rest == rest;
      if scheme.Some? {
        assert scheme.value + [58, 47, 47] + h == scheme.value + [58, 47, 47];
        assert IsHostless(url, scheme.value, rest);
      }
    }
    if scheme: Text, rest: Text :| IsHostless(url, scheme, rest) {
      HostBehindScheme(scheme, [], rest);
      assert scheme + [58, 47, 47] + [] + rest == url;
    }
    if NoSeparator(url, |url|) && BehindHost(url) {
      assert [] + url == url;
      HostFirst([], url);
    }
  }

  predicate IsHostless(url: Text, scheme: Text, rest: Text) {
    url == scheme + [58, 47, 47] + rest && NoSeparator(scheme + [58, 47, 47], |scheme|) && BehindHost(rest)
  }

  /** For one of them, such as "/a", the source remembers no host with its worker. */
  lemma NoHostExample()
    ensures HostKey([47, 97]) == []
  {
    assert HostStart([47, 97], 2) == 0;
    assert HostStart([47, 97], 1) == 0;
  }

  // ---------------------------------------------------------------- the state of the schedule

  /** Some worker is at work on the host. */
  ghost predicate Busy(active: map<Worker, Text>, h: Text) {
    exists w :: w in active && active[w] == h
  }

  /** The host that the source remembers with a worker; the empty key stands for none. */
  function Taken(active: map<Worker, Text>, w: Worker, h: Text): map<Worker, Text> {
    if h == [] then active else active[w := h]
  }

  /** The host without name is in flight: no worker is remembered with it, so it will stay so. */
  predicate Stuck(hosts: map<Text, HostQueue>) {
    [] in hosts && hosts[[]].inFlight
  }

  /** The entry that will wake the host. */
  function WakeUp(h: Text, q: HostQueue): SleepingHost {
    SleepingHost(q.blockedUntilMs, q.sleepGeneration, h)
  }

  /** One host is in order at a time at which the clock was last read as now. The host has been
      snoozed until the given time. */
  ghost predicate HostOk(h: Text, q: HostQueue, ready: seq<Text>, sleeping: multiset<SleepingHost>, active: map<Worker, Text>,
                         now: int, snoozedUntil: int)
  {
    && (forall i :: 0 <= i < |q.items| ==> HostKey(q.items[i].link) == h)
    && q.blockedUntilMs >= 0
    // in the ready queue: has items, and nothing holds it back
    && (q.inReadyQueue <==> h in ready)
    && (q.inReadyQueue ==> q.items != [] && !q.inFlight && q.blockedUntilMs == 0 && !q.inSleepingQueue)
    // in flight: a worker has it, if it has a name
    && (Busy(active, h) ==> q.inFlight)
    && (q.inFlight && h != [] ==> Busy(active, h))
    && (q.inFlight ==> q.blockedUntilMs == 0 && !q.inSleepingQueue)
    // asleep: there is an entry to wake it, unless that was dropped when the host had no items
    && (q.inSleepingQueue ==> WakeUp(h, q) in sleeping || (q.items == [] && q.blockedUntilMs <= now))
    // otherwise it has nothing to do
    && (!q.inFlight && !q.inReadyQueue && !q.inSleepingQueue ==> q.items == [] && q.blockedUntilMs <= now)
    // entries of its generation know its waking time
    && (forall s :: s in sleeping && s.hostKey == h ==>
          s.generation <= q.sleepGeneration
          && (s.generation == q.sleepGeneration && q.inSleepingQueue ==> s.readyAtMs == q.blockedUntilMs))
    // a snooze holds
    && (now < snoozedUntil ==> snoozedUntil <= q.blockedUntilMs)
  }

  ghost function Until(snoozed: map<Text, int>, h: Text): int {
    if h in snoozed then snoozed[h] else 0
  }

  ghost predicate Scheduled(hosts: map<Text, HostQueue>, ready: seq<Text>, sleeping: multiset<SleepingHost>,
                            active: map<Worker, Text>, now: int, snoozed: map<Text, int>)
  {
    && now >= 0
    && NoDuplicates(ready)
    && (forall h :: h in ready ==> h in hosts)
    && (forall s :: s in sleeping ==> s.hostKey in hosts)
    && (forall w :: w in active ==> active[w] in hosts && active[w] != [])
    && (forall v, w :: v in active && w in active && active[v] == active[w] ==> v == w)
    && (forall h :: h in snoozed ==> h in hosts)
    && (forall h :: h in hosts ==> HostOk(h, hosts[h], ready, sleeping, active, now, Until(snoozed, h)))
  }

  /** Whatever concerns another host than h is the same in both. */
  ghost predicate SameElsewhere(h: Text, ready: seq<Text>, ready': seq<Text>, sleeping: multiset<SleepingHost>,
                                sleeping': multiset<SleepingHost>, active: map<Worker, Text>, active': map<Worker, Text>,
                                snoozed: map<Text, int>, snoozed': map<Text, int>)
  {
    && (forall g :: g != h ==> (g in ready' <==> g in ready))
    && (forall s :: s in sleeping' && s.hostKey != h ==> s in sleeping)
    && (forall s :: s in sleeping && s.hostKey != h ==> s in sleeping')
    && (forall w :: w in active' && active'[w] != h ==> w in active && active[w] == active'[w])
    && (forall w :: w in active && active[w] != h ==> w in active' && active[w] == active'[w])
    && (forall g :: g != h ==> (g in snoozed' <==> g in snoozed) && Until(snoozed', g) == Until(snoozed, g))
  }

  /** A step that concerns one host only. */
  lemma OneHostChanges(hosts: map<Text, HostQueue>, ready: seq<Text>, sleeping: multiset<SleepingHost>, active: map<Worker, Text>,
                       now: int, snoozed: map<Text, int>, h: Text, q: HostQueue, ready': seq<Text>,
                       sleeping': multiset<SleepingHost>, active': map<Worker, Text>, snoozed': map<Text, int>)
    requires Scheduled(hosts, ready, sleeping, active, now, snoozed)
    requires SameElsewhere(h, ready, ready', sleeping, sleeping', active, active', snoozed, snoozed')
    requires NoDuplicates(ready')
    requires forall v, w :: v in active' && w in active' && active'[v] == h && active'[w] == h ==> v == w
    requires h == [] ==> !Busy(active', h)
    requires HostOk(h, q, ready', sleeping', active', now, Until(snoozed', h))
    ensures Scheduled(hosts[h := q], ready', sleeping', active', now, snoozed')
  {
    hide HostOk, NoDuplicates;
    var hosts' := hosts[h := q];
    forall g | g in hosts' ensures HostOk(g, hosts'[g], ready', sleeping', active', now, Until(snoozed', g)) {
      if g != h {
        OtherHost(g, hosts[g], ready, ready', sleeping, sleeping', active, active', now, Until(snoozed, g), h);
      }
    }
    forall g | g in ready' ensures g in hosts' { assert g == h || g in ready; }
    forall s | s in sleeping' ensures s.hostKey in hosts' { assert s.hostKey == h || s in sleeping; }
    forall w | w in active' ensures active'[w] in hosts' && active'[w] != [] { assert active'[w] == h || w in active; }
    forall v, w | v in active' && w in active' && active'[v] == active'[w] ensures v == w {
      if active'[v] != h { assert v in active && w in active; }
    }
  }

  lemma OtherHost(g: Text, q: HostQueue, ready: seq<Text>, ready': seq<Text>, sleeping: multiset<SleepingHost>,
                  sleeping': multiset<SleepingHost>, active: map<Worker, Text>, active': map<Worker, Text>, now: int, until: int, h: Text)
    requires g != h && HostOk(g, q, ready, sleeping, active, now, until)
    requires g in ready' <==> g in ready
    requires forall s :: s in sleeping' && s.hostKey != h ==> s in sleeping
    requires forall s :: s in sleeping && s.hostKey != h ==> s in sleeping'
    requires forall w :: w in active' && active'[w] != h ==> w in active && active[w] == active'[w]
    requires forall w :: w in active && active[w] != h ==> w in active' && active[w] == active'[w]
    ensures HostOk(g, q, ready', sleeping', active', now, until)
  {
    assert Busy(active', g) <==> Busy(active, g);
  }

  /** Time may pass between two steps. */
  lemma TimePasses(hosts: map<Text, HostQueue>, ready: seq<Text>, sleeping: multiset<SleepingHost>, active: map<Worker, Text>,
                   now: int, snoozed: map<Text, int>, later: int)
    requires Scheduled(hosts, ready, sleeping, active, now, snoozed) && now <= later
    ensures Scheduled(hosts, ready, sleeping, active, later, snoozed)
  {
    hide NoDuplicates;
    forall h | h in hosts ensures HostOk(h, hosts[h], ready, sleeping, active, later, Until(snoozed, h)) {
      LaterOk(h, hosts[h], ready, sleeping, active, now, Until(snoozed, h), later);
    }
  }

  lemma LaterOk(h: Text, q: HostQueue, ready: seq<Text>, sleeping: multiset<SleepingHost>, active: map<Worker, Text>, now: int,
                until: int, later: int)
    requires HostOk(h, q, ready, sleeping, active, now, until) && now <= later
    ensures HostOk(h, q, ready, sleeping, active, later, until)
  {
  }

  // ---------------------------------------------------------------- steps on one host

  /** scheduleHost on a host: leaves it, puts it to sleep, or makes it ready. */
  datatype Outcome = Left | Slept | Readied

  function OutcomeOf(q: HostQueue, now: int): Outcome {
    if q.items == [] || q.inFlight || q.inReadyQueue then Left
    else if q.blockedUntilMs > now then if q.inSleepingQueue then Left else Slept
    else Readied
  }

  function Settled(q: HostQueue, now: int): HostQueue {
    match OutcomeOf(q, now)
    case Left => q
    case Slept => q.(inSleepingQueue := true)
    case Readied => q.(blockedUntilMs := 0, inSleepingQueue := false, inReadyQueue := true)
  }

  function ReadyAfter(ready: seq<Text>, h: Text, q: HostQueue, now: int): seq<Text> {
    if OutcomeOf(q, now) == Readied then ready + [h] else ready
  }

  function SleepingAfter(sleeping: multiset<SleepingHost>, h: Text, q: HostQueue, now: int): multiset<SleepingHost> {
    if OutcomeOf(q, now) == Slept then sleeping + multiset{WakeUp(h, q)} else sleeping
  }

  /** A host without a trace is in order. */
  lemma NewHostOk(hosts: map<Text, HostQueue>, ready: seq<Text>, sleeping: multiset<SleepingHost>, active: map<Worker, Text>,
                  now: int, snoozed: map<Text, int>, h: Text)
    requires Scheduled(hosts, ready, sleeping, active, now, snoozed) && h !in hosts
    ensures HostOk(h, NEW_HOST, ready, sleeping, active, now, Until(snoozed, h))
  {
  }

  /** An item arrives for a host, which is then scheduled. */
  lemma ItemArrives(h: Text, q: HostQueue, item: FrontierItem, ready: seq<Text>, sleeping: multiset<SleepingHost>,
                    active: map<Worker, Text>, now: int, until: int)
    requires HostOk(h, q, ready, sleeping, active, now, until) && HostKey(item.link) == h && now >= 0
    ensures var r := q.(items := q.items + [item]);
      HostOk(h, Settled(r, now), ReadyAfter(ready, h, r, now), SleepingAfter(sleeping, h, r, now), active, now, until)
      && (OutcomeOf(r, now) == Readied ==> h !in ready) && OutcomeOf(r, now) != Slept
  {
    hide HostKey;
  }

  /** A worker is done with a host, which is then scheduled. */
  lemma HostReleased(h: Text, q: HostQueue, ready: seq<Text>, sleeping: multiset<SleepingHost>, active: map<Worker, Text>,
                     active': map<Worker, Text>, now: int, until: int)
    requires HostOk(h, q, ready, sleeping, active, now, until) && q.inFlight && !Busy(active', h) && now >= 0
    ensures var r := q.(inFlight := false);
      HostOk(h, Settled(r, now), ReadyAfter(ready, h, r, now), SleepingAfter(sleeping, h, r, now), active', now, until)
      && (OutcomeOf(r, now) == Readied ==> h !in ready) && OutcomeOf(r, now) != Slept
  {
    hide HostKey;
  }

  function Snoozed(q: HostQueue, item: FrontierItem, readyAtMs: int): HostQueue {
    q.(inFlight := false, items := [item] + q.items, blockedUntilMs := Max(q.blockedUntilMs, readyAtMs),
       sleepGeneration := q.sleepGeneration + 1)
  }

  /** A worker puts an item back and its host to sleep until a later time. */
  lemma HostSnoozed(h: Text, q: HostQueue, item: FrontierItem, readyAtMs: int, ready: seq<Text>, sleeping: multiset<SleepingHost>,
                    active: map<Worker, Text>, active': map<Worker, Text>, now: int, until: int)
    requires HostOk(h, q, ready, sleeping, active, now, until) && q.inFlight && !Busy(active', h)
    requires HostKey(item.link) == h && now < readyAtMs
    ensures var r := Snoozed(q, item, readyAtMs).(inSleepingQueue := true);
      HostOk(h, r, ready, sleeping + multiset{WakeUp(h, r)}, active', now, Max(until, readyAtMs))
  {
    hide HostKey;
    var r := Snoozed(q, item, readyAtMs).(inSleepingQueue := true);
    assert WakeUp(h, r) in sleeping + multiset{WakeUp(h, r)};
  }

  /** The same for a time that has already come. */
  lemma HostSnoozedBriefly(h: Text, q: HostQueue, item: FrontierItem, readyAtMs: int, ready: seq<Text>, sleeping: multiset<SleepingHost>,
                           active: map<Worker, Text>, active': map<Worker, Text>, now: int, until: int)
    requires HostOk(h, q, ready, sleeping, active, now, until) && q.inFlight && !Busy(active', h)
    requires HostKey(item.link) == h && readyAtMs <= now && now >= 0
    ensures var r := Snoozed(q, item, readyAtMs);
      HostOk(h, Settled(r, now), ReadyAfter(ready, h, r, now), SleepingAfter(sleeping, h, r, now), active', now, Max(until, readyAtMs))
      && (OutcomeOf(r, now) == Readied ==> h !in ready) && OutcomeOf(r, now) != Slept
  {
    hide HostKey;
  }

  /** The first ready host is handed to a worker. */
  lemma HostTaken(h: Text, q: HostQueue, ready: seq<Text>, sleeping: multiset<SleepingHost>, active: map<Worker, Text>, w: Worker,
                  now: int, until: int)
    requires HostOk(h, q, ready, sleeping, active, now, until) && ready != [] && ready[0] == h && NoDuplicates(ready) && w !in active && now >= 0
    ensures q.items != [] && !q.inFlight && until <= now
    ensures HostOk(h, q.(inReadyQueue := false, items := q.items[1..], inFlight := true), ready[1..], sleeping, Taken(active, w, h), now, until)
  {
    hide HostKey;
    assert h != [] ==> Taken(active, w, h)[w] == h;
    assert h !in ready[1..];
  }

  /** An entry that is due is taken out of the sleeping queue: its host becomes ready if the entry is
      the one to wake it, and stays as it is otherwise. */
  function Awake(q: HostQueue): HostQueue {
    q.(blockedUntilMs := 0, inSleepingQueue := false, inReadyQueue := true)
  }

  predicate Wakes(q: HostQueue, s: SleepingHost, now: int) {
    q.sleepGeneration == s.generation && q.items != [] && !q.inFlight && !q.inReadyQueue && q.blockedUntilMs <= now
  }

  /** Hosts were woken, each by a due entry of its current generation, and nothing else changed: entries
      of an earlier generation wake nobody. */
  ghost predicate Woken(before: map<Text, HostQueue>, after: map<Text, HostQueue>, sleeping: multiset<SleepingHost>, now: int) {
    && (forall h :: h in before <==> h in after)
    && forall h :: h in before && after[h] != before[h] ==>
         after[h] == Awake(before[h]) && exists s :: s in sleeping && s.hostKey == h && s.readyAtMs <= now && Wakes(before[h], s, now)
  }

  lemma WokenMore(before: map<Text, HostQueue>, after: map<Text, HostQueue>, sleeping: multiset<SleepingHost>, now: int, s: SleepingHost)
    requires Woken(before, after, sleeping, now) && s in sleeping && s.readyAtMs <= now
    requires s.hostKey in after && Wakes(after[s.hostKey], s, now)
    ensures Woken(before, after[s.hostKey := Awake(after[s.hostKey])], sleeping, now)
  {
  }

  lemma EntryDue(h: Text, q: HostQueue, s: SleepingHost, ready: seq<Text>, sleeping: multiset<SleepingHost>, active: map<Worker, Text>,
                 now: int, until: int)
    requires HostOk(h, q, ready, sleeping, active, now, until) && s in sleeping && s.hostKey == h && s.readyAtMs <= now && now >= 0
    ensures if Wakes(q, s, now) then HostOk(h, Awake(q), ready + [h], sleeping - multiset{s}, active, now, until) && h !in ready
            else HostOk(h, q, ready, sleeping - multiset{s}, active, now, until)
  {
    hide HostKey;
    assert WakeUp(h, q) != s && WakeUp(h, q) in sleeping ==> WakeUp(h, q) in sleeping - multiset{s};
  }

  // ---------------------------------------------------------------- steps on the whole schedule

  lemma EntryTaken(hosts: map<Text, HostQueue>, ready: seq<Text>, sleeping: multiset<SleepingHost>, active: map<Worker, Text>,
                   now: int, snoozed: map<Text, int>, s: SleepingHost)
    requires Scheduled(hosts, ready, sleeping, active, now, snoozed) && s in sleeping && s.readyAtMs <= now
    ensures s.hostKey in hosts
    ensures var h := s.hostKey;
      if Wakes(hosts[h], s, now)
      then Scheduled(hosts[h := Awake(hosts[h])], ready + [h], sleeping - multiset{s}, active, now, snoozed)
      else Scheduled(hosts, ready, sleeping - multiset{s}, active, now, snoozed)
  {
    hide HostOk, HostKey;
    var h, q := s.hostKey, hosts[s.hostKey];
    EntryDue(h, q, s, ready, sleeping, active, now, Until(snoozed, h));
    if Wakes(q, s, now) {
      ReadyMore(ready, h);
      OneHostChanges(hosts, ready, sleeping, active, now, snoozed, h, Awake(q), ready + [h], sleeping - multiset{s}, active, snoozed);
    } else {
      OneHostChanges(hosts, ready, sleeping, active, now, snoozed, h, q, ready, sleeping - multiset{s}, active, snoozed);
      assert hosts[h := q] == hosts;
    }
  }

  lemma ReadyMore(ready: seq<Text>, h: Text)
    requires NoDuplicates(ready) && h !in ready
    ensures NoDuplicates(ready + [h])
  {
  }

  function HostOr(hosts: map<Text, HostQueue>, h: Text): HostQueue {
    if h in hosts then hosts[h] else NEW_HOST
  }

  lemma ItemScheduled(hosts: map<Text, HostQueue>, ready: seq<Text>, sleeping: multiset<SleepingHost>, active: map<Worker, Text>,
                      now: int, snoozed: map<Text, int>, item: FrontierItem)
    requires Scheduled(hosts, ready, sleeping, active, now, snoozed)
    ensures var h := HostKey(item.link);
      var r := HostOr(hosts, h).(items := HostOr(hosts, h).items + [item]);
      Scheduled(hosts[h := Settled(r, now)], ReadyAfter(ready, h, r, now), SleepingAfter(sleeping, h, r, now), active, now, snoozed)
  {
    hide HostOk, HostKey;
    var h := HostKey(item.link);
    var q := HostOr(hosts, h);
    var r := q.(items := q.items + [item]);
    if h !in hosts { NewHostOk(hosts, ready, sleeping, active, now, snoozed, h); }
    ItemArrives(h, q, item, ready, sleeping, active, now, Until(snoozed, h));
    if OutcomeOf(r, now) == Readied { ReadyMore(ready, h); }
    OneHostChanges(hosts, ready, sleeping, active, now, snoozed, h, Settled(r, now), ReadyAfter(ready, h, r, now),
                   SleepingAfter(sleeping, h, r, now), active, snoozed);
  }

  lemma HostHandedOut(hosts: map<Text, HostQueue>, ready: seq<Text>, sleeping: multiset<SleepingHost>, active: map<Worker, Text>,
                      now: int, snoozed: map<Text, int>, w: Worker)
    requires Scheduled(hosts, ready, sleeping, active, now, snoozed) && ready != [] && w !in active
    ensures var h := ready[0];
      && h in hosts && hosts[h].items != [] && !hosts[h].inFlight && !Busy(active, h) && Until(snoozed, h) <= now
      && (forall i :: 0 <= i < |hosts[h].items| ==> HostKey(hosts[h].items[i].link) == h)
      && Scheduled(hosts[h := hosts[h].(inReadyQueue := false, items := hosts[h].items[1..], inFlight := true)], ready[1..], sleeping,
                   Taken(active, w, h), now, snoozed)
  {
    hide HostOk, HostKey;
    var h := ready[0];
    var q := hosts[h];
    HostTaken(h, q, ready, sleeping, active, w, now, Until(snoozed, h));
    HostFacts(h, q, ready, sleeping, active, now, Until(snoozed, h));
    assert forall g :: g != h ==> (g in ready[1..] <==> g in ready);
    OneHostChanges(hosts, ready, sleeping, active, now, snoozed, h, q.(inReadyQueue := false, items := q.items[1..], inFlight := true),
                   ready[1..], sleeping, Taken(active, w, h), snoozed);
  }

  lemma HostFacts(h: Text, q: HostQueue, ready: seq<Text>, sleeping: multiset<SleepingHost>, active: map<Worker, Text>, now: int, until: int)
    requires HostOk(h, q, ready, sleeping, active, now, until)
    ensures (Busy(active, h) ==> q.inFlight) && (q.inFlight && h != [] ==> Busy(active, h))
    ensures forall i :: 0 <= i < |q.items| ==> HostKey(q.items[i].link) == h
  {
    hide HostKey;
  }

  lemma WorkerLeaves(active: map<Worker, Text>, w: Worker)
    requires w in active && forall v, u :: v in active && u in active && active[v] == active[u] ==> v == u
    ensures Busy(active, active[w]) && !Busy(active - {w}, active[w])
  {
  }

  lemma HostDone(hosts: map<Text, HostQueue>, ready: seq<Text>, sleeping: multiset<SleepingHost>, active: map<Worker, Text>,
                 now: int, snoozed: map<Text, int>, w: Worker)
    requires Scheduled(hosts, ready, sleeping, active, now, snoozed) && w in active
    ensures active[w] in hosts && hosts[active[w]].inFlight
    ensures var h := active[w];
      var r := hosts[h].(inFlight := false);
      Scheduled(hosts[h := Settled(r, now)], ReadyAfter(ready, h, r, now), SleepingAfter(sleeping, h, r, now), active - {w}, now, snoozed)
  {
    hide HostOk, HostKey;
    var h, q := active[w], hosts[active[w]];
    var r := q.(inFlight := false);
    WorkerLeaves(active, w);
    HostFacts(h, q, ready, sleeping, active, now, Until(snoozed, h));
    HostReleased(h, q, ready, sleeping, active, active - {w}, now, Until(snoozed, h));
    if OutcomeOf(r, now) == Readied { ReadyMore(ready, h); }
    OneHostChanges(hosts, ready, sleeping, active, now, snoozed, h, Settled(r, now), ReadyAfter(ready, h, r, now),
                   SleepingAfter(sleeping, h, r, now), active - {w}, snoozed);
  }

  function SnoozedMore(snoozed: map<Text, int>, h: Text, until: int): map<Text, int> {
    snoozed[h := Max(if h in snoozed then snoozed[h] else 0, until)]
  }

  lemma HostPutToSleep(hosts: map<Text, HostQueue>, ready: seq<Text>, sleeping: multiset<SleepingHost>, active: map<Worker, Text>,
                       now: int, snoozed: map<Text, int>, w: Worker, item: FrontierItem, readyAtMs: int)
    requires Scheduled(hosts, ready, sleeping, active, now, snoozed) && w in active && HostKey(item.link) == active[w]
    ensures active[w] in hosts && hosts[active[w]].inFlight
    ensures var h := active[w];
      var q := Snoozed(hosts[h], item, readyAtMs);
      if now < q.blockedUntilMs
      then var r := q.(inSleepingQueue := true);
           Scheduled(hosts[h := r], ready, sleeping + multiset{WakeUp(h, r)}, active - {w}, now, SnoozedMore(snoozed, h, readyAtMs))
      else Scheduled(hosts[h := Settled(q, now)], ReadyAfter(ready, h, q, now), SleepingAfter(sleeping, h, q, now), active - {w}, now,
                     SnoozedMore(snoozed, h, readyAtMs))
  {
    hide HostOk, HostKey;
    var h, q0 := active[w], hosts[active[w]];
    var q := Snoozed(q0, item, readyAtMs);
    WorkerLeaves(active, w);
    HostFacts(h, q0, ready, sleeping, active, now, Until(snoozed, h));
    NotBlocked(h, q0, ready, sleeping, active, now, Until(snoozed, h));
    var until := Max(Until(snoozed, h), readyAtMs);
    if now < q.blockedUntilMs {
      var r := q.(inSleepingQueue := true);
      HostSnoozed(h, q0, item, readyAtMs, ready, sleeping, active, active - {w}, now, Until(snoozed, h));
      OneHostChanges(hosts, ready, sleeping, active, now, snoozed, h, r, ready, sleeping + multiset{WakeUp(h, r)}, active - {w},
                     SnoozedMore(snoozed, h, readyAtMs));
    } else {
      HostSnoozedBriefly(h, q0, item, readyAtMs, ready, sleeping, active, active - {w}, now, Until(snoozed, h));
      if OutcomeOf(q, now) == Readied { ReadyMore(ready, h); }
      OneHostChanges(hosts, ready, sleeping, active, now, snoozed, h, Settled(q, now), ReadyAfter(ready, h, q, now),
                     SleepingAfter(sleeping, h, q, now), active - {w}, SnoozedMore(snoozed, h, readyAtMs));
    }
  }

  lemma NotBlocked(h: Text, q: HostQueue, ready: seq<Text>, sleeping: multiset<SleepingHost>, active: map<Worker, Text>, now: int, until: int)
    requires HostOk(h, q, ready, sleeping, active, now, until) && q.inFlight
    ensures q.blockedUntilMs == 0
  {
    hide HostKey;
  }
}
