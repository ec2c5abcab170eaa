/** How machines send links to each other: frames over a byte stream, and lines of fields inside a
    frame (sendFrame, recvFrame, sendBatchToPeerWithRetry, processReceivedBatch in
    src/main_distributed.cpp). */
module Wire {
  import opened Basics

  const TAB: byte := 9
  const NEWLINE: byte := 10
  const HEADER_SIZE: nat := 8
  const BUFFER_SIZE: nat := 4096
  const LIMIT: nat := 0x1_0000_0000_0000_0000

  // ---------------------------------------------------------------- frames

  /** n in k bytes, most significant first. */
  function Big(n: nat, k: nat): (s: seq<byte>)
    ensures |s| == k
  {
    if k == 0 then [] else Big(n / 256, k - 1) + [n % 256]
  }

  function FromBig(s: seq<byte>): nat {
    if s == [] then 0 else FromBig(s[..|s| - 1]) * 256 + s[|s| - 1]
  }

  function Power(k: nat): nat {
    if k == 0 then 1 else 256 * Power(k - 1)
  }

  lemma {:induction false} BigRoundTrip(n: nat, k: nat)
    requires n < Power(k)
    ensures FromBig(Big(n, k)) == n
  {
    if k > 0 {
      assert Big(n, k)[..k - 1] == Big(n / 256, k - 1);
      BigRoundTrip(n / 256, k - 1);
    }
  }

  /** Byte j of k is digit k - 1 - j to the base 256. */
  lemma {:induction false} BigIs(n: nat, k: nat, j: nat)
    requires j < k
    ensures Power(k - 1 - j) > 0 && Big(n, k)[j] == n / Power(k - 1 - j) % 256
  {
    PowerPositive(k - 1 - j);
    if j < k - 1 {
      BigIs(n / 256, k - 1, j);
      DivideTwice(n, 256, Power(k - 2 - j));
    }
  }

  lemma {:induction false} PowerPositive(k: nat)
    ensures Power(k) > 0
  {
    if k > 0 { PowerPositive(k - 1); }
  }

  lemma {:induction false} BigBack(s: seq<byte>)
    ensures FromBig(s) < Power(|s|) && Big(FromBig(s), |s|) == s
  {
    if s != [] {
      var front := s[..|s| - 1];
      BigBack(front);
      assert s == front + [s[|s| - 1]];
    }
  }

  lemma Power8()
    ensures Power(8) == LIMIT
  {
    assert Power(4) == 0x1_0000_0000;
    assert Power(8) == 256 * (256 * (256 * (256 * Power(4))));
  }

  function Frame(payload: seq<byte>): seq<byte> {
    Big(|payload|, HEADER_SIZE) + payload
  }

  /** A stream can be cut into a frame and a rest in one way only. */
  lemma FrameUnique(p: seq<byte>, rest: seq<byte>, q: seq<byte>, rest': seq<byte>)
    requires |p| < LIMIT && |q| < LIMIT && Frame(p) + rest == Frame(q) + rest'
    ensures p == q && rest == rest'
  {
    hide Big;
    var s, t := Frame(p) + rest, Frame(q) + rest';
    assert s[..8] == Big(|p|, 8) && t[..8] == Big(|q|, 8);
    Power8();
    BigRoundTrip(|p|, 8);
    BigRoundTrip(|q|, 8);
    assert s[8..8 + |p|] == p && t[8..8 + |q|] == q;
    assert s[8 + |p|..] == rest && t[8 + |q|..] == rest';
  }

  function Stream(payloads: seq<seq<byte>>): seq<byte> {
    if payloads == [] then [] else Frame(payloads[0]) + Stream(payloads[1..])
  }

  /** One end of a connection. What arrives comes in pieces of any size, and any part of what is to be
      sent may be taken. Unless the connection is reliable, it may fail at any time. */
  class Socket {
    var incoming: seq<byte>
    var sent: seq<byte>
    const reliable: bool

    constructor (incoming: seq<byte>, reliable: bool)
      ensures this.incoming == incoming && sent == [] && this.reliable == reliable
    {
      this.incoming, sent, this.reliable := incoming, [], reliable;
    }

    /** recv: at most max bytes; none after a failure or when the peer has closed. */
    method Recv(max: nat) returns (data: seq<byte>)
      requires max > 0
      modifies this`incoming
      ensures |data| <= max && old(incoming) == data + incoming
      ensures reliable && old(incoming) != [] ==> data != []
    {
      var fails: bool := *;
      if fails && !reliable {
        return [];
      }
      var n: nat :| 0 < n <= max;
      if n > |incoming| { n := |incoming|; }
      data := incoming[..n];
      incoming := incoming[n..];
    }

    /** send: how many bytes were taken; none after a failure. */
    method Send(data: seq<byte>) returns (taken: nat)
      requires data != []
      modifies this`sent
      ensures taken <= |data| && sent == old(sent) + data[..taken]
      ensures reliable ==> taken > 0
    {
      var fails: bool := *;
      if fails && !reliable {
        assert data[..0] == [];
        return 0;
      }
      var n: nat :| 0 < n <= |data|;
      sent := sent + data[..n];
      taken := n;
    }

    /** Sends everything, or a proper part of it and then fails. */
    method SendAllBytes(data: seq<byte>) returns (ok: bool)
      modifies this`sent
      ensures ok ==> sent == old(sent) + data
      ensures !ok ==> !reliable && exists n :: 0 <= n < |data| && sent == old(sent) + data[..n]
    {
      var done := 0;
      assert data[..0] == [];
      while done < |data|
        invariant done <= |data| && sent == old(sent) + data[..done]
      {
        var taken := Send(data[done..]);
        assert data[..done] + data[done..][..taken] == data[..done + taken];
        done := done + taken;
        if taken == 0 {
          return false;
        }
      }
      assert data[..|data|] == data;
      return true;
    }

    /** Collects a given number of bytes. */
    method RecvAllBytes(total: nat) returns (ok: bool, data: seq<byte>)
      modifies this`incoming
      ensures old(incoming) == data + incoming && |data| <= total
      ensures ok ==> |data| == total
      ensures reliable && |old(incoming)| >= total ==> ok
    {
      data := [];
      while |data| < total
        invariant |data| <= total && old(incoming) == data + incoming
        decreases total - |data|
      {
        var more := Recv(total - |data|);
        assert data + (more + incoming) == data + more + incoming;
        data := data + more;
        if |more| == 0 {
          return false, data;
        }
      }
      return true, data;
    }

    /** Sends a frame; on failure a proper beginning of it may have gone out. */
    method SendFrame(payload: seq<byte>) returns (ok: bool)
      modifies this`sent
      ensures ok ==> sent == old(sent) + Frame(payload)
      ensures !ok ==> !reliable && exists n :: 0 <= n < |Frame(payload)| && sent == old(sent) + Frame(payload)[..n]
    {
      hide Big;
      var header := Big(|payload|, HEADER_SIZE);
      ok := SendAllBytes(header);
      if !ok {
        ghost var n :| 0 <= n < |header| && sent == old(sent) + header[..n];
        assert Frame(payload)[..n] == header[..n];
        return;
      }
      if |payload| == 0 {
        assert header + payload == header;
        return true;
      }
      ok := SendAllBytes(payload);
      if ok {
        assert old(sent) + header + payload == old(sent) + Frame(payload);
      } else {
        ghost var n :| 0 <= n < |payload| && sent == old(sent) + header + payload[..n];
        assert Frame(payload)[..HEADER_SIZE + n] == header + payload[..n];
        assert sent == old(sent) + Frame(payload)[..HEADER_SIZE + n];
      }
    }

    /** Receives a frame, however the stream is cut into pieces. */
    method RecvFrame() returns (ok: bool, payload: seq<byte>)
      modifies this`incoming
      ensures ok ==> |payload| < LIMIT && old(incoming) == Frame(payload) + incoming
      ensures forall p, rest :: reliable && |p| < LIMIT && old(incoming) == Frame(p) + rest ==> ok
    {
      hide Big, FromBig, Power;
      ghost var stream := incoming;
      var header;
      ok, header := RecvAllBytes(HEADER_SIZE);
      payload := [];
      if !ok {
        return;
      }
      BigBack(header);
      Power8();
      var frameBytes := FromBig(header);
      while |payload| < frameBytes
        invariant |payload| <= frameBytes && stream == header + (payload + incoming)
        decreases frameBytes - |payload|
      {
        var remaining := frameBytes - |payload|;
        var received := Recv(if remaining > BUFFER_SIZE then BUFFER_SIZE else remaining);
        assert payload + (received + incoming) == payload + received + incoming;
        if |received| == 0 {
          forall p, rest | reliable && |p| < LIMIT && stream == Frame(p) + rest ensures false {
            HeaderTells(stream, header, payload, p, rest);
          }
          return false, payload;
        }
        payload := payload + received;
      }
      assert stream == Frame(payload) + incoming by { assert header + (payload + incoming) == header + payload + incoming; }
    }

    /** Receives frame after frame, as ReceiveFromPeerThread does, until that fails: the payloads of the
        frames at the front of the stream, one after another; on a reliable connection, all of them. */
    method RecvAllFrames() returns (payloads: seq<seq<byte>>, ghost rest: seq<byte>)
      modifies this`incoming
      ensures AllFit(payloads) && old(incoming) == Stream(payloads) + rest
      ensures reliable ==> NoFrame(rest)
    {
      hide Frame, Stream;
      payloads := [];
      NoStream();
      while true
        invariant AllFit(payloads) && old(incoming) == Stream(payloads) + incoming
        decreases |incoming|
      {
        rest := incoming;
        var ok, payload := RecvFrame();
        if !ok {
          return;
        }
        StreamMore(payloads, payload);
        FrameSize(payload);
        assert Stream(payloads) + (Frame(payload) + incoming) == Stream(payloads) + Frame(payload) + incoming;
        payloads := payloads + [payload];
      }
    }
  }

  predicate AllFit(payloads: seq<seq<byte>>) {
    forall i :: 0 <= i < |payloads| ==> |payloads[i]| < LIMIT
  }

  /** No whole frame stands at the front. */
  ghost predicate NoFrame(stream: seq<byte>) {
    forall p, rest :: |p| < LIMIT ==> stream != Frame(p) + rest
  }

  lemma NoStream()
    ensures Stream([]) == []
  {
  }

  lemma FrameSize(payload: seq<byte>)
    ensures |Frame(payload)| == HEADER_SIZE + |payload|
  {
    hide Big;
  }

  lemma {:induction false} StreamMore(payloads: seq<seq<byte>>, payload: seq<byte>)
    ensures Stream(payloads + [payload]) == Stream(payloads) + Frame(payload)
    decreases |payloads|
  {
    hide Frame;
    if payloads == [] {
      NoStream();
      assert Stream([payload]) == Frame(payload) + Stream([payload][1..]);
    } else {
      assert (payloads + [payload])[1..] == payloads[1..] + [payload];
      StreamMore(payloads[1..], payload);
    }
  }

  /** The header of a stream that starts with a frame tells the size of its payload. */
  lemma HeaderTells(stream: seq<byte>, header: seq<byte>, rest': seq<byte>, p: seq<byte>, rest: seq<byte>)
    requires |p| < LIMIT && stream == Frame(p) + rest && |header| == HEADER_SIZE && stream == header + rest'
    ensures FromBig(header) == |p| && rest' == p + rest
  {
    hide Big, FromBig, Power;
    assert stream[..HEADER_SIZE] == header && stream[..HEADER_SIZE] == Big(|p|, HEADER_SIZE);
    Power8();
    BigRoundTrip(|p|, HEADER_SIZE);
    assert stream[HEADER_SIZE..] == rest' && stream[HEADER_SIZE..] == p + rest;
  }

  /** When frames were sent and perhaps part of one more, whatever is received frame by frame is what was
      sent first; and it is all that was sent when no whole frame is left. */
  lemma {:induction false} ReceivedAsSent(payloads: seq<seq<byte>>, cut: seq<byte>, received: seq<seq<byte>>, rest: seq<byte>)
    requires AllFit(payloads) && AllFit(received) && NoFrame(cut)
    requires Stream(payloads) + cut == Stream(received) + rest
    ensures |received| <= |payloads| && received == payloads[..|received|]
    ensures NoFrame(rest) ==> received == payloads
    decreases |payloads|
  {
    hide Frame;
    if received == [] {
      assert [] + rest == rest && [] + cut == cut;
      if payloads != [] {
        assert Frame(payloads[0]) + Stream(payloads[1..]) + cut == Frame(payloads[0]) + (Stream(payloads[1..]) + cut);
      }
    } else {
      var more := Stream(received[1..]) + rest;
      assert Stream(received) + rest == Frame(received[0]) + more;
      if payloads == [] {
        assert false;
      } else {
        assert Stream(payloads) + cut == Frame(payloads[0]) + (Stream(payloads[1..]) + cut);
        FrameUnique(payloads[0], Stream(payloads[1..]) + cut, received[0], more);
        ReceivedAsSent(payloads[1..], cut, received[1..], rest);
      }
    }
  }

  /** A frame that broke off is never taken for a frame. */
  lemma BrokenFrame(p: seq<byte>, n: nat)
    requires |p| < LIMIT && n < |Frame(p)|
    ensures NoFrame(Frame(p)[..n])
  {
    hide Big;
    forall q, rest | |q| < LIMIT && Frame(p)[..n] == Frame(q) + rest ensures false {
      assert Frame(p) == Frame(q) + (rest + Frame(p)[n..]) by {
        assert Frame(p) == Frame(p)[..n] + Frame(p)[n..];
      }
      assert Frame(p) + [] == Frame(p);
      FrameUnique(p, [], q, rest + Frame(p)[n..]);
    }
  }

  // ---------------------------------------------------------------- numbers as text

  function Decimal(n: nat): (s: Text)
    ensures s != [] && AllDigits(s)
  {
    if n < 10 then [48 + n] else Decimal(n / 10) + [48 + n % 10]
  }

  predicate AllDigits(s: Text) {
    forall i :: 0 <= i < |s| ==> 48 <= s[i] <= 57
  }

  function Number(s: Text): nat
    requires AllDigits(s)
  {
    if s == [] then 0 else Number(s[..|s| - 1]) * 10 + (s[|s| - 1] - 48)
  }

  lemma {:induction false} DecimalRoundTrip(n: nat)
    ensures Number(Decimal(n)) == n
  {
    if n >= 10 {
      DecimalRoundTrip(n / 10);
      assert Decimal(n)[..|Decimal(n)| - 1] == Decimal(n / 10);
    }
  }

  predicate IsSpace(c: byte) { c == 32 || 9 <= c <= 13 }

  function SkipSpaces(s: Text): Text {
    if s != [] && IsSpace(s[0]) then SkipSpaces(s[1..]) else s
  }

  /** strtoul over the whole text: spaces, a sign, digits. Too great a number becomes the greatest, and
      a minus sign counts modulo 2 to the 64. */
  function ParseSize(raw: Text): Option<nat> {
    var s := SkipSpaces(raw);
    var signed := s != [] && (s[0] == 43 || s[0] == 45);
    var digits := if signed then s[1..] else s;
    if digits == [] || !AllDigits(digits) then None
    else
      var n := Number(digits);
      if n >= LIMIT then Some(LIMIT - 1)
      else Some(if signed && s[0] == 45 then (LIMIT - n) % LIMIT else n)
  }

  lemma SizeRoundTrip(n: nat)
    requires n < LIMIT
    ensures ParseSize(Decimal(n)) == Some(n)
  {
    DecimalRoundTrip(n);
    assert 48 <= Decimal(n)[0] <= 57;
  }

  /** Any number that may be written: spaces in front, a sign, and a value of any size. */
  lemma {:induction false} SizeSpelled(spaces: Text, n: nat)
    requires forall i :: 0 <= i < |spaces| ==> IsSpace(spaces[i])
    ensures ParseSize(spaces + Decimal(n)) == Some(if n < LIMIT then n else LIMIT - 1)
    ensures ParseSize(spaces + [43] + Decimal(n)) == Some(if n < LIMIT then n else LIMIT - 1)
    ensures ParseSize(spaces + [45] + Decimal(n)) == Some(if n == 0 then 0 else if n < LIMIT then LIMIT - n else LIMIT - 1)
  {
    hide Decimal, Number;
    var d := Decimal(n);
    assert 48 <= d[0] <= 57;
    DecimalRoundTrip(n);
    Skipped(spaces, d);
    Skipped(spaces, [43] + d);
    Skipped(spaces, [45] + d);
    assert spaces + [43] + d == spaces + ([43] + d) && spaces + [45] + d == spaces + ([45] + d);
    assert ([43] + d)[1..] == d && ([45] + d)[1..] == d;
  }

  lemma {:induction false} Skipped(spaces: Text, s: Text)
    requires (forall i :: 0 <= i < |spaces| ==> IsSpace(spaces[i])) && s != [] && !IsSpace(s[0])
    ensures SkipSpaces(spaces + s) == s
  {
    if spaces == [] {
      assert spaces + s == s;
    } else {
      assert (spaces + s)[1..] == spaces[1..] + s;
      Skipped(spaces[1..], s);
    }
  }

  /** A text with anything but digits, signs and spaces in it is not taken for a number. */
  lemma {:induction false} NoSize(s: Text, i: nat)
    requires i < |s| && !IsSpace(s[i]) && s[i] != 43 && s[i] != 45 && !(48 <= s[i] <= 57)
    ensures ParseSize(s) == None
  {
    var j := SkippedKeeps(s, i);
    var t := SkipSpaces(s);
    if t[0] == 43 || t[0] == 45 {
      assert t[1..][j - 1] == s[i];
    }
  }

  lemma {:induction false} SkippedKeeps(s: Text, i: nat) returns (j: nat)
    requires i < |s| && !IsSpace(s[i])
    ensures j < |SkipSpaces(s)| && SkipSpaces(s)[j] == s[i]
  {
    if IsSpace(s[0]) {
      j := SkippedKeeps(s[1..], i - 1);
    } else {
      j := i;
    }
  }

  // ---------------------------------------------------------------- fields and lines

  /** The first place of c from a place on, or the end. */
  function Find(s: Text, c: byte, from: nat): (i: nat)
    requires from <= |s|
    ensures from <= i <= |s| && (i < |s| ==> s[i] == c) && forall k :: from <= k < i ==> s[k] != c
    decreases |s| - from
  {
    if from == |s| || s[from] == c then from else Find(s, c, from + 1)
  }

  /** The pieces between the separators; one more than separators. */
  function Split(s: Text, c: byte): (pieces: seq<Text>)
    ensures pieces != []
    decreases |s|
  {
    var i := Find(s, c, 0);
    if i == |s| then [s] else [s[..i]] + Split(s[i + 1..], c)
  }

  lemma SplitFirst(a: Text, c: byte, b: Text)
    requires c !in a
    ensures Split(a + [c] + b, c) == [a] + Split(b, c)
  {
    var s := a + [c] + b;
    var i := Find(s, c, 0);
    assert s[|a|] == c;
    forall k | 0 <= k < |a| ensures s[k] != c { assert a[k] in a; }
    assert s[..i] == a && s[i + 1..] == b;
  }

  /** The pieces of two texts with a separator between them are the pieces of the first and of the second. */
  lemma {:induction false} SplitJoin(a: Text, c: byte, b: Text)
    ensures Split(a + [c] + b, c) == Split(a, c) + Split(b, c)
    decreases |a|
  {
    var i := Find(a, c, 0);
    if i == |a| {
      SplitFirst(a, c, b);
    } else {
      var front, back := a[..i], a[i + 1..];
      assert a + [c] + b == front + [c] + (back + [c] + b) && a == front + [c] + back;
      SplitFirst(front, c, back + [c] + b);
      SplitFirst(front, c, back);
      SplitJoin(back, c, b);
    }
  }

  lemma SplitWhole(a: Text, c: byte)
    requires c !in a
    ensures Split(a, c) == [a]
  {
    forall k | 0 <= k < |a| ensures a[k] != c { assert a[k] in a; }
  }

  datatype RoutedLink = RoutedLink(url: Text, seedDistance: nat, anchorText: seq<Text>)

  function NotEmpty(words: seq<Text>): seq<Text> {
    if words == [] then []
    else (if words[0] == [] then [] else [words[0]]) + NotEmpty(words[1..])
  }

  /** What the receiver makes of a line: the second field is the distance if it is a number, and the
      first word otherwise; empty words are dropped. */
  function ParseLine(line: Text): RoutedLink {
    var fields := Split(line, TAB);
    if |fields| == 1 then RoutedLink(fields[0], 0, [])
    else
      var distance := ParseSize(fields[1]);
      if distance.Some? then RoutedLink(fields[0], distance.value, NotEmpty(fields[2..]))
      else RoutedLink(fields[0], 0, NotEmpty(fields[1..]))
  }

  /** Empty lines are passed over. */
  function ParseLines(lines: seq<Text>): seq<RoutedLink> {
    if lines == [] then []
    else (if lines[0] == [] then [] else [ParseLine(lines[0])]) + ParseLines(lines[1..])
  }

  function ParsePayload(payload: Text): seq<RoutedLink> {
    ParseLines(Split(payload, NEWLINE))
  }

  // ---------------------------------------------------------------- printing

  function PrintWords(words: seq<Text>): Text {
    if words == [] then [] else [TAB] + words[0] + PrintWords(words[1..])
  }

  function PrintFields(link: RoutedLink): Text {
    link.url + [TAB] + Decimal(link.seedDistance) + PrintWords(link.anchorText)
  }

  function PrintLinks(links: seq<RoutedLink>): Text {
    if links == [] then [] else PrintFields(links[0]) + [NEWLINE] + PrintLinks(links[1..])
  }

  predicate CleanText(s: Text) { TAB !in s && NEWLINE !in s }

  /** No field contains a separator, and no word is empty. */
  predicate CleanLink(link: RoutedLink) {
    && CleanText(link.url) && link.seedDistance < LIMIT
    && forall i :: 0 <= i < |link.anchorText| ==> CleanText(link.anchorText[i]) && link.anchorText[i] != []
  }

  lemma {:induction false} WordsRoundTrip(first: Text, words: seq<Text>)
    requires TAB !in first && forall i :: 0 <= i < |words| ==> TAB !in words[i]
    ensures Split(first + PrintWords(words), TAB) == [first] + words
    decreases |words|
  {
    hide Split;
    if words == [] {
      assert first + [] == first;
      SplitWhole(first, TAB);
    } else {
      WordsRoundTrip(words[0], words[1..]);
      var more := words[0] + PrintWords(words[1..]);
      assert first + PrintWords(words) == first + [TAB] + more;
      SplitFirst(first, TAB, more);
    }
  }

  lemma {:induction false} WordsKept(words: seq<Text>)
    requires forall i :: 0 <= i < |words| ==> words[i] != []
    ensures NotEmpty(words) == words
  {
    if words != [] { WordsKept(words[1..]); }
  }

  /** Empty words are dropped, all others kept in order. */
  lemma {:induction false} NotEmptyIs(a: seq<Text>, word: Text, b: seq<Text>)
    ensures NotEmpty(a + [word] + b) == NotEmpty(a) + (if word == [] then [] else [word]) + NotEmpty(b)
  {
    if a == [] {
      assert a + [word] + b == [word] + b && ([word] + b)[1..] == b;
    } else {
      assert (a + [word] + b)[1..] == a[1..] + [word] + b;
      NotEmptyIs(a[1..], word, b);
    }
  }

  /** Any line at all: an address and fields, of which the first is the distance if it is a number, and a
      word otherwise. */
  lemma LineOfFields(url: Text, fields: seq<Text>)
    requires TAB !in url && forall i :: 0 <= i < |fields| ==> TAB !in fields[i]
    ensures ParseLine(url + PrintWords(fields))
         == if fields != [] && ParseSize(fields[0]).Some? then RoutedLink(url, ParseSize(fields[0]).value, NotEmpty(fields[1..]))
            else RoutedLink(url, 0, NotEmpty(fields))
  {
    hide Split, ParseSize;
    WordsRoundTrip(url, fields);
    assert ([url] + fields)[1..] == fields && (fields != [] ==> ([url] + fields)[2..] == fields[1..]);
    NoWords();
  }

  /** Lines are read one by one; empty ones are passed over. */
  lemma PayloadJoin(a: Text, b: Text)
    ensures ParsePayload(a + [NEWLINE] + b) == ParsePayload(a) + ParsePayload(b)
  {
    hide Split, ParseLine;
    SplitJoin(a, NEWLINE, b);
    LinesJoin(Split(a, NEWLINE), Split(b, NEWLINE));
  }

  lemma OneLine(a: Text)
    requires NEWLINE !in a
    ensures ParsePayload(a) == if a == [] then [] else [ParseLine(a)]
  {
    hide Split, ParseLine;
    SplitWhole(a, NEWLINE);
    assert ParseLines([a][1..]) == [];
  }

  lemma {:induction false} LinesJoin(a: seq<Text>, b: seq<Text>)
    ensures ParseLines(a + b) == ParseLines(a) + ParseLines(b)
  {
    hide ParseLine;
    if a == [] {
      assert a + b == b;
    } else {
      assert (a + b)[1..] == a[1..] + b;
      LinesJoin(a[1..], b);
    }
  }

  lemma LineRoundTrip(link: RoutedLink)
    requires CleanLink(link)
    ensures ParseLine(PrintFields(link)) == link
  {
    hide Split, Decimal, ParseSize, NotEmpty;
    var number := Decimal(link.seedDistance);
    assert CleanText(number);
    WordsRoundTrip(number, link.anchorText);
    WordsKept(link.anchorText);
    assert PrintFields(link) == link.url + [TAB] + (number + PrintWords(link.anchorText));
    SplitFirst(link.url, TAB, number + PrintWords(link.anchorText));
    SizeRoundTrip(link.seedDistance);
    var fields := [link.url] + ([number] + link.anchorText);
    assert fields[2..] == link.anchorText;
  }

  lemma {:induction false} NoNewlines(words: seq<Text>)
    requires forall i :: 0 <= i < |words| ==> CleanText(words[i])
    ensures NEWLINE !in PrintWords(words)
  {
    if words != [] { NoNewlines(words[1..]); }
  }

  /** What a sender prints, a receiver reads. */
  lemma {:induction false} PayloadRoundTrip(links: seq<RoutedLink>)
    requires forall i :: 0 <= i < |links| ==> CleanLink(links[i])
    ensures ParsePayload(PrintLinks(links)) == links
    decreases |links|
  {
    hide ParseLine, Decimal;
    if links == [] {
      SplitWhole([], NEWLINE);
      assert ParseLines([[]]) == [];
    } else {
      PayloadRoundTrip(links[1..]);
      var line := PrintFields(links[0]);
      NoNewlines(links[0].anchorText);
      assert AllDigits(Decimal(links[0].seedDistance));
      assert NEWLINE !in line;
      SplitFirst(line, NEWLINE, PrintLinks(links[1..]));
      LineRoundTrip(links[0]);
      var lines := Split(PrintLinks(links[1..]), NEWLINE);
      assert ([line] + lines)[1..] == lines && line[|links[0].url|] == TAB;
    }
  }

  // ---------------------------------------------------------------- the loops that do it

  method FindCharFrom(value: Text, c: byte, start: nat) returns (i: nat)
    requires start <= |value|
    ensures i == Find(value, c, start)
  {
    i := start;
    while i < |value|
      invariant start <= i <= |value| && Find(value, c, i) == Find(value, c, start)
    {
      if value[i] == c {
        return;
      }
      i := i + 1;
    }
  }

  /** The payload that sendBatchToPeerWithRetry builds. */
  method BuildPayload(batch: seq<RoutedLink>) returns (payload: Text)
    ensures payload == PrintLinks(batch)
  {
    hide PrintFields, PrintLinks;
    payload := [];
    assert batch[0..] == batch && batch[|batch|..] == [];
    NothingPrinted();
    for k := 0 to |batch|
      invariant payload + PrintLinks(batch[k..]) == PrintLinks(batch)
    {
      PrintMore(batch, k, payload);
      payload := AppendLink(payload, batch[k]);
    }
  }

  lemma NothingPrinted()
    ensures PrintLinks([]) == []
  {
  }

  lemma PrintMore(batch: seq<RoutedLink>, k: nat, payload: Text)
    requires k < |batch|
    ensures payload + PrintLinks(batch[k..]) == payload + PrintFields(batch[k]) + [NEWLINE] + PrintLinks(batch[k + 1..])
  {
    hide PrintFields;
    assert batch[k..][0] == batch[k] && batch[k..][1..] == batch[k + 1..];
  }

  method AppendLink(before: Text, link: RoutedLink) returns (payload: Text)
    ensures payload == before + PrintFields(link) + [NEWLINE]
  {
    hide Decimal;
    payload := before + link.url + [TAB] + Decimal(link.seedDistance);
    ghost var start := payload;
    assert link.anchorText[0..] == link.anchorText && link.anchorText[|link.anchorText|..] == [];
    for i := 0 to |link.anchorText|
      invariant payload + PrintWords(link.anchorText[i..]) == start + PrintWords(link.anchorText)
    {
      var word := link.anchorText[i];
      assert link.anchorText[i..][0] == word && link.anchorText[i..][1..] == link.anchorText[i + 1..];
      assert payload + ([TAB] + word + PrintWords(link.anchorText[i + 1..])) == payload + [TAB] + word + PrintWords(link.anchorText[i + 1..]);
      payload := payload + [TAB] + word;
    }
    ghost var d, w := Decimal(link.seedDistance), PrintWords(link.anchorText);
    assert before + (link.url + [TAB] + d + w) == before + link.url + [TAB] + d + w;
    assert payload == payload + PrintWords([]) == start + w;
    payload := payload + [NEWLINE];
  }

  /** The part of processReceivedBatch that takes a line apart. */
  method ReadLine(line: Text) returns (link: RoutedLink)
    ensures link == ParseLine(line)
  {
    hide Split, Find, NotEmpty, ParseSize;
    SplitAtFind(line, 0);
    assert line[0..] == line;
    var fieldEnd := FindCharFrom(line, TAB, 0);
    var url := line[..fieldEnd];
    var words: seq<Text> := [];
    var seedDistance := 0;
    if fieldEnd == |line| {
      return RoutedLink(url, 0, []);
    }
    var fieldStart := fieldEnd + 1;
    var secondFieldEnd := FindCharFrom(line, TAB, fieldStart);
    SplitAtFind(line, fieldStart);
    ghost var others := Split(line[fieldStart..], TAB);
    assert ([url] + others)[1..] == others && ([url] + others)[2..] == others[1..];
    var maybeSeedDistance := ParseSize(line[fieldStart..secondFieldEnd]);
    if maybeSeedDistance.Some? {
      seedDistance := maybeSeedDistance.value;
      fieldEnd := secondFieldEnd;
    }
    words := ReadWords(line, fieldEnd);
    link := RoutedLink(url, seedDistance, words);
  }

  lemma NoWords()
    ensures NotEmpty([]) == []
  {
  }

  /** The words behind a separator, or none at the end of the line. */
  method ReadWords(line: Text, start: nat) returns (words: seq<Text>)
    requires start <= |line|
    ensures words == NotEmpty(WordsAt(line, start))
  {
    hide WordsAt, Find, NotEmpty;
    words := [];
    NoWords();
    var fieldEnd := start;
    while fieldEnd < |line|
      invariant fieldEnd <= |line|
      invariant words + NotEmpty(WordsAt(line, fieldEnd)) == NotEmpty(WordsAt(line, start))
      decreases |line| - fieldEnd
    {
      ghost var rest := WordsAt(line, fieldEnd);
      var fieldStart := fieldEnd + 1;
      WordsStep(line, fieldEnd);
      fieldEnd := FindCharFrom(line, TAB, fieldStart);
      var word := line[fieldStart..fieldEnd];
      WordKept(word, WordsAt(line, fieldEnd));
      assert words + ([word] + NotEmpty(WordsAt(line, fieldEnd))) == words + [word] + NotEmpty(WordsAt(line, fieldEnd));
      assert words + ([] + NotEmpty(WordsAt(line, fieldEnd))) == words + NotEmpty(WordsAt(line, fieldEnd));
      if fieldEnd > fieldStart {
        words := words + [word];
      }
    }
    WordsEnd(line);
    assert words + NotEmpty([]) == words;
  }

  lemma WordsEnd(line: Text)
    ensures WordsAt(line, |line|) == []
  {
  }

  lemma WordsStep(line: Text, fieldEnd: nat)
    requires fieldEnd < |line|
    ensures var next := Find(line, TAB, fieldEnd + 1);
      WordsAt(line, fieldEnd) == [line[fieldEnd + 1..next]] + WordsAt(line, next)
  {
    hide Split, Find;
    SplitAtFind(line, fieldEnd + 1);
  }

  function WordsAt(line: Text, fieldEnd: nat): seq<Text>
    requires fieldEnd <= |line|
  {
    if fieldEnd < |line| then Split(line[fieldEnd + 1..], TAB) else []
  }

  lemma WordKept(word: Text, words: seq<Text>)
    ensures NotEmpty([word] + words) == (if word == [] then [] else [word]) + NotEmpty(words)
  {
    assert ([word] + words)[1..] == words;
  }

  /** The pieces from a place on: up to the next separator, and those behind it. */
  lemma SplitAtFind(line: Text, start: nat)
    requires start <= |line|
    ensures var end := Find(line, TAB, start);
      Split(line[start..], TAB) == [line[start..end]] + if end < |line| then Split(line[end + 1..], TAB) else []
  {
    var end := Find(line, TAB, start);
    if end < |line| {
      assert line[start..] == line[start..end] + [TAB] + line[end + 1..];
      SplitFirst(line[start..end], TAB, line[end + 1..]);
    } else {
      assert line[start..end] == line[start..];
      SplitWhole(line[start..], TAB);
    }
  }
}
