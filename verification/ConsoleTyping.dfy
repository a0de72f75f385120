/** What a user types on its way to the target: the writer sends it in packets of up to four characters, each one again
    until it is acknowledged, and the target queues what it is sent as often as it is sent it.
*/
module ConsoleTyping {
  import opened Options
  import opened CanPacket
  import opened RingBuffer
  import opened ConsoleOutput
  import opened ConsoleOwner
  import opened ConsoleNode
  import Clients = ConsoleClients

  const MAX_RETRIES := Clients.MAX_RETRIES

  /** One packet sent: how many characters the terminal takes from the target's input queue before, whether the packet
      is served, which takes its arrival and an owner at the target, and whether the answer comes back. */
  datatype Trip = Trip(drained: nat, served: bool, comesBack: bool)

  /** What becomes of the n-th packet; after those listed everything goes well. */
  function TripOf(trips: seq<Trip>, n: nat): Trip {
    if n < |trips| then trips[n] else Trip(MAXRING, true, true)
  }

  /** How many characters the target's input queue holds, and all that have got into it. */
  datatype Line<T> = Line(queued: nat, arrived: seq<T>)

  function Drain(queued: nat, drained: nat): nat {
    if queued <= drained then 0 else queued - drained
  }

  /** As many of a packet's characters as there is room for; the packet is acknowledged in any case. */
  function Fitting(queued: nat, count: nat): nat {
    if queued <= MAXRING - 1 then Min(MAXRING - 1 - queued, count) else 0
  }

  function ServeDat<T>(l: Line<T>, chunk: seq<T>, trip: Trip): Line<T> {
    var queued := Drain(l.queued, trip.drained);
    if !trip.served then l.(queued := queued)
    else
      var n := Fitting(queued, |chunk|);
      Line(queued + n, l.arrived + chunk[..n])
  }

  function Answered(trip: Trip): bool {
    trip.served && trip.comesBack
  }

  /** send_dat with `left` tries left: where it leaves the target, and the number of packets sent. */
  function SendDat<T>(l: Line<T>, chunk: seq<T>, trips: seq<Trip>, n: nat, left: nat): (Line<T>, nat)
    decreases left, n
  {
    var l' := ServeDat(l, chunk, TripOf(trips, n));
    if !Answered(TripOf(trips, n)) && left > 1 then SendDat(l', chunk, trips, n + 1, left - 1) else (l', n + 1)
  }

  /** The writer. */
  function WriteAll<T>(l: Line<T>, chunks: seq<seq<T>>, trips: seq<Trip>, n: nat): Line<T>
    decreases |chunks|
  {
    if chunks == [] then l
    else
      var (l', n') := SendDat(l, chunks[0], trips, n, MAX_RETRIES);
      WriteAll(l', chunks[1..], trips, n')
  }

  method Write<T>(l: Line<T>, chunks: seq<seq<T>>, trips: seq<Trip>) returns (r: Line<T>)
    ensures r == WriteAll(l, chunks, trips, 0)
  {
    r := l;
    var n, k := 0, 0;
    while k < |chunks|
      invariant k <= |chunks|
      invariant WriteAll(r, chunks[k..], trips, n) == WriteAll(l, chunks, trips, 0)
    {
      assert chunks[k..][0] == chunks[k] && chunks[k..][1..] == chunks[k + 1..];
      r, n := SendChunk(r, chunks[k], trips, n);
      k := k + 1;
    }
  }

  /** mysend. */
  method SendChunk<T>(l: Line<T>, chunk: seq<T>, trips: seq<Trip>, n: nat) returns (r: Line<T>, sent: nat)
    ensures (r, sent) == SendDat(l, chunk, trips, n, MAX_RETRIES)
  {
    var try := 1;
    var trip := TripOf(trips, n);
    r, sent := ServeDat(l, chunk, trip), n + 1;
    while !Answered(trip) && try < MAX_RETRIES
      invariant 1 <= try <= MAX_RETRIES
      invariant SendDat(l, chunk, trips, n, MAX_RETRIES) ==
                if !Answered(trip) && try < MAX_RETRIES then SendDat(r, chunk, trips, sent, MAX_RETRIES - try)
                else (r, sent)
      decreases MAX_RETRIES - try
    {
      try := try + 1;
      trip := TripOf(trips, sent);
      r, sent := ServeDat(r, chunk, trip), sent + 1;
    }
  }

  /** A packet is sent until the first answer that comes back, or as often as there are tries, and at least once. */
  lemma {:induction false} StopsAtAnswer<T>(l: Line<T>, chunk: seq<T>, trips: seq<Trip>, n: nat, left: nat)
      returns (last: nat)
    requires left > 0
    ensures n <= last < n + left && SendDat(l, chunk, trips, n, left).1 == last + 1
    ensures forall j :: n <= j < last ==> !(TripOf(trips, j).served && TripOf(trips, j).comesBack)
    ensures (TripOf(trips, last).served && TripOf(trips, last).comesBack) || last + 1 == n + left
    decreases left
  {
    last := n;
    if !Answered(TripOf(trips, n)) && left > 1 {
      last := StopsAtAnswer(ServeDat(l, chunk, TripOf(trips, n)), chunk, trips, n + 1, left - 1);
    }
  }

  // ---------------------------------------------------------------------------------------------------------------
  // The packets, and what a node does with them.

  function ByteAt(chars: seq<Byte>, i: nat): Byte {
    if i < |chars| then chars[i] else 0
  }

  /** send_dat and can_send: the characters and a length that counts the extended header. */
  function DatPacket(target: ExtHeader, dest: nat, src: nat, chars: seq<Byte>): Packet
    requires |chars| <= 4 && dest < 32 && src < 32
  {
    Packet(0, CanFields(0, dest, src, 0, 4 + |chars|), target.(kind := TYPE_DAT, object_ := 0),
           Join4(ByteAt(chars, 0), ByteAt(chars, 1), ByteAt(chars, 2), ByteAt(chars, 3)))
  }

  /** A node with an owner acknowledges the packet and queues as many of its characters as fit; without an owner it does
      neither. */
  lemma NodeServes(nodeid: nat, o: Owner, target: ExtHeader, dest: nat, src: nat, chars: seq<Byte>, beyond: seq<Byte>,
                   queued: seq<Byte>, up: seq<Byte>, left: seq<Byte>)
    requires |chars| <= 4 && dest < 32 && src < 32 && |beyond| >= 7 && |queued| <= MAXRING - 1
    requires InputAfter(o, DatPacket(target, dest, src, chars), beyond, queued, up, left)
    ensures var r := HandlePacket(nodeid, o, DatPacket(target, dest, src, chars));
            if Unconnected(o.rmt) then r.reply.None? && up + left == queued
            else r.reply.Some? && r.reply.value.ext.kind == TYPE_ACK &&
                 up + left == queued + chars[..Fitting(|queued|, |chars|)]
  {
    var p := DatPacket(target, dest, src, chars);
    var (a, b, c, d) := (ByteAt(chars, 0), ByteAt(chars, 1), ByteAt(chars, 2), ByteAt(chars, 3));
    BytesSplit(a, b, c, d);
    assert Characters(p, beyond) == chars;
  }

  lemma BytesSplit(a: Byte, b: Byte, c: Byte, d: Byte)
    ensures Bytes4(Join4(a, b, c, d)) == [a, b, c, d]
  {
    var w2 := a as int * 256 + b;
    var w1 := w2 * 256 + c;
    assert (w1 * 256 + d) / 256 == w1 && (w1 * 256 + d) % 256 == d;
    assert w1 / 256 == w2 && w1 % 256 == c;
    assert w2 / 256 == a && w2 % 256 == b;
  }

  // ---------------------------------------------------------------------------------------------------------------
  // When a character arrives exactly once.

  predicate Distinct<T(==)>(text: seq<T>) {
    forall i, j :: 0 <= i < j < |text| ==> text[i] != text[j]
  }

  /** With that many characters queued and the tries left, nothing more of a packet gets in: whenever it is served, up
      to the first answer that comes back, the queue is full. */
  predicate NothingMore(queued: nat, count: nat, trips: seq<Trip>, n: nat, left: nat)
    decreases left, n
  {
    left == 0 ||
    var trip := TripOf(trips, n);
    var q := Drain(queued, trip.drained);
    && (trip.served ==> Fitting(q, count) == 0)
    && (Answered(trip) || NothingMore(q, count, trips, n + 1, left - 1))
  }

  /** Of the tries made exactly one finds room, and for the whole packet: those served before it find the queue full and
      their answers are lost, and after it the answer comes back or nothing more gets in. */
  predicate Once(queued: nat, count: nat, trips: seq<Trip>, n: nat, left: nat)
    decreases left, n
  {
    left > 0 &&
    var trip := TripOf(trips, n);
    var q := Drain(queued, trip.drained);
    if !trip.served || (Fitting(q, count) == 0 && !trip.comesBack) then Once(q, count, trips, n + 1, left - 1)
    else Fitting(q, count) == count && (trip.comesBack || NothingMore(q + count, count, trips, n + 1, left - 1))
  }

  /** What the tries left add. */
  lemma {:induction false} Gains<T>(l: Line<T>, chunk: seq<T>, trips: seq<Trip>, n: nat, left: nat) returns (g: seq<T>)
    requires left > 0 && chunk != []
    ensures SendDat(l, chunk, trips, n, left).0.arrived == l.arrived + g
    ensures g == [] <==> NothingMore(l.queued, |chunk|, trips, n, left)
    ensures g != [] ==> g[0] == chunk[0]
    ensures forall x :: x in g ==> x in chunk
    decreases left
  {
    var trip := TripOf(trips, n);
    var l' := ServeDat(l, chunk, trip);
    g := if trip.served then chunk[..Fitting(Drain(l.queued, trip.drained), |chunk|)] else [];
    if !Answered(trip) && left > 1 {
      var g' := Gains(l', chunk, trips, n + 1, left - 1);
      assert l.arrived + g + g' == l.arrived + (g + g');
      g := g + g';
    }
  }

  /** The characters of a packet, all different, arrive exactly once and in order if and only if that is so. */
  lemma {:induction false} SendExactlyOnce<T>(l: Line<T>, chunk: seq<T>, trips: seq<Trip>, n: nat, left: nat)
    requires left > 0 && chunk != [] && Distinct(chunk)
    ensures SendDat(l, chunk, trips, n, left).0.arrived == l.arrived + chunk <==>
            Once(l.queued, |chunk|, trips, n, left)
    decreases left
  {
    var trip := TripOf(trips, n);
    var l' := ServeDat(l, chunk, trip);
    var q := Drain(l.queued, trip.drained);
    var f := if trip.served then Fitting(q, |chunk|) else 0;
    if !Answered(trip) && left > 1 {
      if f == 0 {
        assert l'.arrived == l.arrived;
        SendExactlyOnce(l', chunk, trips, n + 1, left - 1);
      } else {
        var g := Gains(l', chunk, trips, n + 1, left - 1);
        Twice(l.arrived, chunk, f, g);
      }
    } else {
      SameText(l.arrived, chunk[..f], chunk);
    }
  }

  lemma SameText<T>(a: seq<T>, b: seq<T>, c: seq<T>)
    ensures a + b == a + c <==> b == c
  {
    if a + b == a + c {
      assert b == (a + b)[|a|..] && c == (a + c)[|a|..];
    }
  }

  /** After the front of a packet, more that starts like the packet is the packet only if there was nothing more to
      come. */
  lemma Twice<T>(a: seq<T>, chunk: seq<T>, f: nat, g: seq<T>)
    requires chunk != [] && Distinct(chunk) && 0 < f <= |chunk| && (g != [] ==> g[0] == chunk[0])
    ensures a + chunk[..f] + g == a + chunk <==> f == |chunk| && g == []
  {
    assert a + chunk[..f] + g == a + (chunk[..f] + g);
    SameText(a, chunk[..f] + g, chunk);
    if f < |chunk| && g != [] {
      assert (chunk[..f] + g)[f] == g[0];
      assert chunk[f] != chunk[0];
    }
  }

  function Flat<T>(chunks: seq<seq<T>>): seq<T> {
    if chunks == [] then [] else chunks[0] + Flat(chunks[1..])
  }

  /** Each packet arrives once. */
  predicate AllOnce<T>(l: Line<T>, chunks: seq<seq<T>>, trips: seq<Trip>, n: nat)
    decreases |chunks|
  {
    chunks == [] ||
    (Once(l.queued, |chunks[0]|, trips, n, MAX_RETRIES) &&
     var (l', n') := SendDat(l, chunks[0], trips, n, MAX_RETRIES);
     AllOnce(l', chunks[1..], trips, n'))
  }

  lemma {:induction false} AllGains<T>(l: Line<T>, chunks: seq<seq<T>>, trips: seq<Trip>, n: nat) returns (g: seq<T>)
    requires forall i :: 0 <= i < |chunks| ==> chunks[i] != []
    ensures WriteAll(l, chunks, trips, n).arrived == l.arrived + g
    ensures forall x :: x in g ==> x in Flat(chunks)
    decreases |chunks|
  {
    g := [];
    if chunks != [] {
      var first := Gains(l, chunks[0], trips, n, MAX_RETRIES);
      var (l', n') := SendDat(l, chunks[0], trips, n, MAX_RETRIES);
      var rest := AllGains(l', chunks[1..], trips, n');
      assert l.arrived + first + rest == l.arrived + (first + rest);
      g := first + rest;
    }
  }

  /** Two parts that have nothing in common make up a whole text of two such parts only if each makes up its own. */
  lemma PartsApart<T>(a: seq<T>, b: seq<T>, c: seq<T>, d: seq<T>)
    requires Distinct(c + d) && (forall x :: x in a ==> x in c) && (forall x :: x in b ==> x in d)
    ensures a + b == c + d <==> a == c && b == d
  {
    var t := c + d;
    if |a| < |c| && b != [] {
      assert (a + b)[|a|] == b[0] && t[|a|] == c[|a|];
      assert b[0] in b && b[0] in d;
      var j :| 0 <= j < |d| && d[j] == b[0];
      assert t[|c| + j] == d[j];
    } else if |a| > |c| && d != [] {
      assert (a + b)[|c|] == a[|c|] && t[|c|] == d[0];
      assert a[|c|] in a && a[|c|] in c;
      var j :| 0 <= j < |c| && c[j] == a[|c|];
      assert t[j] == c[j];
    } else if |a| == |c| {
      assert (a + b)[..|a|] == a && (a + b)[|a|..] == b && t[..|c|] == c && t[|c|..] == d;
    }
  }

  lemma DistinctParts<T>(c: seq<T>, d: seq<T>)
    requires Distinct(c + d)
    ensures Distinct(c) && Distinct(d)
  {
    forall i, j | 0 <= i < j < |c|
      ensures c[i] != c[j]
    {
      assert (c + d)[i] == c[i] && (c + d)[j] == c[j];
    }
    forall i, j | 0 <= i < j < |d|
      ensures d[i] != d[j]
    {
      assert (c + d)[|c| + i] == d[i] && (c + d)[|c| + j] == d[j];
    }
  }

  /** What is typed, told apart character by character, arrives exactly once and in order if and only if each packet
      does; it takes no hypothesis on the network. */
  lemma {:induction false} TypedExactlyOnce<T>(l: Line<T>, chunks: seq<seq<T>>, trips: seq<Trip>, n: nat)
    requires (forall i :: 0 <= i < |chunks| ==> chunks[i] != []) && Distinct(Flat(chunks))
    ensures WriteAll(l, chunks, trips, n).arrived == l.arrived + Flat(chunks) <==> AllOnce(l, chunks, trips, n)
    decreases |chunks|
  {
    if chunks != [] {
      var chunk, rest := chunks[0], Flat(chunks[1..]);
      var (l', n') := SendDat(l, chunk, trips, n, MAX_RETRIES);
      DistinctParts(chunk, rest);
      SendExactlyOnce(l, chunk, trips, n, MAX_RETRIES);
      TypedExactlyOnce(l', chunks[1..], trips, n');
      var g := Gains(l, chunk, trips, n, MAX_RETRIES);
      var g' := AllGains(l', chunks[1..], trips, n');
      PartsApart(g, g', chunk, rest);
      assert l.arrived + g + g' == l.arrived + (g + g');
      SameText(l.arrived, g + g', chunk + rest);
      SameText(l.arrived, g, chunk);
      SameText(l'.arrived, g', rest);
    }
  }

  // ---------------------------------------------------------------------------------------------------------------
  // When the terminal keeps up.

  /** None of the packets n .. n + left - 1 is served. */
  predicate NoneServed(trips: seq<Trip>, n: nat, left: nat) {
    forall k :: n <= k < n + left ==> !TripOf(trips, k).served
  }

  /** Packet k is the first one served of those left, and its answer comes back or none of the others is. */
  predicate ServedOnce(trips: seq<Trip>, n: nat, left: nat, k: nat) {
    && n <= k < n + left && TripOf(trips, k).served && NoneServed(trips, n, k - n)
    && (TripOf(trips, k).comesBack || NoneServed(trips, k + 1, n + left - k - 1))
  }

  /** When the queue is always empty by the next packet, a packet arrives exactly once if and only if some try is
      served, and the answer of the first one that is comes back or no other try is served: a lost answer followed by
      another try that is served makes the characters arrive again. */
  lemma {:induction false} OnceWhenKeepingUp(queued: nat, count: nat, trips: seq<Trip>, n: nat, left: nat)
    requires 0 < count <= 4 && queued <= MAXRING - 1
    requires forall k :: n <= k < n + left ==> TripOf(trips, k).drained >= MAXRING
    ensures Once(queued, count, trips, n, left) <==> exists k :: ServedOnce(trips, n, left, k)
    decreases left
  {
    if left > 0 {
      var trip := TripOf(trips, n);
      assert Drain(queued, trip.drained) == 0;
      if trip.served {
        NothingMoreWhenKeepingUp(count, count, trips, n + 1, left - 1);
        if Once(queued, count, trips, n, left) {
          assert ServedOnce(trips, n, left, n);
        }
        if k :| ServedOnce(trips, n, left, k) {
          assert k == n;
        }
      } else {
        var m, rest := n + 1, left - 1;
        OnceWhenKeepingUp(0, count, trips, m, rest);
        if k :| ServedOnce(trips, m, rest, k) {
          assert ServedOnce(trips, n, left, k);
        }
        if k :| ServedOnce(trips, n, left, k) {
          assert ServedOnce(trips, m, rest, k);
        }
      }
    }
  }

  lemma {:induction false} NothingMoreWhenKeepingUp(queued: nat, count: nat, trips: seq<Trip>, n: nat, left: nat)
    requires 0 < count <= 4 && queued <= MAXRING - 1
    requires forall k :: n <= k < n + left ==> TripOf(trips, k).drained >= MAXRING
    ensures NothingMore(queued, count, trips, n, left) <==> NoneServed(trips, n, left)
    decreases left
  {
    if left > 0 {
      NothingMoreWhenKeepingUp(0, count, trips, n + 1, left - 1);
    }
  }

  /** One lost answer: the packet is served twice and its characters arrive twice. */
  lemma LostAnswerRepeats<T>(chunk: seq<T>)
    requires 0 < |chunk| <= 4
    ensures WriteAll(Line(0, []), [chunk], [Trip(MAXRING, true, false)], 0).arrived == chunk + chunk
  {
    var trips := [Trip(MAXRING, true, false)];
    var l0: Line<T> := Line(0, []);
    var l1 := ServeDat(l0, chunk, TripOf(trips, 0));
    var l2 := ServeDat(l1, chunk, TripOf(trips, 1));
    assert SendDat(l1, chunk, trips, 1, MAX_RETRIES - 1) == (l2, 2);
    assert SendDat(l0, chunk, trips, 0, MAX_RETRIES) == (l2, 2);
    assert [chunk][1..] == [];
    assert l2.arrived == [] + chunk[..|chunk|] + chunk[..|chunk|];
  }
}
