/** The whole transport: any number of clients, each with a capture, send, receive and inject thread, around
    one host server. Links are reliable and ordered; every step may move any number of bytes. */
module Network {
  import opened Codec
  import Cast
  import Host
  import Link

  const QUEUE_SIZE: nat := 10

  type Word = x: int | 0 <= x < TWO64

  datatype Routed = Routed(origin: nat, item: Item)

  /** One client with both of its links and its host buffer. `captured`, `handed`, `routed` and `injected` are
      histories: what was queued by capture, handed on by the host, cast to this client, and injected. */
  datatype Client = Client(
    captured: seq<Item>, outbox: seq<Item>, pos: nat, up: seq<Byte>,
    buffer: seq<Byte>, handed: seq<Item>,
    routed: seq<Routed>, down: seq<Byte>, part: seq<Byte>, inbox: seq<Item>, injected: seq<Item>)

  const FRESH := Client([], [], 0, [], [], [], [], [], [], [], [])

  // ---------------------------------------------------------------------------------------------
  // The threads
  // ---------------------------------------------------------------------------------------------

  /** The capture thread queues a packet, cut to the slot's buffer, unless its queue is full. */
  function Capture(c: Client, sec: Word, nsec: Word, data: seq<Byte>): Client {
    if |c.outbox| >= QUEUE_SIZE then c
    else
      var x := Item(sec, nsec, data[..Link.Min(|data|, BUFFER_SIZE)]);
      c.(captured := c.captured + [x], outbox := c.outbox + [x])
  }

  /** The send thread puts the next bytes of the oldest item's frame on the uplink. */
  function Send(c: Client, k1: nat, k2: nat, k3: nat): Client
    requires c.outbox != [] ==> c.pos <= |Frame(c.outbox[0])|
  {
    if c.outbox == [] then c
    else
      var f := Frame(c.outbox[0]);
      var p := Link.SendTo(c.pos, |f|, k1, k2, k3);
      var c1 := c.(up := c.up + f[c.pos..p]);
      if p == |f| then c1.(outbox := c.outbox[1..], pos := 0) else c1.(pos := p)
  }

  /** What the host takes off the uplink when a receive is given `n` bytes: never more than its buffer holds. */
  function Chunk(c: Client, n: nat): seq<Byte>
    requires |c.buffer| <= Host.MAX_SIZE
  {
    c.up[..Link.Min(n, Link.Min(|c.up|, Host.MAX_SIZE - |c.buffer|))]
  }

  function Items(packets: seq<seq<Byte>>): seq<Item>
    requires forall p :: p in packets ==> |p| >= HEADER
  {
    seq(|packets|, i requires 0 <= i < |packets| => Unframe(packets[i]))
  }

  /** The client that sent, after the host's receive. */
  function Reassembled(c: Client, n: nat): Client
    requires |c.buffer| <= Host.MAX_SIZE
  {
    var b := c.buffer + Chunk(c, n);
    c.(up := c.up[|Chunk(c, n)|..], buffer := Host.Split(b).rest, handed := c.handed + Items(Host.Packets(b)))
  }

  function Tagged(origin: nat, items: seq<Item>): (r: seq<Routed>)
    ensures |r| == |items|
  {
    seq(|items|, i requires 0 <= i < |items| => Routed(origin, items[i]))
  }

  /** Another client, after the host has cast `packets` to it. */
  function Routes(c: Client, origin: nat, packets: seq<seq<Byte>>): Client
    requires forall p :: p in packets ==> |p| >= HEADER
  {
    c.(down := c.down + Host.Flatten(packets), routed := c.routed + Tagged(origin, Items(packets)))
  }

  /** The length announced in the first four bytes, if they are there. */
  function SizeOf(all: seq<Byte>): nat { if |all| >= 4 then Value(all[..4]) else 0 }

  /** The first `have` bytes of `all` are now the part of a frame, or a complete one. */
  function Took(c: Client, all: seq<Byte>, have: nat, complete: bool): Client
    requires have <= |all| && (complete ==> have >= HEADER)
  {
    if complete then c.(part := [], down := all[have..], inbox := c.inbox + [Unframe(all[..have])])
    else c.(part := all[..have], down := all[have..])
  }

  /** The receive thread asserts that it has not received more than was announced. */
  predicate CanReceive(part: seq<Byte>, down: seq<Byte>) {
    && (|part + down| < 4 ==> |part| <= HEADER)
    && (|part + down| >= 4 ==> |part| <= Host.Announced(part + down))
  }

  /** How much of the current frame has arrived after a step, and whether that completes it. */
  function HaveAfter(c: Client, k1: nat, k2: nat, k3: nat): (have: nat)
    requires CanReceive(c.part, c.down)
    ensures |c.part| <= have <= |c.part + c.down|
  {
    Link.ReceiveTo(|c.part|, |c.down|, SizeOf(c.part + c.down), |c.inbox| < QUEUE_SIZE, k1, k2, k3)
  }

  predicate Completes(c: Client, have: nat) {
    |c.inbox| < QUEUE_SIZE && have == HEADER + SizeOf(c.part + c.down)
  }

  /** The receive thread takes the next bytes of the current frame and queues its item when it is complete. */
  function Receive(c: Client, k1: nat, k2: nat, k3: nat): Client
    requires CanReceive(c.part, c.down)
  {
    var have := HaveAfter(c, k1, k2, k3);
    Took(c, c.part + c.down, have, Completes(c, have))
  }

  function Inject(c: Client): Client {
    if c.inbox == [] then c else c.(injected := c.injected + [c.inbox[0]], inbox := c.inbox[1..])
  }

  // ---------------------------------------------------------------------------------------------
  // The threads in memory take these steps
  // ---------------------------------------------------------------------------------------------

  function Packets(slots: seq<Slot>): (r: seq<Item>)
    requires forall x :: x in slots ==> x.Legal()
    ensures |r| == |slots|
  {
    seq(|slots|, i requires 0 <= i < |slots| => slots[i].Packet())
  }

  lemma SenderRefines(c: Client, before: seq<Slot>, k1: nat, k2: nat, k3: nat,
                      sent: seq<Byte>, after: seq<Slot>, pos1: nat)
    requires (forall x :: x in before ==> x.Legal()) && c.outbox == Packets(before)
    requires Link.Sent(before, c.pos, k1, k2, k3, sent, after, pos1)
    ensures forall x :: x in after ==> x.Legal()
    ensures before != [] ==> c.pos <= |Frame(c.outbox[0])|
    ensures Send(c, k1, k2, k3) == c.(up := c.up + sent, outbox := Packets(after), pos := pos1)
  {
    if before != [] {
      assert c.outbox[0] == before[0].Packet();
      if after != before {
        assert Packets(after) == c.outbox[1..];
      }
    } else {
      assert c.up + sent == c.up;
    }
  }

  lemma ReceiverRefines(c: Client, before: seq<Slot>, k1: nat, k2: nat, k3: nat,
                        taken: nat, part1: seq<Byte>, after: seq<Slot>)
    requires (forall x :: x in before ==> x.Legal()) && c.inbox == Packets(before)
    requires CanReceive(c.part, c.down)
    requires Link.Received(c.part, c.down, before, |before| < QUEUE_SIZE, k1, k2, k3, taken, part1, after)
    ensures (forall x :: x in after ==> x.Legal()) && taken <= |c.down|
    ensures Receive(c, k1, k2, k3) == c.(part := part1, down := c.down[taken..], inbox := Packets(after))
  {
    var all := c.part + c.down;
    var have := |c.part| + taken;
    assert all[have..] == c.down[taken..];
    if after != before {
      assert after == before + [after[|before|]];
      assert Packets(after) == c.inbox + [Unframe(all[..have])];
    }
  }

  /** What of a packet is kept. */
  function UpTo2500(data: seq<Byte>): seq<Byte> { if |data| <= 2500 then data else data[..2500] }

  lemma CaptureTakes(c: Client, sec: Word, nsec: Word, data: seq<Byte>)
    ensures var x := Item(sec, nsec, UpTo2500(data));
            Capture(c, sec, nsec, data)
            == if |c.outbox| < 10 then c.(captured := c.captured + [x], outbox := c.outbox + [x]) else c
  {
    assert data[..Link.Min(|data|, BUFFER_SIZE)] == UpTo2500(data);
  }

  /** What the capture thread puts into the queue in memory is what it puts into the network's. */
  lemma CaptureRefines(c: Client, before: seq<Slot>, sec: Word, nsec: Word, data: seq<Byte>, after: seq<Slot>)
    requires (forall x :: x in before ==> x.Legal()) && c.outbox == Packets(before)
    requires var x := Item(sec, nsec, UpTo2500(data));
             if |before| < 10 then Link.Enqueued(before, after, Frame(x)) else after == before
    ensures forall x :: x in after ==> x.Legal()
    ensures var x := Item(sec, nsec, UpTo2500(data));
            Capture(c, sec, nsec, data)
            == c.(outbox := Packets(after), captured := c.captured + if |before| < 10 then [x] else [])
  {
    CaptureTakes(c, sec, nsec, data);
    if |before| < 10 {
      var x := Item(sec, nsec, UpTo2500(data));
      FrameRoundTrip(x);
      assert after == before + [after[|before|]];
      assert Packets(after) == c.outbox + [x];
    } else {
      assert c.captured + [] == c.captured;
    }
  }

  /** What the inject thread takes from the queue in memory is what it takes from the network's. */
  lemma InjectRefines(c: Client, before: seq<Slot>, injected: seq<Item>, after: seq<Slot>)
    requires (forall x :: x in before ==> x.Legal()) && c.inbox == Packets(before)
    requires if before == [] then injected == [] && after == []
             else before[0] in before && injected == [before[0].Packet()] && after == before[1..]
    ensures forall x :: x in after ==> x.Legal()
    ensures Inject(c) == c.(injected := c.injected + injected, inbox := Packets(after))
  {
    if before == [] {
      assert c.injected + [] == c.injected;
    } else {
      assert Packets(after) == c.inbox[1..];
    }
  }

  // ---------------------------------------------------------------------------------------------
  // What every step keeps
  // ---------------------------------------------------------------------------------------------

  ghost predicate AllLegal(xs: seq<Item>) { forall x :: x in xs ==> Legal(x) }

  /** Captured packets the host has not handed on. */
  function Due(c: Client): seq<Item>
    requires |c.handed| <= |c.captured|
  {
    c.captured[|c.handed|..]
  }

  /** The uplink: host buffer, link and send thread together hold exactly the frames of the packets due. */
  ghost predicate UpGood(c: Client) {
    && AllLegal(c.captured) && c.handed <= c.captured
    && |c.outbox| <= QUEUE_SIZE
    && (if c.outbox == [] then c.pos == 0 else c.pos < |Frame(c.outbox[0])|)
    && |c.buffer| < HEADER + BUFFER_SIZE
    && (if Due(c) == [] then c.buffer == [] else |c.buffer| < |Frame(Due(c)[0])|)
    && c.pos <= |Stream(c.outbox)|
    && c.buffer + c.up + Stream(c.outbox)[c.pos..] == Stream(Due(c))
  }

  function Payload(rs: seq<Routed>): (r: seq<Item>)
    ensures |r| == |rs|
  {
    seq(|rs|, i requires 0 <= i < |rs| => rs[i].item)
  }

  /** Packets cast to this client that have not reached its queue. */
  function Owed(c: Client): seq<Item>
    requires |c.injected| + |c.inbox| <= |c.routed|
  {
    Payload(c.routed)[|c.injected| + |c.inbox|..]
  }

  /** The downlink: the receive thread's partial frame and the link together hold exactly the frames owed. */
  ghost predicate DownGood(c: Client) {
    && AllLegal(Payload(c.routed)) && c.injected + c.inbox <= Payload(c.routed)
    && |c.inbox| <= QUEUE_SIZE
    && (if Owed(c) == [] then c.part == [] else |c.part| <= |Frame(Owed(c)[0])|)
    && c.part + c.down == Stream(Owed(c))
  }

  /** The packets of `rs` that came from client `s`, in order. */
  function From(rs: seq<Routed>, s: nat): seq<Item> {
    if rs == [] then []
    else
      var last := rs[|rs| - 1];
      From(rs[..|rs| - 1], s) + if last.origin == s then [last.item] else []
  }

  /** Everything handed on from `s` was cast to `r`, in order, unless `r` is `s`. */
  ghost predicate Routing(net: seq<Client>) {
    forall r, s :: 0 <= r < |net| && 0 <= s < |net| ==> RoutedFrom(net, r, s)
  }

  predicate RoutedFrom(net: seq<Client>, r: nat, s: nat)
    requires r < |net| && s < |net|
  {
    From(net[r].routed, s) == if r == s then [] else net[s].handed
  }

  ghost predicate Good(net: seq<Client>) {
    (forall r :: 0 <= r < |net| ==> UpGood(net[r]) && DownGood(net[r])) && Routing(net)
  }

  // ---------------------------------------------------------------------------------------------
  // Runs
  // ---------------------------------------------------------------------------------------------

  datatype Op =
    | OpCapture(c: nat, sec: Word, nsec: Word, data: seq<Byte>)
    | OpSend(c: nat, k1: nat, k2: nat, k3: nat)
    | OpHost(c: nat, n: nat)
    | OpReceive(c: nat, k1: nat, k2: nat, k3: nat)
    | OpInject(c: nat)

  /** The host receives from client `c` and casts to all others. */
  function HostStep(net: seq<Client>, c: nat, n: nat): (r: seq<Client>)
    requires c < |net| && |net[c].buffer| <= Host.MAX_SIZE
    ensures |r| == |net|
  {
    var packets := Host.Packets(net[c].buffer + Chunk(net[c], n));
    seq(|net|, j requires 0 <= j < |net| =>
      if j == c then Reassembled(net[c], n) else Routes(net[j], c, packets))
  }

  function Step(net: seq<Client>, op: Op): (r: seq<Client>)
    requires Good(net) && op.c < |net|
  {
    var c := net[op.c];
    match op
    case OpCapture(i, sec, nsec, data) => net[i := Capture(c, sec, nsec, data)]
    case OpSend(i, k1, k2, k3) => net[i := Send(c, k1, k2, k3)]
    case OpHost(i, n) => HostStep(net, i, n)
    case OpReceive(i, k1, k2, k3) => FirstOwed(c); net[i := Receive(c, k1, k2, k3)]
    case OpInject(i) => net[i := Inject(c)]
  }

  /** The receive thread can rely on the length it reads. */
  lemma FirstOwed(c: Client)
    requires DownGood(c)
    ensures |c.part + c.down| < 4 ==> c.part + c.down == []
    ensures c.part + c.down != [] ==>
              && Owed(c) != [] && Legal(Owed(c)[0])
              && var f := Frame(Owed(c)[0]);
              && f <= c.part + c.down && |c.part| <= |f| == Host.Announced(c.part + c.down)
  {
    var all := c.part + c.down;
    if Owed(c) != [] {
      var x := Owed(c)[0];
      assert x in Payload(c.routed);
      FrameRoundTrip(x);
      assert all[..4] == Frame(x)[..4];
    }
  }

  // ---------------------------------------------------------------------------------------------
  // Each thread keeps the invariant of its client
  // ---------------------------------------------------------------------------------------------

  lemma CaptureKeeps(c: Client, sec: Word, nsec: Word, data: seq<Byte>)
    requires UpGood(c)
    ensures UpGood(Capture(c, sec, nsec, data))
  {
    if |c.outbox| < QUEUE_SIZE {
      var x := Item(sec, nsec, data[..Link.Min(|data|, BUFFER_SIZE)]);
      var c1 := Capture(c, sec, nsec, data);
      assert Due(c1) == Due(c) + [x];
      StreamSnoc(c.outbox, x);
      StreamSnoc(Due(c), x);
      Append(c.buffer + c.up, Stream(c.outbox), c.pos, Frame(x), Stream(Due(c)));
      assert c.outbox != [] ==> c1.outbox[0] == c.outbox[0];
      assert Due(c) != [] ==> Due(c1)[0] == Due(c)[0];
      assert Due(c) == [] ==> c.buffer == [];
    }
  }

  lemma Append(front: seq<Byte>, out: seq<Byte>, pos: nat, f: seq<Byte>, due: seq<Byte>)
    requires pos <= |out| && front + out[pos..] == due
    ensures front + (out + f)[pos..] == due + f
  {
    assert (out + f)[pos..] == out[pos..] + f;
    assert front + (out[pos..] + f) == front + out[pos..] + f;
  }

  lemma SendKeeps(c: Client, k1: nat, k2: nat, k3: nat)
    requires UpGood(c)
    ensures UpGood(Send(c, k1, k2, k3))
  {
    if c.outbox != [] {
      var f := Frame(c.outbox[0]);
      var p := Link.SendTo(c.pos, |f|, k1, k2, k3);
      var later := Stream(c.outbox[1..]);
      assert Stream(c.outbox)[c.pos..] == f[c.pos..p] + Stream(c.outbox)[p..];
      assert p == |f| ==> Stream(c.outbox)[p..] == later[0..];
      assert c.buffer + c.up + (f[c.pos..p] + Stream(c.outbox)[p..])
          == c.buffer + (c.up + f[c.pos..p]) + Stream(c.outbox)[p..];
    }
  }

  /** What the host has in its buffer after a receive is the start of the frames due. */
  lemma ChunkOnStream(c: Client, n: nat)
    requires UpGood(c)
    ensures var b, later := c.buffer + Chunk(c, n), c.up[|Chunk(c, n)|..] + Stream(c.outbox)[c.pos..];
            |b| <= |Stream(Due(c))| && b == Stream(Due(c))[..|b|] && later == Stream(Due(c))[|b|..]
  {
    Regroup(c.buffer, c.up, Stream(c.outbox)[c.pos..], |Chunk(c, n)|);
  }

  lemma Regroup(buffer: seq<Byte>, up: seq<Byte>, out: seq<Byte>, k: nat)
    requires k <= |up|
    ensures var b, later, all := buffer + up[..k], up[k..] + out, buffer + up + out;
            |b| <= |all| && b == all[..|b|] && later == all[|b|..]
  {
  }

  /** What the host hands on is the next packets due, unchanged. */
  lemma HostHands(c: Client, n: nat)
    requires UpGood(c)
    ensures var b := c.buffer + Chunk(c, n);
            var done := Host.Complete(Due(c), |b|);
            && Host.Packets(b) == Host.Frames(Due(c)[..done])
            && Reassembled(c, n).handed == c.handed + Due(c)[..done]
    ensures UpGood(Reassembled(c, n))
  {
    var b, due := c.buffer + Chunk(c, n), Due(c);
    var done := Host.Complete(due, |b|);
    ChunkOnStream(c, n);
    Host.SplitStream(due, |b|);
    ItemsOfFrames(due[..done]);
    var c1 := Reassembled(c, n);
    HandedOn(c, c1, done);
    assert c1.buffer + c1.up + Stream(c.outbox)[c.pos..] == c1.buffer + (c1.up + Stream(c.outbox)[c.pos..]);
  }

  lemma HandedOn(c: Client, c1: Client, done: nat)
    requires c.handed <= c.captured == c1.captured && done <= |Due(c)| && c1.handed == c.handed + Due(c)[..done]
    ensures c1.handed <= c1.captured && Due(c1) == Due(c)[done..]
  {
    assert c1.handed == c.captured[..|c.handed| + done];
  }

  lemma ItemsOfFrames(xs: seq<Item>)
    requires AllLegal(xs)
    ensures (forall p :: p in Host.Frames(xs) ==> |p| >= HEADER) && Items(Host.Frames(xs)) == xs
  {
    forall i | 0 <= i < |xs|
      ensures Unframe(Host.Frames(xs)[i]) == xs[i]
    {
      FrameRoundTrip(xs[i]);
    }
  }

  lemma {:induction false} FlattenFrames(xs: seq<Item>)
    ensures Host.Flatten(Host.Frames(xs)) == Stream(xs)
  {
    if xs != [] {
      FlattenFrames(xs[1..]);
      assert Host.Frames(xs)[1..] == Host.Frames(xs[1..]);
    }
  }

  lemma OwedGrows(c: Client, c1: Client, origin: nat, xs: seq<Item>)
    requires c.injected + c.inbox <= Payload(c.routed)
    requires c1.injected == c.injected && c1.inbox == c.inbox && c1.routed == c.routed + Tagged(origin, xs)
    ensures Payload(c1.routed) == Payload(c.routed) + xs && Owed(c1) == Owed(c) + xs
  {
    assert Payload(c1.routed) == Payload(c.routed) + xs;
  }

  lemma DownGrows(c: Client, c1: Client, origin: nat, xs: seq<Item>)
    requires DownGood(c) && AllLegal(xs)
    requires c1.injected == c.injected && c1.inbox == c.inbox && c1.part == c.part
    requires c1.down == c.down + Stream(xs) && c1.routed == c.routed + Tagged(origin, xs)
    ensures DownGood(c1)
  {
    OwedGrows(c, c1, origin, xs);
    StreamConcat(Owed(c), xs);
    assert c.part + (c.down + Stream(xs)) == c.part + c.down + Stream(xs);
    assert AllLegal(Payload(c.routed) + xs);
  }

  lemma RoutesKeeps(c: Client, origin: nat, xs: seq<Item>)
    requires DownGood(c) && AllLegal(xs)
    requires forall p :: p in Host.Frames(xs) ==> |p| >= HEADER
    ensures DownGood(Routes(c, origin, Host.Frames(xs)))
    ensures Routes(c, origin, Host.Frames(xs)).routed == c.routed + Tagged(origin, xs)
  {
    ItemsOfFrames(xs);
    FlattenFrames(xs);
    DownGrows(c, Routes(c, origin, Host.Frames(xs)), origin, xs);
  }

  /** The receive thread queues the next packet owed, unchanged, or nothing. */
  lemma ReceiveKeeps(c: Client, k1: nat, k2: nat, k3: nat)
    requires DownGood(c)
    ensures CanReceive(c.part, c.down)
    ensures DownGood(Receive(c, k1, k2, k3))
  {
    FirstOwed(c);
    var all := c.part + c.down;
    var c1 := Receive(c, k1, k2, k3);
    if all != [] {
      var have := |c.part| + |c.down| - |c1.down|;
      if c1.inbox == c.inbox {
        assert all[..have] + all[have..] == all;
      } else {
        TakesFrame(c, have);
      }
    }
  }

  /** Moving the first frame owed from the link to the queue. */
  lemma TakesFrame(c: Client, have: nat)
    requires DownGood(c) && |c.inbox| < QUEUE_SIZE && Owed(c) != [] && have == |Frame(Owed(c)[0])|
    ensures var all := c.part + c.down;
            have <= |all| && DownGood(c.(part := [], down := all[have..], inbox := c.inbox + [Unframe(all[..have])]))
  {
    var all, x := c.part + c.down, Owed(c)[0];
    assert x in Payload(c.routed);
    FrameRoundTrip(x);
    assert all[..have] == Frame(x) && all[have..] == Stream(Owed(c)[1..]);
    var c1 := c.(part := [], down := all[have..], inbox := c.inbox + [x]);
    assert c1.injected + c1.inbox == (c.injected + c.inbox) + [x];
    assert Owed(c1) == Owed(c)[1..];
  }

  lemma InjectKeeps(c: Client)
    requires DownGood(c)
    ensures DownGood(Inject(c))
  {
    if c.inbox != [] {
      assert Inject(c).injected + Inject(c).inbox == c.injected + c.inbox;
    }
  }

  // ---------------------------------------------------------------------------------------------
  // Every run
  // ---------------------------------------------------------------------------------------------

  lemma {:induction false} FromConcat(a: seq<Routed>, b: seq<Routed>, s: nat)
    ensures From(a + b, s) == From(a, s) + From(b, s)
  {
    if b == [] {
      assert a + b == a;
    } else {
      assert (a + b)[..|a + b| - 1] == a + b[..|b| - 1];
      FromConcat(a, b[..|b| - 1], s);
    }
  }

  lemma {:induction false} FromTagged(origin: nat, xs: seq<Item>, s: nat)
    ensures From(Tagged(origin, xs), s) == if s == origin then xs else []
  {
    if xs != [] {
      var n := |xs| - 1;
      assert Tagged(origin, xs)[..n] == Tagged(origin, xs[..n]);
      FromTagged(origin, xs[..n], s);
      assert xs == xs[..n] + [xs[n]];
    }
  }

  /** What a receive from `c` does to each client. */
  lemma HostEach(net: seq<Client>, c: nat, n: nat, xs: seq<Item>, r: nat)
    requires Good(net) && c < |net| && r < |net|
    requires xs == Due(net[c])[..Host.Complete(Due(net[c]), |net[c].buffer + Chunk(net[c], n)|)]
    ensures var net1 := HostStep(net, c, n);
            && UpGood(net1[r]) && DownGood(net1[r])
            && net1[r].routed == (if r == c then net[c].routed else net[r].routed + Tagged(c, xs))
            && net1[r].handed == (if r == c then net[c].handed + xs else net[r].handed)
  {
    HostHands(net[c], n);
    var net1 := HostStep(net, c, n);
    if r == c {
      DownSame(net[c], net1[c]);
    } else {
      RoutesKeeps(net[r], c, xs);
      UpSame(net[r], net1[r]);
    }
  }

  lemma HostKeeps(net: seq<Client>, c: nat, n: nat)
    requires Good(net) && c < |net|
    ensures Good(HostStep(net, c, n))
  {
    var net1 := HostStep(net, c, n);
    var xs := Due(net[c])[..Host.Complete(Due(net[c]), |net[c].buffer + Chunk(net[c], n)|)];
    forall r | 0 <= r < |net|
      ensures UpGood(net1[r]) && DownGood(net1[r])
    {
      HostEach(net, c, n, xs, r);
    }
    forall r, s | 0 <= r < |net| && 0 <= s < |net|
      ensures RoutedFrom(net1, r, s)
    {
      HostRoutes(net, c, n, xs, r, s);
    }
  }

  lemma HostRoutes(net: seq<Client>, c: nat, n: nat, xs: seq<Item>, r: nat, s: nat)
    requires Good(net) && c < |net| && r < |net| && s < |net|
    requires xs == Due(net[c])[..Host.Complete(Due(net[c]), |net[c].buffer + Chunk(net[c], n)|)]
    ensures RoutedFrom(HostStep(net, c, n), r, s)
  {
    HostEach(net, c, n, xs, r);
    HostEach(net, c, n, xs, s);
    FromConcat(net[r].routed, Tagged(c, xs), s);
    FromTagged(c, xs, s);
    assert RoutedFrom(net, r, s);
  }

  /** The packets that the host sees the length of all have one size and at most one of them is complete, or there
      is no other client. */
  ghost predicate HostFits(net: seq<Client>, c: nat, n: nat)
    requires Good(net) && c < |net|
  {
    assert UpGood(net[c]);
    var due, k := Due(net[c]), |net[c].buffer + Chunk(net[c], n)|;
    && (due != [] ==> Host.SameSize(due, k, |due[0].payload|))
    && (Host.Complete(due, k) <= 1 || |net| == 1)
  }

  /** Exactly then the host as written takes this step. */
  lemma HostAsWritten(net: seq<Client>, c: nat, n: nat, fds: seq<nat>, expected: nat)
    requires Good(net) && c < |net| && |fds| == |net| && Cast.Distinct(fds)
    requires Host.Remembered(net[c].buffer, expected)
    ensures HostFits(net, c, n) <==>
              Cast.AsWritten(fds, fds[c], net[c].buffer, expected, Chunk(net[c], n))
              == Cast.Intended(fds, fds[c], net[c].buffer, Chunk(net[c], n))
  {
    var due, b := Due(net[c]), net[c].buffer + Chunk(net[c], n);
    ChunkOnStream(net[c], n);
    Host.SplitStream(due, |b|);
    Host.UniformSizes(due, |b|);
    Cast.ReceiveAgrees(fds, fds[c], net[c].buffer, expected, Chunk(net[c], n));
  }

  lemma UpSame(c: Client, c1: Client)
    requires UpGood(c) && c1.captured == c.captured && c1.outbox == c.outbox && c1.pos == c.pos
    requires c1.up == c.up && c1.buffer == c.buffer && c1.handed == c.handed
    ensures UpGood(c1)
  {
    assert Due(c1) == Due(c);
  }

  lemma DownSame(c: Client, c1: Client)
    requires DownGood(c) && c1.routed == c.routed && c1.down == c.down && c1.part == c.part
    requires c1.inbox == c.inbox && c1.injected == c.injected
    ensures DownGood(c1)
  {
    assert Owed(c1) == Owed(c);
  }

  lemma OneClient(net: seq<Client>, i: nat, c1: Client)
    requires Good(net) && i < |net| && UpGood(c1) && DownGood(c1)
    requires c1.routed == net[i].routed && c1.handed == net[i].handed
    ensures Good(net[i := c1])
  {
    var net1 := net[i := c1];
    forall r, s | 0 <= r < |net1| && 0 <= s < |net1|
      ensures RoutedFrom(net1, r, s)
    {
      assert RoutedFrom(net, r, s);
    }
  }

  lemma CaptureOne(net: seq<Client>, i: nat, sec: Word, nsec: Word, data: seq<Byte>)
    requires Good(net) && i < |net|
    ensures Good(net[i := Capture(net[i], sec, nsec, data)])
  {
    CaptureKeeps(net[i], sec, nsec, data);
    DownSame(net[i], Capture(net[i], sec, nsec, data));
    OneClient(net, i, Capture(net[i], sec, nsec, data));
  }

  lemma SendOne(net: seq<Client>, i: nat, k1: nat, k2: nat, k3: nat)
    requires Good(net) && i < |net|
    ensures net[i].outbox != [] ==> net[i].pos <= |Frame(net[i].outbox[0])|
    ensures Good(net[i := Send(net[i], k1, k2, k3)])
  {
    assert UpGood(net[i]);
    SendKeeps(net[i], k1, k2, k3);
    DownSame(net[i], Send(net[i], k1, k2, k3));
    OneClient(net, i, Send(net[i], k1, k2, k3));
  }

  lemma ReceiveOne(net: seq<Client>, i: nat, k1: nat, k2: nat, k3: nat)
    requires Good(net) && i < |net|
    ensures CanReceive(net[i].part, net[i].down) && Good(net[i := Receive(net[i], k1, k2, k3)])
  {
    ReceiveKeeps(net[i], k1, k2, k3);
    UpSame(net[i], Receive(net[i], k1, k2, k3));
    OneClient(net, i, Receive(net[i], k1, k2, k3));
  }

  lemma InjectOne(net: seq<Client>, i: nat)
    requires Good(net) && i < |net|
    ensures Good(net[i := Inject(net[i])])
  {
    InjectKeeps(net[i]);
    UpSame(net[i], Inject(net[i]));
    OneClient(net, i, Inject(net[i]));
  }

  lemma StepKeeps(net: seq<Client>, op: Op)
    requires Good(net) && op.c < |net|
    ensures Good(Step(net, op)) && |Step(net, op)| == |net|
  {
    match op
    case OpCapture(i, sec, nsec, data) => CaptureOne(net, i, sec, nsec, data);
    case OpSend(i, k1, k2, k3) => SendOne(net, i, k1, k2, k3);
    case OpHost(i, n) => HostKeeps(net, i, n);
    case OpReceive(i, k1, k2, k3) => ReceiveOne(net, i, k1, k2, k3);
    case OpInject(i) => InjectOne(net, i);
  }

  /** The steps are those of the first `n` clients. */
  predicate Within(ops: seq<Op>, n: nat) { forall op :: op in ops ==> op.c < n }

  /** The network of `n` clients after a run, in which the threads may take their steps in any order. */
  function Run(n: nat, ops: seq<Op>): (net: seq<Client>)
    requires Within(ops, n)
    ensures Good(net) && |net| == n
    decreases |ops|
  {
    if ops == [] then seq(n, _ => FRESH)
    else
      var before := Run(n, ops[..|ops| - 1]);
      StepKeeps(before, ops[|ops| - 1]);
      Step(before, ops[|ops| - 1])
  }

  /** What is given to the capture thread of client `s` while its queue has room, in order: each packet with its
      time and without what exceeds 2500 bytes. */
  function Given(n: nat, ops: seq<Op>, s: nat): seq<Item>
    requires Within(ops, n) && s < n
  {
    if ops == [] then []
    else
      var before := ops[..|ops| - 1];
      Given(n, before, s)
      + match ops[|ops| - 1]
        case OpCapture(c, sec, nsec, data) =>
          if c == s && |Run(n, before)[s].outbox| < 10 then [Item(sec, nsec, UpTo2500(data))] else []
        case _ => []
  }

  /** Exactly that is captured. */
  lemma {:induction false} CapturedIsGiven(n: nat, ops: seq<Op>, s: nat)
    requires Within(ops, n) && s < n
    ensures Run(n, ops)[s].captured == Given(n, ops, s)
    decreases |ops|
  {
    if ops != [] {
      var before, op := ops[..|ops| - 1], ops[|ops| - 1];
      CapturedIsGiven(n, before, s);
      StepCaptures(Run(n, before), op, s);
    }
  }

  lemma StepCaptures(net: seq<Client>, op: Op, s: nat)
    requires Good(net) && op.c < |net| && s < |net|
    ensures Step(net, op)[s].captured == net[s].captured
              + if op.OpCapture? && op.c == s && |net[s].outbox| < 10 then
                  [Item(op.sec, op.nsec, UpTo2500(op.data))]
                else []
  {
    var x := net[s];
    assert x.captured + [] == x.captured;
    match op
    case OpCapture(i, sec, nsec, data) => CaptureTakes(net[i], sec, nsec, data);
    case OpHost(i, n) => assert Step(net, op) == HostStep(net, i, n);
    case OpReceive(i, k1, k2, k3) => FirstOwed(net[i]);
    case _ =>
  }

  /** Everything `r` has injected that came from `s`. */
  function InjectedFrom(c: Client, s: nat): seq<Item>
    requires |c.injected| <= |c.routed|
  {
    From(c.routed[..|c.injected|], s)
  }

  /** After any run, what client `r` has injected is, origin by origin, a prefix of what was given to the origin,
      byte for byte up to 2500 bytes and timestamp for timestamp, and none of it is its own. */
  lemma Delivery(n: nat, ops: seq<Op>, r: nat, s: nat)
    requires Within(ops, n) && r < n && s < n
    ensures var net := Run(n, ops);
            && |net[r].injected| <= |net[r].routed|
            && net[r].injected == Payload(net[r].routed[..|net[r].injected|])
            && (r != s ==> InjectedFrom(net[r], s) <= Given(n, ops, s))
            && InjectedFrom(net[r], r) == []
  {
    var net := Run(n, ops);
    CapturedIsGiven(n, ops, s);
    InjectedPrefix(net[r], s);
    InjectedPrefix(net[r], r);
    assert UpGood(net[s]) && RoutedFrom(net, r, s) && RoutedFrom(net, r, r);
  }

  lemma InjectedPrefix(c: Client, s: nat)
    requires DownGood(c)
    ensures |c.injected| <= |c.routed| && c.injected == Payload(c.routed[..|c.injected|])
    ensures InjectedFrom(c, s) <= From(c.routed, s)
  {
    var k := |c.injected|;
    assert c.routed == c.routed[..k] + c.routed[k..];
    FromConcat(c.routed[..k], c.routed[k..], s);
    assert Payload(c.routed[..k]) == Payload(c.routed)[..k] == (c.injected + c.inbox)[..k];
  }

  /** Nothing is on its way. */
  predicate Quiet(net: seq<Client>) {
    forall c :: c in net ==>
      c.outbox == [] && c.up == [] && c.buffer == [] && c.down == [] && c.part == [] && c.inbox == []
  }

  lemma QuietClient(c: Client)
    requires UpGood(c) && DownGood(c) && c.outbox == [] && c.up == [] && c.buffer == []
    requires c.down == [] && c.part == [] && c.inbox == []
    ensures c.handed == c.captured && |c.injected| == |c.routed|
  {
    assert c.buffer + c.up + Stream(c.outbox)[c.pos..] == [];
    assert Due(c) == [] && Owed(c) == [];
  }

  /** Nothing is lost: when nothing is on its way, everyone has injected all that was given to all others. */
  lemma NothingIsLost(n: nat, ops: seq<Op>, r: nat, s: nat)
    requires Within(ops, n) && r < n && s < n && r != s
    requires Quiet(Run(n, ops))
    ensures var net := Run(n, ops);
            |net[r].injected| == |net[r].routed| && InjectedFrom(net[r], s) == Given(n, ops, s)
  {
    CapturedIsGiven(n, ops, s);
    QuietNet(Run(n, ops), r, s);
  }

  lemma QuietNet(net: seq<Client>, r: nat, s: nat)
    requires Good(net) && Quiet(net) && r < |net| && s < |net| && r != s
    ensures |net[r].injected| == |net[r].routed| && InjectedFrom(net[r], s) == net[s].captured
  {
    assert net[r] in net && net[s] in net;
    QuietClient(net[r]);
    QuietClient(net[s]);
    assert net[r].routed[..|net[r].injected|] == net[r].routed;
    assert RoutedFrom(net, r, s);
  }

  // ---------------------------------------------------------------------------------------------
  // Runs that fit the host as it is written
  // ---------------------------------------------------------------------------------------------

  /** Each receive of the host in the intended run fits. */
  ghost predicate AllFit(n: nat, ops: seq<Op>)
    requires Within(ops, n)
  {
    forall i :: 0 <= i < |ops| && ops[i].OpHost? ==>
      (assert Within(ops[..i], n); HostFits(Run(n, ops[..i]), ops[i].c, ops[i].n))
  }

  lemma FitBefore(n: nat, ops: seq<Op>)
    requires Within(ops, n) && ops != [] && AllFit(n, ops)
    ensures Within(ops[..|ops| - 1], n) && AllFit(n, ops[..|ops| - 1])
    ensures ops[|ops| - 1].OpHost? ==>
              HostFits(Run(n, ops[..|ops| - 1]), ops[|ops| - 1].c, ops[|ops| - 1].n)
  {
    var before := ops[..|ops| - 1];
    forall i | 0 <= i < |before| && before[i].OpHost?
      ensures Within(before[..i], n) && HostFits(Run(n, before[..i]), before[i].c, before[i].n)
    {
      assert before[..i] == ops[..i] && before[i] == ops[i];
    }
  }

  lemma FitAfter(n: nat, ops: seq<Op>, op: Op)
    requires Within(ops + [op], n) && Within(ops, n) && AllFit(n, ops)
    requires op.OpHost? ==> HostFits(Run(n, ops), op.c, op.n)
    ensures AllFit(n, ops + [op])
  {
    var all := ops + [op];
    forall i | 0 <= i < |all| && all[i].OpHost?
      ensures Within(all[..i], n) && HostFits(Run(n, all[..i]), all[i].c, all[i].n)
    {
      if i < |ops| {
        assert all[..i] == ops[..i] && all[i] == ops[i];
      } else {
        assert all[..i] == ops;
      }
    }
  }
}
