/** The network with the host server as it is written: the length of the frame that a client's buffer waits for is
    remembered between receives, lengths are read at the front of the buffer, and the fan-out follows the field
    that it overwrites. */
module Written {
  import opened Codec
  import Cast
  import Host
  import Link
  import opened Network
  import Progress

  /** All clients, and the server's `bytes_expected` for each. */
  datatype Server = Server(net: seq<Client>, expected: seq<nat>)

  /** What a cast puts on the link with descriptor `fd`. */
  function To(sents: seq<Cast.Sent>, fd: nat): seq<seq<Byte>> {
    if sents == [] then []
    else (if sents[0].fd == fd then [sents[0].msg] else []) + To(sents[1..], fd)
  }

  predicate LongEnough(packets: seq<seq<Byte>>) { forall p :: p in packets ==> |p| >= HEADER }

  /** A remembered length includes the header; a buffer does not overflow. */
  predicate Sane(s: Server) {
    && |s.expected| == |s.net|
    && (forall c :: 0 <= c < |s.net| ==> |s.net[c].buffer| <= Host.MAX_SIZE)
    && (forall c :: 0 <= c < |s.net| ==> s.expected[c] == 0 || s.expected[c] >= HEADER)
  }

  lemma {:induction false} DrainSane(front: seq<Byte>, b: seq<Byte>, expected: nat)
    requires |b| <= |front| && (expected == 0 || expected >= HEADER)
    ensures var o := Host.Drain(front, b, expected);
            LongEnough(o.packets) && |o.rest| <= |b| && (o.expected == 0 || o.expected >= HEADER)
    decreases |b|
  {
    if |b| >= 4 && expected <= |b| {
      var length := if expected == 0 then Host.Announced(front) else expected;
      if length <= |b| {
        DrainSane(front, b[length..], 0);
      }
    }
  }

  lemma {:induction false} CastSane(fds: seq<nat>, current: nat, msgs: seq<seq<Byte>>, fd: nat)
    requires LongEnough(msgs)
    ensures LongEnough(To(Cast.CastAll(fds, current, msgs), fd))
    decreases |msgs|
  {
    if msgs != [] {
      CastSane(fds, Cast.Current(fds, current), msgs[1..], fd);
      ToConcat(Cast.Fanout(fds, current, msgs[0]), Cast.CastAll(fds, Cast.Current(fds, current), msgs[1..]), fd);
      FanoutTo(fds, current, msgs[0], fd);
    }
  }

  lemma {:induction false} ToConcat(a: seq<Cast.Sent>, b: seq<Cast.Sent>, fd: nat)
    ensures To(a + b, fd) == To(a, fd) + To(b, fd)
  {
    if a == [] {
      assert a + b == b;
    } else {
      assert (a + b)[1..] == a[1..] + b;
      ToConcat(a[1..], b, fd);
    }
  }

  /** All messages that a cast sends are the one it was given. */
  lemma {:induction false} FanoutTo(fds: seq<nat>, skip: nat, msg: seq<Byte>, fd: nat)
    ensures forall p :: p in To(Cast.Fanout(fds, skip, msg), fd) ==> p == msg
    ensures Cast.Distinct(fds) ==> To(Cast.Fanout(fds, skip, msg), fd) == if fd in fds && fd != skip then [msg] else []
  {
    if fds != [] {
      var front, last := fds[..|fds| - 1], fds[|fds| - 1];
      FanoutTo(front, skip, msg, fd);
      ToConcat(Cast.Fanout(front, skip, msg), if last == skip then [] else [Cast.Sent(last, msg)], fd);
      assert To([Cast.Sent(last, msg)], fd) == if last == fd then [msg] else [];
      assert fds == front + [last];
    }
  }

  /** A client after the host's receive from `origin`; `o` is what the loop did, `msgs` what was cast to it. */
  function Handled(c: Client, own: bool, origin: nat, n: nat, o: Host.Outcome, msgs: seq<seq<Byte>>): Client
    requires |c.buffer| <= Host.MAX_SIZE && LongEnough(o.packets) && LongEnough(msgs)
  {
    var base := if own then
                  c.(up := c.up[|Chunk(c, n)|..], buffer := o.rest, handed := c.handed + Items(o.packets))
                else c;
    Routes(base, origin, msgs)
  }

  function HostWritten(s: Server, fds: seq<nat>, c: nat, n: nat): (s1: Server)
    requires Sane(s) && c < |s.net| == |fds|
    ensures Sane(s1) && |s1.net| == |s.net|
  {
    var b := s.net[c].buffer + Chunk(s.net[c], n);
    var o := Host.Drain(b, b, s.expected[c]);
    var casts := Cast.CastAll(fds, fds[c], o.packets);
    DrainSane(b, b, s.expected[c]);
    AllSane(fds, fds[c], o.packets);
    Server(seq(|s.net|, j requires 0 <= j < |s.net| => Handled(s.net[j], j == c, c, n, o, To(casts, fds[j]))),
           s.expected[c := o.expected])
  }

  lemma AllSane(fds: seq<nat>, current: nat, msgs: seq<seq<Byte>>)
    requires LongEnough(msgs)
    ensures forall fd: nat :: LongEnough(To(Cast.CastAll(fds, current, msgs), fd))
  {
    forall fd: nat
      ensures LongEnough(To(Cast.CastAll(fds, current, msgs), fd))
    {
      CastSane(fds, current, msgs, fd);
    }
  }

  /** The other threads are as before; a receive thread whose assertion fails takes no further step. */
  function StepWritten(s: Server, fds: seq<nat>, op: Op): (s1: Server)
    requires Sane(s) && op.c < |s.net| == |fds|
    ensures Sane(s1) && |s1.net| == |s.net|
  {
    var c := s.net[op.c];
    match op
    case OpCapture(i, sec, nsec, data) => s.(net := s.net[i := Capture(c, sec, nsec, data)])
    case OpSend(i, k1, k2, k3) =>
      if c.outbox != [] && c.pos > |Frame(c.outbox[0])| then s else s.(net := s.net[i := Send(c, k1, k2, k3)])
    case OpHost(i, n) => HostWritten(s, fds, i, n)
    case OpReceive(i, k1, k2, k3) =>
      if CanReceive(c.part, c.down) then s.(net := s.net[i := Receive(c, k1, k2, k3)]) else s
    case OpInject(i) => s.(net := s.net[i := Inject(c)])
  }

  /** A run of the code as written. */
  function RunWritten(fds: seq<nat>, ops: seq<Op>): (s: Server)
    requires Within(ops, |fds|)
    ensures Sane(s) && |s.net| == |fds|
    decreases |ops|
  {
    if ops == [] then Server(seq(|fds|, _ => FRESH), seq(|fds|, _ => 0))
    else StepWritten(RunWritten(fds, ops[..|ops| - 1]), fds, ops[|ops| - 1])
  }

  // ---------------------------------------------------------------------------------------------
  // When it is the intended run
  // ---------------------------------------------------------------------------------------------

  ghost predicate AllRemembered(s: Server)
    requires Sane(s)
  {
    forall c :: 0 <= c < |s.net| ==> Host.Remembered(s.net[c].buffer, s.expected[c])
  }

  lemma {:induction false} BroadcastTo(fds: seq<nat>, origin: nat, msgs: seq<seq<Byte>>, fd: nat)
    requires Cast.Distinct(fds) && fd in fds
    ensures To(Cast.Broadcast(fds, origin, msgs), fd) == if fd == origin then [] else msgs
    decreases |msgs|
  {
    if msgs != [] {
      BroadcastTo(fds, origin, msgs[1..], fd);
      ToConcat(Cast.Fanout(fds, origin, msgs[0]), Cast.Broadcast(fds, origin, msgs[1..]), fd);
      FanoutTo(fds, origin, msgs[0], fd);
    }
  }

  lemma NoRoutes(c: Client, origin: nat)
    ensures Routes(c, origin, []) == c
  {
    assert c.down + [] == c.down && c.routed + [] == c.routed;
  }

  lemma HostAgrees(s: Server, fds: seq<nat>, c: nat, n: nat)
    requires Sane(s) && AllRemembered(s) && Good(s.net) && c < |s.net| == |fds| && Cast.Distinct(fds)
    requires HostFits(s.net, c, n)
    ensures HostWritten(s, fds, c, n).net == HostStep(s.net, c, n)
    ensures AllRemembered(HostWritten(s, fds, c, n))
  {
    var net, s1 := s.net, HostWritten(s, fds, c, n);
    var rest, chunk := net[c].buffer, Chunk(net[c], n);
    HostAsWritten(net, c, n, fds, s.expected[c]);
    Host.AsWrittenAgrees(rest, s.expected[c], chunk);
    var o := Host.Split(rest + chunk);
    var casts := Cast.CastAll(fds, fds[c], o.packets);
    assert Host.Drain(rest + chunk, rest + chunk, s.expected[c]) == o && o.packets == Host.Packets(rest + chunk);
    forall j | 0 <= j < |net|
      ensures s1.net[j] == HostStep(net, c, n)[j]
      ensures Host.Remembered(s1.net[j].buffer, s1.expected[j])
    {
      HandledAgrees(net, fds, c, n, j, To(casts, fds[j]));
    }
  }

  lemma HandledAgrees(net: seq<Client>, fds: seq<nat>, c: nat, n: nat, j: nat, msgs: seq<seq<Byte>>)
    requires c < |net| == |fds| && j < |net| && Cast.Distinct(fds) && |net[c].buffer| <= Host.MAX_SIZE
    requires |net[j].buffer| <= Host.MAX_SIZE
    requires msgs == To(Cast.Broadcast(fds, fds[c], Host.Packets(net[c].buffer + Chunk(net[c], n))), fds[j])
    ensures LongEnough(msgs)
    ensures var b := net[c].buffer + Chunk(net[c], n);
            && LongEnough(Host.Split(b).packets)
            && Handled(net[j], j == c, c, n, Host.Split(b), msgs) == HostStep(net, c, n)[j]
  {
    var b := net[c].buffer + Chunk(net[c], n);
    BroadcastTo(fds, fds[c], Host.Packets(b), fds[j]);
    if j == c {
      NoRoutes(Reassembled(net[c], n), c);
    }
  }

  /** The other threads leave the host's buffers alone. */
  lemma OthersAgree(s: Server, fds: seq<nat>, op: Op)
    requires Sane(s) && Good(s.net) && op.c < |s.net| == |fds| && !op.OpHost?
    ensures StepWritten(s, fds, op) == s.(net := Step(s.net, op))
    ensures forall j :: 0 <= j < |s.net| ==> Step(s.net, op)[j].buffer == s.net[j].buffer
  {
    if op.OpSend? {
      SendAgrees(s, fds, op);
    } else if op.OpReceive? {
      ReceiveAgrees(s, fds, op);
    }
  }

  lemma SendAgrees(s: Server, fds: seq<nat>, op: Op)
    requires Sane(s) && Good(s.net) && op.c < |s.net| == |fds| && op.OpSend?
    ensures StepWritten(s, fds, op) == s.(net := Step(s.net, op))
    ensures forall j :: 0 <= j < |s.net| ==> Step(s.net, op)[j].buffer == s.net[j].buffer
  {
    SendReady(s.net[op.c]);
  }

  lemma ReceiveAgrees(s: Server, fds: seq<nat>, op: Op)
    requires Sane(s) && Good(s.net) && op.c < |s.net| == |fds| && op.OpReceive?
    ensures StepWritten(s, fds, op) == s.(net := Step(s.net, op))
    ensures forall j :: 0 <= j < |s.net| ==> Step(s.net, op)[j].buffer == s.net[j].buffer
  {
    ReceiveReady(s.net[op.c]);
  }

  lemma SendReady(c: Client)
    requires UpGood(c)
    ensures c.outbox != [] ==> c.pos <= |Frame(c.outbox[0])|
  {
  }

  lemma ReceiveReady(c: Client)
    requires DownGood(c)
    ensures CanReceive(c.part, c.down)
  {
    FirstOwed(c);
  }

  lemma StepAgrees(s: Server, fds: seq<nat>, op: Op)
    requires Sane(s) && AllRemembered(s) && Good(s.net) && op.c < |s.net| == |fds| && Cast.Distinct(fds)
    requires op.OpHost? ==> HostFits(s.net, op.c, op.n)
    ensures StepWritten(s, fds, op).net == Step(s.net, op) && AllRemembered(StepWritten(s, fds, op))
  {
    if op.OpHost? {
      HostAgrees(s, fds, op.c, op.n);
    } else {
      OthersAgree(s, fds, op);
    }
  }

  /** Otherwise it does not: of two packets out of one receive the second goes back to the client it came from. */
  lemma SecondComesBack(fds: seq<nat>, origin: nat, msgs: seq<seq<Byte>>)
    requires Cast.Distinct(fds) && origin in fds && |fds| >= 2 && |msgs| >= 2
    ensures msgs[1] in To(Cast.CastAll(fds, origin, msgs), origin)
  {
    var other := Cast.Current(fds, origin);
    assert exists i :: 0 <= i < |fds| && fds[i] != origin by { assert fds[0] != fds[1]; }
    Cast.CurrentIsOther(fds, origin);
    FanoutTo(fds, other, msgs[1], origin);
    var later := Cast.CastAll(fds, Cast.Current(fds, other), msgs[2..]);
    assert msgs[1..][0] == msgs[1] && msgs[1..][1..] == msgs[2..];
    ToConcat(Cast.Fanout(fds, other, msgs[1]), later, origin);
    ToConcat(Cast.Fanout(fds, origin, msgs[0]), Cast.Fanout(fds, other, msgs[1]) + later, origin);
  }

  /** A run in step with the intended one: all clients are the same, and each remembered length is that of the
      frame its buffer begins with. */
  ghost predicate InStep(fds: seq<nat>, ops: seq<Op>)
    requires Within(ops, |fds|)
  {
    RunWritten(fds, ops).net == Run(|fds|, ops) && AllRemembered(RunWritten(fds, ops))
  }

  /** If each receive of the host fits, the run as written is the intended run. */
  lemma {:induction false} FitRun(fds: seq<nat>, ops: seq<Op>)
    requires Cast.Distinct(fds) && Within(ops, |fds|) && AllFit(|fds|, ops)
    ensures InStep(fds, ops)
    decreases |ops|
  {
    if ops != [] {
      var before, op := ops[..|ops| - 1], ops[|ops| - 1];
      FitBefore(|fds|, ops);
      FitRun(fds, before);
      StepAgrees(RunWritten(fds, before), fds, op);
    }
  }

  lemma ItemsTell(ps: seq<seq<Byte>>, qs: seq<seq<Byte>>)
    requires LongEnough(ps) && LongEnough(qs) && Items(ps) == Items(qs)
    ensures |ps| == |qs|
    ensures ps != [] ==> |ps[0]| == |qs[0]| && Items(ps[1..]) == Items(qs[1..])
  {
    assert |ps| == |Items(ps)| == |Items(qs)| == |qs|;
    if ps != [] {
      assert Unframe(ps[0]) == Items(ps)[0] == Items(qs)[0] == Unframe(qs[0]);
      assert |Unframe(ps[0]).payload| == |ps[0]| - HEADER && |Unframe(qs[0]).payload| == |qs[0]| - HEADER;
      assert Items(ps[1..]) == Items(ps)[1..] == Items(qs)[1..] == Items(qs[1..]);
    }
  }

  /** Packets that become the same items were cut from the stream in the same places. */
  lemma {:induction false} SameItems(front: seq<Byte>, b: seq<Byte>)
    requires |b| <= |front|
    requires LongEnough(Host.Drain(front, b, 0).packets)
    requires Items(Host.Drain(front, b, 0).packets) == Items(Host.Packets(b))
    ensures Host.Drain(front, b, 0).packets == Host.Packets(b)
    decreases |b|
  {
    var ps, qs := Host.Drain(front, b, 0).packets, Host.Packets(b);
    ItemsTell(ps, qs);
    if ps != [] {
      var rest := b[|ps[0]|..];
      assert ps[0] == b[..|ps[0]|] == qs[0];
      assert ps[1..] == Host.Drain(front, rest, 0).packets && qs[1..] == Host.Packets(rest);
      SameItems(front, rest);
      assert ps == [ps[0]] + ps[1..] && qs == [qs[0]] + qs[1..];
    }
  }

  /** A length that is remembered rightly is read again. */
  lemma ReadsAgain(rest: seq<Byte>, expected: nat, chunk: seq<Byte>)
    requires Host.Remembered(rest, expected)
    ensures var b := rest + chunk; Host.Drain(b, b, expected) == Host.Drain(b, b, 0)
  {
    var b := rest + chunk;
    if expected != 0 {
      assert b[..4] == rest[..4];
    }
  }

  /** The loops end waiting for a frame exactly if its length is in the buffer. */
  lemma {:induction false} WaitsFor(front: seq<Byte>, b: seq<Byte>)
    requires |b| <= |front|
    ensures var o := Host.Drain(front, b, 0); o.expected == 0 <==> |o.rest| < 4
    ensures var o := Host.Split(b); o.expected == 0 <==> |o.rest| < 4
    decreases |b|
  {
    if |b| >= 4 {
      if Host.Announced(front) <= |b| {
        WaitsFor(front, b[Host.Announced(front)..]);
      }
      if Host.Announced(b) <= |b| {
        WaitsFor(b, b[Host.Announced(b)..]);
      }
    }
  }

  /** If a receive as written leaves the intended bytes, items and remembered length, its loop was the intended
      one. */
  lemma LoopTells(rest: seq<Byte>, expected: nat, chunk: seq<Byte>)
    requires Host.Remembered(rest, expected)
    requires var b := rest + chunk;
             var o := Host.Drain(b, b, expected);
             && LongEnough(o.packets) && Items(o.packets) == Items(Host.Packets(b))
             && o.rest == Host.Split(b).rest && Host.Remembered(o.rest, o.expected)
    ensures var b := rest + chunk; Host.Drain(b, b, expected) == Host.Split(b)
  {
    var b := rest + chunk;
    ReadsAgain(rest, expected, chunk);
    SameItems(b, b);
    WaitsFor(b, b);
    Host.SplitRemembers(b);
  }

  lemma CastShows(c: Client, origin: nat, msgs: seq<seq<Byte>>)
    requires LongEnough(msgs) && msgs != []
    ensures |Routes(c, origin, msgs).down| > |c.down|
  {
    assert |Host.Flatten(msgs)| >= |msgs[0]|;
  }

  /** Conversely, a receive as written that takes the intended step fits. */
  lemma HostTells(s: Server, fds: seq<nat>, c: nat, n: nat)
    requires Sane(s) && AllRemembered(s) && Good(s.net) && c < |s.net| == |fds| && Cast.Distinct(fds)
    requires HostWritten(s, fds, c, n).net == HostStep(s.net, c, n) && AllRemembered(HostWritten(s, fds, c, n))
    ensures HostFits(s.net, c, n)
  {
    var x, expected := s.net[c], s.expected[c];
    var b := x.buffer + Chunk(x, n);
    var o := Host.Drain(b, b, expected);
    DrainSane(b, b, expected);
    AllSane(fds, fds[c], o.packets);
    var s1 := HostWritten(s, fds, c, n);
    assert s1.net[c] == Handled(x, true, c, n, o, To(Cast.CastAll(fds, fds[c], o.packets), fds[c]));
    assert Host.Remembered(s1.net[c].buffer, s1.expected[c]);
    OwnTells(x, c, n, o, To(Cast.CastAll(fds, fds[c], o.packets), fds[c]));
    LoopTells(x.buffer, expected, Chunk(x, n));
    CastsTell(fds, fds[c], x.buffer, expected, Chunk(x, n));
    HostAsWritten(s.net, c, n, fds, expected);
  }

  /** If the loop was the intended one and nothing came back to the sender, the casts were the intended ones. */
  lemma CastsTell(fds: seq<nat>, origin: nat, rest: seq<Byte>, expected: nat, chunk: seq<Byte>)
    requires Cast.Distinct(fds) && origin in fds && Host.Remembered(rest, expected)
    requires var b := rest + chunk;
             var o := Host.Drain(b, b, expected);
             o == Host.Split(b) && To(Cast.CastAll(fds, origin, o.packets), origin) == []
    ensures Cast.AsWritten(fds, origin, rest, expected, chunk) == Cast.Intended(fds, origin, rest, chunk)
  {
    var packets := Host.Split(rest + chunk).packets;
    if |packets| >= 2 && |fds| >= 2 {
      SecondComesBack(fds, origin, packets);
    }
    Cast.ReceiveAgrees(fds, origin, rest, expected, chunk);
    Host.AsWrittenAgrees(rest, expected, chunk);
  }

  /** What the client that sent shows of a receive. */
  lemma OwnTells(x: Client, c: nat, n: nat, o: Host.Outcome, msgs: seq<seq<Byte>>)
    requires |x.buffer| <= Host.MAX_SIZE && LongEnough(o.packets) && LongEnough(msgs)
    requires Handled(x, true, c, n, o, msgs) == Reassembled(x, n)
    ensures var b := x.buffer + Chunk(x, n);
            o.rest == Host.Split(b).rest && Items(o.packets) == Items(Host.Packets(b)) && msgs == []
  {
    var b := x.buffer + Chunk(x, n);
    var base := x.(up := x.up[|Chunk(x, n)|..], buffer := o.rest, handed := x.handed + Items(o.packets));
    if msgs != [] {
      CastShows(base, c, msgs);
    }
    assert (x.handed + Items(o.packets))[|x.handed|..] == Items(o.packets);
    assert (x.handed + Items(Host.Packets(b)))[|x.handed|..] == Items(Host.Packets(b));
  }

  lemma StepTells(fds: seq<nat>, ops: seq<Op>)
    requires Cast.Distinct(fds) && Within(ops, |fds|) && ops != [] && ops[|ops| - 1].OpHost?
    requires Within(ops[..|ops| - 1], |fds|) && InStep(fds, ops[..|ops| - 1]) && InStep(fds, ops)
    ensures HostFits(Run(|fds|, ops[..|ops| - 1]), ops[|ops| - 1].c, ops[|ops| - 1].n)
  {
    var before, op := ops[..|ops| - 1], ops[|ops| - 1];
    HostTells(RunWritten(fds, before), fds, op.c, op.n);
  }

  lemma FitFront(n: nat, ops: seq<Op>, k: nat)
    requires Within(ops, n) && AllFit(n, ops) && k <= |ops|
    ensures Within(ops[..k], n) && AllFit(n, ops[..k])
  {
    forall i | 0 <= i < k && ops[..k][i].OpHost?
      ensures Within(ops[..k][..i], n) && HostFits(Run(n, ops[..k][..i]), ops[..k][i].c, ops[..k][i].n)
    {
      assert ops[..k][..i] == ops[..i] && ops[..k][i] == ops[i];
    }
  }

  /** The run has been in step all along. */
  ghost predicate AlwaysInStep(fds: seq<nat>, ops: seq<Op>) {
    forall k :: 0 <= k <= |ops| ==> Within(ops[..k], |fds|) && InStep(fds, ops[..k])
  }

  lemma InStepFits(fds: seq<nat>, ops: seq<Op>, i: nat)
    requires Cast.Distinct(fds) && Within(ops, |fds|) && AlwaysInStep(fds, ops) && i < |ops| && ops[i].OpHost?
    ensures Within(ops[..i], |fds|) && HostFits(Run(|fds|, ops[..i]), ops[i].c, ops[i].n)
  {
    var upTo := ops[..i + 1];
    assert upTo[..|upTo| - 1] == ops[..i] && upTo[|upTo| - 1] == ops[i];
    StepTells(fds, upTo);
  }

  /** The run as written stays in step with the intended run exactly as long as each receive of the host fits. */
  lemma RunsAgree(fds: seq<nat>, ops: seq<Op>)
    requires Cast.Distinct(fds) && Within(ops, |fds|)
    ensures AlwaysInStep(fds, ops) <==> AllFit(|fds|, ops)
  {
    if AllFit(|fds|, ops) {
      forall k | 0 <= k <= |ops|
        ensures Within(ops[..k], |fds|) && InStep(fds, ops[..k])
      {
        FitFront(|fds|, ops, k);
        FitRun(fds, ops[..k]);
      }
    }
    if AlwaysInStep(fds, ops) {
      forall i | 0 <= i < |ops| && ops[i].OpHost?
        ensures Within(ops[..i], |fds|) && HostFits(Run(|fds|, ops[..i]), ops[i].c, ops[i].n)
      {
        InStepFits(fds, ops, i);
      }
    }
  }

  /** A packet is captured and its frame sent, twice; then the host receives both frames at once. */
  function TwoAtOnce(p: Byte): seq<Op> { TwoSent(p) + [OpHost(0, Host.MAX_SIZE)] }

  function TwoSent(p: Byte): seq<Op> {
    [OpCapture(0, 0, 0, [p]), OpSend(0, 4, HEADER, 1), OpCapture(0, 0, 0, [p]), OpSend(0, 4, HEADER, 1)]
  }

  /** A client of which two equal frames are on the way to the host. */
  function Sending(x: Item): Client { FRESH.(captured := [x, x], up := Frame(x) + Frame(x)) }

  /** In an intended run a client is never sent what it has sent; as written it is. */
  lemma SentBack(fds: seq<nat>, x: Item, before: seq<Op>, ops: seq<Op>)
    requires Cast.Distinct(fds) && |fds| >= 2 && Legal(x) && |x.payload| == 1
    requires Within(before, |fds|) && AllFit(|fds|, before) && Run(|fds|, before)[0] == Sending(x)
    requires Within(ops, |fds|) && ops == before + [OpHost(0, Host.MAX_SIZE)]
    ensures Run(|fds|, ops)[0].routed == [] && RunWritten(fds, ops).net[0].routed == [Routed(0, x)]
  {
    Progress.RunOne(|fds|, before, OpHost(0, Host.MAX_SIZE));
    FitRun(fds, before);
    TakesBoth(RunWritten(fds, before), fds, x);
    assert ops[..|ops| - 1] == before;
  }

  /** The host's receive of both frames. */
  lemma TakesBoth(s: Server, fds: seq<nat>, x: Item)
    requires Sane(s) && |s.net| == |fds| >= 2 && Cast.Distinct(fds) && Legal(x) && |x.payload| == 1
    requires s.net[0] == Sending(x) && s.expected[0] == 0
    ensures HostWritten(s, fds, 0, Host.MAX_SIZE).net[0].routed == [Routed(0, x)]
  {
    var f, b := Frame(x), Sending(x).buffer + Chunk(Sending(x), Host.MAX_SIZE);
    assert b == f + f;
    BothComplete(x);
    SecondOnly(fds, f);
    BackRouted(Sending(x), x, Host.Outcome([f, f], [], 0));
  }

  lemma BackRouted(c: Client, x: Item, o: Host.Outcome)
    requires c == Sending(x) && Legal(x) && LongEnough(o.packets)
    ensures Handled(c, true, 0, Host.MAX_SIZE, o, [Frame(x)]).routed == [Routed(0, x)]
  {
    FrameRoundTrip(x);
    assert Items([Frame(x)]) == [x];
    assert Tagged(0, Items([Frame(x)])) == [Routed(0, x)];
  }

  lemma CaptureAndSend(c: Client, p: Byte)
    requires c.outbox == [] && c.pos == 0
    ensures var x := Item(0, 0, [p]);
            var c1 := Capture(c, 0, 0, [p]);
            && c1.outbox == [x] && c1.pos == 0
            && Send(c1, 4, HEADER, 1) == c.(captured := c.captured + [x], up := c.up + Frame(x))
  {
    assert [p][..1] == [p];
    var f := Frame(Item(0, 0, [p]));
    assert f[0..|f|] == f;
  }

  /** `c` after a packet has been captured and its frame sent. */
  function OnTheWay(c: Client, x: Item): Client { c.(captured := c.captured + [x], up := c.up + Frame(x)) }

  lemma OneMore(n: nat, ops: seq<Op>, c: Client, p: Byte, more: seq<Op>)
    requires n >= 2 && Within(ops, n) && Run(n, ops)[0] == c && c.outbox == [] && c.pos == 0
    requires more == ops + [OpCapture(0, 0, 0, [p]), OpSend(0, 4, HEADER, 1)]
    ensures Within(more, n) && Run(n, more)[0] == OnTheWay(c, Item(0, 0, [p]))
  {
    var o1, o2 := OpCapture(0, 0, 0, [p]), OpSend(0, 4, HEADER, 1);
    Progress.RunOne(n, ops, o1);
    Progress.RunOne(n, ops + [o1], o2);
    assert ops + [o1] + [o2] == more;
    CaptureAndSend(c, p);
  }

  lemma TwiceOnTheWay(x: Item)
    ensures OnTheWay(OnTheWay(FRESH, x), x) == Sending(x)
  {
    assert [] + Frame(x) == Frame(x);
  }

  lemma BothOnTheWay(n: nat, p: Byte)
    requires n >= 2
    ensures Within(TwoSent(p), n) && Run(n, TwoSent(p))[0] == Sending(Item(0, 0, [p]))
  {
    SentTwice(n, p, [], [OpCapture(0, 0, 0, [p]), OpSend(0, 4, HEADER, 1)], TwoSent(p));
  }

  lemma SentTwice(n: nat, p: Byte, none: seq<Op>, once: seq<Op>, twice: seq<Op>)
    requires n >= 2 && none == [] && once == [OpCapture(0, 0, 0, [p]), OpSend(0, 4, HEADER, 1)]
    requires twice == once + once
    ensures Within(twice, n) && Run(n, twice)[0] == Sending(Item(0, 0, [p]))
  {
    OneMore(n, none, FRESH, p, once);
    OneMore(n, once, OnTheWay(FRESH, Item(0, 0, [p])), p, twice);
    TwiceOnTheWay(Item(0, 0, [p]));
  }

  /** Of two equal frames both are complete, and there is no third. */
  lemma BothComplete(x: Item)
    requires Legal(x)
    ensures var f := Frame(x); Host.Drain(f + f, f + f, 0) == Host.Outcome([f, f], [], 0)
  {
    FrameRoundTrip(x);
    var f := Frame(x);
    var b := f + f;
    assert b[..4] == f[..4] && b[..|f|] == f && b[|f|..] == f && f[..|f|] == f && f[|f|..] == [];
    assert Host.Drain(b, [], 0) == Host.Outcome([], [], 0);
    assert Host.Drain(b, f, 0) == Host.Outcome([f], [], 0);
  }

  lemma SecondOnly(fds: seq<nat>, f: seq<Byte>)
    requires Cast.Distinct(fds) && |fds| >= 2
    ensures To(Cast.CastAll(fds, fds[0], [f, f]), fds[0]) == [f]
  {
    var other := Cast.Current(fds, fds[0]);
    assert exists i :: 0 <= i < |fds| && fds[i] != fds[0] by { assert fds[1] != fds[0]; }
    Cast.CurrentIsOther(fds, fds[0]);
    FanoutTo(fds, fds[0], f, fds[0]);
    FanoutTo(fds, other, f, fds[0]);
    assert [f, f][1..] == [f] && [f][1..] == [];
    assert Cast.CastAll(fds, other, [f]) == Cast.Fanout(fds, other, f);
    ToConcat(Cast.Fanout(fds, fds[0], f), Cast.CastAll(fds, other, [f]), fds[0]);
  }

  lemma NoHostFits(n: nat, ops: seq<Op>)
    requires Within(ops, n) && forall op :: op in ops ==> !op.OpHost?
    ensures AllFit(n, ops)
  {
  }

  /** A run in which a client gets its own second packet back, so its receive cannot fit. */
  lemma ComesBackExample(fds: seq<nat>, p: Byte, ops: seq<Op>)
    requires Cast.Distinct(fds) && |fds| >= 2 && ops == TwoAtOnce(p)
    ensures Within(ops, |fds|) && !AllFit(|fds|, ops)
    ensures RunWritten(fds, ops).net[0].routed == [Routed(0, Item(0, 0, [p]))]
  {
    BothOnTheWay(|fds|, p);
    assert ops[..|ops| - 1] == TwoSent(p);
    AfterBoth(fds, p, ops[..|ops| - 1], ops);
  }

  lemma AfterBoth(fds: seq<nat>, p: Byte, before: seq<Op>, ops: seq<Op>)
    requires Cast.Distinct(fds) && |fds| >= 2 && ops == before + [OpHost(0, Host.MAX_SIZE)]
    requires Within(before, |fds|) && Run(|fds|, before)[0] == Sending(Item(0, 0, [p]))
    requires forall op :: op in before ==> !op.OpHost?
    ensures Within(ops, |fds|) && !AllFit(|fds|, ops)
    ensures RunWritten(fds, ops).net[0].routed == [Routed(0, Item(0, 0, [p]))]
  {
    Progress.RunOne(|fds|, before, OpHost(0, Host.MAX_SIZE));
    NoHostFits(|fds|, before);
    SentBack(fds, Item(0, 0, [p]), before, ops);
    if AllFit(|fds|, ops) {
      FitRun(fds, ops);
    }
  }

  /** The code as written delivers: under that condition, what a client has injected is, origin by origin, a prefix
      of what the origin captured and none of its own, and all of it if nothing is on its way. */
  lemma WrittenDelivers(fds: seq<nat>, ops: seq<Op>, r: nat, s: nat)
    requires Cast.Distinct(fds) && Within(ops, |fds|) && AllFit(|fds|, ops) && r < |fds| && s < |fds|
    ensures var net := RunWritten(fds, ops).net;
            && |net[r].injected| <= |net[r].routed|
            && net[r].injected == Payload(net[r].routed[..|net[r].injected|])
            && (r != s ==> InjectedFrom(net[r], s) <= Given(|fds|, ops, s))
            && InjectedFrom(net[r], r) == []
            && (r != s && Quiet(net) ==> InjectedFrom(net[r], s) == Given(|fds|, ops, s))
  {
    FitRun(fds, ops);
    Delivery(|fds|, ops, r, s);
    if r != s && Quiet(Run(|fds|, ops)) {
      NothingIsLost(|fds|, ops, r, s);
    }
  }

  /** And a run of the code as written under that condition can go on, still under it and without captures, until
      nothing is on its way. */
  lemma WrittenCanFinish(fds: seq<nat>, ops: seq<Op>) returns (more: seq<Op>)
    requires Cast.Distinct(fds) && Within(ops, |fds|) && AllFit(|fds|, ops)
    ensures Within(ops + more, |fds|) && AllFit(|fds|, ops + more) && forall op :: op in more ==> !op.OpCapture?
    ensures Quiet(RunWritten(fds, ops + more).net)
  {
    var n := |fds|;
    Progress.CanFinish(n, ops, true);
    var goal, allowed := Progress.EndsQuiet(n, true), Progress.NoCapture();
    more :| Progress.AllAllowed(allowed, more) && goal(ops + more);
    FitRun(fds, ops + more);
    forall op | op in more
      ensures !op.OpCapture?
    {
      var i :| 0 <= i < |more| && more[i] == op;
      assert allowed(more[i]);
    }
  }
}
