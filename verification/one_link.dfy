/** A send thread and a receive thread with nothing but one link between them. */
module OneLink {
  import opened Codec
  import Host
  import Link
  import opened Network

  /** The record of a client whose uplink and downlink are one: what is sent arrives in `down`. */
  function SendOver(c: Client, k1: nat, k2: nat, k3: nat): Client
    requires c.outbox != [] ==> c.pos <= |Frame(c.outbox[0])|
  {
    var c1 := Send(c.(up := []), k1, k2, k3);
    c1.(down := c.down + c1.up, up := [])
  }

  /** The link as if all that is queued had been sent. */
  function Whole(c: Client): Client
    requires c.pos <= |Stream(c.outbox)|
  {
    c.(down := c.down + Stream(c.outbox)[c.pos..], routed := Tagged(0, c.captured))
  }

  /** What has arrived, what is on the link and what is queued are together the frames of the packets captured. */
  ghost predicate LinkGood(c: Client) {
    && AllLegal(c.captured) && c.pos <= |Stream(c.outbox)|
    && (if c.outbox == [] then c.pos == 0 else c.pos < |Frame(c.outbox[0])|)
    && DownGood(Whole(c))
  }

  lemma SendOverKeeps(c: Client, k1: nat, k2: nat, k3: nat)
    requires LinkGood(c)
    ensures LinkGood(SendOver(c, k1, k2, k3)) && SendOver(c, k1, k2, k3).captured == c.captured
  {
    if c.outbox == [] {
      assert c.down + [] == c.down;
      DownSame(Whole(c), Whole(SendOver(c, k1, k2, k3)));
    } else {
      var c1 := SendOver(c, k1, k2, k3);
      SendMoves(c.outbox, c.pos, Link.SendTo(c.pos, |Frame(c.outbox[0])|, k1, k2, k3), c.down);
      assert c1.captured == c.captured;
      DownSame(Whole(c), Whole(c1));
    }
  }

  /** Sending moves bytes from the queued frames to the link. */
  lemma SendMoves(outbox: seq<Item>, pos: nat, p: nat, down: seq<Byte>)
    requires outbox != [] && pos <= p <= |Frame(outbox[0])|
    ensures var f := Frame(outbox[0]);
            && down + ([] + f[pos..p]) + Stream(outbox)[p..] == down + Stream(outbox)[pos..]
            && (p == |f| ==> Stream(outbox)[p..] == Stream(outbox[1..])[0..])
  {
    var f := Frame(outbox[0]);
    assert Stream(outbox)[pos..] == f[pos..p] + Stream(outbox)[p..];
    assert [] + f[pos..p] == f[pos..p];
    assert down + f[pos..p] + Stream(outbox)[p..] == down + (f[pos..p] + Stream(outbox)[p..]);
  }

  lemma CaptureOverKeeps(c: Client, sec: Word, nsec: Word, data: seq<Byte>)
    requires LinkGood(c)
    ensures LinkGood(Capture(c, sec, nsec, data))
  {
    var c1 := Capture(c, sec, nsec, data);
    if c1 != c {
      var x := c1.captured[|c.captured|];
      QueueOver(c.outbox, c.pos, x, c.down);
      assert Tagged(0, c1.captured) == Tagged(0, c.captured) + Tagged(0, [x]);
      DownGrows(Whole(c), Whole(c1), 0, [x]);
    }
  }

  lemma QueueOver(outbox: seq<Item>, pos: nat, x: Item, down: seq<Byte>)
    requires pos <= |Stream(outbox)|
    ensures pos <= |Stream(outbox + [x])|
    ensures down + Stream(outbox + [x])[pos..] == down + Stream(outbox)[pos..] + Stream([x])
  {
    StreamConcat(outbox, [x]);
    assert Stream(outbox + [x])[pos..] == Stream(outbox)[pos..] + Stream([x]);
  }

  /** With `extra` more bytes on the link, and the length known if it was not, the counts `j1`, `j2`, `j3` take as
      much as `k1`, `k2`, `k3` did. */
  lemma SameCount(have: nat, avail: nat, extra: nat, size: nat, size1: nat, room: bool, k1: nat, k2: nat, k3: nat)
    returns (j1: nat, j2: nat, j3: nat)
    requires have <= HEADER + size && have <= HEADER + size1 && (have + avail >= 4 ==> size1 == size)
    ensures Link.ReceiveTo(have, avail, size, room, k1, k2, k3)
         == Link.ReceiveTo(have, avail + extra, size1, room, j1, j2, j3)
    ensures Link.ReceiveTo(have, avail, size, room, k1, k2, k3) <= have + avail
  {
    var n1 := Link.SizeTo(have, avail, k1);
    var n2 := Link.StampTo(n1, avail - (n1 - have), k2);
    j1, j2, j3 := n1 - have, n2 - n1, Link.ReceiveTo(have, avail, size, room, k1, k2, k3) - n2;
  }

  /** The same for a client: `j1`, `j2`, `j3` take as much from the longer link. */
  lemma SameHave(c: Client, more: seq<Byte>, k1: nat, k2: nat, k3: nat) returns (j1: nat, j2: nat, j3: nat)
    requires CanReceive(c.part, c.down) && CanReceive(c.part, c.down + more)
    ensures var c1, have := c.(down := c.down + more), HaveAfter(c, k1, k2, k3);
            HaveAfter(c1, j1, j2, j3) == have && Completes(c1, have) == Completes(c, have)
  {
    var all, whole := c.part + c.down, c.part + (c.down + more);
    assert whole == all + more && (|all| >= 4 ==> whole[..4] == all[..4]);
    j1, j2, j3 :=
      SameCount(|c.part|, |c.down|, |more|, SizeOf(all), SizeOf(whole), |c.inbox| < QUEUE_SIZE, k1, k2, k3);
  }

  /** More bytes on the link make no difference to a receive that takes the same number of them. */
  lemma ReceiveFromMore(c: Client, more: seq<Byte>, k1: nat, k2: nat, k3: nat) returns (j1: nat, j2: nat, j3: nat)
    requires CanReceive(c.part, c.down) && CanReceive(c.part, c.down + more)
    ensures var c1 := Receive(c, k1, k2, k3);
            Receive(c.(down := c.down + more), j1, j2, j3) == c1.(down := c1.down + more)
  {
    j1, j2, j3 := SameHave(c, more, k1, k2, k3);
    var have := HaveAfter(c, k1, k2, k3);
    assert c.part + (c.down + more) == c.part + c.down + more;
    TookFromMore(c, c.part + c.down, more, have, Completes(c, have));
  }

  lemma TookFromMore(c: Client, all: seq<Byte>, more: seq<Byte>, have: nat, complete: bool)
    requires have <= |all| && (complete ==> have >= HEADER)
    ensures var c1 := Took(c, all, have, complete);
            Took(c.(down := c.down + more), all + more, have, complete) == c1.(down := c1.down + more)
  {
    assert (all + more)[..have] == all[..have] && (all + more)[have..] == all[have..] + more;
  }

  lemma ReceiveOverKeeps(c: Client, k1: nat, k2: nat, k3: nat)
    requires LinkGood(c)
    ensures CanReceive(c.part, c.down)
    ensures LinkGood(Receive(c, k1, k2, k3)) && Receive(c, k1, k2, k3).captured == c.captured
  {
    var w, more := Whole(c), Stream(c.outbox)[c.pos..];
    ReceiveKeeps(w, k1, k2, k3);
    LessArrived(c, more);
    var j1, j2, j3 := ReceiveFromMore(c.(routed := w.routed), more, k1, k2, k3);
    ReceiveKeeps(w, j1, j2, j3);
    assert Whole(Receive(c, k1, k2, k3)) == Receive(w, j1, j2, j3);
  }

  lemma LessArrived(c: Client, more: seq<Byte>)
    requires DownGood(c.(down := c.down + more, routed := Tagged(0, c.captured)))
    ensures CanReceive(c.part, c.down)
  {
    var w := c.(down := c.down + more, routed := Tagged(0, c.captured));
    FirstOwed(w);
    assert c.part + (c.down + more) == c.part + c.down + more;
    if |c.part + c.down| >= 4 {
      assert (c.part + c.down)[..4] == (w.part + w.down)[..4];
    }
  }

  datatype LinkOp =
    | Captures(sec: Word, nsec: Word, data: seq<Byte>)
    | Sends(k1: nat, k2: nat, k3: nat)
    | Receives(k1: nat, k2: nat, k3: nat)
    | Injects

  /** The four threads in any order. */
  function RunLink(ops: seq<LinkOp>): (c: Client)
    ensures LinkGood(c)
    decreases |ops|
  {
    if ops == [] then
      FreshGood();
      FRESH
    else
      var c := RunLink(ops[..|ops| - 1]);
      match ops[|ops| - 1]
      case Captures(sec, nsec, data) => CaptureOverKeeps(c, sec, nsec, data); Capture(c, sec, nsec, data)
      case Sends(k1, k2, k3) => SendOverKeeps(c, k1, k2, k3); SendOver(c, k1, k2, k3)
      case Receives(k1, k2, k3) => ReceiveOverKeeps(c, k1, k2, k3); Receive(c, k1, k2, k3)
      case Injects => InjectOverKeeps(c); Inject(c)
  }

  lemma FreshGood()
    ensures LinkGood(FRESH)
  {
    assert Owed(Whole(FRESH)) == [];
  }

  lemma InjectOverKeeps(c: Client)
    requires LinkGood(c)
    ensures LinkGood(Inject(c))
  {
    InjectKeeps(Whole(c));
    assert Whole(Inject(c)) == Inject(Whole(c));
  }

  /** The packets given to the capture thread while its queue had room, without what exceeds 2500 bytes. */
  function GivenTo(ops: seq<LinkOp>): seq<Item> {
    if ops == [] then []
    else
      var before := ops[..|ops| - 1];
      GivenTo(before)
      + match ops[|ops| - 1]
        case Captures(sec, nsec, data) =>
          if |RunLink(before).outbox| < 10 then [Item(sec, nsec, UpTo2500(data))] else []
        case _ => []
  }

  lemma {:induction false} CapturedIsGivenTo(ops: seq<LinkOp>)
    ensures RunLink(ops).captured == GivenTo(ops)
  {
    if ops != [] {
      CapturedIsGivenTo(ops[..|ops| - 1]);
      LinkReady(RunLink(ops[..|ops| - 1]));
      LinkCaptures(RunLink(ops[..|ops| - 1]), ops[|ops| - 1], RunLink(ops));
    }
  }

  lemma LinkReady(c: Client)
    requires LinkGood(c)
    ensures (c.outbox != [] ==> c.pos <= |Frame(c.outbox[0])|) && CanReceive(c.part, c.down)
  {
    LessArrived(c, Stream(c.outbox)[c.pos..]);
  }

  lemma LinkCaptures(c: Client, op: LinkOp, c1: Client)
    requires c.outbox != [] ==> c.pos <= |Frame(c.outbox[0])|
    requires CanReceive(c.part, c.down)
    requires c1 == match op
                   case Captures(sec, nsec, data) => Capture(c, sec, nsec, data)
                   case Sends(k1, k2, k3) => SendOver(c, k1, k2, k3)
                   case Receives(k1, k2, k3) => Receive(c, k1, k2, k3)
                   case Injects => Inject(c)
    ensures c1.captured == c.captured
              + if op.Captures? && |c.outbox| < 10 then [Item(op.sec, op.nsec, UpTo2500(op.data))] else []
  {
    assert c.captured + [] == c.captured;
    if op.Captures? {
      CaptureTakes(c, op.sec, op.nsec, op.data);
    }
  }

  /** After any run the receiver has queued exactly the packets given first, in order and unchanged, and holds
      no byte beyond the frame of the next one; when nothing is queued for sending, on the link or half received,
      it has queued them all. */
  lemma LinkDelivers(ops: seq<LinkOp>)
    ensures var c := RunLink(ops);
            var arrived, given := c.injected + c.inbox, GivenTo(ops);
            && arrived <= given && |c.inbox| <= 10
            && (arrived == given ==> c.part == [] && c.down == [])
            && (arrived != given ==> |c.part| <= |Frame(given[|arrived|])|)
            && (c.outbox == [] && c.down == [] && c.part == [] ==> arrived == given)
  {
    CapturedIsGivenTo(ops);
    var c := RunLink(ops);
    var w := Whole(c);
    assert Payload(w.routed) == c.captured;
    assert Owed(w) == c.captured[|c.injected + c.inbox|..];
    assert Owed(w) == [] ==> w.part + w.down == [];
    assert w.down == c.down + Stream(c.outbox)[c.pos..];
  }
}
