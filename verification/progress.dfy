/** The transport never gets stuck: from every reachable state there is a continuation, without new captures,
    after which nothing is on its way. */
module Progress {
  import opened Codec
  import Host
  import Link
  import opened Network

  /** What is left to do on the way up, and on the way down. */
  function UpWork(c: Client): nat {
    |c.up| + if c.pos <= |Stream(c.outbox)| then 2 * (|Stream(c.outbox)| - c.pos) else 0
  }

  function DownWork(c: Client): nat { 2 * (|c.part| + |c.down|) + |c.inbox| }

  /** What is missing of the frame that the host's buffer begins with. */
  function Gap(c: Client): nat {
    if |c.handed| <= |c.captured| && Due(c) != [] && |c.buffer| < |Frame(Due(c)[0])| then
      |Frame(Due(c)[0])| - |c.buffer|
    else 0
  }

  /** With an empty outbox, bytes on the way belong to a packet due, and the host has room for some of them. */
  lemma BytesAreDue(c: Client)
    requires UpGood(c) && c.outbox == [] && c.up != []
    ensures Due(c) != [] && Gap(c) > 0 && Chunk(c, Gap(c)) != []
  {
    assert |c.buffer + c.up + Stream(c.outbox)[c.pos..]| == |Stream(Due(c))|;
    assert |Stream(Due(c))| > 0;
  }

  /** The uplink's next step: send all of the oldest item, or let the host complete the frame it has begun. */
  lemma UpStep(c: Client)
    requires UpGood(c) && UpWork(c) > 0
    ensures c.outbox != [] ==>
              UpGood(Send(c, 4, HEADER, BUFFER_SIZE)) && UpWork(Send(c, 4, HEADER, BUFFER_SIZE)) < UpWork(c)
    ensures c.outbox == [] ==>
              UpGood(Reassembled(c, Gap(c))) && UpWork(Reassembled(c, Gap(c))) < UpWork(c)
  {
    if c.outbox != [] {
      SendKeeps(c, 4, HEADER, BUFFER_SIZE);
      assert |Stream(c.outbox)| == |Frame(c.outbox[0])| + |Stream(c.outbox[1..])|;
    } else {
      HostHands(c, Gap(c));
      BytesAreDue(c);
    }
  }

  lemma StreamHolds(xs: seq<Item>)
    ensures xs != [] ==> |Stream(xs)| >= |Frame(xs[0])| >= HEADER
  {
  }

  lemma UpDone(c: Client)
    requires UpGood(c) && UpWork(c) == 0
    ensures c.outbox == [] && c.up == [] && c.buffer == []
  {
    StreamHolds(c.outbox);
    StreamHolds(Due(c));
    assert c.buffer + c.up + Stream(c.outbox)[c.pos..] == c.buffer;
  }

  /** The downlink's next step: inject, or receive a whole frame. */
  lemma DownStep(c: Client)
    requires DownGood(c) && DownWork(c) > 0
    ensures CanReceive(c.part, c.down)
    ensures c.inbox != [] ==> DownGood(Inject(c)) && DownWork(Inject(c)) < DownWork(c)
    ensures c.inbox == [] ==>
              DownGood(Receive(c, 4, HEADER, BUFFER_SIZE)) && DownWork(Receive(c, 4, HEADER, BUFFER_SIZE)) < DownWork(c)
  {
    ReceiveKeeps(c, 4, HEADER, BUFFER_SIZE);
    if c.inbox != [] {
      InjectKeeps(c);
    } else {
      FirstOwed(c);
    }
  }

  function Sum(ms: seq<nat>): nat {
    if ms == [] then 0 else Sum(ms[..|ms| - 1]) + ms[|ms| - 1]
  }

  lemma {:induction false} SumLess(a: seq<nat>, b: seq<nat>, i: nat)
    requires |a| == |b| && i < |a| && b[i] < a[i] && forall j :: 0 <= j < |a| && j != i ==> b[j] == a[j]
    ensures Sum(b) < Sum(a)
  {
    var n := |a| - 1;
    if i == n {
      assert a[..n] == b[..n];
    } else {
      SumLess(a[..n], b[..n], i);
    }
  }

  function UpWorks(net: seq<Client>): (ms: seq<nat>)
    ensures |ms| == |net|
  {
    seq(|net|, i requires 0 <= i < |net| => UpWork(net[i]))
  }

  function DownWorks(net: seq<Client>): (ms: seq<nat>)
    ensures |ms| == |net|
  {
    seq(|net|, i requires 0 <= i < |net| => DownWork(net[i]))
  }

  /** The uplinks come first: a cast makes work for the downlinks. */
  function Next(net: seq<Client>, c: nat): Op
    requires c < |net|
  {
    if net[c].outbox != [] then OpSend(c, 4, HEADER, BUFFER_SIZE)
    else if net[c].up != [] then OpHost(c, Gap(net[c]))
    else if net[c].inbox != [] then OpInject(c)
    else OpReceive(c, 4, HEADER, BUFFER_SIZE)
  }

  lemma RoutesUpWork(c: Client, origin: nat, packets: seq<seq<Byte>>)
    requires forall p :: p in packets ==> |p| >= HEADER
    ensures UpWork(Routes(c, origin, packets)) == UpWork(c)
  {
  }

  /** The host's receive leaves the uplinks of the other clients alone. */
  lemma HostUpWork(net: seq<Client>, c: nat, n: nat)
    requires Good(net) && c < |net|
    ensures UpWorks(HostStep(net, c, n)) == UpWorks(net)[c := UpWork(Reassembled(net[c], n))]
  {
    var net1 := HostStep(net, c, n);
    forall j | 0 <= j < |net|
      ensures UpWorks(net1)[j] == if j == c then UpWork(Reassembled(net[c], n)) else UpWorks(net)[j]
    {
      var packets := Host.Packets(net[c].buffer + Chunk(net[c], n));
      RoutesUpWork(net[j], c, packets);
      assert net1[j] == if j == c then Reassembled(net[c], n) else Routes(net[j], c, packets);
    }
  }

  lemma UpOnly(net: seq<Client>, net1: seq<Client>, c: nat, c1: Client)
    requires c < |net| && UpWork(c1) < UpWork(net[c])
    requires UpWorks(net1) == UpWorks(net)[c := UpWork(c1)]
    ensures Sum(UpWorks(net1)) < Sum(UpWorks(net))
  {
    SumLess(UpWorks(net), UpWorks(net1), c);
  }

  lemma UpProgress(net: seq<Client>, c: nat)
    requires Good(net) && c < |net| && UpWorks(net)[c] > 0
    ensures var net1 := Step(net, Next(net, c)); Good(net1) && Sum(UpWorks(net1)) < Sum(UpWorks(net))
  {
    StepKeeps(net, Next(net, c));
    var x, net1 := net[c], Step(net, Next(net, c));
    assert UpGood(x);
    UpStep(x);
    if x.outbox != [] {
      UpOnly(net, net1, c, Send(x, 4, HEADER, BUFFER_SIZE));
    } else {
      assert Stream(x.outbox) == [];
      HostUpWork(net, c, Gap(x));
      UpOnly(net, net1, c, Reassembled(x, Gap(x)));
    }
  }

  lemma DownOnly(net: seq<Client>, i: nat, c1: Client)
    requires i < |net|
    requires c1.outbox == net[i].outbox && c1.pos == net[i].pos && c1.up == net[i].up
    requires DownWork(c1) < DownWork(net[i])
    ensures UpWorks(net[i := c1]) == UpWorks(net) && Sum(DownWorks(net[i := c1])) < Sum(DownWorks(net))
  {
    SumLess(DownWorks(net), DownWorks(net[i := c1]), i);
  }

  lemma DownProgress(net: seq<Client>, c: nat)
    requires Good(net) && c < |net| && net[c].outbox == [] && net[c].up == [] && DownWorks(net)[c] > 0
    ensures var net1 := Step(net, Next(net, c));
            Good(net1) && UpWorks(net1) == UpWorks(net) && Sum(DownWorks(net1)) < Sum(DownWorks(net))
  {
    StepKeeps(net, Next(net, c));
    assert DownGood(net[c]);
    DownStep(net[c]);
    if net[c].inbox != [] {
      DownOnly(net, c, Inject(net[c]));
    } else {
      DownOnly(net, c, Receive(net[c], 4, HEADER, BUFFER_SIZE));
    }
  }

  /** Some client still has work, unless nothing is on its way. */
  lemma WorkOrQuiet(net: seq<Client>)
    requires Good(net) && forall c :: 0 <= c < |net| ==> UpWorks(net)[c] == 0 && DownWorks(net)[c] == 0
    ensures Quiet(net)
  {
    forall c | c in net
      ensures c.outbox == [] && c.up == [] && c.buffer == [] && c.down == [] && c.part == [] && c.inbox == []
    {
      var i :| 0 <= i < |net| && net[i] == c;
      assert UpWorks(net)[i] == UpWork(c) && DownWorks(net)[i] == DownWork(c);
      UpDone(c);
    }
  }

  predicate LessWork(net: seq<Client>, net1: seq<Client>) {
    || Sum(UpWorks(net1)) < Sum(UpWorks(net))
    || (UpWorks(net1) == UpWorks(net) && Sum(DownWorks(net1)) < Sum(DownWorks(net)))
  }

  /** Unless nothing is on its way, some client has a step that leaves less work. */
  lemma SomeStep(net: seq<Client>) returns (c: nat)
    requires Good(net) && !Quiet(net)
    ensures c < |net| && Good(Step(net, Next(net, c))) && LessWork(net, Step(net, Next(net, c)))
  {
    if i :| 0 <= i < |net| && UpWorks(net)[i] > 0 {
      UpProgress(net, i);
      c := i;
    } else if i :| 0 <= i < |net| && DownWorks(net)[i] > 0 {
      assert UpWorks(net)[i] == 0 && UpGood(net[i]);
      UpDone(net[i]);
      DownProgress(net, i);
      c := i;
    } else {
      WorkOrQuiet(net);
      assert false;
    }
  }

  /** Some continuation by `allowed` steps leads to `goal`. */
  ghost predicate Reaches<T(!new)>(goal: seq<T> -> bool, allowed: T -> bool, steps: seq<T>) {
    exists more: seq<T> :: AllAllowed(allowed, more) && goal(steps + more)
  }

  predicate AllAllowed<T(!new)>(allowed: T -> bool, steps: seq<T>) {
    forall i :: 0 <= i < |steps| ==> allowed(steps[i])
  }

  lemma ReachesNow<T(!new)>(goal: seq<T> -> bool, allowed: T -> bool, steps: seq<T>)
    requires goal(steps)
    ensures Reaches(goal, allowed, steps)
  {
    assert steps + [] == steps;
    assert AllAllowed(allowed, []);
  }

  lemma ReachesAfter<T(!new)>(goal: seq<T> -> bool, allowed: T -> bool, steps: seq<T>, step: T)
    requires allowed(step) && Reaches(goal, allowed, steps + [step])
    ensures Reaches(goal, allowed, steps)
  {
    var rest: seq<T> :| AllAllowed(allowed, rest) && goal(steps + [step] + rest);
    var more := [step] + rest;
    assert steps + [step] + rest == steps + more;
    assert AllAllowed(allowed, more);
  }

  /** A run of `n` clients at whose end nothing is on its way; with `fit`, all of whose receives fit the host as it
      is written. */
  ghost function EndsQuiet(n: nat, fit: bool): seq<Op> -> bool {
    ops => Within(ops, n) && (fit ==> AllFit(n, ops)) && Quiet(Run(n, ops))
  }

  function NoCapture(): Op -> bool { (op: Op) => !op.OpCapture? }

  lemma RunOne(n: nat, ops: seq<Op>, op: Op)
    requires Within(ops, n) && op.c < n
    ensures Within(ops + [op], n) && Run(n, ops + [op]) == Step(Run(n, ops), op)
  {
    assert (ops + [op])[..|ops|] == ops;
  }

  /** A receive that at most completes the frame begun sees the length of no other. */
  lemma GapFits(net: seq<Client>, c: nat)
    requires Good(net) && c < |net|
    ensures HostFits(net, c, Gap(net[c]))
  {
    assert UpGood(net[c]);
    var due, k := Due(net[c]), |net[c].buffer + Chunk(net[c], Gap(net[c]))|;
    if due != [] {
      assert k <= |Frame(due[0])|;
      forall i | 0 < i < |due|
        ensures |Stream(due[..i])| >= |Frame(due[0])|
      {
        Host.StreamFront(due, i);
      }
    }
  }

  lemma Advance(n: nat, ops: seq<Op>, fit: bool) returns (op: Op)
    requires Within(ops, n) && !Quiet(Run(n, ops)) && (fit ==> AllFit(n, ops))
    ensures NoCapture()(op) && Within(ops + [op], n) && LessWork(Run(n, ops), Run(n, ops + [op]))
    ensures fit ==> AllFit(n, ops + [op])
  {
    var net := Run(n, ops);
    var c := SomeStep(net);
    op := Next(net, c);
    RunOne(n, ops, op);
    if fit {
      GapFits(net, c);
      FitAfter(n, ops, op);
    }
  }

  /** Every run can go on without captures until nothing is on its way: then, by `Network.NothingIsLost`, all that
      was captured has been injected everywhere else. If its receives fit the host as it is written, so do those of
      the continuation. */
  lemma {:induction false} CanFinish(n: nat, ops: seq<Op>, fit: bool)
    requires Within(ops, n) && (fit ==> AllFit(n, ops))
    ensures Reaches(EndsQuiet(n, fit), NoCapture(), ops)
    decreases Sum(UpWorks(Run(n, ops))), Sum(DownWorks(Run(n, ops)))
  {
    if Quiet(Run(n, ops)) {
      ReachesNow(EndsQuiet(n, fit), NoCapture(), ops);
    } else {
      var op := Advance(n, ops, fit);
      CanFinish(n, ops + [op], fit);
      ReachesAfter(EndsQuiet(n, fit), NoCapture(), ops, op);
    }
  }
}
