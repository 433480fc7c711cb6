/** Frames of a simulated radio that wait for the report of a user-space medium (mac80211_hwsim.c). A frame is
    handed over with a cookie and stays in a queue until its report comes back or the queue overflows. */
module Pending {

  const MAX_QUEUE: nat := 200
  const WARN_QUEUE: nat := 100

  datatype Skb = Skb(frame: nat, cookie: nat)

  /** How far the message to user space gets. */
  datatype Delivery = FailsBeforeCookie | FailsAfterCookie | Delivered

  /** `queued`, `dropped`, `failed` and `reported` are histories: what was ever queued, and what became of the
      frames handed in. */
  datatype State = State(
    pending: seq<Skb>, cookie: nat, txPkts: nat, txDropped: nat, txFailed: nat,
    queued: seq<Skb>, dropped: seq<Skb>, failed: seq<nat>, reported: seq<Skb>)

  const INIT := State([], 0, 0, 0, 0, [], [], [], [])

  /** The `n` oldest frames are freed. */
  function DropOldest(s: State, n: nat): State
    requires n <= |s.pending|
  {
    s.(pending := s.pending[n..], dropped := s.dropped + s.pending[..n], txDropped := s.txDropped + n)
  }

  /** A full queue is cut below the warning level. */
  function MakeRoom(s: State): State {
    if |s.pending| >= MAX_QUEUE then DropOldest(s, |s.pending| - WARN_QUEUE + 1) else s
  }

  function Fail(s: State, frame: nat): State { s.(failed := s.failed + [frame], txFailed := s.txFailed + 1) }

  function Queue(s: State, frame: nat): State {
    var skb := Skb(frame, s.cookie);
    s.(pending := s.pending + [skb], queued := s.queued + [skb], txPkts := s.txPkts + 1)
  }

  function Transmit(s: State, frame: nat, delivery: Delivery): State {
    var s1 := MakeRoom(s);
    var s2 := if delivery.FailsBeforeCookie? then s1 else s1.(cookie := s1.cookie + 1);
    if delivery.Delivered? then Queue(s2, frame) else Fail(s2, frame)
  }

  /** The first frame with this cookie, or the length of the queue. */
  function Find(q: seq<Skb>, cookie: nat): (i: nat)
    ensures i <= |q|
    ensures i < |q| ==> q[i].cookie == cookie
    ensures forall j :: 0 <= j < i ==> q[j].cookie != cookie
  {
    if q == [] || q[0].cookie == cookie then 0
    else
      var rest := Find(q[1..], cookie);
      assert forall j :: 0 < j < 1 + rest ==> q[j] == q[1..][j - 1];
      1 + rest
  }

  /** A report from user space; an invalid one, or one with no frame, changes nothing. */
  function Report(s: State, valid: bool, cookie: nat): State {
    var i := Find(s.pending, cookie);
    if !valid || i == |s.pending| then s
    else s.(pending := s.pending[..i] + s.pending[i + 1..], reported := s.reported + [s.pending[i]])
  }

  datatype Op = OpTransmit(frame: nat, delivery: Delivery) | OpReport(valid: bool, cookie: nat)

  function Step(s: State, op: Op): State {
    match op
    case OpTransmit(frame, delivery) => Transmit(s, frame, delivery)
    case OpReport(valid, cookie) => Report(s, valid, cookie)
  }

  function Run(ops: seq<Op>): State {
    if ops == [] then INIT else Step(Run(ops[..|ops| - 1]), ops[|ops| - 1])
  }

  // ---------------------------------------------------------------------------------------------
  // Conservation
  // ---------------------------------------------------------------------------------------------

  ghost predicate Increasing(q: seq<Skb>) {
    forall i, j :: 0 <= i < j < |q| ==> q[i].cookie < q[j].cookie
  }

  ghost predicate UpTo(q: seq<Skb>, cookie: nat) {
    forall i :: 0 <= i < |q| ==> q[i].cookie <= cookie
  }

  /** The queue is bounded and in the order of its cookies; the counters count; every frame that was queued is
      pending, dropped or reported. */
  ghost predicate Conserved(s: State) {
    && |s.pending| <= MAX_QUEUE
    && Increasing(s.pending) && Increasing(s.queued) && UpTo(s.pending, s.cookie) && UpTo(s.queued, s.cookie)
    && multiset(s.queued) == multiset(s.pending) + multiset(s.dropped) + multiset(s.reported)
    && s.txPkts == |s.queued| && s.txDropped == |s.dropped| && s.txFailed == |s.failed|
  }

  lemma MakeRoomConserves(s: State)
    requires Conserved(s)
    ensures Conserved(MakeRoom(s)) && |MakeRoom(s).pending| < MAX_QUEUE
  {
    if |s.pending| >= MAX_QUEUE {
      var n := |s.pending| - WARN_QUEUE + 1;
      assert s.pending == s.pending[..n] + s.pending[n..];
    }
  }

  lemma QueueConserves(s: State, frame: nat)
    requires Conserved(s) && |s.pending| < MAX_QUEUE
    ensures Conserved(Queue(s.(cookie := s.cookie + 1), frame))
  {
  }

  lemma FailConserves(s: State, cookie: nat, frame: nat)
    requires Conserved(s) && cookie >= s.cookie
    ensures Conserved(Fail(s.(cookie := cookie), frame))
  {
  }

  lemma RemoveAt(q: seq<Skb>, i: nat, cookie: nat)
    requires i < |q| && Increasing(q) && UpTo(q, cookie)
    ensures var rest := q[..i] + q[i + 1..];
            Increasing(rest) && UpTo(rest, cookie) && multiset(q) == multiset(rest) + multiset([q[i]])
  {
    var rest := q[..i] + q[i + 1..];
    assert q == q[..i] + [q[i]] + q[i + 1..];
    assert forall j :: 0 <= j < |rest| ==> rest[j] == q[if j < i then j else j + 1];
  }

  lemma ReportConserves(s: State, valid: bool, cookie: nat)
    requires Conserved(s)
    ensures Conserved(Report(s, valid, cookie))
  {
    var i := Find(s.pending, cookie);
    if valid && i < |s.pending| {
      RemoveAt(s.pending, i, s.cookie);
    }
  }

  lemma TransmitConserves(s: State, frame: nat, delivery: Delivery)
    requires Conserved(s)
    ensures Conserved(Transmit(s, frame, delivery))
  {
    var s1 := MakeRoom(s);
    MakeRoomConserves(s);
    match delivery
    case Delivered => QueueConserves(s1, frame);
    case FailsAfterCookie => FailConserves(s1, s1.cookie + 1, frame);
    case FailsBeforeCookie =>
      FailConserves(s1, s1.cookie, frame);
      assert s1.(cookie := s1.cookie) == s1;
  }

  lemma {:induction false} RunConserves(ops: seq<Op>)
    ensures Conserved(Run(ops))
  {
    if ops != [] {
      RunConserves(ops[..|ops| - 1]);
      match ops[|ops| - 1]
      case OpTransmit(frame, delivery) => TransmitConserves(Run(ops[..|ops| - 1]), frame, delivery);
      case OpReport(valid, cookie) => ReportConserves(Run(ops[..|ops| - 1]), valid, cookie);
    }
  }

  /** The frames handed in, by a run. */
  function Handed(ops: seq<Op>): seq<nat> {
    if ops == [] then []
    else Handed(ops[..|ops| - 1]) + match ops[|ops| - 1] case OpTransmit(frame, _) => [frame] case _ => []
  }

  function FramesOf(q: seq<Skb>): seq<nat> {
    seq(|q|, i requires 0 <= i < |q| => q[i].frame)
  }

  /** Every frame handed in has failed or was queued. */
  lemma {:induction false} EveryFrameCounts(ops: seq<Op>)
    ensures multiset(Handed(ops)) == multiset(FramesOf(Run(ops).queued)) + multiset(Run(ops).failed)
  {
    if ops != [] {
      EveryFrameCounts(ops[..|ops| - 1]);
      var s := Run(ops[..|ops| - 1]);
      match ops[|ops| - 1]
      case OpTransmit(frame, delivery) =>
        var s1 := Transmit(s, frame, delivery);
        assert delivery.Delivered? ==> FramesOf(s1.queued) == FramesOf(s.queued) + [frame];
      case OpReport(_, _) =>
    }
  }

  /** How often a queued frame is found in what became of the queued frames: once, in one place. */
  lemma ExactlyOnce(ops: seq<Op>, i: nat)
    requires i < |Run(ops).queued|
    ensures var s := Run(ops);
            var skb := s.queued[i];
            multiset(s.pending)[skb] + multiset(s.dropped)[skb] + multiset(s.reported)[skb] == 1
  {
    RunConserves(ops);
    var s := Run(ops);
    CookieUnique(s.queued, i);
  }

  lemma CookieUnique(q: seq<Skb>, i: nat)
    requires Increasing(q) && i < |q|
    ensures multiset(q)[q[i]] == 1
  {
    assert q == q[..i] + [q[i]] + q[i + 1..];
    assert q[i] !in q[..i] && q[i] !in q[i + 1..];
  }

  /** What a transmission drops is older than all it keeps, and it drops only from a full queue: down to one
      below the warning level, before the new frame goes in. Then the frame has failed or is queued with the next
      cookie; a cookie that was taken for a failed frame is not used again. */
  lemma DropsOldest(ops: seq<Op>, frame: nat, delivery: Delivery)
    ensures var s, s1 := Run(ops), Transmit(Run(ops), frame, delivery);
            var n := |s1.dropped| - |s.dropped|;
            && 0 <= n <= |s.pending| && s1.dropped == s.dropped + s.pending[..n]
            && n == (if |s.pending| == 200 then 101 else 0)
            && s1.pending == s.pending[n..] + (if delivery.Delivered? then [Skb(frame, s1.cookie)] else [])
            && (forall d, p :: d in s.pending[..n] && p in s1.pending ==> d.cookie < p.cookie)
            && s1.cookie == s.cookie + (if delivery.FailsBeforeCookie? then 0 else 1) && s1.reported == s.reported
            && s1.queued == s.queued + (if delivery.Delivered? then [Skb(frame, s1.cookie)] else [])
            && s1.failed == s.failed + (if delivery.Delivered? then [] else [frame])
  {
    RunConserves(ops);
    var s, s1 := Run(ops), Transmit(Run(ops), frame, delivery);
    var n := |s1.dropped| - |s.dropped|;
    assert s.pending[0..] == s.pending && s.dropped + s.pending[..0] == s.dropped;
    assert s.queued + [] == s.queued && s.failed + [] == s.failed;
    forall d, p | d in s.pending[..n] && p in s1.pending
      ensures d.cookie < p.cookie
    {
      var i :| 0 <= i < n && s.pending[i] == d;
      if p in s.pending[n..] {
        var j :| n <= j < |s.pending| && s.pending[j] == p;
      }
    }
  }

  /** A report takes at most its own frame and keeps the order of the rest; a second one with the same cookie, or
      one for a frame that was dropped, takes nothing. */
  lemma ReportsOnce(ops: seq<Op>, cookie: nat, valid: bool)
    ensures var s, s1 := Run(ops), Report(Run(ops), valid, cookie);
            && (s1 == s || exists i :: 0 <= i < |s.pending| && s.pending[i].cookie == cookie
                                       && s1.pending == s.pending[..i] + s.pending[i + 1..]
                                       && s1.reported == s.reported + [s.pending[i]])
            && s1 == s.(pending := s1.pending, reported := s1.reported) && (!valid ==> s1 == s)
            && (valid ==> forall p :: p in s1.pending ==> p.cookie != cookie)
            && (valid ==> Report(s1, valid, cookie) == s1)
  {
    RunConserves(ops);
    var s := Run(ops);
    var i := Find(s.pending, cookie);
    if valid && i < |s.pending| {
      var s1 := Report(s, valid, cookie);
      forall p | p in s1.pending
        ensures p.cookie != cookie
      {
        var k :| 0 <= k < |s1.pending| && s1.pending[k] == p;
        assert s.pending[if k < i then k else k + 1] == p;
      }
      assert Find(s1.pending, cookie) == |s1.pending|;
    }
  }

  // ---------------------------------------------------------------------------------------------
  // The record in memory
  // ---------------------------------------------------------------------------------------------

  class HwsimData {
    var pending: seq<Skb>
    var pendingCookie: nat
    var txPkts: nat
    var txDropped: nat
    var txFailed: nat
    ghost var queued: seq<Skb>
    ghost var dropped: seq<Skb>
    ghost var failed: seq<nat>
    ghost var reported: seq<Skb>

    ghost function View(): State
      reads this
    {
      State(pending, pendingCookie, txPkts, txDropped, txFailed, queued, dropped, failed, reported)
    }

    constructor ()
      ensures View() == INIT
    {
      pending, pendingCookie, txPkts, txDropped, txFailed := [], 0, 0, 0, 0;
      queued, dropped, failed, reported := [], [], [], [];
    }

    method Drop()
      modifies this`pending, this`dropped, this`txDropped
      ensures View() == old(MakeRoom(View()))
    {
      if |pending| >= MAX_QUEUE {
        ghost var was := pending;
        while |pending| >= WARN_QUEUE
          invariant WARN_QUEUE - 1 <= |pending| <= |was|
          invariant View() == DropOldest(old(View()), |was| - |pending|)
        {
          ghost var n := |was| - |pending|;
          assert was[..n] + [was[n]] == was[..n + 1];
          dropped := dropped + [pending[0]];
          pending := pending[1..];
          txDropped := txDropped + 1;
        }
      }
    }

    /** mac80211_hwsim_tx_frame_nl */
    method TxFrameNl(frame: nat, delivery: Delivery)
      modifies this
      ensures View() == old(Transmit(View(), frame, delivery))
    {
      Drop();
      if !delivery.FailsBeforeCookie? {
        pendingCookie := pendingCookie + 1;
        if delivery.Delivered? {
          var skb := Skb(frame, pendingCookie);
          pending := pending + [skb];
          queued := queued + [skb];
          txPkts := txPkts + 1;
          return;
        }
      }
      failed := failed + [frame];
      txFailed := txFailed + 1;
    }

    /** hwsim_tx_info_frame_received_nl; `valid` says that the message is complete and comes from the medium of
        this radio. */
    method TxInfoReceived(valid: bool, cookie: nat) returns (found: bool)
      modifies this`pending, this`reported
      ensures View() == old(Report(View(), valid, cookie))
      ensures found <==> old(valid && exists p :: p in pending && p.cookie == cookie)
    {
      found := false;
      if !valid {
        return;
      }
      var i := 0;
      while i < |pending|
        invariant i <= |pending|
        invariant forall j :: 0 <= j < i ==> pending[j].cookie != cookie
      {
        if pending[i].cookie == cookie {
          FindIs(pending, cookie, i);
          assert pending[i] in pending;
          reported := reported + [pending[i]];
          pending := pending[..i] + pending[i + 1..];
          return true;
        }
        i := i + 1;
      }
    }
  }

  lemma FindIs(q: seq<Skb>, cookie: nat, i: nat)
    requires i < |q| && q[i].cookie == cookie && forall j :: 0 <= j < i ==> q[j].cookie != cookie
    ensures Find(q, cookie) == i
  {
    assert q[Find(q, cookie)].cookie == cookie || Find(q, cookie) == |q|;
  }
}
