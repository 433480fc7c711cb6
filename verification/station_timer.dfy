/** One timer serves every phase. It never fires later than the deadline that is running, apart from one
    branch; and an attempt or a poll that nobody answers ends after a fixed number of frames. */
module StationTimer {
  import opened Common
  import opened Station
  import StationRuns

  // ---------------------------------------------------------------------------------------------
  // The timer is never late
  // ---------------------------------------------------------------------------------------------

  /** The deadline the client waits for, if it waits. */
  function Deadline(s: State): Option<int> {
    match s.life
    case Auth(a) => Some(a.timeout)
    case Assoc(c) => Some(c.timeout)
    case Joined(_) => if s.m.polling then Some(s.m.probeTimeout) else None
    case Idle => None
  }

  ghost predicate OnTime(s: State) {
    Deadline(s).Some? ==> s.m.queued || (s.m.timer.Some? && s.m.timer.value <= Deadline(s).value)
  }

  /** The one branch that moves a deadline without looking at the timer: the AP asks us to come back soon. */
  predicate ShortComeBack(hw: Hw, s: State, op: Op) {
    && op.OpRxAssocResp? && s.life.Assoc?
    && var f := op.assocFrame;
    && f.bssid == s.life.assoc.bss.addr && f.len >= 30 && f.decryptOk
    && f.status.ComeBack? && ComeBackMs(f.status.tu) <= hw.AssocTimeout()
  }

  /** The timer is pending, and later than the moment the AP named. */
  predicate TimerTooLate(hw: Hw, s: State, op: Op)
    requires ShortComeBack(hw, s, op)
  {
    !s.m.queued && s.m.timer.Some? && s.m.timer.value > s.m.now + MsToJiffies(hw, ComeBackMs(op.assocFrame.status.tu))
  }

  /** The steps that can leave the timer later than the deadline. */
  predicate MakesLate(hw: Hw, s: State, op: Op) { ShortComeBack(hw, s, op) && TimerTooLate(hw, s, op) }

  lemma UserOnTime(hw: Hw, s: State, op: Op)
    requires StationRuns.Bounded(s) && OnTime(s) && (op.OpAuth? || op.OpDeauth? || op.OpDisassoc?)
    ensures OnTime(Step(hw, s, op))
  {
  }

  lemma AssocOnTime(hw: Hw, s: State, r: AssocReq)
    requires StationRuns.Bounded(s) && OnTime(s)
    ensures OnTime(MgdAssoc(hw, s, r).1)
  {
  }

  /** What an accepted frame does to the wait, come-backs apart. */
  lemma RxOnTime(hw: Hw, s: State, op: Op)
    requires StationRuns.Bounded(s) && OnTime(s)
    requires op.OpRxAuth? || op.OpRxDeauth? || op.OpRxDisassoc? || op.OpRxProbeResp?
    ensures OnTime(Step(hw, s, op))
  {
  }

  lemma SwitchOnTime(s: State, e: CsaEnv)
    requires StationRuns.Bounded(s) && OnTime(s)
    ensures OnTime(ProcessChanSwitch(s, e))
  {
  }

  lemma BeaconOnTime(s: State, b: Beacon)
    requires StationRuns.Bounded(s) && OnTime(s)
    ensures OnTime(RxBeacon(s, b))
  {
    if s.life.Joined? {
      var s1 := s.(m := BeaconSeen(s.m, b.postOk));
      assert OnTime(s1);
      SwitchOnTime(s1, b.csa);
    }
  }

  lemma MonitorOnTime(hw: Hw, s: State, op: Op)
    requires StationRuns.Bounded(s) && OnTime(s)
    requires || op.OpSwitchWork? || op.OpProbeAp? || op.OpDisconnect? || op.OpTxNotify? || op.OpRxNotify?
             || op.OpTxStatus? || op.OpScanDone?
    ensures OnTime(Step(hw, s, op))
  {
  }

  lemma StatusKeepsBounds(hw: Hw, s: State)
    requires StationRuns.Bounded(s)
    ensures StationRuns.Bounded(ApplyStatus(hw, s))
  {
  }

  lemma PollOnTime(hw: Hw, s: State)
    requires StationRuns.Bounded(s) && s.life.Joined?
    ensures OnTime(WorkPoll(hw, s))
  {
  }

  lemma AttemptOnTime(hw: Hw, s: State, slack: nat, built: bool)
    requires StationRuns.Bounded(s)
    ensures s.life.Auth? ==> OnTime(WorkAuth(hw, s, slack))
    ensures s.life.Assoc? ==> OnTime(WorkAssoc(hw, s, slack, built))
  {
  }

  /** The work puts the timer back on time, whatever it was before. */
  lemma WorkIsOnTime(hw: Hw, s: State, slack: nat, built: bool)
    requires StationRuns.Bounded(s)
    ensures OnTime(StaWork(hw, s, slack, built))
  {
    var s0 := s.(m := s.m.(queued := false));
    var s1 := ApplyStatus(hw, s0);
    StatusKeepsBounds(hw, s0);
    AttemptOnTime(hw, s1, slack, built);
    if s1.life.Joined? {
      PollOnTime(hw, s1);
    }
  }

  /** A step keeps the timer on time unless it is a short come-back under a later timer. In that branch the
      timer still fires no later than the deadline that was running before. */
  lemma StepOnTime(hw: Hw, s: State, op: Op)
    requires StationRuns.Bounded(s) && OnTime(s)
    ensures OnTime(Step(hw, s, op)) <==> !MakesLate(hw, s, op)
    ensures ShortComeBack(hw, s, op) ==> Step(hw, s, op).m == s.m
  {
    match op
    case OpAuth(_) => UserOnTime(hw, s, op);
    case OpDeauth(_, _) => UserOnTime(hw, s, op);
    case OpDisassoc(_, _) => UserOnTime(hw, s, op);
    case OpAssoc(r) => AssocOnTime(hw, s, r);
    case OpRxAssocResp(f) =>
    case OpRxBeacon(b) => BeaconOnTime(s, b);
    case OpRxSwitch(e) => SwitchOnTime(s, e);
    case OpTick(_) =>
    case OpTimer =>
    case OpWork(slack, built) => WorkIsOnTime(hw, s, slack, built);
    case OpRxAuth(_) => RxOnTime(hw, s, op);
    case OpRxDeauth(_) => RxOnTime(hw, s, op);
    case OpRxDisassoc(_) => RxOnTime(hw, s, op);
    case OpRxProbeResp(_, _) => RxOnTime(hw, s, op);
    case _ => MonitorOnTime(hw, s, op);
  }

  /** In a run without such steps the timer is always on time. */
  lemma {:induction false} RunOnTime(hw: Hw, ops: seq<Op>)
    requires forall i :: 0 <= i < |ops| ==> !MakesLate(hw, Run(hw, INIT, ops[..i]), ops[i])
    ensures OnTime(Run(hw, INIT, ops))
  {
    if ops != [] {
      var before := ops[..|ops| - 1];
      forall i | 0 <= i < |before|
        ensures !MakesLate(hw, Run(hw, INIT, before[..i]), before[i])
      {
        assert before[..i] == ops[..i];
      }
      RunOnTime(hw, before);
      StationRuns.RunKeepsInv(hw, before);
      StepOnTime(hw, Run(hw, INIT, before), ops[|ops| - 1]);
    }
  }

  /** A run of five: associate without waiting for a beacon, send the request a jiffy later, and be told to come
      back at once. The deadline is over now, but the timer is still set to the end of the first wait. */
  lemma TooLateExample(hw: Hw)
    requires hw.hz > 0 && !hw.reportsTxAck && !hw.needDtimBeforeAssoc
    ensures exists ops: seq<Op> ::
              && |ops| == 5 && MakesLate(hw, Run(hw, INIT, ops[..4]), ops[4])
              && var s := Run(hw, INIT, ops);
              && Deadline(s) == Some(1) && s.m.now == 1 && !s.m.queued && s.m.timer == Some(1 + hw.AssocTimeout())
              && !OnTime(s)
  {
    var request := AssocReq(Bss(1, 7), true, true, false, false, Prep(false, true, true, true), true, 0);
    var answer := AssocFrame(30, 7, true, ComeBack(0), true, true);
    var ops := [OpAssoc(request), OpTick(1), OpTimer, OpWork(0, true), OpRxAssocResp(answer)];
    FirstRequestExample(hw, request);
    RunFive(hw, ops);
    ComeBackExample(hw, Run(hw, INIT, ops[..4]), answer);
    assert ops[4] == OpRxAssocResp(answer);
  }

  lemma ComeBackExample(hw: Hw, s: State, answer: AssocFrame)
    requires hw.hz > 0 && answer == AssocFrame(30, 7, true, ComeBack(0), true, true)
    requires s.life == Assoc(AssocRec(Bss(1, 7), 1, true, 1 + hw.AssocTimeout(), false))
    requires s.m.now == 1 && !s.m.queued && s.m.timer == Some(1 + hw.AssocTimeout())
    ensures MakesLate(hw, s, OpRxAssocResp(answer))
    ensures var s1 := Step(hw, s, OpRxAssocResp(answer)); Deadline(s1) == Some(1) && s1.m == s.m && !OnTime(s1)
  {
    assert ComeBackMs(0) == 0 && MsToJiffies(hw, 0) == 0;
  }

  lemma FirstRequestExample(hw: Hw, request: AssocReq)
    requires hw.hz > 0 && !hw.reportsTxAck && !hw.needDtimBeforeAssoc
    requires request == AssocReq(Bss(1, 7), true, true, false, false, Prep(false, true, true, true), true, 0)
    ensures var s1 := Step(hw, INIT, OpAssoc(request));
            var s := Step(hw, Step(hw, Step(hw, s1, OpTick(1)), OpTimer), OpWork(0, true));
            && s.life == Assoc(AssocRec(Bss(1, 7), 1, true, 1 + hw.AssocTimeout(), false))
            && s.m.now == 1 && !s.m.queued && s.m.timer == Some(1 + hw.AssocTimeout())
  {
    var s1 := Step(hw, INIT, OpAssoc(request));
    assert s1.life == Assoc(AssocRec(Bss(1, 7), 0, true, 0, false)) && s1.m.timer == Some(0) && s1.m.now == 0;
    assert s1.m.status.None?;
    SentExample(hw, s1);
  }

  lemma SentExample(hw: Hw, s: State)
    requires hw.hz > 0 && !hw.reportsTxAck && s.life == Assoc(AssocRec(Bss(1, 7), 0, true, 0, false))
    requires s.m.timer == Some(0) && s.m.now == 0 && s.m.status.None?
    ensures var s1 := Step(hw, Step(hw, Step(hw, s, OpTick(1)), OpTimer), OpWork(0, true));
            && s1.life == Assoc(AssocRec(Bss(1, 7), 1, true, 1 + hw.AssocTimeout(), false))
            && s1.m.now == 1 && !s1.m.queued && s1.m.timer == Some(1 + hw.AssocTimeout())
  {
    var s3 := Step(hw, Step(hw, s, OpTick(1)), OpTimer);
    assert s3.life == s.life && s3.m.now == 1 && s3.m.timer.None? && s3.m.status.None?;
  }

  lemma RunFive(hw: Hw, ops: seq<Op>)
    requires |ops| == 5
    ensures Run(hw, INIT, ops[..4]) == Step(hw, Step(hw, Step(hw, Step(hw, INIT, ops[0]), ops[1]), ops[2]), ops[3])
    ensures Run(hw, INIT, ops) == Step(hw, Run(hw, INIT, ops[..4]), ops[4])
  {
    assert ops[..1][..0] == [] && ops[..2][..1] == ops[..1] && ops[..3][..2] == ops[..2] && ops[..4][..3] == ops[..3];
    assert Run(hw, INIT, ops[..1]) == Step(hw, INIT, ops[0]);
    assert Run(hw, INIT, ops[..2]) == Step(hw, Run(hw, INIT, ops[..1]), ops[1]);
    assert Run(hw, INIT, ops[..3]) == Step(hw, Run(hw, INIT, ops[..2]), ops[2]);
  }
}
