/** What holds in every state of every run of the client: the phases and the timer support each other,
    attempts are bounded and answered exactly once, a channel switch never leaves the queues stopped. */
module StationRuns {
  import opened Common
  import opened Station

  // ---------------------------------------------------------------------------------------------
  // A summary of the history
  // ---------------------------------------------------------------------------------------------

  /** `openings` and `requests` count the frames sent since the last accepted user request. */
  datatype Tally = Tally(
    openings: nat, requests: nat,
    authsBegun: nat, authsEnded: nat, assocsBegun: nat, assocsEnded: nat,
    stopped: bool)

  function Count(t: Tally, e: Event): Tally {
    match e
    case BeginAuth(_) => t.(openings := 0, authsBegun := t.authsBegun + 1)
    case TxAuthOpen(_, _) => t.(openings := t.openings + 1)
    case RepAuthTimeout(_) => t.(authsEnded := t.authsEnded + 1)
    case RepAuthDenied(_) => t.(authsEnded := t.authsEnded + 1)
    case RepAuthDone(_) => t.(authsEnded := t.authsEnded + 1)
    case RepDisconnect(_, ended) => if ended == FromAuth then t.(authsEnded := t.authsEnded + 1) else t
    case BeginAssoc(_) => t.(requests := 0, assocsBegun := t.assocsBegun + 1)
    case TxAssocReq(_) => t.(requests := t.requests + 1)
    case RepAssocTimeout(_) => t.(assocsEnded := t.assocsEnded + 1)
    case RepAssocResp(_, _) => t.(assocsEnded := t.assocsEnded + 1)
    case RepAbandon(_) => t.(assocsEnded := t.assocsEnded + 1)
    case StopQueues => t.(stopped := true)
    case WakeQueues => t.(stopped := false)
    case _ => t
  }

  function Summary(log: seq<Event>): Tally {
    if log == [] then Tally(0, 0, 0, 0, 0, 0, false) else Count(Summary(log[..|log| - 1]), log[|log| - 1])
  }

  /** A way to summarise logs that follows `Count` one event at a time. */
  ghost predicate Counts(summary: seq<Event> -> Tally) {
    forall m: Mgd, e: Event {:trigger Emit(m, e)} :: summary(Emit(m, e).log) == Count(summary(m.log), e)
  }

  lemma SummaryCounts()
    ensures Counts(log => Summary(log))
  {
    var summary := log => Summary(log);
    forall m: Mgd, e: Event {:trigger Emit(m, e)}
      ensures summary(Emit(m, e).log) == Count(summary(m.log), e)
    {
      assert (m.log + [e])[..|m.log|] == m.log;
    }
  }

  // ---------------------------------------------------------------------------------------------
  // The invariant
  // ---------------------------------------------------------------------------------------------

  /** Every attempt has its timeout started and has used at most its three tries. */
  ghost predicate Bounded(s: State) {
    && (s.life.Auth? ==> s.life.auth.armed && 1 <= s.life.auth.tries <= AUTH_MAX_TRIES)
    && (s.life.Assoc? ==> s.life.assoc.armed && s.life.assoc.tries <= ASSOC_MAX_TRIES)
    && (s.m.polling ==> s.life.Joined?)
  }

  /** A switch is in progress whenever one of its flags is set, and only while associated. */
  ghost predicate CsaSafe(s: State) {
    var c := s.m.csa;
    && (c.blockTx || c.waitingBcn ==> c.active)
    && (c.active || c.ignoredSame ==> s.life.Joined?)
    && (c.stopped ==> c.blockTx)
  }

  /** Something waits for a timeout: an attempt, or a poll of the AP. */
  ghost predicate Waiting(s: State) {
    s.life.Auth? || s.life.Assoc? || s.m.polling
  }

  /** No lost wake-up. */
  ghost predicate Awake(s: State) {
    Waiting(s) ==> s.m.queued || s.m.timer.Some?
  }

  /** The history agrees with the state: one report per attempt, and at most three frames per attempt. */
  ghost predicate Accounted(s: State, t: Tally) {
    && t.authsBegun == t.authsEnded + (if s.life.Auth? && !s.life.auth.done then 1 else 0)
    && t.assocsBegun == t.assocsEnded + (if s.life.Assoc? then 1 else 0)
    && t.openings <= AUTH_MAX_TRIES && (s.life.Auth? ==> t.openings == s.life.auth.tries)
    && t.requests <= ASSOC_MAX_TRIES && (s.life.Assoc? ==> t.requests <= s.life.assoc.tries)
    && t.stopped == s.m.csa.stopped
  }

  type History = seq<Event> -> Tally

  /** The invariant without the wake-up, with the history summarised by any `summary` that counts event by event. */
  ghost predicate Sound(s: State, summary: History) {
    Bounded(s) && CsaSafe(s) && Counts(summary) && Accounted(s, summary(s.m.log))
  }

  ghost predicate Good(s: State, summary: History) {
    Sound(s, summary) && Awake(s)
  }

  /** The state after an association has ended. */
  function Left(m: Mgd, deauth: bool, tx: bool, local: bool): State {
    State(Idle, Emit(Leave(m, deauth, tx), RepDisconnect(local, FromJoined)))
  }

  lemma LeaveKeeps(s: State, deauth: bool, tx: bool, local: bool, summary: History)
    requires Sound(s, summary) && s.life.Joined?
    ensures Good(Left(s.m, deauth, tx, local), summary)
  {
    var m1 := EmitIf(s.m, tx, TxLeave(s.m.bssid, deauth));
    assert summary(m1.log) == summary(s.m.log);
    var m2 := EmitIf(m1, s.m.csa.blockTx, WakeQueues);
    assert summary(m2.log) == summary(s.m.log).(stopped := false);
    assert Leave(s.m, deauth, tx).log == m2.log;
  }

  lemma ProbeSendQuiet(hw: Hw, m: Mgd, summary: History)
    requires Counts(summary)
    ensures var m1 := ProbeSend(hw, m);
            summary(m1.log) == summary(m.log) && m1.timer.Some? && m1.csa == m.csa && m1.polling == m.polling
  {
    var e := if hw.reportsTxAck then TxNullfunc else TxProbe(m.probes < UnicastLimit(hw));
    assert summary(Emit(m, e).log) == summary(m.log);
    assert ProbeSend(hw, m).log == Emit(m, e).log;
  }

  lemma AuthIdleKeeps(hw: Hw, m: Mgd, r: AuthReq, summary: History)
    requires Good(State(Idle, m), summary)
    ensures Good(MgdAuth(hw, State(Idle, m), r).1, summary)
  {
    if r.alg.Some? && r.allocOk {
      var (code, m1) := PrepConnection(m, r.bss, false, false, r.prep);
      assert m1.log == m.log && m1.csa == m.csa && !m1.polling;
      var m2 := Emit(m1, BeginAuth(r.bss.addr));
      assert summary(m2.log) == Count(summary(m.log), BeginAuth(r.bss.addr));
    }
  }

  lemma AuthKeeps(hw: Hw, s: State, r: AuthReq, summary: History)
    requires Good(s, summary)
    ensures Good(MgdAuth(hw, s, r).1, summary)
  {
    match s.life
    case Auth(a) =>
      if a.done {
        AuthIdleKeeps(hw, Drop(s.m, a.bss), r, summary);
      }
    case Joined(_) =>
      LeaveKeeps(s, true, false, true, summary);
      AuthIdleKeeps(hw, Left(s.m, true, false, true).m, r, summary);
    case Idle => AuthIdleKeeps(hw, s.m, r, summary);
    case Assoc(_) =>
  }

  lemma AssocStartKeeps(hw: Hw, m: Mgd, r: AssocReq, summary: History)
    requires Good(State(Idle, m), summary)
    ensures Good(AssocStart(hw, m, r).1, summary)
  {
    var (code, m1) := PrepConnection(m.(haveBeacon := false), r.bss, true, r.override, r.prep);
    assert m1.log == m.log && m1.csa == m.csa && !m1.polling;
    if code == Ok {
      var m2 := Emit(m1, BeginAssoc(r.bss.addr));
      assert summary(m2.log) == Count(summary(m.log), BeginAssoc(r.bss.addr));
      assert AssocArm(hw, m1, r).m.log == m2.log;
    }
  }

  lemma AssocKeeps(hw: Hw, s: State, r: AssocReq, summary: History)
    requires Good(s, summary)
    ensures Good(MgdAssoc(hw, s, r).1, summary)
  {
    if s.life.Joined? {
      LeaveKeeps(s, true, false, true, summary);
    }
    var s1 := BeforeAssoc(s);
    assert Good(s1, summary);
    if s1.life.Idle? || (s1.life.Auth? && s1.life.auth.done) {
      assert Good(State(Idle, Retain(s1, r)), summary);
      AssocStartKeeps(hw, Retain(s1, r), r, summary);
    }
  }

  /** Giving up an authentication that has not finished, or has, is one report or none. */
  lemma DeauthAuthKeeps(s: State, addr: Addr, tx: bool, summary: History)
    requires Good(s, summary) && s.life.Auth?
    ensures Good(MgdDeauth(s, addr, tx).1, summary)
  {
    var a, m0 := s.life.auth, EmitIf(s.m, tx, TxLeave(addr, true));
    assert summary(m0.log) == summary(s.m.log);
    var m1 := Drop(m0, a.bss);
    assert m1.log == m0.log;
    var e := RepDisconnect(true, if a.done then FromAuthDone else FromAuth);
    assert summary(Emit(m1, e).log) == Count(summary(s.m.log), e);
  }

  lemma DeauthAssocKeeps(s: State, addr: Addr, tx: bool, summary: History)
    requires Good(s, summary) && s.life.Assoc?
    ensures Good(MgdDeauth(s, addr, tx).1, summary)
  {
    var m0 := EmitIf(s.m, tx, TxLeave(addr, true));
    assert summary(m0.log) == summary(s.m.log);
    var m1 := Drop(m0, s.life.assoc.bss);
    assert m1.log == m0.log;
    var m2 := Emit(m1, RepAbandon(addr));
    assert summary(m2.log) == Count(summary(s.m.log), RepAbandon(addr));
    assert summary(Emit(m2, RepDisconnect(true, FromAssoc)).log) == summary(m2.log);
  }

  lemma DeauthKeeps(s: State, addr: Addr, tx: bool, summary: History)
    requires Good(s, summary)
    ensures Good(MgdDeauth(s, addr, tx).1, summary)
  {
    match s.life
    case Auth(_) => DeauthAuthKeeps(s, addr, tx, summary);
    case Assoc(_) => DeauthAssocKeeps(s, addr, tx, summary);
    case Joined(_) => LeaveKeeps(s, true, tx, true, summary);
    case Idle =>
  }

  lemma DisassocKeeps(s: State, bss: Bss, tx: bool, summary: History)
    requires Good(s, summary)
    ensures Good(MgdDisassoc(s, bss, tx).1, summary)
  {
    if s.life.Joined? {
      LeaveKeeps(s, false, tx, true, summary);
    }
  }

  lemma RxAuthKeeps(hw: Hw, s: State, f: AuthFrame, summary: History)
    requires Good(s, summary)
    ensures Good(RxAuth(hw, s, f), summary)
  {
  }

  lemma RxAssocRespKeeps(hw: Hw, s: State, f: AssocFrame, summary: History)
    requires Good(s, summary)
    ensures Good(RxAssocResp(hw, s, f), summary)
  {
    if s.life.Assoc? {
      var c := s.life.assoc;
      EventKeeps(s.m, Drop(s.m, c.bss), RepAssocResp(c.bss.addr, false), summary);
      EventKeeps(s.m, Drop(s.m, c.bss), RepAssocTimeout(c.bss.addr), summary);
      EventKeeps(s.m, s.m.(bssid := c.bss.addr, polling := false, probes := if f.unicast then 0 else s.m.probes),
                 RepAssocResp(c.bss.addr, true), summary);
    }
  }

  /** Another event after changes that are not reported. */
  lemma EventKeeps(m: Mgd, m1: Mgd, e: Event, summary: History)
    requires Counts(summary) && m1.log == m.log
    ensures summary(Emit(m1, e).log) == Count(summary(m.log), e)
  {
  }

  lemma RxDeauthKeeps(s: State, f: LeaveFrame, summary: History)
    requires Good(s, summary)
    ensures Good(RxDeauth(s, f), summary)
  {
    if s.life.Joined? {
      LeaveKeeps(s, true, false, false, summary);
    }
  }

  lemma RxDisassocKeeps(s: State, f: LeaveFrame, summary: History)
    requires Good(s, summary)
    ensures Good(RxDisassoc(s, f), summary)
  {
    if s.life.Joined? {
      LeaveKeeps(s, true, false, false, summary);
    }
  }

  /** The events of a started switch change nothing in the summary but the state of the queues. */
  lemma SwitchEvents(m: Mgd, mode: bool, more: bool, last: Event, summary: History)
    requires Counts(summary) && (last.QueueSwitchWork? || last.ArmSwitchTimer?)
    ensures summary(EmitIf(Emit(EmitIf(m, mode, StopQueues), CsaStarted), more, last).log) ==
            summary(m.log).(stopped := mode || summary(m.log).stopped)
  {
    var m1 := EmitIf(m, mode, StopQueues);
    assert summary(Emit(m1, CsaStarted).log) == summary(m1.log);
  }

  lemma StartSwitchKeeps(s: State, e: CsaEnv, mode: bool, count: nat, summary: History)
    requires Good(s, summary) && s.life.Joined? && !s.m.csa.active
    ensures Good(s.(m := StartSwitch(s.m, e, mode, count)), summary)
  {
    var last := if count <= 1 then QueueSwitchWork else ArmSwitchTimer((count - 1) * e.step);
    var c := s.m.csa.(active := true, blockTx := mode, ignoredSame := false, stopped := mode);
    SwitchEvents(s.m.(csa := c), mode, !e.driverSwitch, last, summary);
  }

  lemma ChanSwitchKeeps(s: State, e: CsaEnv, summary: History)
    requires Good(s, summary)
    ensures Good(ProcessChanSwitch(s, e), summary)
  {
    if s.life.Joined? && !e.scanning && !s.m.csa.active && e.elem.SwitchTo? {
      StartSwitchKeeps(s, e, e.elem.mode, e.elem.count, summary);
      DropWorkKeeps(s, s.m.csa.(active := true, blockTx := e.elem.mode), summary);
    }
    DropWorkKeeps(s, s.m.csa, summary);
  }

  /** Queueing the work that drops the connection reports nothing yet. */
  lemma DropWorkKeeps(s: State, csa: Csa, summary: History)
    requires Good(s, summary)
    requires || csa == s.m.csa
             || (s.life.Joined? && !s.m.csa.active && csa == s.m.csa.(active := true, blockTx := csa.blockTx))
    ensures Good(s.(m := Emit(s.m.(csa := csa), QueueDropWork)), summary)
  {
    assert Emit(s.m.(csa := csa), QueueDropWork).log == s.m.log + [QueueDropWork];
    assert Count(summary(s.m.log), QueueDropWork) == summary(s.m.log);
  }

  lemma BeaconSeenKeeps(s: State, postOk: bool, summary: History)
    requires Good(s, summary)
    ensures Good(s.(m := BeaconSeen(s.m, postOk)), summary)
  {
    var m1 := EmitIf(s.m, s.m.csa.blockTx, WakeQueues);
    assert summary(m1.log) == summary(s.m.log).(stopped := false);
    var m2 := Emit(m1, if postOk then CsaFinished else QueueDropWork);
    assert summary(m2.log) == summary(m1.log);
    assert s.m.csa.waitingBcn ==> BeaconSeen(s.m, postOk).log == m2.log;
  }

  lemma BeaconContentKeeps(s: State, b: Beacon, summary: History)
    requires Good(s, summary) && s.life.Joined?
    ensures Good(BeaconContent(s, b), summary)
  {
    ChanSwitchKeeps(s, b.csa, summary);
    var s1 := ProcessChanSwitch(s, b.csa);
    var s2 := s1.(m := s1.m.(haveBeacon := true));
    assert Good(s2, summary);
    LeaveKeeps(s2, true, true, true, summary);
  }

  lemma BeaconKeeps(s: State, b: Beacon, summary: History)
    requires Good(s, summary)
    ensures Good(RxBeacon(s, b), summary)
  {
    if b.onChannel && s.life.Joined? && s.life.bss.addr == b.bssid {
      BeaconSeenKeeps(s, b.postOk, summary);
      BeaconContentKeeps(s.(m := BeaconSeen(s.m, b.postOk)), b, summary);
    }
  }

  lemma SwitchWorkKeeps(s: State, e: SwitchEnv, summary: History)
    requires Good(s, summary)
    ensures Good(ChswitchWork(s, e), summary)
  {
  }

  lemma ProbeKeeps(hw: Hw, s: State, running: bool, busy: bool, loss: bool, summary: History)
    requires Good(s, summary)
    ensures Good(ProbeAp(hw, s, running, busy, loss), summary)
  {
    if running && s.life.Joined? && !busy {
      var m1 := if loss then Emit(s.m, RepBeaconLoss) else s.m;
      assert summary(m1.log) == summary(s.m.log);
      ProbeSendQuiet(hw, m1.(polling := true, probes := 0), summary);
    }
  }

  lemma DisconnectKeeps(s: State, summary: History)
    requires Good(s, summary)
    ensures Good(Disconnect(s), summary)
  {
    if s.life.Joined? {
      LeaveKeeps(s, true, !s.m.csa.blockTx, !s.m.csa.blockTx, summary);
    }
  }

  lemma StatusKeeps(hw: Hw, s: State, summary: History)
    requires Sound(s, summary)
    ensures Sound(ApplyStatus(hw, s), summary)
  {
  }

  lemma WorkAuthKeeps(hw: Hw, s: State, slack: nat, summary: History)
    requires Sound(s, summary) && s.life.Auth?
    ensures Good(WorkAuth(hw, s, slack), summary)
  {
  }

  lemma WorkAssocKeeps(hw: Hw, s: State, slack: nat, built: bool, summary: History)
    requires Sound(s, summary) && s.life.Assoc?
    ensures Good(WorkAssoc(hw, s, slack, built), summary)
  {
  }

  lemma WorkPollKeeps(hw: Hw, s: State, summary: History)
    requires Sound(s, summary) && s.life.Joined?
    ensures Good(WorkPoll(hw, s), summary)
  {
    LeaveKeeps(s, true, false, true, summary);
    ProbeSendQuiet(hw, s.m, summary);
    assert s.m.polling && s.m.probes > 0 ==>
             var s1 := WorkPoll(hw, s);
             || s1 == Left(s.m, true, false, true)
             || s1 == s.(m := ProbeSend(hw, s.m))
             || s1 == s.(m := RunAgain(s.m, s.m.probeTimeout));
  }

  lemma WorkKeeps(hw: Hw, s: State, slack: nat, built: bool, summary: History)
    requires Good(s, summary)
    ensures Good(StaWork(hw, s, slack, built), summary)
  {
    var s0 := s.(m := s.m.(queued := false));
    assert Sound(s0, summary);
    StatusKeeps(hw, s0, summary);
    var s1 := ApplyStatus(hw, s0);
    match s1.life
    case Idle =>
    case Auth(_) => WorkAuthKeeps(hw, s1, slack, summary);
    case Assoc(_) => WorkAssocKeeps(hw, s1, slack, built, summary);
    case Joined(_) => WorkPollKeeps(hw, s1, summary);
  }

  /** A request of the user, or a frame of an exchange. */
  predicate IsExchange(op: Op) {
    || op.OpAuth? || op.OpAssoc? || op.OpDeauth? || op.OpDisassoc?
    || op.OpRxAuth? || op.OpRxAssocResp? || op.OpRxDeauth? || op.OpRxDisassoc?
  }

  lemma ExchangeKeeps(hw: Hw, s: State, op: Op, summary: History)
    requires Good(s, summary) && IsExchange(op)
    ensures Good(Step(hw, s, op), summary)
  {
    match op
    case OpAuth(r) => AuthKeeps(hw, s, r, summary);
    case OpAssoc(r) => AssocKeeps(hw, s, r, summary);
    case OpDeauth(addr, tx) => DeauthKeeps(s, addr, tx, summary);
    case OpDisassoc(bss, tx) => DisassocKeeps(s, bss, tx, summary);
    case OpRxAuth(f) => RxAuthKeeps(hw, s, f, summary);
    case OpRxAssocResp(f) => RxAssocRespKeeps(hw, s, f, summary);
    case OpRxDeauth(f) => RxDeauthKeeps(s, f, summary);
    case OpRxDisassoc(f) => RxDisassocKeeps(s, f, summary);
  }

  lemma StepKeeps(hw: Hw, s: State, op: Op, summary: History)
    requires Good(s, summary)
    ensures Good(Step(hw, s, op), summary)
  {
    if IsExchange(op) {
      ExchangeKeeps(hw, s, op, summary);
    } else {
      OtherKeeps(hw, s, op, summary);
    }
  }

  lemma OtherKeeps(hw: Hw, s: State, op: Op, summary: History)
    requires Good(s, summary) && !IsExchange(op)
    ensures Good(Step(hw, s, op), summary)
  {
    match op
    case OpRxBeacon(b) => BeaconKeeps(s, b, summary);
    case OpRxSwitch(e) => ChanSwitchKeeps(s, e, summary);
    case OpSwitchWork(e) => SwitchWorkKeeps(s, e, summary);
    case OpProbeAp(running, busy, loss) => ProbeKeeps(hw, s, running, busy, loss, summary);
    case OpDisconnect => DisconnectKeeps(s, summary);
    case OpWork(slack, built) => WorkKeeps(hw, s, slack, built, summary);
    case _ =>
  }

  /** Every state of every run satisfies the invariant. */
  lemma {:induction false} RunKeepsInv(hw: Hw, ops: seq<Op>)
    ensures var s := Run(hw, INIT, ops); Bounded(s) && CsaSafe(s) && Awake(s) && Accounted(s, Summary(s.m.log))
  {
    SummaryCounts();
    var summary := log => Summary(log);
    if ops == [] {
      assert summary(INIT.m.log) == Summary([]);
    } else {
      RunKeepsInv(hw, ops[..|ops| - 1]);
      StepKeeps(hw, Run(hw, INIT, ops[..|ops| - 1]), ops[|ops| - 1], summary);
    }
  }
}
