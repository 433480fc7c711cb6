/** What happens in a run of the client, told by its steps: which of them make, end and join a connection, and what
    each leaves behind and reports. */
module StationOutcomes {
  import opened Common
  import opened Station
  import StationRuns

  /** A timer set to `deadline` unless it is pending for an earlier time. */
  function Earlier(timer: Option<int>, deadline: int): Option<int> {
    if timer.Some? && timer.value <= deadline then timer else Some(deadline)
  }

  /** What every attempt leaves behind that fails or is given up, with `events` reported. */
  function Failed(m: Mgd, addr: Addr, events: seq<Event>): State {
    State(Idle, m.(timer := None, known := m.known - {addr}, bssid := 0, polling := false, log := m.log + events))
  }

  // ---------------------------------------------------------------------------------------------
  // Association responses
  // ---------------------------------------------------------------------------------------------

  /** A response that the current attempt waits for. */
  predicate Awaited(s: State, f: AssocFrame) {
    s.life.Assoc? && f.bssid == s.life.assoc.bss.addr && f.len >= 30 && f.decryptOk
  }

  /** The step receives an awaited response that accepts the client, and the AP is in the station table. */
  predicate JoinsBy(s: State, op: Op) {
    && op.OpRxAssocResp? && Awaited(s, op.assocFrame)
    && op.assocFrame.status.Success? && op.assocFrame.acceptOk && op.assocFrame.bssid in s.m.known
  }

  /** Exactly such a step enters the joined phase: with the AP of the attempt, which is reported as a success. */
  lemma Joins(hw: Hw, s: State, op: Op)
    ensures Step(hw, s, op).life.Joined? && Step(hw, s, op).life != s.life <==> JoinsBy(s, op)
    ensures JoinsBy(s, op) ==>
              var b := s.life.assoc.bss;
              Step(hw, s, op)
              == State(Joined(b), s.m.(bssid := b.addr, polling := false,
                                       probes := if op.assocFrame.unicast then 0 else s.m.probes,
                                       log := s.m.log + [RepAssocResp(b.addr, true)]))
  {
  }

  /** All other responses: a denial ends the attempt and is reported as such, an acceptance that does not check is
      reported as a timeout, a request to come back moves the deadline, and what is not awaited changes nothing. */
  lemma NotJoined(hw: Hw, s: State, f: AssocFrame)
    requires !JoinsBy(s, OpRxAssocResp(f))
    ensures var s1 := Step(hw, s, OpRxAssocResp(f));
            if !Awaited(s, f) then s1 == s
            else if f.status.Denied? then s1 == Failed(s.m, f.bssid, [RepAssocResp(f.bssid, false)])
            else if f.status.Success? then s1 == Failed(s.m, f.bssid, [RepAssocTimeout(f.bssid)])
            else && s1.life.Assoc? && s1.life.assoc == s.life.assoc.(timeout := s1.life.assoc.timeout, armed := true)
                 && s1.m == s.m.(timer := s1.m.timer)
                 && ComesBack(hw, s.m, f.status.tu, s1.life.assoc.timeout, s1.m.timer)
  {
    if Awaited(s, f) && f.status.ComeBack? {
      var ms := ComeBackMs(f.status.tu);
      var wait := MsToJiffies(hw, ms);
      assert 1000 * ms <= (1024 * f.status.tu) % 0x1_0000_0000 < 1000 * ms + 1000;
      assert ms * hw.hz + 999 == 1000 * wait + (ms * hw.hz + 999) % 1000;
      assert WaitOf(hw, f.status.tu, ms, s.m.now, s.m.now + wait);
    }
  }

  /** `ms` are the whole milliseconds of `tu` time units, counted in 32 bits; `deadline` is so many jiffies, rounded
      up, after `now`. */
  predicate WaitOf(hw: Hw, tu: nat, ms: nat, now: int, deadline: int) {
    && 1000 * ms <= (1024 * tu) % 0x1_0000_0000 < 1000 * ms + 1000
    && 1000 * (deadline - now - 1) < ms * hw.hz <= 1000 * (deadline - now)
  }

  /** The deadline is as far away as the AP asked; only a long wait re-arms the timer. */
  ghost predicate ComesBack(hw: Hw, m: Mgd, tu: nat, deadline: int, timer: Option<int>) {
    exists ms: nat :: && WaitOf(hw, tu, ms, m.now, deadline)
                      && timer == if ms > hw.hz then Earlier(m.timer, deadline) else m.timer
  }

  // ---------------------------------------------------------------------------------------------
  // Authentication frames
  // ---------------------------------------------------------------------------------------------

  /** The next frame of the current exchange. */
  predicate NextFrame(s: State, f: AuthFrame) {
    && s.life.Auth? && !s.life.auth.done && f.len >= 30 && f.bssid == s.life.auth.bss.addr
    && f.alg == s.life.auth.alg && f.trans == s.life.auth.expected
  }

  /** It is the last one, and it accepts the client: with a shared key, that is the fourth. */
  predicate AuthenticatesBy(s: State, op: Op) {
    && op.OpRxAuth? && NextFrame(s, op.authFrame)
    && op.authFrame.success && (s.life.auth.alg.SharedKey? ==> s.life.auth.expected == 4)
  }

  predicate Authenticated(s: State) { s.life.Auth? && s.life.auth.done }

  /** Exactly such a step completes an authentication. It is then kept for 25 seconds. */
  lemma Authenticates(hw: Hw, s: State, op: Op)
    ensures Authenticated(Step(hw, s, op)) && !Authenticated(s) <==> AuthenticatesBy(s, op)
    ensures AuthenticatesBy(s, op) ==>
              var a, deadline := s.life.auth, s.m.now + 25 * hw.hz;
              var shown := || (a.alg.Sae? && a.expected != 2) || (a.bss.addr in s.m.known && op.authFrame.moveOk);
              Step(hw, s, op)
              == State(Auth(a.(done := true, armed := true, timeout := deadline)),
                       s.m.(timer := Earlier(s.m.timer, deadline),
                            log := s.m.log + [RepAuthDone(a.bss.addr)]
                                   + if shown then [RepAuthFrame(a.bss.addr)] else []))
  {
    if AuthenticatesBy(s, op) {
      var log := s.m.log + [RepAuthDone(s.life.auth.bss.addr)];
      assert log + [] == log;
    }
  }

  /** All other authentication frames: a refusal ends the attempt and is reported, a challenge is answered, and the
      rest changes nothing. */
  lemma NotAuthenticated(hw: Hw, s: State, f: AuthFrame)
    requires !AuthenticatesBy(s, OpRxAuth(f))
    ensures var s1 := Step(hw, s, OpRxAuth(f));
            if !NextFrame(s, f) then s1 == s
            else if !f.success then s1 == Failed(s.m, f.bssid, [RepAuthDenied(f.bssid)])
            else if !f.challenge then s1 == s
            else s1 == State(Auth(s.life.auth.(expected := 4)), s.m.(log := s.m.log + [TxAuthReply(f.bssid)]))
  {
  }

  /** The transaction that an opening frame carries, and the one that is expected as its answer. */
  predicate Opened(a: AuthRec, trans: nat) {
    if a.alg.Sae? then trans == a.saeTrans == a.expected else trans == 1 && a.expected == 2
  }

  /** The next frame is the second, or the fourth of a shared-key exchange; for SAE it is the one the caller said. */
  ghost predicate Expecting(s: State) {
    s.life.Auth? && !s.life.auth.done ==>
      var a := s.life.auth;
      if a.alg.Sae? then a.expected == a.saeTrans else a.expected == 2 || (a.expected == 4 && a.alg.SharedKey?)
  }

  lemma StepExpects(hw: Hw, s: State, op: Op)
    requires Expecting(s)
    ensures Expecting(Step(hw, s, op))
  {
    if op.OpWork? {
      assert Expecting(ApplyStatus(hw, s.(m := s.m.(queued := false))));
    } else if op.OpAssoc? {
      assert Expecting(BeforeAssoc(s));
    }
  }

  lemma {:induction false} RunExpects(hw: Hw, ops: seq<Op>)
    ensures Expecting(Run(hw, INIT, ops))
  {
    if ops != [] {
      RunExpects(hw, ops[..|ops| - 1]);
      StepExpects(hw, Run(hw, INIT, ops[..|ops| - 1]), ops[|ops| - 1]);
    }
  }

  // ---------------------------------------------------------------------------------------------
  // Requests
  // ---------------------------------------------------------------------------------------------

  predicate Busy(s: State) { s.life.Assoc? || (s.life.Auth? && !s.life.auth.done) }

  /** The error of preparing a connection, if there is one. An AP that is in the station table needs no new entry,
      and a new channel only if the caller wants to change it. */
  function PrepError(p: Prep, have: bool, override: bool): Code {
    if p.reconfig then Ebusy
    else if !have && !p.staAllocOk then Enomem
    else if !p.channelOk && (!have || override) then Einval
    else if !have && !p.insertOk then Einsert
    else Ok
  }

  /** How long an opening frame is waited for: a second, ten for SAE, two and a half plus rounding if the status of
      the frame will tell more. */
  function FirstWait(hw: Hw, alg: Alg, slack: nat): nat {
    if hw.reportsTxAck then 5 * hw.hz / 2 + slack else if alg.Sae? then 10 * hw.hz else hw.hz
  }

  /** What is left of an association that has ended, with `tx` the frame that told the AP. */
  function Ended(m: Mgd, tx: seq<Event>, local: bool): Mgd {
    m.(bssid := 0, known := {}, polling := false, haveBeacon := false, timer := None,
       csa := Csa(false, false, false, false, m.csa.stopped && !m.csa.blockTx),
       log := m.log + tx + (if m.csa.blockTx then [WakeQueues] else []) + [RepDisconnect(local, FromJoined)])
  }

  /** What a request finds: an association is over without a frame, and a finished authentication is forgotten
      unless it is to be kept. */
  function Cleared(s: State, keep: bool): Mgd {
    match s.life
    case Joined(_) => Ended(s.m, [], true)
    case Auth(a) => if keep then s.m else Failed(s.m, a.bss.addr, []).m
    case _ => s.m
  }

  lemma NoEvents(log: seq<Event>)
    ensures log + [] == log
  {
  }

  /** When and with what code an authentication request is refused. */
  function AuthCode(s: State, r: AuthReq): Code {
    if r.alg.None? then Eopnotsupp else if !r.allocOk then Enomem else if Busy(s) then Ebusy
    else PrepError(r.prep, false, false)
  }

  /** The first frame has been sent. */
  predicate FirstSent(hw: Hw, m: Mgd, r: AuthReq, s1: State, trans: nat) {
    && r.alg.Some? && s1.life.Auth?
    && var deadline := m.now + FirstWait(hw, r.alg.value, r.slack);
    && s1.life.auth == AuthRec(r.bss, r.alg.value, 1, false, true, deadline, s1.life.auth.expected, r.saeTrans)
    && Opened(s1.life.auth, trans)
    && s1.m == m.(bssid := r.bss.addr, known := m.known + {r.bss.addr}, timer := Earlier(m.timer, deadline),
                  log := m.log + [BeginAuth(r.bss.addr), TxAuthOpen(r.bss.addr, trans)])
  }

  lemma StartsAuth(hw: Hw, m: Mgd, r: AuthReq)
    requires r.alg.Some?
    ensures var (code, s1) := AuthStart(hw, m, r);
            && code == PrepError(r.prep, false, false)
            && (if code == Ok then FirstSent(hw, m, r, s1, if r.alg.value.Sae? then r.saeTrans else 1)
                else s1 == State(Idle, m.(bssid := 0)))
  {
  }

  lemma ClearsBefore(s: State)
    ensures Failed(s.m, 0, []).m == s.m.(timer := None, known := s.m.known - {0}, bssid := 0, polling := false)
    ensures s.life.Joined? ==> Emit(Leave(s.m, true, false), RepDisconnect(true, FromJoined)) == Ended(s.m, [], true)
    ensures s.life.Auth? ==> Drop(s.m, s.life.auth.bss) == Failed(s.m, s.life.auth.bss.addr, []).m
  {
    NoEvents(s.m.log);
  }

  /** A granted request sends the first frame at once. A refused one changes nothing if it was refused at once, and
      otherwise leaves the client idle without a BSSID. */
  lemma AuthRequested(hw: Hw, s: State, r: AuthReq)
    ensures MgdAuth(hw, s, r).0 == AuthCode(s, r)
    ensures var s1, m := Step(hw, s, OpAuth(r)), Cleared(s, false);
            if r.alg.None? || !r.allocOk || Busy(s) then s1 == s
            else if AuthCode(s, r) != Ok then s1 == State(Idle, m.(bssid := 0))
            else FirstSent(hw, m, r, s1, if r.alg == Some(Sae) then r.saeTrans else 1)
  {
    if r.alg.Some? && r.allocOk && !Busy(s) {
      ClearsBefore(s);
      StartsAuth(hw, Cleared(s, false), r);
    }
  }

  /** An association request keeps what a finished authentication with the same AP has set up. */
  predicate Keeps(s: State, r: AssocReq) { s.m.bssid == r.bss.addr }

  /** When and with what code an association request is refused. */
  function AssocCode(s: State, r: AssocReq): Code {
    if !r.allocOk then Enomem else if !r.ssidOk then Einval else if Busy(s) then Ebusy
    else if r.filsTooLong then Einval
    else PrepError(r.prep, r.bss.addr in Cleared(s, Keeps(s, r)).known, r.override)
  }

  /** The attempt has begun: its first request is due at once, or when a beacon has been waited for. */
  predicate RequestDue(hw: Hw, m: Mgd, r: AssocReq, s1: State) {
    var wait := hw.needDtimBeforeAssoc && !r.haveBeaconIes;
    var deadline := m.now + if wait then r.beaconWait else 0;
    && s1.life == Assoc(AssocRec(r.bss, 0, true, deadline, wait))
    && s1.m == m.(haveBeacon := r.haveBeaconIes && !wait, timer := Earlier(m.timer, deadline),
                  bssid := if r.bss.addr in m.known then m.bssid else r.bss.addr,
                  known := m.known + {r.bss.addr}, log := m.log + [BeginAssoc(r.bss.addr)])
  }

  lemma PreparesAssoc(m: Mgd, r: AssocReq)
    ensures var (code, m1) := PrepConnection(m, r.bss, true, r.override, r.prep);
            && code == PrepError(r.prep, r.bss.addr in m.known, r.override)
            && m1.(bssid := 0)
               == m.(bssid := 0, known := m.known + if code == Ok then {r.bss.addr} else {})
            && (code == Ok ==> m1.bssid == if r.bss.addr in m.known then m.bssid else r.bss.addr)
  {
    assert m.known + {} == m.known && (r.bss.addr in m.known ==> m.known + {r.bss.addr} == m.known);
  }

  lemma StartsAssoc(hw: Hw, m: Mgd, r: AssocReq)
    ensures var (code, s1) := AssocStart(hw, m, r);
            && code == PrepError(r.prep, r.bss.addr in m.known, r.override)
            && (if code == Ok then RequestDue(hw, m, r, s1) else s1 == State(Idle, m.(bssid := 0, haveBeacon := false)))
  {
    PreparesAssoc(m.(haveBeacon := false), r);
  }

  /** A refused request changes nothing if it was refused at once, and otherwise leaves the client idle: an
      association has ended, an authentication with another AP is forgotten. */
  lemma AssocRequested(hw: Hw, s: State, r: AssocReq)
    ensures MgdAssoc(hw, s, r).0 == AssocCode(s, r)
    ensures var s1, m := Step(hw, s, OpAssoc(r)), Cleared(s, Keeps(s, r));
            if !r.allocOk || !r.ssidOk || Busy(s) then s1 == s
            else if r.filsTooLong then s1 == State(Idle, m)
            else if AssocCode(s, r) != Ok then s1 == State(Idle, m.(bssid := 0, haveBeacon := false))
            else RequestDue(hw, m, r, s1)
  {
    if r.allocOk && r.ssidOk && !Busy(s) {
      ClearsBefore(s);
      assert Retain(BeforeAssoc(s), r) == Cleared(s, Keeps(s, r));
      StartsAssoc(hw, Cleared(s, Keeps(s, r)), r);
    }
  }

  /** A deauthentication request ends the phase with its AP, whichever that is, and tells the AP if it is asked to. */
  lemma DeauthRequested(hw: Hw, s: State, addr: Addr, tx: bool)
    ensures MgdDeauth(s, addr, tx).0 == if AfterDeauth(s, addr, tx) == s then Enotconn else Ok
    ensures Step(hw, s, OpDeauth(addr, tx)) == AfterDeauth(s, addr, tx)
  {
    if s.life.Auth? {
      DeauthAuth(s, addr, tx);
    } else if s.life.Assoc? {
      DeauthAssoc(s, addr, tx);
    } else if s.life.Joined? {
      LeftIs(s.m, true, tx, true);
    }
  }

  function AfterDeauth(s: State, addr: Addr, tx: bool): State {
    var told := if tx then [TxLeave(addr, true)] else [];
    if s.life.Idle? || s.life.Peer().value.addr != addr then s
    else
      match s.life
      case Auth(a) => Failed(s.m, addr, told + [RepDisconnect(true, if a.done then FromAuthDone else FromAuth)])
      case Assoc(_) => Failed(s.m, addr, told + [RepAbandon(addr), RepDisconnect(true, FromAssoc)])
      case _ => State(Idle, Ended(s.m, if tx then [TxLeave(s.m.bssid, true)] else [], true))
  }

  lemma DeauthAuth(s: State, addr: Addr, tx: bool)
    requires s.life.Auth?
    ensures MgdDeauth(s, addr, tx).1 == AfterDeauth(s, addr, tx)
  {
    NoEvents(s.m.log);
  }

  lemma DeauthAssoc(s: State, addr: Addr, tx: bool)
    requires s.life.Assoc?
    ensures MgdDeauth(s, addr, tx).1 == AfterDeauth(s, addr, tx)
  {
    NoEvents(s.m.log);
    var told := if tx then [TxLeave(addr, true)] else [];
    assert s.m.log + told + [RepAbandon(addr)] + [RepDisconnect(true, FromAssoc)]
        == s.m.log + (told + [RepAbandon(addr), RepDisconnect(true, FromAssoc)]);
  }

  // ---------------------------------------------------------------------------------------------
  // The end of an association
  // ---------------------------------------------------------------------------------------------

  /** Another frame from the AP that is long enough and was sent by the AP itself. */
  predicate LeaveFrom(f: LeaveFrame, b: Bss) { f.len >= 26 && f.sa == f.bssid == b.addr }

  /** A poll has failed for good: all tries have been used, and the last one has timed out or was not acknowledged. */
  predicate PollLost(hw: Hw, m: Mgd) {
    && m.polling && m.probes > 0
    && (m.nullFailed || m.now >= m.probeTimeout)
    && ((hw.reportsTxAck && !m.nullFailed)
        || m.probes >= if hw.reportsTxAck then hw.maxNullfuncTries else hw.maxProbeTries)
  }

  /** The steps that end the association with `b`. */
  predicate EndsBy(hw: Hw, m: Mgd, b: Bss, op: Op) {
    match op
    case OpAuth(r) => r.alg.Some? && r.allocOk
    case OpAssoc(r) => r.allocOk && r.ssidOk
    case OpDeauth(addr, _) => addr == b.addr
    case OpDisassoc(bss, _) => bss == b
    case OpRxDeauth(f) => LeaveFrom(f, b)
    case OpRxDisassoc(f) => LeaveFrom(f, b)
    case OpRxBeacon(f) => f.onChannel && f.bssid == b.addr && !f.sameCrc && !f.bandwidthOk
    case OpDisconnect => true
    case OpWork(_, _) => PollLost(hw, m)
    case _ => false
  }

  /** Exactly those do; all others leave the client joined with the same AP. */
  lemma Ends(hw: Hw, s: State, op: Op)
    requires s.life.Joined?
    ensures Step(hw, s, op).life == s.life <==> !EndsBy(hw, s.m, s.life.bss, op)
  {
    match op
    case OpAuth(r) => AuthRequested(hw, s, r);
    case OpAssoc(r) => AssocRequested(hw, s, r);
    case OpRxBeacon(b) => SwitchKeepsPhase(s.(m := BeaconSeen(s.m, b.postOk)), b.csa);
    case OpWork(slack, built) => PollEnds(hw, s, slack, built);
    case _ =>
  }

  lemma SwitchKeepsPhase(s: State, e: CsaEnv)
    ensures ProcessChanSwitch(s, e).life == s.life
  {
  }

  lemma PollEnds(hw: Hw, s: State, slack: nat, built: bool)
    requires s.life.Joined?
    ensures var s1 := Step(hw, s, OpWork(slack, built));
            if PollLost(hw, s.m) then s1 == State(Idle, Ended(s.m.(queued := false, status := None), [], true))
            else s1.life == s.life
  {
    NoEvents(s.m.log);
  }

  /** How an association ends otherwise: by a request with its frame, by a frame of the AP without one, and by a lost
      connection with one unless the switch has blocked transmission, which then counts as the AP's doing. */
  lemma EndsHow(hw: Hw, s: State, op: Op)
    requires s.life.Joined? && EndsBy(hw, s.m, s.life.bss, op)
    ensures var m1, from := Step(hw, s, op).m, s.m.bssid;
            match op
            case OpDeauth(_, tx) => m1 == Ended(s.m, if tx then [TxLeave(from, true)] else [], true)
            case OpDisassoc(_, tx) => m1 == Ended(s.m, if tx then [TxLeave(from, false)] else [], true)
            case OpRxDeauth(_) => m1 == Ended(s.m, [], false)
            case OpRxDisassoc(_) => m1 == Ended(s.m, [], false)
            case OpDisconnect =>
              m1 == Ended(s.m, if s.m.csa.blockTx then [] else [TxLeave(from, true)], !s.m.csa.blockTx)
            case _ => true
  {
    LeftIs(s.m, true, true, true);
    LeftIs(s.m, true, false, true);
    LeftIs(s.m, false, true, true);
    LeftIs(s.m, false, false, true);
    LeftIs(s.m, true, false, false);
  }

  /** A request or a frame that does not end the association changes nothing; to disassociate, the caller must name
      the very entry that the client is joined with. */
  lemma NotEnded(hw: Hw, s: State, op: Op)
    requires op.OpDisassoc? || op.OpRxDeauth? || op.OpRxDisassoc?
    ensures s.life.Joined? && !EndsBy(hw, s.m, s.life.bss, op) ==> Step(hw, s, op) == s
    ensures op.OpDisassoc? ==>
              && MgdDisassoc(s, op.bss, op.tx).0 == (if s.life == Joined(op.bss) then Ok else Enolink)
              && (s.life != Joined(op.bss) ==> Step(hw, s, op) == s)
  {
  }

  lemma LeftIs(m: Mgd, deauth: bool, tx: bool, local: bool)
    ensures Emit(Leave(m, deauth, tx), RepDisconnect(local, FromJoined))
         == Ended(m, if tx then [TxLeave(m.bssid, deauth)] else [], local)
  {
    NoEvents(m.log);
  }

  /** A deauthentication by the AP also ends an attempt to associate, but not one to authenticate. */
  lemma DeauthReceived(hw: Hw, s: State, f: LeaveFrame)
    requires !s.life.Joined?
    ensures Step(hw, s, OpRxDeauth(f)) ==
            if s.life.Assoc? && LeaveFrom(f, s.life.assoc.bss) then
              Failed(s.m, f.bssid, [RepAbandon(f.bssid), RepRxDeauth(f.bssid)])
            else s
    ensures Step(hw, s, OpRxDisassoc(f)) == s && Step(hw, s, OpDisconnect) == s
  {
    assert s.m.log + [RepAbandon(f.bssid)] + [RepRxDeauth(f.bssid)]
        == s.m.log + [RepAbandon(f.bssid), RepRxDeauth(f.bssid)];
  }

  // ---------------------------------------------------------------------------------------------
  // Channel switches and beacons
  // ---------------------------------------------------------------------------------------------

  /** An announcement that is looked at. */
  predicate Heeded(s: State, e: CsaEnv) { s.life.Joined? && !e.scanning && !s.m.csa.active }

  /** What an announcement changes: nothing while one is heeded already, or without one; the connection is given up
      over one that cannot be followed; otherwise the switch starts, with the queues stopped if the AP demands it,
      and happens now or after all but one of the announced beacons. */
  lemma Announced(hw: Hw, s: State, e: CsaEnv)
    ensures Step(hw, s, OpRxSwitch(e)) == s.(m := AfterSwitch(s, e))
  {
    NoEvents(s.m.log);
    if e.elem.SwitchTo? {
      var mode := e.elem.mode;
      NoEvents(s.m.log + (if mode then [StopQueues] else []) + [CsaStarted]);
    }
  }

  function AfterSwitch(s: State, e: CsaEnv): Mgd {
    if !Heeded(s, e) || e.elem.NoElem? then s.m
    else if e.elem.BadElem? || !e.elem.usable then s.m.(log := s.m.log + [QueueDropWork])
    else AfterUsable(s.m, e, e.elem.mode, e.elem.count)
  }

  function AfterUsable(m: Mgd, e: CsaEnv, mode: bool, count: nat): Mgd
    requires e.elem.SwitchTo?
  {
    if e.elem.sameChannel then m.(csa := m.csa.(ignoredSame := true))
    else if !(e.haveContext && e.contextCsaOk && e.preOk && e.reserveOk) then
      m.(csa := m.csa.(active := true, blockTx := mode), log := m.log + [QueueDropWork])
    else
      m.(csa := Csa(true, mode, m.csa.waitingBcn, false, m.csa.stopped || mode),
         log := m.log + (if mode then [StopQueues] else []) + [CsaStarted]
                + (if e.driverSwitch then [] else if count <= 1 then [QueueSwitchWork]
                   else [ArmSwitchTimer((count - 1) * e.step)]))
  }

  /** The work of the switch gives the connection up if the channel cannot be taken, and otherwise waits for a beacon
      on it, once it is there. */
  lemma Switched(hw: Hw, s: State, e: SwitchEnv)
    ensures var s1 := Step(hw, s, OpSwitchWork(e));
            if !(e.running && s.life.Joined? && s.m.csa.active) || (e.reserved && (e.ready || e.useOk)) then s1 == s
            else if e.reserved || !e.identical then s1 == s.(m := s.m.(log := s.m.log + [QueueDropWork]))
            else s1 == s.(m := s.m.(csa := s.m.csa.(waitingBcn := true), probes := 0))
  {
  }

  /** A beacon ends a poll, and the switch that waits for it; the queues wake if that had blocked them. */
  function AfterBeacon(m: Mgd, postOk: bool): Mgd {
    if !m.csa.waitingBcn then m.(polling := false)
    else
      m.(polling := false,
         csa := Csa(false, false, false, m.csa.ignoredSame, m.csa.stopped && !m.csa.blockTx),
         log := m.log + (if m.csa.blockTx then [WakeQueues] else []) + [if postOk then CsaFinished else QueueDropWork])
  }

  /** The AP of the client, while it is joined, or while it waits for a beacon before it associates. */
  predicate Hears(s: State, b: Beacon) {
    && b.onChannel
    && ((s.life.Joined? && s.life.bss.addr == b.bssid)
        || (s.life.Assoc? && s.life.assoc.needBeacon && s.life.assoc.bss.addr == b.bssid))
  }

  /** A changed beacon of the AP the client is joined with: its announcement is processed, and its bandwidth may end
      the association. */
  function AfterContent(s: State, b: Beacon): State { AfterBandwidth(s.life, AfterSwitch(s, b.csa), b.bandwidthOk) }

  function AfterBandwidth(life: Life, m: Mgd, bandwidthOk: bool): State {
    if bandwidthOk then State(life, m.(haveBeacon := true))
    else State(Idle, Ended(m, [TxLeave(m.bssid, true)], true))
  }

  /** It lets a waiting attempt go on at once; to a joined client it is an answer. */
  function AfterHearing(s: State, b: Beacon): State
    requires Hears(s, b)
  {
    if s.life.Assoc? then
      State(Assoc(s.life.assoc.(needBeacon := false, timeout := s.m.now, armed := true)),
            s.m.(haveBeacon := true, timer := Earlier(s.m.timer, s.m.now)))
    else
      var s1 := s.(m := AfterBeacon(s.m, b.postOk));
      if b.sameCrc then s1 else AfterContent(s1, b)
  }

  lemma BandwidthIs(s1: State, b: Beacon)
    ensures var m2 := s1.m.(haveBeacon := true);
            (if b.bandwidthOk then s1.(m := m2)
             else State(Idle, Emit(Leave(m2, true, true), RepDisconnect(true, FromJoined))))
            == AfterBandwidth(s1.life, s1.m, b.bandwidthOk)
  {
    LeftIs(s1.m.(haveBeacon := true), true, true, true);
  }

  lemma ContentOfSwitch(s: State, b: Beacon, m: Mgd)
    requires ProcessChanSwitch(s, b.csa) == s.(m := m)
    ensures BeaconContent(s, b) == AfterBandwidth(s.life, m, b.bandwidthOk)
  {
    BandwidthIs(s.(m := m), b);
  }

  lemma ContentIs(hw: Hw, s: State, b: Beacon, m: Mgd)
    requires ProcessChanSwitch(s, b.csa) == s.(m := m) && m == AfterSwitch(s, b.csa)
    ensures BeaconContent(s, b) == AfterContent(s, b)
  {
    ContentOfSwitch(s, b, m);
  }

  lemma ContentHeard(hw: Hw, s: State, b: Beacon)
    ensures BeaconContent(s, b) == AfterContent(s, b)
  {
    Announced(hw, s, b.csa);
    ContentIs(hw, s, b, AfterSwitch(s, b.csa));
  }

  lemma HeardJoined(s: State, b: Beacon, s1: State)
    requires Hears(s, b) && s.life.Joined? && s1 == s.(m := BeaconSeen(s.m, b.postOk))
    ensures RxBeacon(s, b) == if b.sameCrc then s1 else BeaconContent(s1, b)
  {
  }

  /** What a beacon does; one of another AP, or off the channel, does nothing. */
  lemma Heard(hw: Hw, s: State, b: Beacon)
    ensures Step(hw, s, OpRxBeacon(b)) == if Hears(s, b) then AfterHearing(s, b) else s
  {
    if Hears(s, b) && s.life.Joined? {
      var s1 := s.(m := AfterBeacon(s.m, b.postOk));
      BeaconIs(s.m, b.postOk);
      HeardJoined(s, b, s1);
      ContentHeard(hw, s1, b);
    }
  }

  lemma BeaconIs(m: Mgd, postOk: bool)
    ensures BeaconSeen(m, postOk) == AfterBeacon(m, postOk)
  {
    NoEvents(m.log);
  }

  // ---------------------------------------------------------------------------------------------
  // Polling, notifications and time
  // ---------------------------------------------------------------------------------------------

  /** After the next probe: a nullfunc frame if its status will be reported, otherwise a probe request, unicast until
      all but three of the tries have been made - a number of eight bits. */
  function Probed(hw: Hw, m: Mgd): Mgd {
    var unicast := m.probes < if hw.maxProbeTries <= 4 then 1 else (hw.maxProbeTries - 3) % 256;
    m.(probes := m.probes + 1, probeTimeout := m.now + hw.probeWait, nullFailed := m.nullFailed && !hw.reportsTxAck,
       timer := Earlier(m.timer, m.now + hw.probeWait),
       log := m.log + [if hw.reportsTxAck then TxNullfunc else TxProbe(unicast)])
  }

  lemma Probes(hw: Hw, m: Mgd)
    ensures ProbeSend(hw, m) == Probed(hw, m)
  {
  }

  /** A poll begins with its first probe, if the client is joined and nothing is in the way; a loss of beacons is
      reported in any case. */
  lemma Polls(hw: Hw, s: State, running: bool, busy: bool, loss: bool)
    ensures var s1 := Step(hw, s, OpProbeAp(running, busy, loss));
            if !running || !s.life.Joined? || busy then s1 == s
            else
              var m := if loss then s.m.(log := s.m.log + [RepBeaconLoss]) else s.m;
              s1 == s.(m := if m.polling then m else Probed(hw, m.(polling := true, probes := 0)))
  {
    var m := if loss then s.m.(log := s.m.log + [RepBeaconLoss]) else s.m;
    Probes(hw, m.(polling := true, probes := 0));
  }

  /** The work on a poll: an answered one is over; a failed nullfunc is repeated at once; a probe that is not over is
      waited for, and one that is over is repeated, unless the poll is lost. */
  lemma WorksPoll(hw: Hw, s: State, slack: nat, built: bool)
    requires s.life.Joined? && !PollLost(hw, s.m)
    ensures var m := s.m.(queued := false, status := None);
            Step(hw, s, OpWork(slack, built)) ==
            s.(m := if !m.polling then m
                    else if m.probes == 0 then m.(polling := false)
                    else if !m.nullFailed && m.now < m.probeTimeout then m.(timer := Earlier(m.timer, m.probeTimeout))
                    else Probed(hw, m))
  {
    Probes(hw, s.m.(queued := false, status := None));
  }

  /** The small steps. A status of a nullfunc frame during a poll queues the work; any sign of life from the AP resets
      the count of probes; a response or a finished scan ends a poll. */
  lemma Notified(hw: Hw, s: State, op: Op)
    ensures var s1 := Step(hw, s, op);
            match op
            case OpTxNotify(isData, isNullfunc, ack) =>
              var asked := isData && isNullfunc && s.m.probes > 0;
              s1 == s.(m := s.m.(probes := if isData && ack && s.life.Joined? then 0 else s.m.probes,
                                 nullFailed := s.m.nullFailed || (asked && !ack), queued := s.m.queued || asked))
            case OpRxNotify(multicast) =>
              s1 == s.(m := s.m.(probes := if !multicast && s.life.Joined? then 0 else s.m.probes))
            case OpRxProbeResp(accepted, bssid) =>
              var answers := accepted && s.life.Joined? && s.life.bss.addr == bssid;
              s1 == s.(m := s.m.(polling := s.m.polling && !answers))
            case OpScanDone(running) => s1 == s.(m := s.m.(polling := s.m.polling && !running))
            case OpTxStatus(fc, acked) => s1 == s.(m := s.m.(status := Some((fc, acked)), queued := true))
            case OpTick(d) => s1 == s.(m := s.m.(now := s.m.now + d))
            case OpTimer =>
              var due := s.m.timer.Some? && s.m.timer.value <= s.m.now;
              s1 == s.(m := s.m.(timer := if due then None else s.m.timer, queued := s.m.queued || due))
            case _ => true
  {
  }

  // ---------------------------------------------------------------------------------------------
  // The work on an attempt
  // ---------------------------------------------------------------------------------------------

  /** A TX status that belongs to the attempt. */
  predicate Tells(s: State) {
    s.m.status.Some? && match s.life
                        case Auth(_) => s.m.status.value.0.FcAuth?
                        case Assoc(_) => s.m.status.value.0.FcAssocReq? || s.m.status.value.0.FcReassocReq?
                        case _ => false
  }

  /** An acknowledged frame is waited for from now on: half a second, ten seconds for SAE. One that was not is over. */
  function Until(hw: Hw, s: State): int
    requires Tells(s)
  {
    if !s.m.status.value.1 then s.m.now - 1
    else s.m.now + if s.life.Auth? && s.life.auth.alg.Sae? then 10 * hw.hz else hw.hz / 2
  }

  /** The state as the work sees it once it has read the status. */
  function Told(hw: Hw, s: State): State
    requires s.m.status.Some?
  {
    var m := s.m.(status := None);
    if !Tells(s) then s.(m := m)
    else
      State(match s.life
            case Auth(a) => Auth(a.(armed := true, timeout := Until(hw, s)))
            case Assoc(c) => Assoc(c.(armed := true, timeout := Until(hw, s)))
            case l => l,
            if s.m.status.value.1 then m.(timer := Earlier(m.timer, Until(hw, s))) else m)
  }

  /** The work reads a status that belongs to its attempt as a new deadline, and forgets every other. */
  lemma ReadsStatus(hw: Hw, s: State, slack: nat, built: bool)
    requires s.m.status.Some?
    ensures Step(hw, s, OpWork(slack, built)) == Step(hw, Told(hw, s), OpWork(slack, built))
  {
    var s0 := s.(m := s.m.(queued := false));
    StatusRead(hw, s0);
    var told := Told(hw, s);
    assert ApplyStatus(hw, s0) == Told(hw, s0) == told.(m := told.m.(queued := false));
  }

  lemma StatusRead(hw: Hw, s: State)
    requires s.m.status.Some?
    ensures ApplyStatus(hw, s) == Told(hw, s)
  {
    assert hw.TimeoutShort() == hw.hz / 2;
  }

  /** The work on an authentication: before the deadline it re-arms the timer; after it, a finished one is forgotten
      without a report, one with tries left sends the next frame, and otherwise the timeout is reported. */
  lemma WorksAuth(hw: Hw, s: State, slack: nat, built: bool)
    requires s.life.Auth? && StationRuns.Bounded(s) && s.m.status.None?
    ensures var s1, m, a := Step(hw, s, OpWork(slack, built)), s.m.(queued := false), s.life.auth;
            if m.now <= a.timeout then s1 == State(s.life, m.(timer := Earlier(m.timer, a.timeout)))
            else if a.done then s1 == Failed(m, a.bss.addr, [])
            else if a.tries == 3 then s1 == Failed(m, a.bss.addr, [RepAuthTimeout(a.bss.addr)])
            else
              var deadline := m.now + FirstWait(hw, a.alg, slack);
              var trans := if a.alg.Sae? then a.saeTrans else 1;
              && s1.life.Auth? && Opened(s1.life.auth, trans)
              && s1.life.auth == a.(tries := a.tries + 1, armed := true, timeout := deadline,
                                    expected := s1.life.auth.expected)
              && s1.m == m.(timer := Earlier(m.timer, deadline), log := m.log + [TxAuthOpen(a.bss.addr, trans)])
  {
    NoEvents(s.m.log);
  }

  /** The same for an association; a beacon that was waited for in vain ends it at once. */
  lemma WorksAssoc(hw: Hw, s: State, slack: nat, built: bool)
    requires s.life.Assoc? && StationRuns.Bounded(s) && s.m.status.None?
    ensures var s1, m, c := Step(hw, s, OpWork(slack, built)), s.m.(queued := false), s.life.assoc;
            if m.now <= c.timeout then s1 == State(s.life, m.(timer := Earlier(m.timer, c.timeout)))
            else if c.tries == 3 || (c.needBeacon && !m.haveBeacon) then
              s1 == Failed(m, c.bss.addr, [RepAssocTimeout(c.bss.addr)])
            else
              var deadline := m.now + FirstWait(hw, Open, slack);
              s1 == State(Assoc(c.(tries := c.tries + 1, armed := true, timeout := deadline)),
                          m.(timer := Earlier(m.timer, deadline),
                             log := m.log + if built then [TxAssocReq(c.bss.addr)] else []))
  {
    NoEvents(s.m.log);
  }

  // ---------------------------------------------------------------------------------------------
  // How a connection came about
  // ---------------------------------------------------------------------------------------------

  /** The request that began the attempt with `b` was granted before the last steps `ops[k..]`, and it has gone on
      since. */
  ghost predicate Attempted(hw: Hw, ops: seq<Op>, b: Bss, k: nat) {
    && k < |ops| && ops[k].OpAssoc? && ops[k].assocReq.bss == b
    && MgdAssoc(hw, Run(hw, INIT, ops[..k]), ops[k].assocReq).0 == Ok
    && forall i :: k < i <= |ops| ==> var l := Run(hw, INIT, ops[..i]).life; l.Assoc? && l.assoc.bss == b
  }

  /** The response that accepted the client came with step `j`, and it has been joined since. */
  ghost predicate JoinedAt(hw: Hw, ops: seq<Op>, b: Bss, j: nat) {
    && j < |ops| && JoinsBy(Run(hw, INIT, ops[..j]), ops[j])
    && forall i :: j < i <= |ops| ==> Run(hw, INIT, ops[..i]).life == Joined(b)
  }

  /** Only a granted request begins an attempt, and an attempt keeps its AP. */
  lemma Attempts(hw: Hw, s: State, op: Op)
    requires Step(hw, s, op).life.Assoc?
    ensures var b := Step(hw, s, op).life.assoc.bss;
            || (s.life.Assoc? && s.life.assoc.bss == b)
            || (op.OpAssoc? && op.assocReq.bss == b && MgdAssoc(hw, s, op.assocReq).0 == Ok)
  {
    if op.OpAssoc? {
      AssocRequested(hw, s, op.assocReq);
    }
  }

  lemma {:induction false} AttemptHistory(hw: Hw, ops: seq<Op>) returns (k: nat)
    requires Run(hw, INIT, ops).life.Assoc?
    ensures Attempted(hw, ops, Run(hw, INIT, ops).life.assoc.bss, k)
    decreases |ops|
  {
    var before, op := ops[..|ops| - 1], ops[|ops| - 1];
    var s, b := Run(hw, INIT, before), Run(hw, INIT, ops).life.assoc.bss;
    Attempts(hw, s, op);
    assert ops[..|ops|] == ops;
    if s.life.Assoc? && s.life.assoc.bss == b {
      k := AttemptHistory(hw, before);
      assert before[..k] == ops[..k];
      forall i | k < i <= |ops|
        ensures var l := Run(hw, INIT, ops[..i]).life; l.Assoc? && l.assoc.bss == b
      {
        assert i < |ops| ==> before[..i] == ops[..i];
      }
    } else {
      k := |ops| - 1;
    }
  }

  /** Whoever is joined has asked for it, was accepted later by the AP asked for, while that attempt was still going
      on, and has been joined with it since. */
  lemma {:induction false} ConnectionHistory(hw: Hw, ops: seq<Op>) returns (k: nat, j: nat)
    requires Run(hw, INIT, ops).life.Joined?
    ensures var b := Run(hw, INIT, ops).life.bss;
            k < j < |ops| && Attempted(hw, ops[..j], b, k) && JoinedAt(hw, ops, b, j)
    decreases |ops|
  {
    var before, op := ops[..|ops| - 1], ops[|ops| - 1];
    var s, b := Run(hw, INIT, before), Run(hw, INIT, ops).life.bss;
    Joins(hw, s, op);
    assert ops[..|ops|] == ops;
    if s.life == Joined(b) {
      k, j := ConnectionHistory(hw, before);
      assert before[..j] == ops[..j];
      forall i | j < i <= |ops|
        ensures Run(hw, INIT, ops[..i]).life == Joined(b)
      {
        assert i < |ops| ==> before[..i] == ops[..i];
      }
    } else {
      j := |ops| - 1;
      k := AttemptHistory(hw, before);
    }
  }
}
