/** The client side of an 802.11 connection (mlme.c) as a pure state machine.

    The driver record keeps three pointers (`auth_data`, `assoc_data`, `associated`), a BSSID, one timer
    shared by every phase, and the channel-switch fields. Here the three pointers are one sum type, so a
    state can be in one phase only; module StationDriver holds the in-place code and proves that it never
    leaves this picture. The results of kernel helpers that are not part of the repository are arguments.
  */
module Station {
  import opened Common

  /** A 48-bit MAC address, as a number; 0 is the all-zero address. */
  type Addr = nat

  const ZERO_ADDR: Addr := 0

  /** A scan-table entry: two entries may carry one address, so `entry` stands for the pointer. */
  datatype Bss = Bss(entry: nat, addr: Addr)

  /** What the hardware advertises, and the module parameters. `probeWait` is in jiffies. */
  datatype Hw = Hw(
    hz: nat, reportsTxAck: bool, needDtimBeforeAssoc: bool,
    maxProbeTries: int, maxNullfuncTries: int, probeWait: nat)
  {
    function Period(): nat { hz * 5 }

    function AuthTimeout(): nat { Period() / 5 }

    function TimeoutLong(): nat { Period() / 2 }

    function TimeoutShort(): nat { Period() / 10 }

    function AuthTimeoutSae(): nat { Period() * 2 }

    function AuthWaitAssoc(): nat { Period() * 5 }

    function AssocTimeout(): nat { Period() / 5 }
  }

  const AUTH_MAX_TRIES := 3
  const ASSOC_MAX_TRIES := 3

  datatype Alg = Open | SharedKey | Leap | Ft | Sae | Fils

  datatype AuthRec = AuthRec(
    bss: Bss, alg: Alg, tries: nat, done: bool, armed: bool, timeout: int, expected: nat, saeTrans: nat)

  datatype AssocRec = AssocRec(bss: Bss, tries: nat, armed: bool, timeout: int, needBeacon: bool)

  /** The phase of the connection: at most one of the driver's three pointers is set. */
  datatype Life = Idle | Auth(auth: AuthRec) | Assoc(assoc: AssocRec) | Joined(bss: Bss)
  {
    /** The AP this phase talks to. */
    function Peer(): Option<Bss> {
      match this
      case Idle => None
      case Auth(a) => Some(a.bss)
      case Assoc(c) => Some(c.bss)
      case Joined(b) => Some(b)
    }
  }

  datatype Fc = FcAuth | FcAssocReq | FcReassocReq | FcOther

  /** The phase a reported disconnect ended; kept for the history only. */
  datatype Ended = FromAuth | FromAuthDone | FromAssoc | FromJoined

  /** Frames sent and events reported. `BeginAuth` and `BeginAssoc` mark an accepted user request. */
  datatype Event =
    | BeginAuth(to: Addr) | TxAuthOpen(to: Addr, trans: nat) | TxAuthReply(to: Addr)
    | RepAuthTimeout(to: Addr) | RepAuthDenied(to: Addr) | RepAuthDone(to: Addr) | RepAuthFrame(to: Addr)
    | BeginAssoc(to: Addr) | TxAssocReq(to: Addr)
    | RepAssocTimeout(to: Addr) | RepAssocResp(to: Addr, success: bool) | RepAbandon(to: Addr)
    | TxProbe(unicast: bool) | TxNullfunc | RepBeaconLoss
    | TxLeave(to: Addr, deauth: bool) | RepRxDeauth(to: Addr) | RepDisconnect(local: bool, ended: Ended)
    | StopQueues | WakeQueues | QueueSwitchWork | ArmSwitchTimer(delay: nat) | QueueDropWork
    | CsaStarted | CsaFinished

  /** Channel-switch fields; `stopped` says that the queues are stopped with the CSA reason. */
  datatype Csa = Csa(active: bool, blockTx: bool, waitingBcn: bool, ignoredSame: bool, stopped: bool)

  /** Everything but the phase. `known` is the station table restricted to access points. */
  datatype Mgd = Mgd(
    bssid: Addr, known: set<Addr>, polling: bool, probes: nat, nullFailed: bool, probeTimeout: int,
    haveBeacon: bool, csa: Csa, timer: Option<int>, queued: bool, now: int,
    status: Option<(Fc, bool)>, log: seq<Event>)

  datatype State = State(life: Life, m: Mgd)

  const INIT: State := State(Idle, Mgd(ZERO_ADDR, {}, false, 0, false, 0, false,
                                       Csa(false, false, false, false, false), None, false, 0, None, []))

  // ---------------------------------------------------------------------------------------------
  // Pieces shared by several operations
  // ---------------------------------------------------------------------------------------------

  /** Re-arm the shared timer only when it is not pending or would fire later. */
  function RunAgain(m: Mgd, timeout: int): Mgd {
    if m.timer.None? || timeout < m.timer.value then m.(timer := Some(timeout)) else m
  }

  function Emit(m: Mgd, e: Event): Mgd { m.(log := m.log + [e]) }

  function EmitIf(m: Mgd, cond: bool, e: Event): Mgd { if cond then Emit(m, e) else m }

  /** The channel-switch fields after a disconnect: queues are woken only when they were blocked. */
  function CsaReset(c: Csa): Csa { Csa(false, false, false, false, c.stopped && !c.blockTx) }

  /** Leave the associated phase; `tx` says whether the leave frame goes on the air. */
  function Leave(m: Mgd, deauth: bool, tx: bool): Mgd {
    EmitIf(EmitIf(m, tx, TxLeave(m.bssid, deauth)), m.csa.blockTx, WakeQueues)
    .(bssid := ZERO_ADDR, known := {}, polling := false, haveBeacon := false, timer := None, csa := CsaReset(m.csa))
  }

  /** Give up an authentication or association that did not succeed. */
  function Drop(m: Mgd, peer: Bss): Mgd {
    m.(timer := None, known := m.known - {peer.addr}, bssid := ZERO_ADDR, polling := false)
  }

  /** Clear the poll flag when an answer from the AP arrives. */
  function StopPoll(m: Mgd): Mgd { m.(polling := false) }

  function ResetConnMonitor(life: Life, m: Mgd): Mgd {
    if life.Joined? then m.(probes := 0) else m
  }

  /** The first tries of a probe are unicast; the limit is stored in eight bits. */
  function UnicastLimit(hw: Hw): nat {
    (if hw.maxProbeTries - 3 > 1 then hw.maxProbeTries - 3 else 1) % 256
  }

  function ProbeSend(hw: Hw, m: Mgd): Mgd {
    var m1 := m.(probes := m.probes + 1, probeTimeout := m.now + hw.probeWait,
                 nullFailed := m.nullFailed && !hw.reportsTxAck);
    RunAgain(Emit(m1, if hw.reportsTxAck then TxNullfunc else TxProbe(m.probes < UnicastLimit(hw))),
             m1.probeTimeout)
  }

  /** Results of the helpers used while preparing a connection. */
  datatype Prep = Prep(reconfig: bool, staAllocOk: bool, channelOk: bool, insertOk: bool)

  datatype Code = Ok | Eopnotsupp | Enomem | Einval | Ebusy | Einsert | Enotconn | Enolink

  /** Bring up the station entry and the channel for `peer`. On success the entry is in the table; the
      BSSID is written only when the entry is new. */
  function PrepConnection(m: Mgd, peer: Bss, assoc: bool, override: bool, p: Prep): (Code, Mgd) {
    var haveSta := assoc && peer.addr in m.known;
    var m1 := if haveSta then m else m.(bssid := peer.addr);
    if p.reconfig then (Ebusy, m)
    else if !haveSta && !p.staAllocOk then (Enomem, m)
    else if (!haveSta || override) && !p.channelOk then (Einval, m1)
    else if !haveSta && !p.insertOk then (Einsert, m1)
    else (Ok, if haveSta then m else m1.(known := m1.known + {peer.addr}))
  }

  // ---------------------------------------------------------------------------------------------
  // User requests
  // ---------------------------------------------------------------------------------------------

  /** `slack` is what round_jiffies_up adds; it never moves a deadline earlier. */
  datatype AuthReq = AuthReq(bss: Bss, alg: Option<Alg>, allocOk: bool, saeTrans: nat, prep: Prep, slack: nat)

  function AuthDeadline(hw: Hw, alg: Alg, now: int, slack: nat): int {
    if hw.reportsTxAck then now + hw.TimeoutLong() + slack
    else if alg == Sae then now + hw.AuthTimeoutSae()
    else now + hw.AuthTimeout()
  }

  /** Send one opening authentication frame. */
  function SendAuth(hw: Hw, s: State, slack: nat): State
    requires s.life.Auth?
  {
    var a := s.life.auth;
    var trans := if a.alg == Sae then a.saeTrans else 1;
    var expected := if a.alg == Sae then trans else 2;
    var deadline := AuthDeadline(hw, a.alg, s.m.now, slack);
    State(Auth(a.(tries := a.tries + 1, expected := expected, armed := true, timeout := deadline)),
          RunAgain(Emit(s.m, TxAuthOpen(a.bss.addr, trans)), deadline))
  }

  /** Start to authenticate, or clear the BSSID and stay idle. */
  function AuthStart(hw: Hw, m: Mgd, r: AuthReq): (Code, State)
    requires r.alg.Some?
  {
    var (code, m1) := PrepConnection(m, r.bss, false, false, r.prep);
    if code != Ok then (code, State(Idle, m1.(bssid := ZERO_ADDR)))
    else
      var blank := AuthRec(r.bss, r.alg.value, 0, false, false, 0, 0, r.saeTrans);
      (Ok, SendAuth(hw, State(Auth(blank), Emit(m1, BeginAuth(r.bss.addr))), r.slack))
  }

  function MgdAuth(hw: Hw, s: State, r: AuthReq): (Code, State) {
    if r.alg.None? then (Eopnotsupp, s)
    else if !r.allocOk then (Enomem, s)
    else if (s.life.Auth? && !s.life.auth.done) || s.life.Assoc? then (Ebusy, s)
    else
      var m1 := match s.life
                case Auth(a) => Drop(s.m, a.bss)
                case Joined(_) => Emit(Leave(s.m, true, false), RepDisconnect(true, FromJoined))
                case _ => s.m;
      AuthStart(hw, m1, r)
  }

  /** `filsTooLong`: the FILS key is longer than FILS_MAX_KEK_LEN. `beaconWait`: one beacon interval, in jiffies. */
  datatype AssocReq = AssocReq(
    bss: Bss, allocOk: bool, ssidOk: bool, filsTooLong: bool, override: bool, prep: Prep,
    haveBeaconIes: bool, beaconWait: nat)

  /** The state in which an association request is examined: an existing connection is dropped first. */
  function BeforeAssoc(s: State): State {
    if s.life.Joined? then State(Idle, Emit(Leave(s.m, true, false), RepDisconnect(true, FromJoined))) else s
  }

  /** The fields kept from a finished authentication: all of them when it was with the same BSSID. */
  function Retain(s: State, r: AssocReq): Mgd {
    if s.life.Auth? && s.m.bssid != r.bss.addr then Drop(s.m, s.life.auth.bss) else s.m
  }

  /** Wait for one beacon, or let the work send the first request at once. */
  function AssocArm(hw: Hw, m: Mgd, r: AssocReq): State {
    var wait := hw.needDtimBeforeAssoc && !r.haveBeaconIes;
    var deadline := if wait then m.now + r.beaconWait else m.now;
    State(Assoc(AssocRec(r.bss, 0, true, deadline, wait)),
          RunAgain(Emit(m.(haveBeacon := if wait then m.haveBeacon else r.haveBeaconIes), BeginAssoc(r.bss.addr)),
                   deadline))
  }

  /** Start to associate, or clear the BSSID and stay idle. */
  function AssocStart(hw: Hw, m: Mgd, r: AssocReq): (Code, State) {
    var (code, m1) := PrepConnection(m.(haveBeacon := false), r.bss, true, r.override, r.prep);
    if code != Ok then (code, State(Idle, m1.(bssid := ZERO_ADDR)))
    else (Ok, AssocArm(hw, m1, r))
  }

  function MgdAssoc(hw: Hw, s: State, r: AssocReq): (Code, State) {
    if !r.allocOk then (Enomem, s)
    else if !r.ssidOk then (Einval, s)
    else
      var s1 := BeforeAssoc(s);
      if (s1.life.Auth? && !s1.life.auth.done) || s1.life.Assoc? then (Ebusy, s1)
      else
        var m2 := Retain(s1, r);
        if r.filsTooLong then (Einval, State(Idle, m2)) else AssocStart(hw, m2, r)
  }

  /** `tx` is false for a local state change only. */
  function MgdDeauth(s: State, addr: Addr, tx: bool): (Code, State) {
    var m0 := EmitIf(s.m, tx, TxLeave(addr, true));
    match s.life
    case Auth(a) =>
      if a.bss.addr != addr then (Enotconn, s)
      else
        var m1 := Drop(m0, a.bss);
        (Ok, State(Idle, Emit(m1, RepDisconnect(true, if a.done then FromAuthDone else FromAuth))))
    case Assoc(c) =>
      if c.bss.addr != addr then (Enotconn, s)
      else
        (Ok, State(Idle, Emit(Emit(Drop(m0, c.bss), RepAbandon(addr)), RepDisconnect(true, FromAssoc))))
    case Joined(b) =>
      if b.addr != addr then (Enotconn, s)
      else (Ok, State(Idle, Emit(Leave(s.m, true, tx), RepDisconnect(true, FromJoined))))
    case Idle => (Enotconn, s)
  }

  function MgdDisassoc(s: State, bss: Bss, tx: bool): (Code, State) {
    if s.life != Joined(bss) then (Enolink, s)
    else (Ok, State(Idle, Emit(Leave(s.m, false, tx), RepDisconnect(true, FromJoined))))
  }

  // ---------------------------------------------------------------------------------------------
  // Received management frames
  // ---------------------------------------------------------------------------------------------

  datatype AuthFrame = AuthFrame(
    len: nat, bssid: Addr, alg: Alg, trans: nat, success: bool, challenge: bool, moveOk: bool)

  /** Wait for an association request; report the frame unless the station entry could not be moved on. */
  function AuthDone(hw: Hw, a: AuthRec, m: Mgd, f: AuthFrame): State {
    var deadline := m.now + hw.AuthWaitAssoc();
    var m1 := RunAgain(Emit(m, RepAuthDone(a.bss.addr)), deadline);
    var reported := (a.alg == Sae && a.expected != 2) || (a.bss.addr in m1.known && f.moveOk);
    State(Auth(a.(done := true, armed := true, timeout := deadline)), EmitIf(m1, reported, RepAuthFrame(a.bss.addr)))
  }

  function RxAuth(hw: Hw, s: State, f: AuthFrame): State {
    if f.len < 30 || !s.life.Auth? then s
    else
      var a := s.life.auth;
      if a.done || a.bss.addr != f.bssid || f.alg != a.alg || f.trans != a.expected then s
      else if !f.success then State(Idle, Emit(Drop(s.m, a.bss), RepAuthDenied(a.bss.addr)))
      else if a.alg == SharedKey && a.expected != 4 then
        if f.challenge then State(Auth(a.(expected := 4)), Emit(s.m, TxAuthReply(a.bss.addr))) else s
      else
        AuthDone(hw, a, s.m, f)
  }

  datatype AssocStatus = Success | Denied | ComeBack(tu: nat)

  /** `tu` is an unsigned 32-bit number of time units; the product with 1024 wraps. */
  function ComeBackMs(tu: nat): nat { ((tu * 1024) % 0x1_0000_0000) / 1000 }

  function MsToJiffies(hw: Hw, ms: nat): nat { (ms * hw.hz + 999) / 1000 }

  /** `acceptOk` stands for the checks of the element contents; `unicast`: the frame was addressed to us. */
  datatype AssocFrame = AssocFrame(
    len: nat, bssid: Addr, decryptOk: bool, status: AssocStatus, acceptOk: bool, unicast: bool)

  function RxAssocResp(hw: Hw, s: State, f: AssocFrame): State {
    if !s.life.Assoc? || s.life.assoc.bss.addr != f.bssid || f.len < 30 || !f.decryptOk then s
    else
      var c := s.life.assoc;
      match f.status
      case ComeBack(tu) =>
        var ms := ComeBackMs(tu);
        var deadline := s.m.now + MsToJiffies(hw, ms);
        State(Assoc(c.(timeout := deadline, armed := true)),
              if ms > hw.AssocTimeout() then RunAgain(s.m, deadline) else s.m)
      case Denied =>
        State(Idle, Emit(Drop(s.m, c.bss), RepAssocResp(c.bss.addr, false)))
      case Success =>
        if !f.acceptOk || c.bss.addr !in s.m.known then
          State(Idle, Emit(Drop(s.m, c.bss), RepAssocTimeout(c.bss.addr)))
        else
          var m1 := s.m.(bssid := c.bss.addr, polling := false,
                         probes := if f.unicast then 0 else s.m.probes);
          State(Joined(c.bss), Emit(m1, RepAssocResp(c.bss.addr, true)))
  }

  datatype LeaveFrame = LeaveFrame(len: nat, bssid: Addr, sa: Addr)

  function RxDeauth(s: State, f: LeaveFrame): State {
    if f.len < 26 || f.bssid != f.sa then s
    else
      match s.life
      case Joined(b) =>
        if b.addr == f.bssid then State(Idle, Emit(Leave(s.m, true, false), RepDisconnect(false, FromJoined))) else s
      case Assoc(c) =>
        if c.bss.addr == f.bssid then
          State(Idle, Emit(Emit(Drop(s.m, c.bss), RepAbandon(c.bss.addr)), RepRxDeauth(c.bss.addr)))
        else s
      case _ => s
  }

  function RxDisassoc(s: State, f: LeaveFrame): State {
    if f.len < 26 || !s.life.Joined? || s.life.bss.addr != f.bssid || f.bssid != f.sa then s
    else State(Idle, Emit(Leave(s.m, true, false), RepDisconnect(false, FromJoined)))
  }

  /** `accepted`: the frame is long enough and was sent to our address. */
  function RxProbeResp(s: State, accepted: bool, bssid: Addr): State {
    if accepted && s.life.Joined? && s.life.bss.addr == bssid then s.(m := StopPoll(s.m)) else s
  }

  // ---------------------------------------------------------------------------------------------
  // Channel switching
  // ---------------------------------------------------------------------------------------------

  datatype CsaElem = BadElem | NoElem | SwitchTo(mode: bool, count: nat, usable: bool, sameChannel: bool)

  /** A channel-switch announcement and what the helpers answer to it. `step` is one beacon interval in jiffies. */
  datatype CsaEnv = CsaEnv(
    scanning: bool, elem: CsaElem, haveContext: bool, contextCsaOk: bool, preOk: bool, reserveOk: bool,
    driverSwitch: bool, step: nat)

  /** The driver switches by itself; in software the switch waits for all but one of the announced beacons. */
  function StartSwitch(m: Mgd, e: CsaEnv, mode: bool, count: nat): Mgd {
    var c := m.csa.(active := true, blockTx := mode, ignoredSame := false, stopped := m.csa.stopped || mode);
    EmitIf(Emit(EmitIf(m.(csa := c), mode, StopQueues), CsaStarted), !e.driverSwitch,
           if count <= 1 then QueueSwitchWork else ArmSwitchTimer((count - 1) * e.step))
  }

  function ProcessChanSwitch(s: State, e: CsaEnv): State {
    if !s.life.Joined? || e.scanning || s.m.csa.active then s
    else
      match e.elem
      case BadElem => s.(m := Emit(s.m, QueueDropWork))
      case NoElem => s
      case SwitchTo(mode, count, usable, same) =>
        if !usable then s.(m := Emit(s.m, QueueDropWork))
        else if same then s.(m := s.m.(csa := s.m.csa.(ignoredSame := true)))
        else if !e.haveContext || !e.contextCsaOk || !e.preOk || !e.reserveOk then
          s.(m := Emit(s.m.(csa := s.m.csa.(active := true, blockTx := mode)), QueueDropWork))
        else s.(m := StartSwitch(s.m, e, mode, count))
  }

  datatype SwitchEnv = SwitchEnv(running: bool, reserved: bool, ready: bool, useOk: bool, identical: bool)

  function ChswitchWork(s: State, e: SwitchEnv): State {
    if !e.running || !s.life.Joined? || !s.m.csa.active then s
    else if e.reserved then
      if e.ready || e.useOk then s else s.(m := Emit(s.m, QueueDropWork))
    else if !e.identical then s.(m := Emit(s.m, QueueDropWork))
    else s.(m := ResetConnMonitor(s.life, s.m.(csa := s.m.csa.(waitingBcn := true))))
  }

  function PostBeacon(m: Mgd, postOk: bool): Mgd {
    var c := m.csa.(active := false, blockTx := false, waitingBcn := false, stopped := m.csa.stopped && !m.csa.blockTx);
    Emit(EmitIf(m.(csa := c), m.csa.blockTx, WakeQueues), if postOk then CsaFinished else QueueDropWork)
  }

  /** Beacon: `onChannel` covers the length and frequency checks, `sameCrc` the unchanged-content check. */
  datatype Beacon = Beacon(
    onChannel: bool, bssid: Addr, sameCrc: bool, postOk: bool, csa: CsaEnv, bandwidthOk: bool)

  /** Any beacon of our AP: it answers a poll, and it completes a switch that waits for it. */
  function BeaconSeen(m: Mgd, postOk: bool): Mgd {
    if m.csa.waitingBcn then PostBeacon(StopPoll(m), postOk) else StopPoll(m)
  }

  /** The content of a changed beacon. */
  function BeaconContent(s: State, b: Beacon): State {
    var s1 := ProcessChanSwitch(s, b.csa);
    var m2 := s1.m.(haveBeacon := true);
    if b.bandwidthOk then s1.(m := m2) else State(Idle, Emit(Leave(m2, true, true), RepDisconnect(true, FromJoined)))
  }

  function RxBeacon(s: State, b: Beacon): State {
    if !b.onChannel then s
    else if s.life.Assoc? && s.life.assoc.needBeacon && s.life.assoc.bss.addr == b.bssid then
      State(Assoc(s.life.assoc.(needBeacon := false, timeout := s.m.now, armed := true)),
            RunAgain(s.m.(haveBeacon := true), s.m.now))
    else if !s.life.Joined? || s.life.bss.addr != b.bssid then s
    else
      var s1 := s.(m := BeaconSeen(s.m, b.postOk));
      if b.sameCrc then s1 else BeaconContent(s1, b)
  }

  // ---------------------------------------------------------------------------------------------
  // Connection monitoring
  // ---------------------------------------------------------------------------------------------

  /** `busy`: off-channel or scanning. `beaconLoss`: called for missed beacons. */
  function ProbeAp(hw: Hw, s: State, running: bool, busy: bool, beaconLoss: bool): State {
    if !running || !s.life.Joined? || busy then s
    else
      var m1 := if beaconLoss then Emit(s.m, RepBeaconLoss) else s.m;
      s.(m := if m1.polling then m1 else ProbeSend(hw, m1.(polling := true, probes := 0)))
  }

  /** The work run for a lost connection and for a failed channel switch. */
  function Disconnect(s: State): State {
    if !s.life.Joined? then s
    else State(Idle, Emit(Leave(s.m, true, !s.m.csa.blockTx), RepDisconnect(!s.m.csa.blockTx, FromJoined)))
  }

  function TxNotify(s: State, isData: bool, isNullfunc: bool, ack: bool): State {
    if !isData then s
    else if isNullfunc && s.m.probes > 0 then
      s.(m := (if ack then ResetConnMonitor(s.life, s.m) else s.m.(nullFailed := true)).(queued := true))
    else if ack then s.(m := ResetConnMonitor(s.life, s.m))
    else s
  }

  function RxNotify(s: State, multicast: bool): State {
    if multicast then s else s.(m := ResetConnMonitor(s.life, s.m))
  }

  /** A finished scan ends a poll; the work that starts a new one may run at any time. */
  function ScanDone(s: State, running: bool): State {
    if running then s.(m := StopPoll(s.m)) else s
  }

  function ConnTxStatus(s: State, fc: Fc, acked: bool): State {
    s.(m := s.m.(status := Some((fc, acked)), queued := true))
  }

  // ---------------------------------------------------------------------------------------------
  // Time, the shared timer and its work
  // ---------------------------------------------------------------------------------------------

  function Tick(s: State, d: nat): State { s.(m := s.m.(now := s.m.now + d)) }

  /** The timer interrupt does nothing but queue the work. */
  function TimerFire(s: State): State {
    if s.m.timer.Some? && s.m.timer.value <= s.m.now then s.(m := s.m.(timer := None, queued := true)) else s
  }

  /** Give up the wait for a frame: the timed-out phase sends again, or ends. */
  function WorkAuth(hw: Hw, s: State, slack: nat): State
    requires s.life.Auth?
  {
    var a := s.life.auth;
    if !a.armed then s
    else if s.m.now <= a.timeout then s.(m := RunAgain(s.m, a.timeout))
    else if a.done then State(Idle, Drop(s.m, a.bss))
    else if a.tries >= AUTH_MAX_TRIES then State(Idle, Emit(Drop(s.m, a.bss), RepAuthTimeout(a.bss.addr)))
    else SendAuth(hw, s, slack)
  }

  function AssocDeadline(hw: Hw, now: int, slack: nat): int {
    if hw.reportsTxAck then now + hw.TimeoutLong() + slack else now + hw.AssocTimeout()
  }

  /** `built`: the request frame could be built. */
  function WorkAssoc(hw: Hw, s: State, slack: nat, built: bool): State
    requires s.life.Assoc?
  {
    var c := s.life.assoc;
    if !c.armed then s
    else if s.m.now <= c.timeout then s.(m := RunAgain(s.m, c.timeout))
    else if (c.needBeacon && !s.m.haveBeacon) || c.tries >= ASSOC_MAX_TRIES then
      State(Idle, Emit(Drop(s.m, c.bss), RepAssocTimeout(c.bss.addr)))
    else
      var deadline := AssocDeadline(hw, s.m.now, slack);
      State(Assoc(c.(tries := c.tries + 1, armed := true, timeout := deadline)),
            RunAgain(if built then Emit(s.m, TxAssocReq(c.bss.addr)) else s.m, deadline))
  }

  function MaxTries(hw: Hw): int { if hw.reportsTxAck then hw.maxNullfuncTries else hw.maxProbeTries }

  function WorkPoll(hw: Hw, s: State): State
    requires s.life.Joined?
  {
    var lost := State(Idle, Emit(Leave(s.m, true, false), RepDisconnect(true, FromJoined)));
    var again := s.m.probes < MaxTries(hw);
    if !s.m.polling then s
    else if s.m.probes == 0 then s.(m := StopPoll(s.m))
    else if s.m.nullFailed then (if again then s.(m := ProbeSend(hw, s.m)) else lost)
    else if s.m.now < s.m.probeTimeout then s.(m := RunAgain(s.m, s.m.probeTimeout))
    else if hw.reportsTxAck || !again then lost
    else s.(m := ProbeSend(hw, s.m))
  }

  /** Use a TX status to shorten the wait, or to end it at once when the frame was not acknowledged. */
  function ApplyStatus(hw: Hw, s: State): State {
    match s.m.status
    case None => s
    case Some((fc, acked)) =>
      var m1 := s.m.(status := None);
      match s.life
      case Auth(a) =>
        if fc != FcAuth then s.(m := m1)
        else
          var deadline := if !acked then m1.now - 1
                          else m1.now + (if a.alg == Sae then hw.AuthTimeoutSae() else hw.TimeoutShort());
          State(Auth(a.(armed := true, timeout := deadline)), if acked then RunAgain(m1, deadline) else m1)
      case Assoc(c) =>
        if fc != FcAssocReq && fc != FcReassocReq then s.(m := m1)
        else
          var deadline := if acked then m1.now + hw.TimeoutShort() else m1.now - 1;
          State(Assoc(c.(armed := true, timeout := deadline)), if acked then RunAgain(m1, deadline) else m1)
      case _ => s.(m := m1)
  }

  /** The work item behind the shared timer. It also runs, queued or not, when frames have been received. */
  function StaWork(hw: Hw, s: State, slack: nat, built: bool): State {
    var s1 := ApplyStatus(hw, s.(m := s.m.(queued := false)));
    match s1.life
    case Idle => s1
    case Auth(_) => WorkAuth(hw, s1, slack)
    case Assoc(_) => WorkAssoc(hw, s1, slack, built)
    case Joined(_) => WorkPoll(hw, s1)
  }

  // ---------------------------------------------------------------------------------------------
  // Runs
  // ---------------------------------------------------------------------------------------------

  datatype Op =
    | OpAuth(authReq: AuthReq) | OpAssoc(assocReq: AssocReq)
    | OpDeauth(addr: Addr, tx: bool) | OpDisassoc(bss: Bss, tx: bool)
    | OpRxAuth(authFrame: AuthFrame) | OpRxAssocResp(assocFrame: AssocFrame)
    | OpRxDeauth(leaveFrame: LeaveFrame) | OpRxDisassoc(leaveFrame: LeaveFrame)
    | OpRxProbeResp(accepted: bool, bssid: Addr) | OpRxBeacon(beacon: Beacon)
    | OpRxSwitch(csaEnv: CsaEnv) | OpSwitchWork(switchEnv: SwitchEnv)
    | OpProbeAp(running: bool, busy: bool, beaconLoss: bool) | OpDisconnect
    | OpTxNotify(isData: bool, isNullfunc: bool, ack: bool) | OpRxNotify(multicast: bool)
    | OpTxStatus(fc: Fc, acked: bool) | OpScanDone(running: bool)
    | OpTick(d: nat) | OpTimer | OpWork(slack: nat, built: bool)

  function Step(hw: Hw, s: State, op: Op): State {
    match op
    case OpAuth(r) => MgdAuth(hw, s, r).1
    case OpAssoc(r) => MgdAssoc(hw, s, r).1
    case OpDeauth(addr, tx) => MgdDeauth(s, addr, tx).1
    case OpDisassoc(bss, tx) => MgdDisassoc(s, bss, tx).1
    case OpRxAuth(f) => RxAuth(hw, s, f)
    case OpRxAssocResp(f) => RxAssocResp(hw, s, f)
    case OpRxDeauth(f) => RxDeauth(s, f)
    case OpRxDisassoc(f) => RxDisassoc(s, f)
    case OpRxProbeResp(accepted, bssid) => RxProbeResp(s, accepted, bssid)
    case OpRxBeacon(b) => RxBeacon(s, b)
    case OpRxSwitch(e) => ProcessChanSwitch(s, e)
    case OpSwitchWork(e) => ChswitchWork(s, e)
    case OpProbeAp(running, busy, loss) => ProbeAp(hw, s, running, busy, loss)
    case OpDisconnect => Disconnect(s)
    case OpTxNotify(isData, isNull, ack) => TxNotify(s, isData, isNull, ack)
    case OpRxNotify(multicast) => RxNotify(s, multicast)
    case OpTxStatus(fc, acked) => ConnTxStatus(s, fc, acked)
    case OpScanDone(running) => ScanDone(s, running)
    case OpTick(d) => Tick(s, d)
    case OpTimer => TimerFire(s)
    case OpWork(slack, built) => StaWork(hw, s, slack, built)
  }

  /** The state after a whole run. */
  function Run(hw: Hw, s: State, ops: seq<Op>): State {
    if ops == [] then s else Step(hw, Run(hw, s, ops[..|ops| - 1]), ops[|ops| - 1])
  }
}
