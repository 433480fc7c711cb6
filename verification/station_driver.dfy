/** The in-place form of the client (mlme.c): three pointers, flags, a BSSID and one shared timer, changed
    field by field under the interface lock. Every entry point is proved to do what the pure machine of
    module Station does, and to leave at most one of the three pointers set. */
module StationDriver {
  import opened Common
  import opened Station

  class AuthData {
    var bss: Bss
    var algorithm: Alg
    var tries: nat
    var done: bool
    var timeoutStarted: bool
    var timeout: int
    var expectedTransaction: nat
    var saeTrans: nat

    constructor (bss: Bss, algorithm: Alg, saeTrans: nat)
      ensures Rec() == AuthRec(bss, algorithm, 0, false, false, 0, 0, saeTrans)
    {
      this.bss := bss;
      this.algorithm := algorithm;
      this.saeTrans := saeTrans;
      tries, done, timeoutStarted, timeout, expectedTransaction := 0, false, false, 0, 0;
    }

    /** Start the timeout of this attempt, or move it. */
    method Arm(deadline: int)
      modifies this`timeout, this`timeoutStarted
      ensures timeout == deadline && timeoutStarted
    {
      timeout := deadline;
      timeoutStarted := true;
    }

    ghost function Rec(): AuthRec
      reads this
    {
      AuthRec(bss, algorithm, tries, done, timeoutStarted, timeout, expectedTransaction, saeTrans)
    }
  }

  class AssocData {
    var bss: Bss
    var tries: nat
    var timeoutStarted: bool
    var timeout: int
    var needBeacon: bool

    constructor (bss: Bss)
      ensures Rec() == AssocRec(bss, 0, false, 0, false)
    {
      this.bss := bss;
      tries, timeoutStarted, timeout, needBeacon := 0, false, 0, false;
    }

    /** Start the timeout of this attempt, or move it. */
    method Arm(deadline: int)
      modifies this`timeout, this`timeoutStarted
      ensures timeout == deadline && timeoutStarted
    {
      timeout := deadline;
      timeoutStarted := true;
    }

    ghost function Rec(): AssocRec
      reads this
    {
      AssocRec(bss, tries, timeoutStarted, timeout, needBeacon)
    }
  }

  class Managed {
    const hw: Hw

    var authData: AuthData?
    var assocData: AssocData?
    var associated: Option<Bss>
    var bssid: Addr
    var known: set<Addr>
    var connectionPoll: bool
    var probeSendCount: nat
    var nullfuncFailed: bool
    var probeTimeout: int
    var haveBeacon: bool
    var csa: Csa  // the channel-switch flags of the interface and of its client record
    var timer: Option<int>
    var workQueued: bool
    var jiffies: int
    var status: Option<(Fc, bool)>
    ghost var log: seq<Event>

    /** At most one of the three pointers is set whenever the lock is free. */
    ghost predicate Valid()
      reads this
    {
      (authData == null || assocData == null) && (associated.Some? ==> authData == null && assocData == null)
    }

    ghost function M(): Mgd
      reads this
    {
      Mgd(bssid, known, connectionPoll, probeSendCount, nullfuncFailed, probeTimeout, haveBeacon,
          csa, timer, workQueued, jiffies, status, log)
    }

    ghost function Phase(): Life
      reads this, authData, assocData
    {
      if authData != null then Auth(authData.Rec())
      else if assocData != null then Assoc(assocData.Rec())
      else if associated.Some? then Joined(associated.value)
      else Idle
    }

    ghost function View(): State
      reads this, authData, assocData
    {
      State(Phase(), M())
    }

    constructor (hw: Hw)
      ensures Valid() && View() == INIT && this.hw == hw
    {
      this.hw := hw;
      authData, assocData, associated := null, null, None;
      bssid, known, connectionPoll, probeSendCount, nullfuncFailed := ZERO_ADDR, {}, false, 0, false;
      probeTimeout, haveBeacon := 0, false;
      csa := Csa(false, false, false, false, false);
      timer, workQueued, jiffies, status, log := None, false, 0, None, [];
    }

    // -------------------------------------------------------------------------------------------
    // Helpers, called with the lock held and possibly between two phases
    // -------------------------------------------------------------------------------------------

    method RunAgain(timeout: int)
      modifies this`timer
      ensures timer == if old(timer).None? || timeout < old(timer).value then Some(timeout) else old(timer)
    {
      if timer.None? || timeout < timer.value {
        timer := Some(timeout);
      }
    }

    ghost method Report(e: Event)
      modifies this`log
      ensures log == old(log) + [e]
    {
      log := log + [e];
    }

    method ResetConnMonitor()
      modifies this`probeSendCount
      ensures probeSendCount == if associated.Some? then 0 else old(probeSendCount)
    {
      if associated.None? {
        return;
      }
      if probeSendCount != 0 {
        probeSendCount := 0;
      }
    }

    method DestroyAuthData(assoc: bool)
      requires authData != null
      modifies this
      ensures authData == null && assocData == old(assocData) && associated == old(associated)
      ensures M() == if assoc then old(M()) else Drop(old(M()), old(authData.bss))
    {
      if !assoc {
        ForgetPeer();
        known := known - {authData.bss.addr};
      }
      authData := null;
    }

    method DestroyAssocData(abandon: bool)
      requires assocData != null
      modifies this
      ensures assocData == null && authData == old(authData) && associated == old(associated)
      ensures M() == EmitIf(Drop(old(M()), old(assocData.bss)), abandon, RepAbandon(old(assocData.bss.addr)))
    {
      ForgetPeer();
      known := known - {assocData.bss.addr};
      if abandon {
        Report(RepAbandon(assocData.bss.addr));
      }
      assocData := null;
    }

    /** Forget the switch that is over, and wake the queues if it had blocked them. */
    method EndSwitch()
      modifies this`csa, this`log
      ensures csa == old(csa).(active := false, waitingBcn := false, blockTx := false,
                               stopped := old(csa.stopped && !csa.blockTx))
      ensures log == if old(csa.blockTx) then old(log) + [WakeQueues] else old(log)
    {
      csa := csa.(active := false, waitingBcn := false);
      if csa.blockTx {
        csa := csa.(stopped := false, blockTx := false);
        log := log + [WakeQueues];
      }
    }

    /** No BSSID, no shared timer, no poll: what every failed or ended phase leaves behind. */
    method ForgetPeer()
      modifies this`timer, this`bssid, this`connectionPoll
      ensures timer.None? && bssid == ZERO_ADDR && !connectionPoll
    {
      timer := None;
      bssid := ZERO_ADDR;
      connectionPoll := false;
    }

    method ClearAssociation()
      modifies this`associated, this`timer, this`bssid, this`connectionPoll, this`known, this`haveBeacon
      modifies this`csa, this`log
      ensures associated.None? && timer.None? && bssid == ZERO_ADDR && !connectionPoll && known == {} && !haveBeacon
      ensures csa == CsaReset(old(csa))
      ensures log == if old(csa.blockTx) then old(log) + [WakeQueues] else old(log)
    {
      associated := None;
      ForgetPeer();
      known := {};
      haveBeacon := false;
      EndSwitch();
      csa := csa.(ignoredSame := false);
    }

    /** The end of an association: an optional frame to the AP, everything cleared, and a report upwards. */
    method EndAssociation(deauth: bool, tx: bool, local: bool)
      requires associated.Some?
      modifies this
      ensures associated.None? && authData == old(authData) && assocData == old(assocData)
      ensures M() == Emit(Leave(old(M()), deauth, tx), RepDisconnect(local, FromJoined))
    {
      if tx {
        Report(TxLeave(bssid, deauth));
      }
      ClearAssociation();
      Report(RepDisconnect(local, FromJoined));
    }

    method MgdProbeApSend()
      requires associated.Some?
      modifies this
      ensures authData == old(authData) && assocData == old(assocData) && associated == old(associated)
      ensures M() == ProbeSend(hw, old(M()))
    {
      var unicast := probeSendCount < (if hw.maxProbeTries - 3 > 1 then hw.maxProbeTries - 3 else 1) % 256;
      probeSendCount := probeSendCount + 1;
      if hw.reportsTxAck {
        nullfuncFailed := false;
        Report(TxNullfunc);
      } else {
        Report(TxProbe(unicast));
      }
      probeTimeout := jiffies + hw.probeWait;
      RunAgain(probeTimeout);
    }

    method PrepConnection(peer: Bss, assoc: bool, override: bool, p: Prep) returns (code: Code)
      modifies this`bssid, this`known
      ensures (code, M()) == Station.PrepConnection(old(M()), peer, assoc, override, p)
    {
      if p.reconfig {
        return Ebusy;
      }
      var haveSta := false;
      if assoc {
        haveSta := peer.addr in known;
      }
      if !haveSta && !p.staAllocOk {
        return Enomem;
      }
      if !haveSta {
        bssid := peer.addr;
      }
      if (!haveSta || override) && !p.channelOk {
        return Einval;
      }
      if !haveSta {
        if !p.insertOk {
          return Einsert;
        }
        known := known + {peer.addr};
      }
      return Ok;
    }

    /** ieee80211_auth: count a try, and send a frame unless the tries are used up. */
    method SendAuth(slack: nat) returns (timedOut: bool)
      requires authData != null
      modifies this`timer, this`log, authData
      ensures timedOut == (old(authData.tries) >= AUTH_MAX_TRIES)
      ensures timedOut ==> M() == old(M()) && authData.Rec() == old(authData.Rec().(tries := authData.tries + 1))
      ensures !timedOut ==>
                State(Auth(authData.Rec()), M()) ==
                Station.SendAuth(hw, State(Auth(old(authData.Rec())), old(M())), slack)
    {
      authData.tries := authData.tries + 1;
      if authData.tries > AUTH_MAX_TRIES {
        return true;
      }
      var trans: nat := 1;
      authData.expectedTransaction := 2;
      if authData.algorithm == Sae {
        trans := authData.saeTrans;
        authData.expectedTransaction := trans;
      }
      Report(TxAuthOpen(authData.bss.addr, trans));
      var deadline := jiffies + hw.TimeoutLong() + slack;
      if !hw.reportsTxAck {
        deadline := jiffies + if authData.algorithm == Sae then hw.AuthTimeoutSae() else hw.AuthTimeout();
      }
      authData.Arm(deadline);
      RunAgain(authData.timeout);
      return false;
    }

    /** ieee80211_do_assoc: the same for the association request. */
    method DoAssoc(slack: nat, built: bool) returns (timedOut: bool)
      requires assocData != null
      modifies this`timer, this`log, assocData
      ensures timedOut == (old(assocData.tries) >= ASSOC_MAX_TRIES)
      ensures timedOut ==> M() == old(M()) && assocData.bss == old(assocData.bss)
      ensures !timedOut ==>
                var deadline := AssocDeadline(hw, jiffies, slack);
                && assocData.Rec()
                   == old(assocData.Rec()).(tries := old(assocData.tries) + 1, armed := true, timeout := deadline)
                && M() == Station.RunAgain(if built then Emit(old(M()), TxAssocReq(assocData.bss.addr)) else old(M()),
                                           deadline)
    {
      assocData.tries := assocData.tries + 1;
      if assocData.tries > ASSOC_MAX_TRIES {
        return true;
      }
      if built {
        Report(TxAssocReq(assocData.bss.addr));
      }
      if !hw.reportsTxAck {
        assocData.Arm(jiffies + hw.AssocTimeout());
      } else {
        assocData.Arm(jiffies + hw.TimeoutLong() + slack);
      }
      RunAgain(assocData.timeout);
      return false;
    }

    // -------------------------------------------------------------------------------------------
    // User requests
    // -------------------------------------------------------------------------------------------

    method MgdAuth(r: AuthReq) returns (code: Code)
      requires Valid()
      modifies this, authData
      ensures Valid() && (authData == null || authData == old(authData) || fresh(authData))
      ensures assocData == old(assocData)
      ensures (code, View()) == Station.MgdAuth(hw, old(View()), r)
    {
      if r.alg.None? {
        return Eopnotsupp;
      }
      if !r.allocOk {
        return Enomem;
      }
      var data := new AuthData(r.bss, r.alg.value, r.saeTrans);
      if (authData != null && !authData.done) || assocData != null {
        return Ebusy;
      }
      if authData != null {
        DestroyAuthData(false);
      }
      authData := data;
      if associated.Some? {
        EndAssociation(true, false, true);
      }
      code := StartAuth(r);
    }

    /** The second half of an authentication request, entered with the new record and no other phase. */
    method StartAuth(r: AuthReq) returns (code: Code)
      requires authData != null && assocData == null && associated.None?
      requires r.alg.Some? && authData.Rec() == AuthRec(r.bss, r.alg.value, 0, false, false, 0, 0, r.saeTrans)
      modifies this`authData, this`bssid, this`known, this`timer, this`log, authData
      ensures authData == null || authData == old(authData)
      ensures (code, View()) == AuthStart(hw, old(M()), r)
    {
      code := PrepConnection(r.bss, false, false, r.prep);
      if code != Ok {
        bssid := ZERO_ADDR;
        authData := null;
        return;
      }
      Report(BeginAuth(r.bss.addr));
      var timedOut := SendAuth(r.slack);
      assert !timedOut;
    }

    method MgdAssoc(r: AssocReq) returns (code: Code)
      requires Valid()
      modifies this
      ensures Valid() && (assocData == null || assocData == old(assocData) || fresh(assocData))
      ensures authData == null || authData == old(authData)
      ensures (code, View()) == Station.MgdAssoc(hw, old(View()), r)
    {
      if !r.allocOk {
        return Enomem;
      }
      if !r.ssidOk {
        return Einval;
      }
      var data := new AssocData(r.bss);
      if associated.Some? {
        EndAssociation(true, false, true);
      }
      if authData != null && !authData.done {
        return Ebusy;
      }
      if assocData != null {
        return Ebusy;
      }
      if authData != null {
        var sameBss := bssid == r.bss.addr;
        DestroyAuthData(sameBss);
      }
      if r.filsTooLong {
        return Einval;
      }
      code := StartAssoc(data, r);
    }

    /** The second half of an association request, entered with no phase present. */
    method StartAssoc(data: AssocData, r: AssocReq) returns (code: Code)
      requires authData == null && assocData == null && associated.None?
      requires data.Rec() == AssocRec(r.bss, 0, false, 0, false)
      modifies this`assocData, this`haveBeacon, this`bssid, this`known, this`timer, this`log, data
      ensures Valid() && (assocData == null || assocData == data)
      ensures code == AssocStart(hw, old(M()), r).0
      ensures View() == AssocStart(hw, old(M()), r).1
    {
      assocData := data;
      haveBeacon := false;
      code := PrepConnection(r.bss, true, r.override, r.prep);
      if code != Ok {
        bssid := ZERO_ADDR;
        assocData := null;
        return;
      }
      ArmFirst(r);
    }

    /** Wait for one beacon, or let the work send the first request at once. */
    method ArmFirst(r: AssocReq)
      requires assocData != null && assocData.Rec() == AssocRec(r.bss, 0, false, 0, false)
      modifies this`haveBeacon, this`timer, this`log, assocData
      ensures State(Assoc(assocData.Rec()), M()) == AssocArm(hw, old(M()), r)
    {
      var data := assocData;
      Report(BeginAssoc(r.bss.addr));
      if hw.needDtimBeforeAssoc && !r.haveBeaconIes {
        data.Arm(jiffies + r.beaconWait);
        data.needBeacon := true;
      } else {
        haveBeacon := r.haveBeaconIes;
        data.Arm(jiffies);
      }
      RunAgain(data.timeout);
    }

    method MgdDeauth(addr: Addr, tx: bool) returns (code: Code)
      requires Valid()
      modifies this
      ensures Valid() && (authData == null || authData == old(authData))
      ensures assocData == null || assocData == old(assocData)
      ensures (code, View()) == Station.MgdDeauth(old(View()), addr, tx)
    {
      if authData != null && authData.bss.addr == addr {
        if tx {
          Report(TxLeave(addr, true));
        }
        ghost var ended := if authData.done then FromAuthDone else FromAuth;
        DestroyAuthData(false);
        Report(RepDisconnect(true, ended));
        return Ok;
      }
      if assocData != null && assocData.bss.addr == addr {
        if tx {
          Report(TxLeave(addr, true));
        }
        DestroyAssocData(true);
        Report(RepDisconnect(true, FromAssoc));
        return Ok;
      }
      if associated.Some? && associated.value.addr == addr {
        EndAssociation(true, tx, true);
        return Ok;
      }
      return Enotconn;
    }

    method MgdDisassoc(bss: Bss, tx: bool) returns (code: Code)
      requires Valid()
      modifies this
      ensures Valid() && authData == old(authData) && assocData == old(assocData)
      ensures (code, View()) == Station.MgdDisassoc(old(View()), bss, tx)
    {
      if associated != Some(bss) {
        return Enolink;
      }
      EndAssociation(false, tx, true);
      return Ok;
    }

    // -------------------------------------------------------------------------------------------
    // Received management frames
    // -------------------------------------------------------------------------------------------

    method RxMgmtAuth(f: AuthFrame)
      requires Valid()
      modifies this, authData
      ensures Valid() && (authData == null || authData == old(authData)) && assocData == old(assocData)
      ensures View() == RxAuth(hw, old(View()), f)
    {
      if f.len < 24 + 6 {
        return;
      }
      if authData == null || authData.done {
        return;
      }
      var peer := authData.bss.addr;
      if peer != f.bssid {
        return;
      }
      if f.alg != authData.algorithm || f.trans != authData.expectedTransaction {
        return;
      }
      if !f.success {
        DestroyAuthData(false);
        Report(RepAuthDenied(peer));
        return;
      }
      if authData.algorithm == SharedKey && authData.expectedTransaction != 4 {
        if f.challenge {
          authData.expectedTransaction := 4;
          Report(TxAuthReply(peer));
        }
        return;
      }
      Authenticated(f);
    }

    /** The AP has accepted the exchange: wait for the user to associate. */
    method Authenticated(f: AuthFrame)
      requires authData != null
      modifies this`timer, this`log, authData
      ensures State(Auth(authData.Rec()), M()) == AuthDone(hw, old(authData.Rec()), old(M()), f)
    {
      var peer := authData.bss.addr;
      Report(RepAuthDone(peer));
      authData.done := true;
      authData.Arm(jiffies + hw.AuthWaitAssoc());
      RunAgain(authData.timeout);
      if (authData.algorithm == Sae && authData.expectedTransaction != 2) || (peer in known && f.moveOk) {
        Report(RepAuthFrame(peer));
      }
    }

    method RxMgmtAssocResp(f: AssocFrame)
      requires Valid()
      modifies this, assocData
      ensures Valid() && authData == old(authData) && (assocData == null || assocData == old(assocData))
      ensures View() == RxAssocResp(hw, old(View()), f)
    {
      if assocData == null || assocData.bss.addr != f.bssid {
        return;
      }
      if f.len < 24 + 6 || !f.decryptOk {
        return;
      }
      if f.status.ComeBack? {
        var ms := ComeBackMs(f.status.tu);
        assocData.Arm(jiffies + MsToJiffies(hw, ms));
        if ms > hw.AssocTimeout() {
          RunAgain(assocData.timeout);
        }
        return;
      }
      var peer := assocData.bss;
      if f.status.Denied? {
        DestroyAssocData(false);
      } else {
        if !f.acceptOk || peer.addr !in known {
          DestroyAssocData(false);
          Report(RepAssocTimeout(peer.addr));
          return;
        }
        SetAssociated(f.unicast);
      }
      Report(RepAssocResp(peer.addr, f.status.Success?));
    }

    /** The AP has accepted the association; the attempt record is freed only after the new phase is set. */
    method SetAssociated(unicast: bool)
      requires assocData != null && authData == null
      modifies this`associated, this`bssid, this`connectionPoll, this`probeSendCount, this`assocData
      ensures assocData == null && associated == Some(old(assocData.bss))
      ensures bssid == old(assocData.bss.addr) && !connectionPoll
      ensures probeSendCount == if unicast then 0 else old(probeSendCount)
    {
      associated := Some(assocData.bss);
      bssid := assocData.bss.addr;
      connectionPoll := false;
      if unicast {
        ResetConnMonitor();
      }
      assocData := null;
    }

    method RxMgmtDeauth(f: LeaveFrame)
      requires Valid()
      modifies this
      ensures Valid() && authData == old(authData) && (assocData == null || assocData == old(assocData))
      ensures View() == RxDeauth(old(View()), f)
    {
      if f.len < 24 + 2 {
        return;
      }
      if f.bssid != f.sa {
        return;
      }
      if associated.Some? && f.bssid == associated.value.addr {
        EndAssociation(true, false, false);
        return;
      }
      if assocData != null && f.bssid == assocData.bss.addr {
        DestroyAssocData(true);
        Report(RepRxDeauth(f.bssid));
      }
    }

    method RxMgmtDisassoc(f: LeaveFrame)
      requires Valid()
      modifies this
      ensures Valid() && authData == old(authData) && assocData == old(assocData)
      ensures View() == RxDisassoc(old(View()), f)
    {
      if f.len < 24 + 2 {
        return;
      }
      if associated.None? || f.bssid != associated.value.addr {
        return;
      }
      if f.bssid != f.sa {
        return;
      }
      EndAssociation(true, false, false);
    }

    method RxMgmtProbeResp(accepted: bool, sender: Addr)
      requires Valid()
      modifies this`connectionPoll
      ensures Valid() && View() == RxProbeResp(old(View()), accepted, sender)
    {
      if !accepted {
        return;
      }
      if associated.Some? && sender == associated.value.addr {
        if connectionPoll {
          connectionPoll := false;
        }
      }
    }

    method ChswitchPostBeacon(postOk: bool)
      modifies this
      ensures authData == old(authData) && assocData == old(assocData) && associated == old(associated)
      ensures M() == PostBeacon(old(M()), postOk)
    {
      EndSwitch();
      if !postOk {
        Report(QueueDropWork);
        return;
      }
      Report(CsaFinished);
    }

    method StaProcessChanswitch(e: CsaEnv)
      requires Valid()
      modifies this
      ensures Valid() && authData == old(authData) && assocData == old(assocData) && associated == old(associated)
      ensures View() == ProcessChanSwitch(old(View()), e)
    {
      if associated.None? || e.scanning || csa.active {
        return;
      }
      match e.elem {
        case BadElem =>
          Report(QueueDropWork);
        case NoElem =>
        case SwitchTo(mode, count, usable, sameChannel) =>
          if !usable {
            Report(QueueDropWork);
            return;
          }
          if sameChannel {
            csa := csa.(ignoredSame := true);
            return;
          }
          if !e.haveContext || !e.contextCsaOk || !e.preOk || !e.reserveOk {
            csa := csa.(active := true, blockTx := mode);
            Report(QueueDropWork);
            return;
          }
          csa := csa.(active := true, blockTx := mode, ignoredSame := false);
          if csa.blockTx {
            csa := csa.(stopped := true);
            Report(StopQueues);
          }
          Report(CsaStarted);
          if e.driverSwitch {
            return;
          }
          if count <= 1 {
            Report(QueueSwitchWork);
          } else {
            Report(ArmSwitchTimer((count - 1) * e.step));
          }
      }
    }

    method ChswitchWork(e: SwitchEnv)
      requires Valid()
      modifies this
      ensures Valid() && authData == old(authData) && assocData == old(assocData)
      ensures View() == Station.ChswitchWork(old(View()), e)
    {
      if !e.running || associated.None? || !csa.active {
        return;
      }
      if e.reserved {
        if e.ready {
          return;
        }
        if !e.useOk {
          Report(QueueDropWork);
        }
        return;
      }
      if !e.identical {
        Report(QueueDropWork);
        return;
      }
      csa := csa.(waitingBcn := true);
      ResetConnMonitor();
    }

    method SeeBeacon(postOk: bool)
      modifies this
      ensures authData == old(authData) && assocData == old(assocData) && associated == old(associated)
      ensures M() == BeaconSeen(old(M()), postOk)
    {
      connectionPoll := false;
      if csa.waitingBcn {
        ChswitchPostBeacon(postOk);
      }
    }

    method UseBeaconContent(b: Beacon)
      requires Valid() && associated.Some?
      modifies this
      ensures Valid() && authData == old(authData) && assocData == old(assocData)
      ensures View() == BeaconContent(old(View()), b)
    {
      StaProcessChanswitch(b.csa);
      haveBeacon := true;
      if !b.bandwidthOk {
        EndAssociation(true, true, true);
      }
    }

    method RxMgmtBeacon(b: Beacon)
      requires Valid()
      modifies this, assocData
      ensures Valid() && authData == old(authData) && assocData == old(assocData)
      ensures View() == RxBeacon(old(View()), b)
    {
      if !b.onChannel {
        return;
      }
      if assocData != null && assocData.needBeacon && b.bssid == assocData.bss.addr {
        haveBeacon := true;
        assocData.needBeacon := false;
        assocData.Arm(jiffies);
        RunAgain(assocData.timeout);
        return;
      }
      if associated.None? || b.bssid != associated.value.addr {
        return;
      }
      SeeBeacon(b.postOk);
      if !b.sameCrc {
        UseBeaconContent(b);
      }
    }

    // -------------------------------------------------------------------------------------------
    // Connection monitoring
    // -------------------------------------------------------------------------------------------

    method MgdProbeAp(running: bool, busy: bool, beaconLoss: bool)
      requires Valid()
      modifies this
      ensures Valid() && authData == old(authData) && assocData == old(assocData)
      ensures View() == ProbeAp(hw, old(View()), running, busy, beaconLoss)
    {
      if !running || associated.None? || busy {
        return;
      }
      var already := false;
      if beaconLoss {
        Report(RepBeaconLoss);
      }
      if connectionPoll {
        already := true;
      }
      connectionPoll := true;
      if already {
        return;
      }
      probeSendCount := 0;
      MgdProbeApSend();
    }

    method Disconnect()
      requires Valid()
      modifies this
      ensures Valid() && authData == old(authData) && assocData == old(assocData)
      ensures View() == Station.Disconnect(old(View()))
    {
      if associated.None? {
        return;
      }
      var tx := !csa.blockTx;
      EndAssociation(true, tx, tx);
    }

    method StaTxNotify(isData: bool, isNullfunc: bool, ack: bool)
      requires Valid()
      modifies this
      ensures Valid() && authData == old(authData) && assocData == old(assocData)
      ensures View() == TxNotify(old(View()), isData, isNullfunc, ack)
    {
      if !isData {
        return;
      }
      if isNullfunc && probeSendCount > 0 {
        if ack {
          ResetConnMonitor();
        } else {
          nullfuncFailed := true;
        }
        workQueued := true;
        return;
      }
      if ack {
        ResetConnMonitor();
      }
    }

    method StaRxNotify(multicast: bool)
      requires Valid()
      modifies this`probeSendCount
      ensures Valid() && View() == RxNotify(old(View()), multicast)
    {
      if multicast {
        return;
      }
      ResetConnMonitor();
    }

    method NotifyScanCompleted(running: bool)
      requires Valid()
      modifies this`connectionPoll
      ensures Valid() && View() == ScanDone(old(View()), running)
    {
      if running {
        connectionPoll := false;
      }
    }

    method MgdConnTxStatus(fc: Fc, acked: bool)
      requires Valid()
      modifies this`status, this`workQueued
      ensures Valid() && View() == ConnTxStatus(old(View()), fc, acked)
    {
      status := Some((fc, acked));
      workQueued := true;
    }

    // -------------------------------------------------------------------------------------------
    // Time, the shared timer and its work
    // -------------------------------------------------------------------------------------------

    method AdvanceTime(d: nat)
      requires Valid()
      modifies this`jiffies
      ensures Valid() && View() == Tick(old(View()), d)
    {
      jiffies := jiffies + d;
    }

    method StaTimer()
      requires Valid()
      modifies this`timer, this`workQueued
      ensures Valid() && View() == TimerFire(old(View()))
    {
      if timer.Some? && timer.value <= jiffies {
        timer := None;
        workQueued := true;
      }
    }

    method HandleStatus()
      requires Valid()
      modifies this`status, this`timer, authData, assocData
      ensures Valid() && View() == ApplyStatus(hw, old(View()))
    {
      if status.None? {
        return;
      }
      var (fc, acked) := status.value;
      status := None;
      if authData != null && fc == FcAuth {
        if acked {
          authData.Arm(jiffies + if authData.algorithm == Sae then hw.AuthTimeoutSae() else hw.TimeoutShort());
          RunAgain(authData.timeout);
        } else {
          authData.Arm(jiffies - 1);
        }
      } else if assocData != null && (fc == FcAssocReq || fc == FcReassocReq) {
        if acked {
          assocData.Arm(jiffies + hw.TimeoutShort());
          RunAgain(assocData.timeout);
        } else {
          assocData.Arm(jiffies - 1);
        }
      }
    }

    method CheckAuthTimeout(slack: nat)
      requires Valid()
      modifies this, authData
      ensures Valid() && (authData == null || authData == old(authData))
      ensures assocData == old(assocData) && associated == old(associated)
      ensures View() == if old(authData) == null then old(View()) else WorkAuth(hw, old(View()), slack)
    {
      if authData != null && authData.timeoutStarted && jiffies > authData.timeout {
        var peer := authData.bss.addr;
        if authData.done {
          DestroyAuthData(false);
        } else {
          var timedOut := SendAuth(slack);
          if timedOut {
            DestroyAuthData(false);
            Report(RepAuthTimeout(peer));
          }
        }
      } else if authData != null && authData.timeoutStarted {
        RunAgain(authData.timeout);
      }
    }

    method CheckAssocTimeout(slack: nat, built: bool)
      requires Valid()
      modifies this, assocData
      ensures Valid() && (assocData == null || assocData == old(assocData))
      ensures authData == old(authData) && associated == old(associated)
      ensures View() == if old(assocData) == null then old(View()) else WorkAssoc(hw, old(View()), slack, built)
    {
      if assocData != null && assocData.timeoutStarted && jiffies > assocData.timeout {
        var peer := assocData.bss.addr;
        var failed := assocData.needBeacon && !haveBeacon;
        if !failed {
          failed := DoAssoc(slack, built);
        }
        if failed {
          DestroyAssocData(false);
          Report(RepAssocTimeout(peer));
        }
      } else if assocData != null && assocData.timeoutStarted {
        RunAgain(assocData.timeout);
      }
    }

    method CheckPoll()
      requires Valid()
      modifies this
      ensures Valid() && authData == old(authData) && assocData == old(assocData)
      ensures View() == if old(associated).None? then old(View()) else WorkPoll(hw, old(View()))
    {
      if connectionPoll && associated.Some? {
        var maxTries := if hw.reportsTxAck then hw.maxNullfuncTries else hw.maxProbeTries;
        if probeSendCount == 0 {
          connectionPoll := false;
        } else if nullfuncFailed {
          if probeSendCount < maxTries {
            MgdProbeApSend();
          } else {
            EndAssociation(true, false, true);
          }
        } else if probeTimeout > jiffies {
          RunAgain(probeTimeout);
        } else if hw.reportsTxAck {
          EndAssociation(true, false, true);
        } else if probeSendCount < maxTries {
          MgdProbeApSend();
        } else {
          EndAssociation(true, false, true);
        }
      }
    }

    /** The three phases are examined one after the other; since at most one is present, at most one acts. */
    method StaWork(slack: nat, built: bool)
      requires Valid()
      modifies this, authData, assocData
      ensures Valid() && (authData == null || authData == old(authData))
      ensures assocData == null || assocData == old(assocData)
      ensures View() == Station.StaWork(hw, old(View()), slack, built)
    {
      workQueued := false;
      HandleStatus();
      CheckAuthTimeout(slack);
      CheckAssocTimeout(slack, built);
      CheckPoll();
    }
  }
}
