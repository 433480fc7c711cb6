/** The BSSID and the station table name the AP of the current phase - except after a failed association
    request that had kept the entry of a finished authentication. */
module StationPeer {
  import opened Common
  import opened Station

  function PeerAddr(l: Life): Addr { if l.Idle? then ZERO_ADDR else l.Peer().value.addr }

  /** The BSSID is the address of the AP of the phase, and zero without one; the table holds just that AP. */
  ghost predicate Matched(s: State) {
    && s.m.bssid == PeerAddr(s.life)
    && s.m.known == if s.life.Idle? then {} else {PeerAddr(s.life)}
  }

  /** The request comes after a finished authentication with the same BSSID, and is refused. */
  predicate LeavesResidue(s: State, op: Op) {
    && op.OpAssoc? && s.life.Auth? && s.life.auth.done
    && var r := op.assocReq;
    && r.allocOk && r.ssidOk && s.m.bssid == r.bss.addr
    && (r.filsTooLong || r.prep.reconfig || (r.override && !r.prep.channelOk))
  }

  lemma AuthMatched(hw: Hw, s: State, r: AuthReq)
    requires Matched(s)
    ensures Matched(MgdAuth(hw, s, r).1)
  {
  }

  /** Starting to associate with nothing, or just the AP, in the station table. */
  lemma StartMatched(hw: Hw, m: Mgd, r: AssocReq)
    requires || (m.known == {} && m.bssid == ZERO_ADDR)
             || (m.known == {r.bss.addr} && m.bssid == r.bss.addr)
    ensures var s1 := AssocStart(hw, m, r).1;
            if m.known == {} || !(r.prep.reconfig || (r.override && !r.prep.channelOk)) then Matched(s1)
            else s1.life.Idle? && s1.m.bssid == ZERO_ADDR && s1.m.known == {r.bss.addr}
  {
  }

  lemma AssocMatched(hw: Hw, s: State, r: AssocReq)
    requires Matched(s)
    ensures Matched(MgdAssoc(hw, s, r).1) <==> !LeavesResidue(s, OpAssoc(r))
    ensures LeavesResidue(s, OpAssoc(r)) ==>
              var s1 := MgdAssoc(hw, s, r).1;
              && s1.life.Idle? && s1.m.known == {r.bss.addr}
              && s1.m.bssid == if r.filsTooLong then r.bss.addr else ZERO_ADDR
  {
    var s1 := BeforeAssoc(s);
    assert Matched(s1);
    if r.allocOk && r.ssidOk && s1.life.Auth? && s1.life.auth.done {
      assert Retain(s1, r).known == if s1.m.bssid == r.bss.addr then {r.bss.addr} else {};
      StartMatched(hw, Retain(s1, r), r);
    } else if s1.life.Idle? {
      StartMatched(hw, s1.m, r);
    }
  }

  lemma FrameMatched(hw: Hw, s: State, op: Op)
    requires Matched(s) && (op.OpRxAuth? || op.OpRxAssocResp?)
    ensures Matched(Step(hw, s, op))
  {
  }

  lemma LeaveMatched(hw: Hw, s: State, op: Op)
    requires Matched(s) && (op.OpRxDeauth? || op.OpRxDisassoc?)
    ensures Matched(Step(hw, s, op))
  {
  }

  lemma RequestMatched(hw: Hw, s: State, op: Op)
    requires Matched(s) && (op.OpDeauth? || op.OpDisassoc?)
    ensures Matched(Step(hw, s, op))
  {
  }

  lemma SwitchMatched(s: State, e: CsaEnv)
    requires Matched(s)
    ensures Matched(ProcessChanSwitch(s, e)) && ProcessChanSwitch(s, e).life == s.life
  {
  }

  lemma BeaconMatched(s: State, b: Beacon)
    requires Matched(s)
    ensures Matched(RxBeacon(s, b))
  {
    if s.life.Joined? {
      var s1 := s.(m := BeaconSeen(s.m, b.postOk));
      assert Matched(s1) && s1.life == s.life;
      SwitchMatched(s1, b.csa);
    }
  }

  lemma StatusMatched(hw: Hw, s: State)
    requires Matched(s)
    ensures Matched(ApplyStatus(hw, s))
  {
  }

  lemma AuthWorkMatched(hw: Hw, s: State, slack: nat)
    requires Matched(s) && s.life.Auth?
    ensures Matched(WorkAuth(hw, s, slack))
  {
  }

  lemma AssocWorkMatched(hw: Hw, s: State, slack: nat, built: bool)
    requires Matched(s) && s.life.Assoc?
    ensures Matched(WorkAssoc(hw, s, slack, built))
  {
  }

  lemma PollWorkMatched(hw: Hw, s: State)
    requires Matched(s) && s.life.Joined?
    ensures Matched(WorkPoll(hw, s))
  {
  }

  lemma WorkMatched(hw: Hw, s: State, slack: nat, built: bool)
    requires Matched(s)
    ensures Matched(StaWork(hw, s, slack, built))
  {
    var s0 := s.(m := s.m.(queued := false));
    var s1 := ApplyStatus(hw, s0);
    StatusMatched(hw, s0);
    match s1.life
    case Idle =>
    case Auth(_) => AuthWorkMatched(hw, s1, slack);
    case Assoc(_) => AssocWorkMatched(hw, s1, slack, built);
    case Joined(_) => PollWorkMatched(hw, s1);
  }

  /** Exactly the refused requests that had kept an entry break the match. */
  lemma StepMatched(hw: Hw, s: State, op: Op)
    requires Matched(s)
    ensures Matched(Step(hw, s, op)) <==> !LeavesResidue(s, op)
  {
    match op
    case OpAuth(r) => AuthMatched(hw, s, r);
    case OpAssoc(r) => AssocMatched(hw, s, r);
    case OpRxBeacon(b) => BeaconMatched(s, b);
    case OpWork(slack, built) => WorkMatched(hw, s, slack, built);
    case OpRxSwitch(e) => SwitchMatched(s, e);
    case OpDeauth(_, _) => RequestMatched(hw, s, op);
    case OpDisassoc(_, _) => RequestMatched(hw, s, op);
    case OpRxAuth(_) => FrameMatched(hw, s, op);
    case OpRxAssocResp(_) => FrameMatched(hw, s, op);
    case OpRxDeauth(_) => LeaveMatched(hw, s, op);
    case OpRxDisassoc(_) => LeaveMatched(hw, s, op);
    case _ =>
  }

  /** The match holds at the end of every run in which no such request occurs. */
  lemma {:induction false} RunMatched(hw: Hw, ops: seq<Op>)
    requires forall i :: 0 <= i < |ops| ==> !LeavesResidue(Run(hw, INIT, ops[..i]), ops[i])
    ensures Matched(Run(hw, INIT, ops))
  {
    if ops != [] {
      var before := ops[..|ops| - 1];
      forall i | 0 <= i < |before|
        ensures !LeavesResidue(Run(hw, INIT, before[..i]), before[i])
      {
        assert before[..i] == ops[..i];
      }
      RunMatched(hw, before);
      StepMatched(hw, Run(hw, INIT, before), ops[|ops| - 1]);
    }
  }

  /** A client that is authenticated with an AP, and a request to associate that finds no channel. */
  lemma RefusedExample(hw: Hw, ap: Bss, s2: State, refused: AssocReq, again: AssocReq)
    requires s2.life.Auth? && s2.life.auth.done && s2.life.auth.bss == ap && s2.m.bssid == ap.addr != ZERO_ADDR
    requires s2.m.known == {ap.addr} && !s2.m.csa.active && !s2.m.polling
    requires refused
          == AssocReq(ap, true, true, false, true, Prep(false, true, true, true).(channelOk := false), true, 0)
    requires again == AssocReq(ap, true, true, false, false, Prep(false, true, true, true), true, 0)
    ensures var s4 := Step(hw, Step(hw, s2, OpAssoc(refused)), OpAssoc(again));
            s4.life.Assoc? && s4.m.bssid == ZERO_ADDR && s4.life.assoc.bss == ap && s4.m.known == {ap.addr}
  {
    var s3 := Step(hw, s2, OpAssoc(refused));
    assert s3.life.Idle? && s3.m.bssid == 0 && s3.m.known == {ap.addr};
  }

  /** The first two steps of the example: the client authenticates with AP 7. */
  lemma AuthenticatedExample(hw: Hw, request: AuthReq, answer: AuthFrame)
    requires request == AuthReq(Bss(1, 7), Some(Open), true, 0, Prep(false, true, true, true), 0)
    requires answer == AuthFrame(30, 7, Open, 2, true, false, true)
    ensures var s2 := Step(hw, Step(hw, INIT, OpAuth(request)), OpRxAuth(answer));
            && s2.life.Auth? && s2.life.auth.done && s2.life.auth.bss == Bss(1, 7) && s2.m.bssid == 7
            && s2.m.known == {7} && !s2.m.csa.active && !s2.m.polling
  {
    var s1 := Step(hw, INIT, OpAuth(request));
    assert s1.life.Auth? && s1.m.bssid == 7 && s1.m.known == {7} && !s1.life.auth.done && s1.life.auth.expected == 2;
  }

  lemma RunFour(hw: Hw, a: Op, b: Op, c: Op, d: Op)
    ensures Run(hw, INIT, [a, b, c, d]) == Step(hw, Step(hw, Step(hw, Step(hw, INIT, a), b), c), d)
  {
    assert [a][..0] == [] && [a, b][..1] == [a] && [a, b, c][..2] == [a, b] && [a, b, c, d][..3] == [a, b, c];
    assert Run(hw, INIT, [a]) == Step(hw, INIT, a);
    assert Run(hw, INIT, [a, b]) == Step(hw, Run(hw, INIT, [a]), b);
    assert Run(hw, INIT, [a, b, c]) == Step(hw, Run(hw, INIT, [a, b]), c);
  }

  /** Authenticate, be refused an association for want of a channel, ask again: the client now associates with
      an AP while its BSSID is zero. */
  lemma ResidueExample(hw: Hw)
    ensures exists a, b, c, d: Op ::
              var s := Run(hw, INIT, [a, b, c, d]);
              s.life.Assoc? && s.m.bssid == ZERO_ADDR && PeerAddr(s.life) == 7 && s.m.known == {7}
  {
    var good := Prep(false, true, true, true);
    var request := AuthReq(Bss(1, 7), Some(Open), true, 0, good, 0);
    var answer := AuthFrame(30, 7, Open, 2, true, false, true);
    var refused := AssocReq(Bss(1, 7), true, true, false, true, good.(channelOk := false), true, 0);
    var again := AssocReq(Bss(1, 7), true, true, false, false, good, true, 0);
    RunFour(hw, OpAuth(request), OpRxAuth(answer), OpAssoc(refused), OpAssoc(again));
    AuthenticatedExample(hw, request, answer);
    RefusedExample(hw, Bss(1, 7), Step(hw, Step(hw, INIT, OpAuth(request)), OpRxAuth(answer)), refused, again);
  }
}
