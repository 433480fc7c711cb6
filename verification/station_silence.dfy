/** Nobody answers: whatever the delays of the timer and of the work, an attempt or a poll sends a fixed
    series of frames, ends, and is reported exactly once. */
module StationSilence {
  import opened Common
  import opened Station
  import opened StationTimer
  import StationRuns

  /** One run of the work. Either the timer wakes it, `late` jiffies after it was due (or after at least one, if
      it is not pending), or the status of a sent frame does, `late` jiffies from now. */
  datatype Nap = Nap(late: nat, slack: nat, built: bool, status: Option<(Fc, bool)>)

  /** The time until the timer fires. */
  function Ahead(m: Mgd): nat {
    if m.timer.Some? && m.timer.value > m.now then m.timer.value - m.now else 1
  }

  /** The state at the end of a nap. */
  function Slept(s: State, n: Nap): State {
    match n.status
    case None => TimerFire(Tick(s, Ahead(s.m) + n.late))
    case Some((fc, acked)) => ConnTxStatus(TimerFire(Tick(s, n.late)), fc, acked)
  }

  /** If something has queued the work, it runs. */
  function Wake(hw: Hw, s: State, n: Nap): State {
    var s1 := Slept(s, n);
    if s1.m.queued then StaWork(hw, s1, n.slack, n.built) else s1
  }

  function Naps(hw: Hw, s: State, naps: seq<Nap>): State
    decreases |naps|
  {
    if naps == [] || Deadline(s).None? then s else Naps(hw, Wake(hw, s, naps[0]), naps[1..])
  }

  /** The naps that a TX status ends. */
  function Statuses(naps: seq<Nap>): nat {
    if naps == [] then 0 else Statuses(naps[1..]) + if naps[0].status.Some? then 1 else 0
  }

  /** A status that the work has not read yet. */
  function Unread(m: Mgd): nat { if m.status.Some? then 1 else 0 }

  predicate Quiet(s: State, n: Nap) { s.m.status.None? && n.status.None? }

  /** What is reported first if a request ends an association. */
  function Lost(m: Mgd): seq<Event> {
    (if m.csa.blockTx then [WakeQueues] else []) + [RepDisconnect(true, FromJoined)]
  }

  function Previously(s: State): seq<Event> { if s.life.Joined? then Lost(s.m) else [] }

  /** `n` copies of one event. */
  function Times(n: nat, e: Event): seq<Event> {
    if n == 0 then [] else [e] + Times(n - 1, e)
  }

  lemma TimesFront(log: seq<Event>, n: nat, e: Event, rest: seq<Event>)
    ensures log + [e] + Times(n, e) + rest == log + Times(n + 1, e) + rest
  {
    assert log + ([e] + Times(n, e)) == log + [e] + Times(n, e);
  }

  /** How many wake-ups may pass before the deadline of an attempt is found to be over. */
  function Lag(m: Mgd, timeout: int): nat {
    if m.now >= timeout then 0 else if m.timer == Some(timeout) then 1 else 2
  }

  /** At the end of a nap the work is queued. */
  lemma NapQueues(s: State, n: Nap)
    requires OnTime(s) && Deadline(s).Some?
    ensures var m := Slept(s, n).m;
            && m.queued && Slept(s, n).life == s.life && m.now >= s.m.now
            && m == s.m.(timer := m.timer, queued := true, now := m.now, status := m.status)
            && (m.timer == s.m.timer || (m.timer == None && m.now >= s.m.timer.value))
            && (Quiet(s, n) ==> m.status.None? && m.now > s.m.now && m.timer.None?
                                && (s.m.timer.Some? ==> m.now >= s.m.timer.value))
  {
  }

  /** Then it runs: it reads the status, and checks the timeout of the phase. */
  lemma WakeRunsWork(hw: Hw, s: State, n: Nap) returns (s0: State)
    requires OnTime(s) && Deadline(s).Some?
    ensures Wake(hw, s, n) == StaWork(hw, Slept(s, n), n.slack, n.built)
    ensures s0 == Slept(s, n).(m := Slept(s, n).m.(queued := false)) && s0.life == s.life && s0.m.log == s.m.log
    ensures s0.m == s.m.(timer := s0.m.timer, queued := false, now := s0.m.now, status := s0.m.status)
    ensures s0.m.timer == s.m.timer || (s0.m.timer == None && s0.m.now >= s.m.timer.value)
    ensures s0.m.now >= s.m.now
    ensures Quiet(s, n) ==>
              && s0.m.status.None? && s0.m.now > s.m.now && s0.m.timer.None?
              && (s.m.timer.Some? ==> s0.m.now >= s.m.timer.value)
  {
    NapQueues(s, n);
    s0 := Slept(s, n).(m := Slept(s, n).m.(queued := false));
  }

  // ---------------------------------------------------------------------------------------------
  // Authentication
  // ---------------------------------------------------------------------------------------------

  ghost predicate SilentAuth(s: State) {
    s.life.Auth? && !s.life.auth.done && StationRuns.Bounded(s) && OnTime(s)
  }

  function Opening(a: AuthRec): Event { TxAuthOpen(a.bss.addr, if a.alg == Sae then a.saeTrans else 1) }

  /** The same exchange, `more` frames later. */
  predicate SameAuth(a: AuthRec, b: AuthRec, more: nat) {
    b.bss == a.bss && b.alg == a.alg && b.saeTrans == a.saeTrans && b.tries == a.tries + more
  }

  function AuthRank(s: State): nat
    requires s.life.Auth? && s.life.auth.tries <= AUTH_MAX_TRIES
  {
    3 * (AUTH_MAX_TRIES - s.life.auth.tries) + Lag(s.m, s.life.auth.timeout)
  }

  /** What the check of the timeout does after the status has been read. */
  lemma AuthCheck(hw: Hw, s: State, slack: nat)
    requires s.life.Auth? && !s.life.auth.done && StationRuns.Bounded(s) && !s.m.queued && s.m.status.None?
    ensures var a := s.life.auth;
            var s1 := WorkAuth(hw, s, slack);
            && s1.m.status.None?
            && (if s.m.now <= a.timeout then
                  SilentAuth(s1) && s1.life == s.life && s1.m.log == s.m.log && s1.m.now == s.m.now
                  && s1.m.timer == RunAgain(s.m, a.timeout).timer
                else if a.tries < AUTH_MAX_TRIES then
                  SilentAuth(s1) && SameAuth(a, s1.life.auth, 1) && s1.m.log == s.m.log + [Opening(a)]
                else
                  s1.life.Idle? && s1.m.log == s.m.log + [RepAuthTimeout(a.bss.addr)])
  {
  }

  /** Reading the status may move the deadline and the timer, and nothing else. */
  lemma AuthReads(hw: Hw, s: State)
    requires s.life.Auth? && !s.life.auth.done && StationRuns.Bounded(s)
    ensures var s1 := ApplyStatus(hw, s);
            && s1.life.Auth? && !s1.life.auth.done && SameAuth(s.life.auth, s1.life.auth, 0) && StationRuns.Bounded(s1)
            && s1.m == s.m.(status := None, timer := s1.m.timer)
            && (s.m.status.None? ==> s1 == s)
  {
  }

  /** One wake-up waits on, sends the next frame, or reports the timeout. */
  lemma AuthWake(hw: Hw, s: State, n: Nap)
    requires SilentAuth(s)
    ensures var a := s.life.auth;
            var s1 := Wake(hw, s, n);
            && s1.m.status.None?
            && (|| (SilentAuth(s1) && SameAuth(a, s1.life.auth, 0) && s1.m.log == s.m.log
                    && AuthRank(s1) <= AuthRank(s) + 2 && (Quiet(s, n) ==> AuthRank(s1) < AuthRank(s)))
                || (SilentAuth(s1) && SameAuth(a, s1.life.auth, 1) && s1.m.log == s.m.log + [Opening(a)]
                    && AuthRank(s1) < AuthRank(s))
                || (s1.life.Idle? && a.tries == AUTH_MAX_TRIES
                    && s1.m.log == s.m.log + [RepAuthTimeout(a.bss.addr)]))
  {
    var s0 := WakeRunsWork(hw, s, n);
    AuthReads(hw, s0);
    AuthCheck(hw, ApplyStatus(hw, s0), n.slack);
  }

  /** An authentication that gets no answer but the TX status of its frames sends those that are left of its
      three, then one timeout report. */
  lemma {:induction false} AuthSilence(hw: Hw, s: State, naps: seq<Nap>)
    requires SilentAuth(s) && |naps| > AuthRank(s) + 3 * (Unread(s.m) + Statuses(naps))
    ensures var s1 := Naps(hw, s, naps);
            && s1.life.Idle?
            && s1.m.log == s.m.log + Times(AUTH_MAX_TRIES - s.life.auth.tries, Opening(s.life.auth))
                                   + [RepAuthTimeout(s.life.auth.bss.addr)]
    decreases |naps|
  {
    AuthWake(hw, s, naps[0]);
    var s1 := Wake(hw, s, naps[0]);
    if s1.life.Auth? {
      AuthSilence(hw, s1, naps[1..]);
      if s1.life.auth.tries != s.life.auth.tries {
        TimesFront(s.m.log, AUTH_MAX_TRIES - s1.life.auth.tries, Opening(s.life.auth),
                   [RepAuthTimeout(s.life.auth.bss.addr)]);
      }
    } else {
      assert Naps(hw, s1, naps[1..]) == s1;
      assert s.m.log + Times(0, Opening(s.life.auth)) == s.m.log;
    }
  }

  // ---------------------------------------------------------------------------------------------
  // Association
  // ---------------------------------------------------------------------------------------------

  ghost predicate SilentAssoc(s: State) {
    s.life.Assoc? && StationRuns.Bounded(s) && OnTime(s)
  }

  function AssocRank(s: State): nat
    requires s.life.Assoc? && s.life.assoc.tries <= ASSOC_MAX_TRIES
  {
    3 * (ASSOC_MAX_TRIES - s.life.assoc.tries) + Lag(s.m, s.life.assoc.timeout)
  }

  /** The AP's beacon is awaited and has not been seen. */
  predicate Blind(s: State)
    requires s.life.Assoc?
  {
    s.life.assoc.needBeacon && !s.m.haveBeacon
  }

  /** The same attempt, `more` requests later. */
  predicate SameAssoc(s: State, s1: State, more: nat)
    requires s.life.Assoc? && s1.life.Assoc?
  {
    && s1.life.assoc.bss == s.life.assoc.bss && s1.life.assoc.tries == s.life.assoc.tries + more
    && Blind(s1) == Blind(s)
  }

  lemma AssocCheck(hw: Hw, s: State, slack: nat, built: bool)
    requires s.life.Assoc? && StationRuns.Bounded(s) && !s.m.queued && s.m.status.None?
    ensures var c := s.life.assoc;
            var s1 := WorkAssoc(hw, s, slack, built);
            && s1.m.status.None?
            && (if s.m.now <= c.timeout then
                  SilentAssoc(s1) && SameAssoc(s, s1, 0) && s1.life == s.life && s1.m.log == s.m.log
                  && s1.m.now == s.m.now && s1.m.timer == RunAgain(s.m, c.timeout).timer
                else if !Blind(s) && c.tries < ASSOC_MAX_TRIES then
                  SilentAssoc(s1) && SameAssoc(s, s1, 1)
                  && s1.m.log == if built then s.m.log + [TxAssocReq(c.bss.addr)] else s.m.log
                else
                  s1.life.Idle? && s1.m.log == s.m.log + [RepAssocTimeout(c.bss.addr)])
  {
  }

  lemma AssocReads(hw: Hw, s: State)
    requires s.life.Assoc? && StationRuns.Bounded(s)
    ensures var s1 := ApplyStatus(hw, s);
            && s1.life.Assoc? && SameAssoc(s, s1, 0) && StationRuns.Bounded(s1)
            && s1.m == s.m.(status := None, timer := s1.m.timer)
            && (s.m.status.None? ==> s1 == s)
  {
  }

  lemma AssocWake(hw: Hw, s: State, n: Nap)
    requires SilentAssoc(s)
    ensures var c := s.life.assoc;
            var s1 := Wake(hw, s, n);
            && s1.m.status.None?
            && (|| (SilentAssoc(s1) && SameAssoc(s, s1, 0) && s1.m.log == s.m.log
                    && AssocRank(s1) <= AssocRank(s) + 2 && (Quiet(s, n) ==> AssocRank(s1) < AssocRank(s)))
                || (SilentAssoc(s1) && SameAssoc(s, s1, 1) && !Blind(s) && AssocRank(s1) < AssocRank(s)
                    && s1.m.log == if n.built then s.m.log + [TxAssocReq(c.bss.addr)] else s.m.log)
                || (s1.life.Idle? && (Blind(s) || c.tries == ASSOC_MAX_TRIES)
                    && s1.m.log == s.m.log + [RepAssocTimeout(c.bss.addr)]))
  {
    var s0 := WakeRunsWork(hw, s, n);
    AssocReads(hw, s0);
    AssocCheck(hw, ApplyStatus(hw, s0), n.slack, n.built);
  }

  /** An association that gets no answer but the TX status of its frames sends at most the requests left of its
      three - all of them when they can be built, none while it waits for a beacon - then one timeout report. */
  lemma {:induction false} AssocSilence(hw: Hw, s: State, naps: seq<Nap>) returns (sent: nat)
    requires SilentAssoc(s) && |naps| > AssocRank(s) + 3 * (Unread(s.m) + Statuses(naps))
    ensures var s1 := Naps(hw, s, naps);
            && s1.life.Idle?
            && s1.m.log == s.m.log + Times(sent, TxAssocReq(s.life.assoc.bss.addr))
                                   + [RepAssocTimeout(s.life.assoc.bss.addr)]
    ensures sent <= ASSOC_MAX_TRIES - s.life.assoc.tries
    ensures Blind(s) ==> sent == 0
    ensures !Blind(s) && (forall n :: n in naps ==> n.built) ==> sent == ASSOC_MAX_TRIES - s.life.assoc.tries
    decreases |naps|
  {
    AssocWake(hw, s, naps[0]);
    var s1 := Wake(hw, s, naps[0]);
    sent := 0;
    if s1.life.Assoc? {
      assert forall n :: n in naps[1..] ==> n in naps;
      var more := AssocSilence(hw, s1, naps[1..]);
      sent := AssocLogs(s.m.log, s1.m.log, more, s.life.assoc.bss.addr);
    } else {
      assert Naps(hw, s1, naps[1..]) == s1;
      assert s.m.log + Times(0, TxAssocReq(s.life.assoc.bss.addr)) == s.m.log;
    }
  }

  /** Requests logged after a wake-up, seen from before it. */
  lemma AssocLogs(log: seq<Event>, log1: seq<Event>, more: nat, addr: Addr) returns (sent: nat)
    requires log1 == log || log1 == log + [TxAssocReq(addr)]
    ensures sent == if log1 == log then more else more + 1
    ensures log1 + Times(more, TxAssocReq(addr)) + [RepAssocTimeout(addr)]
         == log + Times(sent, TxAssocReq(addr)) + [RepAssocTimeout(addr)]
  {
    sent := more;
    if log1 != log {
      TimesFront(log, more, TxAssocReq(addr), [RepAssocTimeout(addr)]);
      sent := more + 1;
    }
  }

  // ---------------------------------------------------------------------------------------------
  // Polling the AP
  // ---------------------------------------------------------------------------------------------

  ghost predicate SilentPoll(hw: Hw, s: State) {
    s.life.Joined? && s.m.polling && s.m.probes >= 1 && !hw.reportsTxAck && OnTime(s)
  }

  /** The probe requests with numbers `from` up to but not including `to`. */
  function Probes(hw: Hw, from: nat, to: int): seq<Event>
    decreases to - from
  {
    if from >= to then [] else [TxProbe(from < UnicastLimit(hw))] + Probes(hw, from + 1, to)
  }

  lemma ProbesFront(hw: Hw, log: seq<Event>, from: nat, rest: seq<Event>)
    requires from < hw.maxProbeTries
    ensures log + [TxProbe(from < UnicastLimit(hw))] + Probes(hw, from + 1, hw.maxProbeTries) + rest ==
            log + Probes(hw, from, hw.maxProbeTries) + rest
  {
    assert log + [TxProbe(from < UnicastLimit(hw))] + Probes(hw, from + 1, hw.maxProbeTries) ==
           log + ([TxProbe(from < UnicastLimit(hw))] + Probes(hw, from + 1, hw.maxProbeTries));
  }

  function ProbeTotal(hw: Hw, probes: nat): nat {
    if hw.maxProbeTries > probes then hw.maxProbeTries else probes
  }

  function PollRank(hw: Hw, s: State): nat {
    ProbeTotal(hw, s.m.probes) - s.m.probes + (if s.m.timer == Some(s.m.probeTimeout) then 0 else 1)
  }

  /** The poll after a wake-up, `more` probes later. */
  predicate SamePoll(s: State, s1: State, more: nat) {
    s1.life == s.life && s1.m.probes == s.m.probes + more && s1.m.csa == s.m.csa
  }

  lemma PollCheck(hw: Hw, s: State)
    requires s.life.Joined? && s.m.polling && s.m.probes >= 1 && !hw.reportsTxAck && !s.m.queued && s.m.status.None?
    ensures var s1 := WorkPoll(hw, s);
            && s1.m.status.None?
            && (if !s.m.nullFailed && s.m.now < s.m.probeTimeout then
                  SilentPoll(hw, s1) && SamePoll(s, s1, 0) && s1.m.log == s.m.log
                  && s1.m.probeTimeout == s.m.probeTimeout && s1.m.timer == RunAgain(s.m, s.m.probeTimeout).timer
                else if s.m.probes < hw.maxProbeTries then
                  SilentPoll(hw, s1) && SamePoll(s, s1, 1)
                  && s1.m.log == s.m.log + [TxProbe(s.m.probes < UnicastLimit(hw))]
                else
                  s1.life.Idle? && s1.m.log == s.m.log + Lost(s.m))
  {
    assert s.m.log + (if s.m.csa.blockTx then [WakeQueues] else []) + [RepDisconnect(true, FromJoined)]
        == s.m.log + Lost(s.m);
  }

  lemma PollWake(hw: Hw, s: State, n: Nap)
    requires SilentPoll(hw, s)
    ensures var s1 := Wake(hw, s, n);
            && s1.m.status.None?
            && (|| (SilentPoll(hw, s1) && SamePoll(s, s1, 0) && s1.m.log == s.m.log
                    && PollRank(hw, s1) <= PollRank(hw, s) + 1 && (Quiet(s, n) ==> PollRank(hw, s1) < PollRank(hw, s)))
                || (SilentPoll(hw, s1) && SamePoll(s, s1, 1) && s.m.probes < hw.maxProbeTries
                    && s1.m.log == s.m.log + [TxProbe(s.m.probes < UnicastLimit(hw))]
                    && PollRank(hw, s1) <= PollRank(hw, s) && (Quiet(s, n) ==> PollRank(hw, s1) < PollRank(hw, s)))
                || (s1.life.Idle? && s.m.probes >= hw.maxProbeTries && s1.m.log == s.m.log + Lost(s.m)))
  {
    var s0 := WakeRunsWork(hw, s, n);
    PollCheck(hw, ApplyStatus(hw, s0));
  }

  /** A poll that gets no answer sends its remaining probe requests, the last three of them as broadcasts, and
      then gives the connection up. */
  lemma {:induction false} PollSilence(hw: Hw, s: State, naps: seq<Nap>)
    requires SilentPoll(hw, s) && |naps| > PollRank(hw, s) + 3 * (Unread(s.m) + Statuses(naps))
    ensures var s1 := Naps(hw, s, naps);
            && s1.life.Idle?
            && s1.m.log == s.m.log + Probes(hw, s.m.probes, hw.maxProbeTries) + Lost(s.m)
    decreases |naps|
  {
    PollWake(hw, s, naps[0]);
    var s1 := Wake(hw, s, naps[0]);
    if s1.life.Idle? {
      assert Naps(hw, s1, naps[1..]) == s1;
      assert Probes(hw, s.m.probes, hw.maxProbeTries) == [];
      assert s.m.log + [] + Lost(s.m) == s.m.log + Lost(s.m);
    } else {
      PollSilence(hw, s1, naps[1..]);
      PollLogs(hw, s, s1, Naps(hw, s1, naps[1..]).m.log);
    }
  }

  /** What is logged after a wake-up is logged after the state before it. */
  lemma PollLogs(hw: Hw, s: State, s1: State, log: seq<Event>)
    requires Lost(s1.m) == Lost(s.m) && log == s1.m.log + Probes(hw, s1.m.probes, hw.maxProbeTries) + Lost(s1.m)
    requires || (s1.m.log == s.m.log && s1.m.probes == s.m.probes)
             || (s1.m.probes == s.m.probes + 1 <= hw.maxProbeTries
                 && s1.m.log == s.m.log + [TxProbe(s.m.probes < UnicastLimit(hw))])
    ensures log == s.m.log + Probes(hw, s.m.probes, hw.maxProbeTries) + Lost(s.m)
  {
    if s1.m.probes != s.m.probes {
      ProbesFront(hw, s.m.log, s.m.probes, Lost(s.m));
    }
  }

  // ---------------------------------------------------------------------------------------------
  // From the request to the end
  // ---------------------------------------------------------------------------------------------

  /** What an authentication request starts, from whichever phase it was granted. */
  lemma AuthGranted(hw: Hw, s: State, r: AuthReq)
    requires StationRuns.Bounded(s) && MgdAuth(hw, s, r).0 == Ok
    ensures var s1 := MgdAuth(hw, s, r).1;
            && SilentAuth(s1) && s1.life.auth.tries == 1 && s1.m.status == s.m.status
            && s1.life.auth.bss == r.bss && s1.life.auth.alg == r.alg.value && s1.life.auth.saeTrans == r.saeTrans
            && s1.m.log == s.m.log + Previously(s) + [BeginAuth(r.bss.addr)] + [Opening(s1.life.auth)]
  {
    assert s.m.log + (if s.m.csa.blockTx then [WakeQueues] else []) + [RepDisconnect(true, FromJoined)]
        == s.m.log + Lost(s.m);
    assert s.m.log + [] == s.m.log;
  }

  lemma AfterFirstTry(hw: Hw, s: State, naps: seq<Nap>, log: seq<Event>, begin: Event)
    requires SilentAuth(s) && s.life.auth.tries == 1 && |naps| > 8 + 3 * (Unread(s.m) + Statuses(naps))
    requires s.m.log == log + [begin] + [Opening(s.life.auth)]
    ensures var s1 := Naps(hw, s, naps);
            var f := Opening(s.life.auth);
            s1.life.Idle? && s1.m.log == log + [begin, f, f, f, RepAuthTimeout(s.life.auth.bss.addr)]
  {
    var f := Opening(s.life.auth);
    AuthSilence(hw, s, naps);
    assert Times(2, f) == [f] + Times(1, f) == [f, f];
  }

  /** A granted authentication request that gets no answer, whatever the TX status of its frames: three frames,
      one report, nothing else. */
  lemma AuthRequestUnanswered(hw: Hw, s: State, r: AuthReq, naps: seq<Nap>)
    requires StationRuns.Bounded(s) && MgdAuth(hw, s, r).0 == Ok
    requires |naps| > 8 + 3 * (Unread(s.m) + Statuses(naps))
    ensures var s0 := MgdAuth(hw, s, r).1;
            && s0.life.Auth? && Naps(hw, s0, naps).life.Idle?
            && var f := Opening(s0.life.auth);
               Naps(hw, s0, naps).m.log
               == s.m.log + Previously(s) + [BeginAuth(r.bss.addr), f, f, f, RepAuthTimeout(r.bss.addr)]
  {
    AuthGranted(hw, s, r);
    AfterFirstTry(hw, MgdAuth(hw, s, r).1, naps, s.m.log + Previously(s), BeginAuth(r.bss.addr));
  }

  lemma AssocStarted(hw: Hw, m: Mgd, r: AssocReq)
    requires !m.polling && AssocStart(hw, m, r).0 == Ok
    ensures var s1 := AssocStart(hw, m, r).1;
            && SilentAssoc(s1) && s1.life.assoc.tries == 0 && s1.m.status == m.status
            && s1.life.assoc.bss == r.bss && (Blind(s1) <==> hw.needDtimBeforeAssoc && !r.haveBeaconIes)
            && s1.m.log == m.log + [BeginAssoc(r.bss.addr)]
  {
    var (code, m1) := PrepConnection(m.(haveBeacon := false), r.bss, true, r.override, r.prep);
    assert m1 == m.(haveBeacon := false, bssid := m1.bssid, known := m1.known);
  }

  lemma AssocGranted(hw: Hw, s: State, r: AssocReq)
    requires StationRuns.Bounded(s) && MgdAssoc(hw, s, r).0 == Ok
    ensures var s1 := MgdAssoc(hw, s, r).1;
            && SilentAssoc(s1) && s1.life.assoc.tries == 0 && s1.m.status == s.m.status
            && s1.life.assoc.bss == r.bss && (Blind(s1) <==> hw.needDtimBeforeAssoc && !r.haveBeaconIes)
            && s1.m.log == s.m.log + Previously(s) + [BeginAssoc(r.bss.addr)]
  {
    assert s.m.log + (if s.m.csa.blockTx then [WakeQueues] else []) + [RepDisconnect(true, FromJoined)]
        == s.m.log + Lost(s.m);
    assert s.m.log + [] == s.m.log;
    var m := Retain(BeforeAssoc(s), r);
    assert m.log == s.m.log + Previously(s) && m.status == s.m.status && !m.polling;
    AssocStarted(hw, m, r);
  }

  /** A granted association request that gets no answer: three requests if it need not wait for a beacon and they
      can be built, none if it waits in vain, and one report. */
  lemma AssocRequestUnanswered(hw: Hw, s: State, r: AssocReq, naps: seq<Nap>)
    requires StationRuns.Bounded(s) && MgdAssoc(hw, s, r).0 == Ok
    requires |naps| > 11 + 3 * (Unread(s.m) + Statuses(naps)) && forall n :: n in naps ==> n.built
    ensures var s1 := Naps(hw, MgdAssoc(hw, s, r).1, naps);
            var sent := if hw.needDtimBeforeAssoc && !r.haveBeaconIes then 0 else 3;
            && s1.life.Idle?
            && s1.m.log == s.m.log + Previously(s) + [BeginAssoc(r.bss.addr)] + Times(sent, TxAssocReq(r.bss.addr))
                                   + [RepAssocTimeout(r.bss.addr)]
  {
    AssocGranted(hw, s, r);
    var sent := AssocSilence(hw, MgdAssoc(hw, s, r).1, naps);
  }

  /** A poll that nobody answers sends `maxProbeTries` requests in all, and at least one. */
  lemma PollUnanswered(hw: Hw, s: State, naps: seq<Nap>)
    requires s.life.Joined? && !s.m.polling && !hw.reportsTxAck
    requires |naps| > ProbeTotal(hw, 1) + 3 * (Unread(s.m) + Statuses(naps))
    ensures var s1 := Naps(hw, ProbeAp(hw, s, true, false, false), naps);
            && s1.life.Idle?
            && s1.m.log == s.m.log + Probes(hw, 0, if hw.maxProbeTries > 1 then hw.maxProbeTries else 1) + Lost(s.m)
  {
    PollStarted(hw, s);
    PollSilence(hw, ProbeAp(hw, s, true, false, false), naps);
    if hw.maxProbeTries >= 1 {
      ProbesFront(hw, s.m.log, 0, Lost(s.m));
    } else {
      assert Probes(hw, 0, 1) == [TxProbe(0 < UnicastLimit(hw))];
    }
  }

  lemma PollStarted(hw: Hw, s: State)
    requires s.life.Joined? && !s.m.polling && !hw.reportsTxAck
    ensures var s1 := ProbeAp(hw, s, true, false, false);
            && SilentPoll(hw, s1) && s1.m.probes == 1 && s1.m.csa == s.m.csa && s1.m.status == s.m.status
            && s1.m.log == s.m.log + [TxProbe(0 < UnicastLimit(hw))]
            && PollRank(hw, s1) <= ProbeTotal(hw, 1)
  {
  }
}
