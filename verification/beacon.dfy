/** Beacon timing of a simulated radio (mac80211_hwsim.c). Times are microseconds of one clock, of which the
    timing synchronization function (TSF) is a shifted copy. */
module Beacon {
  import opened Common

  /** A beacon: the time its timer was set to, the TSF at that time, the interval in force. `first` and `moved`
      are histories: the timer had just been started, the TSF was set since the beacon before. */
  datatype Sent = Sent(at: int, tsf: int, interval: nat, first: bool, moved: bool)

  datatype State = State(
    started: bool, beaconInt: nat, tsfOffset: int, bcnDelta: int, timer: Option<int>,
    now: int, first: bool, moved: bool, log: seq<Sent>)
  {
    function Tsf(): int { now + tsfOffset }
  }

  const INIT := State(false, 0, 0, 0, None, 0, false, false, [])

  /** Set the TSF; how far it moved, modulo the interval, is kept for the next beacon. */
  function SetTsf(s: State, tsf: nat): State
    requires s.beaconInt > 0
  {
    var delta := Abs(tsf - s.Tsf());
    if tsf > s.Tsf() then
      s.(tsfOffset := s.tsfOffset + delta, bcnDelta := delta % s.beaconInt, moved := true)
    else
      s.(tsfOffset := s.tsfOffset - delta, bcnDelta := -(delta % s.beaconInt), moved := true)
  }

  function StartTimer(s: State): State
    requires s.beaconInt > 0
  {
    s.(timer := Some(s.now + s.beaconInt - s.Tsf() % s.beaconInt), first := true, moved := false)
  }

  /** A channel configuration; it (re)starts beaconing or stops it. */
  function Config(s: State): State {
    if !s.started || s.beaconInt == 0 then s.(timer := None)
    else if s.timer.None? then StartTimer(s)
    else s
  }

  /** Beaconing is switched on or off on an interface; `others` says whether other interfaces beacon. */
  function EnableBeacon(s: State, enable: bool, interval: nat, others: bool): State
    requires s.started && s.timer.None? && enable ==> interval > 0
  {
    if s.started && s.timer.None? && enable then StartTimer(s.(beaconInt := interval * 1024))
    else if !enable && !others then s.(timer := None, beaconInt := 0)
    else s
  }

  /** The beacon timer fires. */
  function Fire(s: State): State
    requires s.timer.Some?
  {
    if !s.started then s.(timer := None)
    else
      var at := s.timer.value;
      s.(timer := Some(at + s.beaconInt - s.bcnDelta), bcnDelta := 0, first := false, moved := false,
         log := s.log + [Sent(at, at + s.tsfOffset, s.beaconInt, s.first, s.moved)])
  }

  datatype Op =
    | OpWait(time: nat)
    | OpStart
    | OpStop
    | OpSetTsf(tsf: nat)
    | OpConfig
    | OpEnableBeacon(enable: bool, interval: nat, others: bool)
    | OpFire

  /** The driver divides by the interval when the TSF is set and when the timer is started, and only a
      configuration looks whether it is zero; a timer fires not before its time. */
  predicate Allowed(s: State, op: Op) {
    match op
    case OpSetTsf(_) => s.beaconInt > 0
    case OpEnableBeacon(enable, interval, _) => s.started && s.timer.None? && enable ==> interval > 0
    case OpFire => s.timer.Some? && s.timer.value <= s.now
    case _ => true
  }

  function Step(s: State, op: Op): State
    requires Allowed(s, op)
  {
    match op
    case OpWait(time) => s.(now := s.now + time)
    case OpStart => s.(started := true)
    case OpStop => s.(started := false, timer := None)
    case OpSetTsf(tsf) => SetTsf(s, tsf)
    case OpConfig => Config(s)
    case OpEnableBeacon(enable, interval, others) => EnableBeacon(s, enable, interval, others)
    case OpFire => Fire(s)
  }

  // ---------------------------------------------------------------------------------------------
  // Alignment
  // ---------------------------------------------------------------------------------------------

  /** The beacon after the next will be at a multiple of the interval, and the next one will be, unless the TSF
      was moved meanwhile. */
  ghost predicate Sync(s: State) {
    && s.Tsf() >= 0
    && (s.timer.Some? ==>
          && s.started && s.beaconInt > 0
          && Abs(s.bcnDelta) < s.beaconInt
          && (s.timer.value + s.tsfOffset - s.bcnDelta) % s.beaconInt == 0
          && (!s.moved ==> s.bcnDelta == 0))
  }

  /** The steps that can lose the alignment: the TSF is moved while a move is still kept for the next beacon, or
      the timer is started, aligned with the TSF, while an old move is still kept. */
  predicate Loses(s: State, op: Op) {
    && s.bcnDelta != 0
    && (match op
        case OpSetTsf(_) => s.timer.Some?
        case OpConfig => s.started && s.beaconInt > 0 && s.timer.None?
        case OpEnableBeacon(enable, _, _) => s.started && enable && s.timer.None?
        case _ => false)
  }

  /** Adding or removing a multiple and a remainder. */
  lemma Realigned(x: int, delta: nat, b: nat)
    requires b > 0
    ensures (x + delta - delta % b) % b == x % b
    ensures (x - delta + delta % b) % b == x % b
  {
    assert delta == b * (delta / b) + delta % b;
    ModShift(x, delta / b, b);
    ModShift(x, -(delta / b), b);
    assert x + delta - delta % b == x + (delta / b) * b;
    assert x - delta + delta % b == x + (-(delta / b)) * b;
  }

  lemma StartSync(s: State)
    requires s.Tsf() >= 0 && s.started && s.beaconInt > 0
    ensures Sync(StartTimer(s)) <==> s.bcnDelta == 0
    ensures var wait := StartTimer(s).timer.value - s.now; 0 < wait <= s.beaconInt
  {
    var b, tsf := s.beaconInt, s.Tsf();
    var at := StartTimer(s).timer.value;
    assert at + s.tsfOffset == tsf - tsf % b + b;
    Realigned(0, tsf, b);
    ModShift(tsf - tsf % b, 1, b);
  }

  lemma MultipleBelow(x: int, b: nat)
    requires b > 0 && Abs(x) < b
    ensures x % b == 0 <==> x == 0
  {
    assert x == b * (x / b) + x % b;
    MulBig(b, x / b);
  }

  /** Setting the TSF moves the alignment of the timer by the old move, and keeps the new one. */
  lemma SetSync(s: State, tsf: nat)
    requires Sync(s) && s.beaconInt > 0
    ensures Sync(SetTsf(s, tsf)) <==> s.timer.None? || s.bcnDelta == 0
    ensures SetTsf(s, tsf).Tsf() == tsf
  {
    if s.timer.Some? {
      var b, s1 := s.beaconInt, SetTsf(s, tsf);
      var x := s.timer.value + s.tsfOffset;
      Realigned(x, Abs(tsf - s.Tsf()), b);
      assert (s1.timer.value + s1.tsfOffset - s1.bcnDelta) % b == x % b;
      OffBy(x, s.bcnDelta, b);
    }
  }

  lemma OffBy(x: int, delta: int, b: nat)
    requires b > 0 && Abs(delta) < b && (x - delta) % b == 0
    ensures x % b == 0 <==> delta == 0
  {
    var k := (x - delta) / b;
    assert x == delta + k * b;
    ModShift(delta, k, b);
    MultipleBelow(delta, b);
  }

  lemma FireSync(s: State)
    requires Sync(s) && s.timer.Some?
    ensures Sync(Fire(s)) && Fire(s).timer.Some?
    ensures 0 < Fire(s).timer.value - s.timer.value < 2 * s.beaconInt
    ensures !s.moved ==> (s.timer.value + s.tsfOffset) % s.beaconInt == 0
  {
    ModShift(s.timer.value + s.tsfOffset - s.bcnDelta, 1, s.beaconInt);
  }

  /** The steps that lose the alignment are exactly those above. */
  lemma StepSync(s: State, op: Op)
    requires Sync(s) && Allowed(s, op)
    ensures Sync(Step(s, op)) <==> !Loses(s, op)
  {
    match op
    case OpSetTsf(tsf) => SetSync(s, tsf);
    case OpConfig => if s.started && s.beaconInt > 0 && s.timer.None? { StartSync(s); }
    case OpEnableBeacon(enable, interval, _) =>
      if s.started && enable && s.timer.None? { StartSync(s.(beaconInt := interval * 1024)); }
    case OpFire => FireSync(s);
    case _ =>
  }

  predicate OnTime(e: Sent) { e.interval > 0 && e.tsf % e.interval == 0 }

  predicate Near(at: int, next: int, interval: nat) { 0 < next - at < 2 * interval }

  /** What that means for the beacons: the second beacon after a step comes after a beacon without a further move
      of the TSF, and it is at a multiple of the interval and less than two intervals after that beacon exactly if
      the step does not lose the alignment. */
  lemma SecondBeacon(s: State, op: Op)
    requires Sync(s) && Allowed(s, op) && !op.OpFire? && Step(s, op).timer.Some?
    ensures var s1 := Step(s, op);
            && s1.started && Fire(s1).timer.Some? && |Fire(Fire(s1)).log| == |s.log| + 2
            && var log := Fire(Fire(s1)).log;
            && var first, second := log[|s.log|], log[|s.log| + 1];
            && !second.moved
            && (OnTime(second) && Near(first.at, second.at, first.interval) <==> !Loses(s, op))
  {
    StepSync(s, op);
    var s1 := Step(s, op);
    if Loses(s, op) {
      LostBeacon(s, op);
    } else {
      FireSync(s1);
      FireSync(Fire(s1));
    }
  }

  /** After a step that loses the alignment the second beacon is off by what was remembered, or, if that is a
      multiple of a new interval, not between its neighbours. */
  lemma LostBeacon(s: State, op: Op)
    requires Sync(s) && Allowed(s, op) && Loses(s, op)
    ensures var s1 := Step(s, op);
            && s1.timer.Some? && s1.started && s1.beaconInt > 0
            && var at := s1.timer.value + s1.beaconInt - s1.bcnDelta;
            !((at + s1.tsfOffset) % s1.beaconInt == 0 && Near(s1.timer.value, at, s1.beaconInt))
  {
    var s1 := Step(s, op);
    var b := s1.beaconInt;
    var x := s1.timer.value + s1.tsfOffset;
    ModShift(x - s1.bcnDelta, 1, b);
    if op.OpSetTsf? {
      MovedTwice(s, op.tsf);
    } else {
      Started(s1, if op.OpConfig? then s else s.(beaconInt := op.interval * 1024));
      StaleDelta(x, s1.bcnDelta, b);
    }
  }

  lemma Started(s1: State, s: State)
    requires s.beaconInt > 0 && s1 == StartTimer(s)
    ensures (s1.timer.value + s1.tsfOffset) % s1.beaconInt == 0
  {
    var b, tsf := s.beaconInt, s.Tsf();
    assert tsf == b * (tsf / b) + tsf % b;
    assert s1.timer.value + s1.tsfOffset == b * (tsf / b) + b == b * (tsf / b + 1) + 0;
    DivModUnique(s1.timer.value + s1.tsfOffset, b, tsf / b + 1, 0);
  }

  /** If `x` is a multiple of `b`, one interval less an old move later is not, or is not near. */
  lemma StaleDelta(x: int, delta: int, b: nat)
    requires b > 0 && delta != 0 && x % b == 0
    ensures !((x - delta) % b == 0 && 0 < b - delta < 2 * b)
  {
    if (x - delta) % b == 0 && Abs(delta) < b {
      OffBy(x, delta, b);
    }
  }

  lemma MovedTwice(s: State, tsf: nat)
    requires Sync(s) && s.beaconInt > 0 && s.timer.Some? && s.bcnDelta != 0
    ensures var s1 := SetTsf(s, tsf);
            (s1.timer.value + s1.tsfOffset - s1.bcnDelta) % s1.beaconInt != 0
  {
    var x := s.timer.value + s.tsfOffset;
    Realigned(x, Abs(tsf - s.Tsf()), s.beaconInt);
    OffBy(x, s.bcnDelta, s.beaconInt);
  }

  // ---------------------------------------------------------------------------------------------
  // Every run
  // ---------------------------------------------------------------------------------------------

  /** Beacons are at multiples of the interval, except the first after the TSF was set; from one to the next
      it is more than nothing and less than two intervals, unless beaconing was restarted. */
  ghost predicate Spaced(s: State) {
    && (forall e :: e in s.log && !e.moved ==> OnTime(e))
    && (forall i :: 0 < i < |s.log| && !s.log[i].first ==> Near(s.log[i - 1].at, s.log[i].at, s.log[i - 1].interval))
    && (s.timer.Some? && !s.first ==>
          s.log != [] && var last := s.log[|s.log| - 1];
                         last.interval == s.beaconInt && Near(last.at, s.timer.value, s.beaconInt))
  }

  function Run(s: State, ops: seq<Op>): State
    requires AllowedRun(s, ops)
    decreases |ops|
  {
    if ops == [] then s else Run(Step(s, ops[0]), ops[1..])
  }

  predicate AllowedRun(s: State, ops: seq<Op>)
    decreases |ops|
  {
    ops == [] || (Allowed(s, ops[0]) && AllowedRun(Step(s, ops[0]), ops[1..]))
  }

  /** No step loses the alignment: the TSF is set at most once between beacons. */
  predicate Clean(s: State, ops: seq<Op>)
    requires AllowedRun(s, ops)
    decreases |ops|
  {
    ops == [] || (!Loses(s, ops[0]) && Clean(Step(s, ops[0]), ops[1..]))
  }

  lemma StepSpaced(s: State, op: Op)
    requires Sync(s) && Spaced(s) && Allowed(s, op) && !Loses(s, op)
    ensures Spaced(Step(s, op))
  {
    if op.OpFire? {
      FireSpaced(s);
    }
  }

  lemma FireSpaced(s: State)
    requires Sync(s) && Spaced(s) && s.timer.Some?
    ensures Spaced(Fire(s))
  {
    FireSync(s);
    var s1, at := Fire(s), s.timer.value;
    var e := Sent(at, at + s.tsfOffset, s.beaconInt, s.first, s.moved);
    assert s1.log == s.log + [e];
    assert !s.moved ==> OnTime(e);
    assert Near(at, s1.timer.value, s.beaconInt);
  }

  lemma {:induction false} RunSpaced(s: State, ops: seq<Op>)
    requires Sync(s) && Spaced(s) && AllowedRun(s, ops) && Clean(s, ops)
    ensures Sync(Run(s, ops)) && Spaced(Run(s, ops))
    decreases |ops|
  {
    if ops != [] {
      StepSync(s, ops[0]);
      StepSpaced(s, ops[0]);
      RunSpaced(Step(s, ops[0]), ops[1..]);
    }
  }

  /** In particular every run of a new radio. */
  lemma BeaconsAligned(ops: seq<Op>)
    requires AllowedRun(INIT, ops) && Clean(INIT, ops)
    ensures Spaced(Run(INIT, ops))
  {
    RunSpaced(INIT, ops);
  }

  /** Steps that neither set the TSF nor switch beaconing off. */
  predicate Undisturbed(op: Op) {
    match op
    case OpSetTsf(_) => false
    case OpStop => false
    case OpEnableBeacon(enable, _, others) => enable || others
    case _ => true
  }

  /** The beacons that follow in `log` after the first `n`: the first at `at`, each next one `gap` later, all but
      the first less `delta`; the TSF is `offset` ahead. */
  predicate Series(log: seq<Sent>, n: nat, at: int, gap: nat, delta: int, offset: int) {
    n <= |log| && forall k :: n <= k < |log| ==>
      log[k].at == at + gap * (k - n) - (if k == n then 0 else delta) && log[k].tsf == log[k].at + offset
  }

  lemma SeriesFront(log: seq<Sent>, n: nat, at: int, gap: nat, delta: int, offset: int)
    requires Series(log, n + 1, at + gap - delta, gap, 0, offset)
    requires log[n].at == at && log[n].tsf == at + offset
    ensures Series(log, n, at, gap, delta, offset)
  {
    forall k | n < k < |log|
      ensures log[k].at == at + gap * (k - n) - delta
    {
      assert gap * (k - n) == gap + gap * (k - (n + 1));
    }
  }

  lemma UndisturbedStep(s: State, op: Op)
    requires s.started && s.beaconInt > 0 && s.timer.Some? && Allowed(s, op) && Undisturbed(op)
    ensures var s1 := Step(s, op);
            && s1.started && s1.beaconInt == s.beaconInt && s1.timer.Some? && s1.tsfOffset == s.tsfOffset
            && (if op.OpFire? then
                  var at := s.timer.value;
                  && s1.timer.value == at + s.beaconInt - s.bcnDelta && s1.bcnDelta == 0
                  && s1.log == s.log + [Sent(at, at + s.tsfOffset, s.beaconInt, s.first, s.moved)]
                else s1.timer == s.timer && s1.bcnDelta == s.bcnDelta && s1.log == s.log)
  {
  }

  lemma {:induction false} BeaconSeries(s: State, ops: seq<Op>)
    requires s.started && s.beaconInt > 0 && s.timer.Some?
    requires AllowedRun(s, ops) && forall op :: op in ops ==> Undisturbed(op)
    ensures var log := Run(s, ops).log;
            && s.log <= log && Series(log, |s.log|, s.timer.value, s.beaconInt, s.bcnDelta, s.tsfOffset)
    decreases |ops|
  {
    if ops != [] {
      var s1 := Step(s, ops[0]);
      assert ops[0] in ops;
      UndisturbedStep(s, ops[0]);
      BeaconSeries(s1, ops[1..]);
      if ops[0].OpFire? {
        var log := Run(s1, ops[1..]).log;
        assert s.log == s1.log[..|s.log|] && s1.log[|s.log|] == log[|s.log|];
        SeriesFront(log, |s.log|, s.timer.value, s.beaconInt, s.bcnDelta, s.tsfOffset);
      }
    }
  }

  /** What a caller who asks for an interval of `interval` time units gets: the first beacon comes within
      1024 * interval microseconds, at a multiple of that by the TSF, and each further one exactly so long after
      the one before, except that the second is early by a move of the TSF that is still remembered; all further
      ones are at multiples but for that move. */
  lemma EnabledBeacons(s: State, interval: nat, others: bool, ops: seq<Op>)
    requires s.started && s.timer.None? && interval > 0 && s.Tsf() >= 0
    requires var s1 := Step(s, OpEnableBeacon(true, interval, others));
             AllowedRun(s1, ops) && forall op :: op in ops ==> Undisturbed(op)
    ensures var log := Run(Step(s, OpEnableBeacon(true, interval, others)), ops).log;
            && s.log <= log
            && (|log| > |s.log| ==>
                  var first := log[|s.log|];
                  && first.tsf % (1024 * interval) == 0 && s.now < first.at <= s.now + 1024 * interval
                  && Series(log, |s.log|, first.at, 1024 * interval, s.bcnDelta, s.tsfOffset))
            && forall k :: |s.log| < k < |log| ==> log[k].tsf % (1024 * interval) == (-s.bcnDelta) % (1024 * interval)
  {
    var s0 := s.(beaconInt := interval * 1024);
    var s1 := Step(s, OpEnableBeacon(true, interval, others));
    assert interval * 1024 == 1024 * interval;
    BeaconSeries(s1, ops);
    StartSync(s0);
    Started(s1, s0);
    var log, gap, tsf := Run(s1, ops).log, 1024 * interval, s1.timer.value + s.tsfOffset;
    forall k | |s.log| < k < |log|
      ensures log[k].tsf % gap == (-s.bcnDelta) % gap
    {
      assert tsf == gap * (tsf / gap);
      assert log[k].tsf == -s.bcnDelta + tsf / gap * gap + (k - |s.log|) * gap;
      ModShift(-s.bcnDelta, tsf / gap, gap);
      ModShift(-s.bcnDelta + tsf / gap * gap, k - |s.log|, gap);
    }
  }

  /** When beacons are sent at all: what each step does to the timer, and that only the timer sends. */
  lemma Beaconing(s: State, op: Op)
    requires Allowed(s, op)
    ensures Step(s, op).timer.Some? <==>
              match op
              case OpStop => false
              case OpConfig => s.started && s.beaconInt > 0
              case OpEnableBeacon(enable, _, others) => if enable then s.timer.Some? || s.started
                                                        else s.timer.Some? && others
              case OpFire => s.started
              case _ => s.timer.Some?
    ensures s.timer.Some? && Step(s, op).timer.Some? && !op.OpFire? ==> Step(s, op).timer == s.timer
    ensures var log := Step(s, op).log;
            if op.OpFire? && s.started then
              log == s.log + [Sent(s.timer.value, s.timer.value + s.tsfOffset, s.beaconInt, s.first, s.moved)]
            else log == s.log
  {
  }

  /** A small move forward is kept whole. */
  lemma SetSmall(s: State, tsf: nat, d: nat)
    requires tsf == s.Tsf() + d && 0 < d < s.beaconInt
    ensures SetTsf(s, tsf) == s.(tsfOffset := s.tsfOffset + d, bcnDelta := d, moved := true)
  {
    DivModUnique(d, s.beaconInt, 0, d);
  }

  /** Setting the TSF twice between two beacons leaves all later ones off by the first move: here `d`
      microseconds each. */
  lemma TwoMovesExample(d: nat)
    requires 0 < d < 1024
    ensures var s := SetTsf(SetTsf(State(true, 1024, 0, 0, Some(1024), 0, true, false, []), d), 2 * d);
            && s.timer.Some? && Fire(s).timer.Some?
            && var log := Fire(Fire(s)).log;
            |log| == 2 && !log[1].moved && log[1].tsf == 2048 + d && !OnTime(log[1])
  {
    var s0 := State(true, 1024, 0, 0, Some(1024), 0, true, false, []);
    SetSmall(s0, d, d);
    SetSmall(s0.(tsfOffset := d, bcnDelta := d, moved := true), 2 * d, d);
    DivModUnique(2048 + d, 1024, 2, d);
  }

  // ---------------------------------------------------------------------------------------------
  // The record in memory
  // ---------------------------------------------------------------------------------------------

  class Radio {
    var started: bool
    var beaconInt: nat
    var tsfOffset: int
    var bcnDelta: int
    var timer: Option<int>
    ghost var first: bool
    ghost var moved: bool
    ghost var log: seq<Sent>

    ghost function View(now: int): State
      reads this
    {
      State(started, beaconInt, tsfOffset, bcnDelta, timer, now, first, moved, log)
    }

    constructor ()
      ensures View(0) == INIT
    {
      started, beaconInt, tsfOffset, bcnDelta, timer := false, 0, 0, 0, None;
      first, moved, log := false, false, [];
    }

    /** mac80211_hwsim_set_tsf at time `time`; `ok` is false if it divides by zero. */
    method SetTsfAt(time: int, tsf: nat) returns (ok: bool)
      modifies this
      ensures ok == Allowed(old(View(time)), OpSetTsf(tsf))
      ensures ok ==> View(time) == old(SetTsf(View(time), tsf))
    {
      ok := beaconInt > 0;
      if !ok {
        return;
      }
      var current := time + tsfOffset;
      var delta := Abs(tsf - current);
      if tsf > current {
        tsfOffset := tsfOffset + delta;
        bcnDelta := delta % beaconInt;
      } else {
        tsfOffset := tsfOffset - delta;
        bcnDelta := -(delta % beaconInt);
      }
      moved := true;
    }

    /** The start shared by mac80211_hwsim_config and mac80211_hwsim_bss_info_changed. */
    method StartAt(time: int)
      requires beaconInt > 0
      modifies this
      ensures View(time) == old(StartTimer(View(time)))
    {
      var tsf := time + tsfOffset;
      var untilTbtt := beaconInt - tsf % beaconInt;
      timer := Some(time + untilTbtt);
      first, moved := true, false;
    }

    method ConfigAt(time: int)
      modifies this
      ensures View(time) == old(Config(View(time)))
    {
      if !started || beaconInt == 0 {
        timer := None;
      } else if timer.None? {
        StartAt(time);
      }
    }

    method EnableBeaconAt(time: int, enable: bool, interval: nat, others: bool) returns (ok: bool)
      modifies this
      ensures ok == Allowed(old(View(time)), OpEnableBeacon(enable, interval, others))
      ensures ok ==> View(time) == old(EnableBeacon(View(time), enable, interval, others))
    {
      ok := true;
      if started && timer.None? && enable {
        beaconInt := interval * 1024;
        if beaconInt == 0 {
          return false;
        }
        StartAt(time);
      } else if !enable {
        if !others {
          timer := None;
          beaconInt := 0;
        }
      }
    }

    /** mac80211_hwsim_beacon */
    method FireAt(time: int)
      requires timer.Some?
      modifies this
      ensures View(time) == old(Fire(View(time)))
    {
      var expires := timer.value;
      timer := None;
      if !started {
        return;
      }
      log := log + [Sent(expires, expires + tsfOffset, beaconInt, first, moved)];
      first, moved := false, false;
      var interval: int := beaconInt;
      if bcnDelta != 0 {
        interval := interval - bcnDelta;
        bcnDelta := 0;
      }
      timer := Some(expires + interval);
    }
  }
}
