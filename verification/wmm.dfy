/** Taking over an access point's WMM parameters (mlme.c, ieee80211_sta_wmm_params), and the search for a category
    without admission control that uses them. */
module Wmm {
  import opened Common
  import opened Codec

  /** Access categories, by falling priority. */
  const VO := 0
  const VI := 1
  const BE := 2
  const BK := 3

  type Ac = ac: int | 0 <= ac <= 3

  datatype Params = Params(aifs: nat, cwMin: nat, cwMax: nat, txop: nat, acm: bool, uapsd: bool)

  const UNSET := Params(0, 0, 0, 0, false, false)

  /** What the update reads besides the element: driver callback, queues, and the categories with U-APSD. */
  datatype Env = Env(confTx: bool, queues: nat, uapsdEnabled: bool, uapsdQueues: set<Ac>)
  {
    function Uapsd(ac: Ac): bool { uapsdEnabled && ac in uapsdQueues }
  }

  /** `acm` holds the numbers of the bits set in wmm_acm; `conf` has one entry for each category. */
  datatype State = State(lastParamSet: int, acm: set<nat>, conf: seq<Params>, qos: bool)

  // ---------------------------------------------------------------------------------------------
  // One record of four bytes
  // ---------------------------------------------------------------------------------------------

  function AcOf(b0: Byte): Ac {
    match (b0 / 32) % 4
    case 1 => BK
    case 2 => VI
    case 3 => VO
    case _ => BE
  }

  predicate AcmOf(b0: Byte) { (b0 / 16) % 2 == 1 }

  /** The user priorities that an admission-controlled category blocks. */
  function AcmBits(ac: Ac): set<nat> {
    if ac == BK then {1, 2} else if ac == VI then {4, 5} else if ac == VO then {6, 7} else {0, 3}
  }

  function Pow2(n: nat): (p: nat)
    ensures p >= 1
  {
    if n == 0 then 1 else 2 * Pow2(n - 1)
  }

  /** A contention window from its exponent. */
  function Cw(e: nat): nat { Pow2(e) - 1 }

  function Le16(low: int, high: int): int { low + 0x100 * high }

  function Decode(r: seq<Byte>, env: Env): Params
    requires |r| == 4
  {
    Params(if r[0] % 16 < 2 then 2 else r[0] % 16, Cw(r[1] % 16), Cw(r[1] / 16), Le16(r[2], r[3]),
           AcmOf(r[0]), env.Uapsd(AcOf(r[0])))
  }

  predicate CwValid(p: Params) { 0 < p.cwMin <= p.cwMax }

  lemma {:induction false} PowGrows(a: nat, b: nat)
    ensures a <= b <==> Pow2(a) <= Pow2(b)
    ensures Cw(a) == 0 <==> a == 0
  {
    if a > 0 && b > 0 {
      PowGrows(a - 1, b - 1);
    }
  }

  function Rec(s: seq<Byte>, i: nat): seq<Byte>
    requires 4 * i + 4 <= |s|
  {
    s[4 * i..4 * i + 4]
  }

  // ---------------------------------------------------------------------------------------------
  // The loop over the records
  // ---------------------------------------------------------------------------------------------

  datatype Parsed = Parsed(ok: bool, params: seq<Params>, acm: set<nat>)

  /** The local variables and wmm_acm after one more record. */
  function Next(before: Parsed, r: seq<Byte>, env: Env): Parsed
    requires |r| == 4 && |before.params| == 4
  {
    var ac, p := AcOf(r[0]), Decode(r, env);
    Parsed(CwValid(p), before.params[ac := p], before.acm + if AcmOf(r[0]) then AcmBits(ac) else {})
  }

  /** After the first `n` records; the loop returns at an invalid one. */
  function After(s: seq<Byte>, n: nat, env: Env): (p: Parsed)
    requires 4 * n <= |s|
    ensures |p.params| == 4
  {
    if n == 0 then Parsed(true, [UNSET, UNSET, UNSET, UNSET], {})
    else
      var before := After(s, n - 1, env);
      if before.ok then Next(before, Rec(s, n - 1), env) else before
  }

  predicate AllPresent(params: seq<Params>) {
    forall p :: p in params ==> p.cwMin != 0
  }

  function Update(s: State, env: Env, element: Option<seq<Byte>>): (State, bool) {
    if !env.confTx || env.queues < 4 || element.None? then (s, false)
    else
      var w := element.value;
      if |w| < 8 || w[5] != 1 || w[6] % 16 == s.lastParamSet then (s, false)
      else
        var p := After(w[8..], (|w| - 8) / 4, env);
        var s1 := s.(lastParamSet := w[6] % 16, acm := p.acm);
        if p.ok && AllPresent(p.params) then (s1.(conf := p.params, qos := true), true) else (s1, false)
  }

  // ---------------------------------------------------------------------------------------------
  // What the update means
  // ---------------------------------------------------------------------------------------------

  /** Some record among the first `n` is for category `ac`; with `acm`, one that demands admission control. */
  ghost predicate Has(s: seq<Byte>, n: nat, ac: Ac, acm: bool)
    requires 4 * n <= |s|
  {
    exists i :: 0 <= i < n && AcOf(Rec(s, i)[0]) == ac && (acm ==> AcmOf(Rec(s, i)[0]))
  }

  /** The last record for a category. */
  function Last(s: seq<Byte>, n: nat, ac: Ac): (l: Option<nat>)
    requires 4 * n <= |s|
    ensures l.Some? ==> l.value < n
  {
    if n == 0 then None
    else if AcOf(Rec(s, n - 1)[0]) == ac then Some(n - 1)
    else Last(s, n - 1, ac)
  }

  lemma {:induction false} LastIs(s: seq<Byte>, n: nat, ac: Ac)
    requires 4 * n <= |s|
    ensures Last(s, n, ac).Some? <==> Has(s, n, ac, false)
    ensures var l := Last(s, n, ac);
            l.Some? ==> && l.value < n && AcOf(Rec(s, l.value)[0]) == ac
                        && forall i :: l.value < i < n ==> AcOf(Rec(s, i)[0]) != ac
  {
    if n > 0 {
      LastIs(s, n - 1, ac);
    }
  }

  ghost predicate AllValid(s: seq<Byte>, n: nat, env: Env)
    requires 4 * n <= |s|
  {
    forall i :: 0 <= i < n ==> CwValid(Decode(Rec(s, i), env))
  }

  lemma {:induction false} AfterOk(s: seq<Byte>, n: nat, env: Env)
    requires 4 * n <= |s|
    ensures After(s, n, env).ok <==> AllValid(s, n, env)
  {
    if n > 0 {
      AfterOk(s, n - 1, env);
    }
  }

  /** A category has the parameters of its last record. */
  lemma {:induction false} AfterParams(s: seq<Byte>, n: nat, env: Env, ac: Ac)
    requires 4 * n <= |s| && After(s, n, env).ok
    ensures After(s, n, env).params[ac] == match Last(s, n, ac) case None => UNSET
                                                                case Some(i) => Decode(Rec(s, i), env)
  {
    if n > 0 {
      AfterParams(s, n - 1, env, ac);
    }
  }

  lemma BitOf(ac: Ac, other: Ac)
    ensures 7 - 2 * ac in AcmBits(other) <==> ac == other
  {
  }

  /** The bit of a category is set exactly if one of its records, not only the last, demands admission control. */
  lemma {:induction false} AfterAcm(s: seq<Byte>, n: nat, env: Env, ac: Ac)
    requires 4 * n <= |s| && After(s, n, env).ok
    ensures 7 - 2 * ac in After(s, n, env).acm <==> Has(s, n, ac, true)
  {
    if n > 0 {
      AfterAcm(s, n - 1, env, ac);
      var b0 := Rec(s, n - 1)[0];
      BitOf(ac, AcOf(b0));
      HasMore(s, n, ac);
    }
  }

  lemma HasMore(s: seq<Byte>, n: nat, ac: Ac)
    requires 0 < 4 * n <= |s|
    ensures Has(s, n, ac, true) <==>
              Has(s, n - 1, ac, true) || (AcOf(Rec(s, n - 1)[0]) == ac && AcmOf(Rec(s, n - 1)[0]))
  {
  }

  /** The element is one that the update looks at: a driver for it, a known version, a new parameter set. */
  predicate Considered(s: State, env: Env, element: Option<seq<Byte>>) {
    && env.confTx && env.queues >= 4 && element.Some?
    && |element.value| >= 8 && element.value[5] == 1 && element.value[6] % 16 != s.lastParamSet
  }

  /** Success needs valid records only and one for each category, and then each category has the valid parameters
      of its last record, and its bit if that demands admission control. Failure leaves parameters and QoS as
      they were. */
  lemma AllOrNothing(s: State, env: Env, element: Option<seq<Byte>>)
    requires |s.conf| == 4
    ensures var (s1, ok) := Update(s, env, element);
            && (!ok ==> s1.conf == s.conf && s1.qos == s.qos)
            && (if Considered(s, env, element) then s1.lastParamSet == element.value[6] % 16 else s1 == s)
            && (ok ==> |s1.conf| == 4 && s1.qos && Considered(s, env, element))
            && (Considered(s, env, element) ==>
                  var r, n := element.value[8..], (|element.value| - 8) / 4;
                  && (ok <==> AllValid(r, n, env) && forall ac: Ac :: Has(r, n, ac, false))
                  && (ok ==> forall ac: Ac :: && Last(r, n, ac).Some?
                                              && s1.conf[ac] == Decode(Rec(r, Last(r, n, ac).value), env))
                  && (ok ==> forall ac: Ac :: 7 - 2 * ac in s1.acm <==> Has(r, n, ac, true)))
            && (ok ==> forall ac: Ac :: && s1.conf[ac].aifs >= 2 && 1 <= s1.conf[ac].cwMin <= s1.conf[ac].cwMax
                                        && (s1.conf[ac].acm ==> 7 - 2 * ac in s1.acm))
  {
    if Considered(s, env, element) {
      var r, n := element.value[8..], (|element.value| - 8) / 4;
      AfterOk(r, n, env);
      Presence(r, n, env);
      var p := After(r, n, env);
      if p.ok && AllPresent(p.params) {
        forall ac: Ac
          ensures && Last(r, n, ac).Some? && p.params[ac] == Decode(Rec(r, Last(r, n, ac).value), env)
                  && p.params[ac].aifs >= 2 && CwValid(p.params[ac])
          ensures p.params[ac].acm ==> Has(r, n, ac, true)
          ensures 7 - 2 * ac in p.acm <==> Has(r, n, ac, true)
        {
          LastIs(r, n, ac);
          AfterParams(r, n, env, ac);
          AfterAcm(r, n, env, ac);
        }
      }
    }
  }

  lemma Presence(r: seq<Byte>, n: nat, env: Env)
    requires 4 * n <= |r|
    ensures After(r, n, env).ok ==> (AllPresent(After(r, n, env).params) <==> forall ac: Ac :: Has(r, n, ac, false))
  {
    var p := After(r, n, env);
    if p.ok {
      AfterOk(r, n, env);
      forall ac: Ac
        ensures p.params[ac].cwMin != 0 <==> Has(r, n, ac, false)
      {
        LastIs(r, n, ac);
        AfterParams(r, n, env, ac);
        assert Last(r, n, ac).Some? ==> CwValid(Decode(Rec(r, Last(r, n, ac).value), env));
      }
      assert p.params == [p.params[VO], p.params[VI], p.params[BE], p.params[BK]];
      if forall ac: Ac :: Has(r, n, ac, false) {
        assert Has(r, n, VO, false) && Has(r, n, VI, false) && Has(r, n, BE, false) && Has(r, n, BK, false);
      } else {
        var ac: Ac :| !Has(r, n, ac, false);
        assert p.params[ac] in p.params;
      }
    }
  }

  /** A parameter set is looked at once: even one that failed is ignored from then on. */
  lemma SecondTimeIgnored(s: State, env: Env, env1: Env, element: Option<seq<Byte>>)
    requires Considered(s, env, element)
    ensures var s1 := Update(s, env, element).0; Update(s1, env1, element) == (s1, false)
  {
  }

  /** The category used instead of one that ran out of admitted time: the next lower without its bit, or the
      lowest. */
  function Downgraded(acm: set<nat>, ac: nat): (r: nat)
    requires ac <= 4
    ensures r == BK || (ac <= r < BK && 7 - 2 * r !in acm)
    ensures forall k :: ac <= k < r ==> 7 - 2 * k in acm
    decreases 4 - ac
  {
    if ac == 4 then BK else if 7 - 2 * ac !in acm then ac else Downgraded(acm, ac + 1)
  }

  /** After an update, the search finds the first lower category for which no record demanded admission. */
  lemma DowngradeFinds(s: State, env: Env, element: Option<seq<Byte>>, ac: Ac)
    requires |s.conf| == 4 && Update(s, env, element).1
    ensures Considered(s, env, element)
    ensures var r, n := element.value[8..], (|element.value| - 8) / 4;
            var to := Downgraded(Update(s, env, element).0.acm, ac + 1);
            && to <= BK && (to == BK || (ac < to && !Has(r, n, to, true)))
            && forall k: Ac :: ac < k < to ==> Has(r, n, k, true)
  {
    AllOrNothing(s, env, element);
  }

  // ---------------------------------------------------------------------------------------------
  // The same in terms of the bytes
  // ---------------------------------------------------------------------------------------------

  /** 2^e - 1 for the exponents that four bits hold. */
  const WINDOWS: seq<nat> := [0, 1, 3, 7, 15, 31, 63, 127, 255, 511, 1023, 2047, 4095, 8191, 16383, 32767]

  /** The user priorities blocked for each category index of a record: best effort, background, video, voice. */
  const BLOCKED: seq<set<nat>> := [{0, 3}, {1, 2}, {4, 5}, {6, 7}]

  /** The category index of voice, video, best effort and background. */
  const ACI: seq<nat> := [3, 2, 0, 1]

  /** Record `i` has the category index `aci`. */
  predicate IsFor(r: seq<Byte>, i: nat, aci: nat)
    requires 4 * i + 4 <= |r|
  {
    r[4 * i] / 32 % 4 == aci
  }

  /** Its contention window is not empty. */
  predicate Window(r: seq<Byte>, i: nat)
    requires 4 * i + 4 <= |r|
  {
    0 < r[4 * i + 1] % 16 <= r[4 * i + 1] / 16
  }

  /** It demands admission control, and `bit` is one of the user priorities which that blocks. */
  predicate Marks(r: seq<Byte>, i: nat, bit: nat)
    requires 4 * i + 4 <= |r|
  {
    r[4 * i] / 16 % 2 == 1 && bit in BLOCKED[r[4 * i] / 32 % 4]
  }

  predicate Sound(r: seq<Byte>, n: nat)
    requires 4 * n <= |r|
  {
    forall i :: 0 <= i < n ==> Window(r, i)
  }

  /** A record marks the bit before which all are valid. */
  predicate Set(r: seq<Byte>, n: nat, bit: nat)
    requires 4 * n <= |r|
  {
    exists i :: 0 <= i < n && Marks(r, i, bit) && Sound(r, i)
  }

  /** The last record for category index `aci` is there, and carries `p`. */
  predicate LastCarries(r: seq<Byte>, n: nat, aci: nat, p: Params)
    requires 4 * n <= |r|
  {
    exists i :: 0 <= i < n && IsFor(r, i, aci) && Carried(p, r, i) && forall j :: i < j < n ==> !IsFor(r, j, aci)
  }

  predicate SomeFor(r: seq<Byte>, n: nat, aci: nat)
    requires 4 * n <= |r|
  {
    exists i :: 0 <= i < n && IsFor(r, i, aci)
  }

  predicate SomeDemands(r: seq<Byte>, n: nat, aci: nat)
    requires 4 * n <= |r|
  {
    exists i :: 0 <= i < n && IsFor(r, i, aci) && r[4 * i] / 16 % 2 == 1
  }

  /** The parameters that record `i` carries. */
  predicate Carried(p: Params, r: seq<Byte>, i: nat)
    requires 4 * i + 4 <= |r|
  {
    var b0, b1 := r[4 * i], r[4 * i + 1];
    var low: int, high: int := r[4 * i + 2], r[4 * i + 3];
    && p.aifs == (if b0 % 16 < 2 then 2 else b0 % 16)
    && p.cwMin == WINDOWS[b1 % 16] && p.cwMax == WINDOWS[b1 / 16]
    && p.txop == low + 256 * high
    && p.acm == (b0 / 16 % 2 == 1)
  }

  lemma WindowTable(e: nat)
    requires e < 16
    ensures Cw(e) == WINDOWS[e]
  {
    if e > 0 {
      WindowTable(e - 1);
      assert Pow2(e) == 2 * Pow2(e - 1);
    }
  }

  lemma RecordIs(r: seq<Byte>, i: nat, env: Env, ac: Ac)
    requires 4 * i + 4 <= |r|
    ensures AcOf(Rec(r, i)[0]) == ac <==> IsFor(r, i, ACI[ac])
    ensures Carried(Decode(Rec(r, i), env), r, i)
  {
    WindowTable(r[4 * i + 1] % 16);
    WindowTable(r[4 * i + 1] / 16);
  }

  lemma WindowIs(r: seq<Byte>, i: nat, env: Env)
    requires 4 * i + 4 <= |r|
    ensures CwValid(Decode(Rec(r, i), env)) <==> Window(r, i)
  {
    PowGrows(0, r[4 * i + 1] % 16);
    PowGrows(r[4 * i + 1] % 16, r[4 * i + 1] / 16);
  }

  lemma BitsOf(r: seq<Byte>, i: nat, bit: nat)
    requires 4 * i + 4 <= |r|
    ensures Marks(r, i, bit) <==> AcmOf(Rec(r, i)[0]) && bit in AcmBits(AcOf(Rec(r, i)[0]))
  {
    assert Rec(r, i)[0] == r[4 * i];
  }

  lemma BitsNext(r: seq<Byte>, n: nat, env: Env, bit: nat)
    requires 0 < 4 * n <= |r|
    ensures var before := After(r, n - 1, env);
            bit in After(r, n, env).acm <==> bit in before.acm || (before.ok && Marks(r, n - 1, bit))
  {
    BitsOf(r, n - 1, bit);
  }

  lemma OkIfSound(r: seq<Byte>, n: nat, env: Env)
    requires 4 * n <= |r|
    ensures AllValid(r, n, env) <==> Sound(r, n)
    ensures After(r, n, env).ok <==> Sound(r, n)
  {
    AfterOk(r, n, env);
    forall i | 0 <= i < n
      ensures CwValid(Decode(Rec(r, i), env)) <==> Window(r, i)
    {
      WindowIs(r, i, env);
    }
  }

  /** The same, record by record. */
  predicate SetBy(r: seq<Byte>, n: nat, bit: nat, env: Env)
    requires 4 * n <= |r|
  {
    n > 0 && (SetBy(r, n - 1, bit, env) || (Marks(r, n - 1, bit) && After(r, n - 1, env).ok))
  }

  lemma {:induction false} BitsSetBy(r: seq<Byte>, n: nat, env: Env, bit: nat)
    requires 4 * n <= |r|
    ensures bit in After(r, n, env).acm <==> SetBy(r, n, bit, env)
  {
    if n > 0 {
      BitsSetBy(r, n - 1, env, bit);
      BitsNext(r, n, env, bit);
    }
  }

  lemma {:induction false} SetByIs(r: seq<Byte>, n: nat, env: Env, bit: nat)
    requires 4 * n <= |r|
    ensures SetBy(r, n, bit, env) <==> Set(r, n, bit)
  {
    if n > 0 {
      SetByIs(r, n - 1, env, bit);
      OkIfSound(r, n - 1, env);
      if Set(r, n - 1, bit) {
        var i :| 0 <= i < n - 1 && Marks(r, i, bit) && Sound(r, i);
        assert 0 <= i < n && Marks(r, i, bit) && Sound(r, i);
      }
    }
  }

  /** A bit is set for the records up to the first invalid one. */
  lemma BitsSet(r: seq<Byte>, n: nat, env: Env, bit: nat)
    requires 4 * n <= |r|
    ensures bit in After(r, n, env).acm <==> Set(r, n, bit)
  {
    BitsSetBy(r, n, env, bit);
    SetByIs(r, n, env, bit);
  }

  /** The two ways to look for records agree. */
  lemma ForAc(r: seq<Byte>, n: nat, ac: Ac)
    requires 4 * n <= |r|
    ensures Has(r, n, ac, false) <==> SomeFor(r, n, ACI[ac])
    ensures Has(r, n, ac, true) <==> SomeDemands(r, n, ACI[ac])
    ensures Last(r, n, ac).Some? ==>
              var i := Last(r, n, ac).value;
              IsFor(r, i, ACI[ac]) && forall j :: i < j < n ==> !IsFor(r, j, ACI[ac])
  {
    LastIs(r, n, ac);
    forall i | 0 <= i < n
      ensures AcOf(Rec(r, i)[0]) == ac <==> IsFor(r, i, ACI[ac])
      ensures AcmOf(Rec(r, i)[0]) <==> r[4 * i] / 16 % 2 == 1
    {
      RecordIs(r, i, Env(false, 0, false, {}), ac);
    }
  }

  /** What an update does with the records of an element: it succeeds if every contention window is valid and every
      category has a record; then voice, video, best effort and background have what the last record for each of
      them carries. The bits are those of the records up to the first invalid one. */
  lemma RecordsTaken(s: State, env: Env, element: Option<seq<Byte>>)
    requires |s.conf| == 4 && Considered(s, env, element)
    ensures var (s1, ok) := Update(s, env, element);
            var r, n := element.value[8..], (|element.value| - 8) / 4;
            && (ok <==> Sound(r, n) && SomeFor(r, n, 0) && SomeFor(r, n, 1) && SomeFor(r, n, 2) && SomeFor(r, n, 3))
            && (ok ==> && |s1.conf| == 4
                       && LastCarries(r, n, 3, s1.conf[0]) && LastCarries(r, n, 2, s1.conf[1])
                       && LastCarries(r, n, 0, s1.conf[2]) && LastCarries(r, n, 1, s1.conf[3])
                       && s1.conf[0].uapsd == (env.uapsdEnabled && 0 in env.uapsdQueues)
                       && s1.conf[1].uapsd == (env.uapsdEnabled && 1 in env.uapsdQueues)
                       && s1.conf[2].uapsd == (env.uapsdEnabled && 2 in env.uapsdQueues)
                       && s1.conf[3].uapsd == (env.uapsdEnabled && 3 in env.uapsdQueues))
            && (forall bit: nat :: bit in s1.acm <==> Set(r, n, bit))
  {
    var r, n := element.value[8..], (|element.value| - 8) / 4;
    AllOrNothing(s, env, element);
    SuccessIs(r, n, env);
    forall bit: nat
      ensures bit in Update(s, env, element).0.acm <==> Set(r, n, bit)
    {
      BitsSet(r, n, env, bit);
    }
    if Update(s, env, element).1 {
      ConfTaken(s, env, element, VO);
      ConfTaken(s, env, element, VI);
      ConfTaken(s, env, element, BE);
      ConfTaken(s, env, element, BK);
    }
  }

  lemma ConfTaken(s: State, env: Env, element: Option<seq<Byte>>, ac: Ac)
    requires |s.conf| == 4 && Considered(s, env, element) && Update(s, env, element).1
    ensures var r, n := element.value[8..], (|element.value| - 8) / 4;
            var p := Update(s, env, element).0.conf[ac];
            LastCarries(r, n, ACI[ac], p) && p.uapsd == (env.uapsdEnabled && ac in env.uapsdQueues)
  {
    var r, n := element.value[8..], (|element.value| - 8) / 4;
    AllOrNothing(s, env, element);
    ForAc(r, n, ac);
    LastIs(r, n, ac);
    RecordIs(r, Last(r, n, ac).value, env, ac);
  }

  lemma SuccessIs(r: seq<Byte>, n: nat, env: Env)
    requires 4 * n <= |r|
    ensures AllValid(r, n, env) <==> Sound(r, n)
    ensures (forall ac: Ac :: Has(r, n, ac, false)) <==>
            SomeFor(r, n, 0) && SomeFor(r, n, 1) && SomeFor(r, n, 2) && SomeFor(r, n, 3)
  {
    OkIfSound(r, n, env);
    ForAc(r, n, VO);
    ForAc(r, n, VI);
    ForAc(r, n, BE);
    ForAc(r, n, BK);
  }

  /** After an update the search gives the next lower category none of whose records demands admission control, or
      background. */
  lemma DowngradeFor(s: State, env: Env, element: Option<seq<Byte>>, ac: Ac)
    requires |s.conf| == 4 && Update(s, env, element).1
    ensures Considered(s, env, element)
    ensures var r, n := element.value[8..], (|element.value| - 8) / 4;
            var to := Downgraded(Update(s, env, element).0.acm, ac + 1);
            && to <= 3 && (to == 3 || (ac < to && !SomeDemands(r, n, ACI[to])))
            && forall k: Ac :: ac < k < to ==> SomeDemands(r, n, ACI[k])
  {
    DowngradeFinds(s, env, element, ac);
    var r, n := element.value[8..], (|element.value| - 8) / 4;
    forall k: Ac
      ensures Has(r, n, k, true) <==> SomeDemands(r, n, ACI[k])
    {
      ForAc(r, n, k);
    }
  }

  // ---------------------------------------------------------------------------------------------
  // The update in memory
  // ---------------------------------------------------------------------------------------------

  class Sta {
    var lastParamSet: int
    var acm: set<nat>
    const txConf: array<Params>
    var qos: bool

    ghost predicate Valid() { txConf.Length == 4 }

    ghost function View(): State
      reads this, txConf
    {
      State(lastParamSet, acm, txConf[..], qos)
    }

    constructor ()
      ensures Valid() && fresh(txConf) && View() == State(-1, {}, [UNSET, UNSET, UNSET, UNSET], false)
    {
      lastParamSet, acm, qos := -1, {}, false;
      txConf := new Params[4](_ => UNSET);
      new;
      assert txConf[..] == [UNSET, UNSET, UNSET, UNSET];
    }

    /** The loop over the records. */
    method ParseRecords(rest: seq<Byte>, env: Env, params: array<Params>) returns (ok: bool)
      requires params.Length == 4 && params[..] == [UNSET, UNSET, UNSET, UNSET]
      modifies this`acm, params
      ensures Parsed(ok, params[..], acm) == After(rest, |rest| / 4, env)
    {
      acm := {};
      var pos: nat, left: nat := 0, |rest|;
      ghost var n := 0;
      while left >= 4
        invariant pos + left == |rest| && pos == 4 * n
        invariant Parsed(true, params[..], acm) == After(rest, n, env)
      {
        ghost var before := After(rest, n, env);
        var r := rest[pos..pos + 4];
        assert r == Rec(rest, n);
        var ac := AcOf(r[0]);
        if AcmOf(r[0]) {
          acm := acm + AcmBits(ac);
        }
        params[ac] := Decode(r, env);
        assert params[..] == before.params[ac := Decode(r, env)];
        assert acm == before.acm + if AcmOf(r[0]) then AcmBits(ac) else {};
        n := n + 1;
        if !CwValid(params[ac]) {
          StaysStopped(rest, n, |rest| / 4, env);
          return false;
        }
        left := left - 4;
        pos := pos + 4;
      }
      ok := true;
    }

    /** ieee80211_sta_wmm_params */
    method WmmParams(env: Env, element: Option<seq<Byte>>) returns (ok: bool)
      requires Valid()
      modifies this, txConf
      ensures (View(), ok) == Update(old(View()), env, element)
    {
      if !env.confTx || env.queues < 4 || element.None? {
        return false;
      }
      var w := element.value;
      if |w| < 8 || w[5] != 1 {
        return false;
      }
      var count: nat := w[6] % 16;
      if count == lastParamSet {
        return false;
      }
      lastParamSet := count;
      ok := TakeOver(w[8..], env);
      assert |w[8..]| / 4 == (|w| - 8) / 4;
    }

    /** Parse the records, and take them over if all is well. */
    method TakeOver(rest: seq<Byte>, env: Env) returns (ok: bool)
      requires Valid()
      modifies this`acm, this`qos, txConf
      ensures var p := After(rest, |rest| / 4, env);
              && ok == (p.ok && AllPresent(p.params)) && acm == p.acm
              && (if ok then txConf[..] == p.params && qos else txConf[..] == old(txConf[..]) && qos == old(qos))
    {
      var params := new Params[4](_ => UNSET);
      assert params[..] == [UNSET, UNSET, UNSET, UNSET];
      ok := ParseRecords(rest, env, params);
      if !ok {
        return;
      }
      assert params[..] == [params[0], params[1], params[2], params[3]];
      if params[0].cwMin == 0 || params[1].cwMin == 0 || params[2].cwMin == 0 || params[3].cwMin == 0 {
        return false;
      }
      Install(params);
    }

    /** Take the new parameters over. */
    method Install(params: array<Params>)
      requires Valid() && params.Length == 4
      modifies this`qos, txConf
      ensures txConf[..] == old(params[..]) && qos
    {
      ghost var wanted := params[..];
      for ac := 0 to 4
        invariant txConf[..ac] == wanted[..ac] && (params != txConf ==> params[..] == wanted)
        invariant params == txConf ==> txConf[..] == wanted
      {
        txConf[ac] := params[ac];
        assert wanted[..ac + 1] == wanted[..ac] + [wanted[ac]];
      }
      qos := true;
    }
  }

  lemma {:induction false} StaysStopped(s: seq<Byte>, n: nat, m: nat, env: Env)
    requires n <= m && 4 * m <= |s| && !After(s, n, env).ok
    ensures After(s, m, env) == After(s, n, env)
  {
    if n < m {
      StaysStopped(s, n, m - 1, env);
    }
  }
}
