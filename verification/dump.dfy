/** The list of simulated radios and its resumable dump (mac80211_hwsim.c). A dump takes several calls; between
    them radios come and go. What a call remembers is the identifier after the last radio it emitted. */
module Dump {

  datatype Radio = Radio(idx: nat, net: nat, name: nat)

  /** What one walk over the list emits, and the identifier to resume at. */
  datatype Walked = Walked(emitted: seq<nat>, cursor: nat)

  /** The walk: earlier radios and other namespaces are skipped; it breaks at the first radio that does not fit
      after `room` others. */
  function Walk(radios: seq<Radio>, net: nat, cursor: nat, room: nat): Walked {
    if radios == [] then Walked([], cursor)
    else
      var r, rest := radios[0], radios[1..];
      if r.idx < cursor || r.net != net then Walk(rest, net, cursor, room)
      else if room == 0 then Walked([], cursor)
      else
        var more := Walk(rest, net, r.idx + 1, room - 1);
        more.(emitted := [r.idx] + more.emitted)
  }

  /** A deletion names a radio by identifier or by name. */
  datatype Key = ById(id: nat) | ByName(name: nat)

  predicate Matches(r: Radio, key: Key, net: nat) {
    r.net == net && match key case ById(id) => r.idx == id case ByName(name) => r.name == name
  }

  function Delete(radios: seq<Radio>, key: Key, net: nat): seq<Radio> {
    if radios == [] then []
    else if Matches(radios[0], key, net) then radios[1..]
    else [radios[0]] + Delete(radios[1..], key, net)
  }

  /** The module's radios and one dump of namespace `net`. `inSetup` are identifiers of radios that are being
      set up. `emitted` and `throughout` are histories: all identifiers emitted so far, and those of the radios
      of the namespace that have been in the list since the dump began. */
  datatype State = State(
    radios: seq<Radio>, radioIdx: nat, inSetup: set<nat>,
    net: nat, cursor: nat, emitted: seq<nat>, throughout: set<nat>)

  function Ids(radios: seq<Radio>, net: nat): set<nat> {
    set r | r in radios && r.net == net :: r.idx
  }

  function Begin(radios: seq<Radio>, radioIdx: nat, inSetup: set<nat>, net: nat): State {
    State(radios, radioIdx, inSetup, net, 0, [], Ids(radios, net))
  }

  /** One call of the dump. */
  function Call(s: State, room: nat): Walked {
    if s.cursor == s.radioIdx then Walked([], s.cursor) else Walk(s.radios, s.net, s.cursor, room)
  }

  datatype Op =
    | OpAllocate
    | OpInsert(idx: nat, net: nat, name: nat)
    | OpFail(idx: nat)
    | OpDelete(key: Key, net: nat)
    | OpCall(room: nat)

  /** A radio takes its identifier first and joins the end of the list when it is set up, or never. */
  function Step(s: State, op: Op): State {
    match op
    case OpAllocate => s.(radioIdx := s.radioIdx + 1, inSetup := s.inSetup + {s.radioIdx})
    case OpInsert(idx, net, name) =>
      if idx in s.inSetup then
        s.(radios := s.radios + [Radio(idx, net, name)], inSetup := s.inSetup - {idx})
      else s
    case OpFail(idx) => s.(inSetup := s.inSetup - {idx})
    case OpDelete(key, net) =>
      var radios := Delete(s.radios, key, net);
      s.(radios := radios, throughout := s.throughout * Ids(radios, s.net))
    case OpCall(room) =>
      var w := Call(s, room);
      s.(cursor := w.cursor, emitted := s.emitted + w.emitted)
  }

  // ---------------------------------------------------------------------------------------------
  // The list in order of identifiers
  // ---------------------------------------------------------------------------------------------

  ghost predicate Sorted(radios: seq<Radio>) {
    forall i, j :: 0 <= i < j < |radios| ==> radios[i].idx < radios[j].idx
  }

  /** Radios that finish their setup in the order in which they began it keep the list sorted; others do not. */
  lemma InsertSorted(radios: seq<Radio>, r: Radio)
    requires Sorted(radios)
    ensures Sorted(radios + [r]) <==> forall q :: q in radios ==> q.idx < r.idx
  {
    var all := radios + [r];
    if Sorted(all) {
      forall q | q in radios
        ensures q.idx < r.idx
      {
        var i :| 0 <= i < |radios| && radios[i] == q;
        assert all[i].idx < all[|radios|].idx;
      }
    }
  }

  lemma {:induction false} DeleteSorted(radios: seq<Radio>, key: Key, net: nat)
    requires Sorted(radios)
    ensures Sorted(Delete(radios, key, net))
    ensures forall r :: r in Delete(radios, key, net) ==> r in radios
  {
    if radios != [] && !Matches(radios[0], key, net) {
      DeleteSorted(radios[1..], key, net);
      InFront(radios[0], Delete(radios[1..], key, net));
    }
  }

  lemma InFront(r: Radio, rest: seq<Radio>)
    requires Sorted(rest) && forall q :: q in rest ==> r.idx < q.idx
    ensures Sorted([r] + rest)
  {
  }

  /** The radio that a deletion asks for. */
  predicate Asked(r: Radio, key: Key, net: nat) { r.net == net && (key == ById(r.idx) || key == ByName(r.name)) }

  /** `i` is the first radio asked for. */
  predicate FirstAsked(radios: seq<Radio>, key: Key, net: nat, i: nat) {
    i < |radios| && Asked(radios[i], key, net) && forall j :: 0 <= j < i ==> !Asked(radios[j], key, net)
  }

  lemma {:induction false} DeleteFirst(radios: seq<Radio>, key: Key, net: nat, i: nat)
    requires i <= |radios| && (forall j :: 0 <= j < i ==> !Asked(radios[j], key, net))
    requires i == |radios| || Asked(radios[i], key, net)
    ensures Delete(radios, key, net) == if i == |radios| then radios else radios[..i] + radios[i + 1..]
  {
    if i > 0 {
      var rest := radios[1..];
      assert radios == [radios[0]] + rest;
      DeleteFirst(rest, key, net, i - 1);
      if i < |radios| {
        assert radios[..i] == [radios[0]] + rest[..i - 1] && radios[i + 1..] == rest[i..];
      }
    }
  }

  lemma FindAsked(radios: seq<Radio>, key: Key, net: nat) returns (i: nat)
    ensures i <= |radios| && (forall j :: 0 <= j < i ==> !Asked(radios[j], key, net))
    ensures i == |radios| || Asked(radios[i], key, net)
  {
    i := 0;
    while i < |radios| && !Asked(radios[i], key, net)
      invariant i <= |radios| && forall j :: 0 <= j < i ==> !Asked(radios[j], key, net)
    {
      i := i + 1;
    }
  }

  /** A deletion takes the first radio asked for out of the list, and nothing else; what was there throughout the
      dump, still is, apart from that radio. */
  lemma DeletesOne(s: State, key: Key, net: nat)
    requires Resumable(s)
    ensures var s1 := Step(s, OpDelete(key, net));
            && s1 == s.(radios := s1.radios, throughout := s1.throughout)
            && (|| (s1 == s && forall r :: r in s.radios ==> !Asked(r, key, net))
                || exists i: nat :: && FirstAsked(s.radios, key, net, i)
                                    && s1.radios == s.radios[..i] + s.radios[i + 1..]
                                    && s1.throughout == s.throughout - (if net == s.net then {s.radios[i].idx} else {}))
  {
    var i := FindAsked(s.radios, key, net);
    DeleteFirst(s.radios, key, net, i);
    if i < |s.radios| {
      IdsWithout(s.radios, s.net, i);
      assert FirstAsked(s.radios, key, net, i);
    } else {
      assert s.throughout * Ids(s.radios, s.net) == s.throughout;
    }
  }

  lemma IdsWithout(radios: seq<Radio>, net: nat, i: nat)
    requires Sorted(radios) && i < |radios|
    ensures Ids(radios[..i] + radios[i + 1..], net)
         == Ids(radios, net) - if radios[i].net == net then {radios[i].idx} else {}
  {
    var rest := radios[..i] + radios[i + 1..];
    forall r | r in radios
      ensures r in rest <==> r != radios[i]
      ensures r.idx == radios[i].idx <==> r == radios[i]
    {
      var j :| 0 <= j < |radios| && radios[j] == r;
      assert j < i ==> rest[j] == r;
      assert j > i ==> rest[j - 1] == r;
    }
  }

  ghost predicate Ascending(ids: seq<nat>) {
    forall i, j :: 0 <= i < j < |ids| ==> ids[i] < ids[j]
  }

  lemma AscendFront(id: nat, ids: seq<nat>)
    requires Ascending(ids) && forall x :: x in ids ==> id < x
    ensures Ascending([id] + ids)
  {
    forall j | 0 <= j < |ids|
      ensures id < ids[j]
    {
      assert ids[j] in ids;
    }
  }

  lemma IdsFront(radios: seq<Radio>, net: nat)
    requires Sorted(radios) && radios != []
    ensures Sorted(radios[1..])
    ensures Ids(radios, net) == Ids(radios[1..], net) + if radios[0].net == net then {radios[0].idx} else {}
    ensures forall id :: id in Ids(radios[1..], net) ==> radios[0].idx < id
  {
    assert radios == [radios[0]] + radios[1..];
  }

  /** What a walk from `cursor` did with the namespace's identifiers `ids`: it emitted, in order, those from the
      cursor up to the new cursor, and with room for one it emitted nothing only if there were none. */
  ghost predicate Covered(ids: set<nat>, cursor: nat, room: nat, w: Walked) {
    && Ascending(w.emitted) && cursor <= w.cursor
    && (forall id :: id in w.emitted <==> id in ids && cursor <= id < w.cursor)
    && |w.emitted| <= w.cursor - cursor
    && (w.emitted == [] ==> w.cursor == cursor)
    && (w.emitted == [] && room > 0 ==> forall id :: id in ids ==> id < cursor)
  }

  lemma CoveredFront(ids: set<nat>, cursor: nat, room: nat, w: Walked, id: nat, cursor0: nat)
    requires Covered(ids, id + 1, room, w) && cursor0 <= id && forall x :: x in ids ==> id < x
    ensures Covered(ids + {id}, cursor0, room + 1, Walked([id] + w.emitted, w.cursor))
  {
    AscendFront(id, w.emitted);
  }

  /** On a sorted list every walk is such. */
  lemma {:induction false} WalkSorted(radios: seq<Radio>, net: nat, cursor: nat, room: nat)
    requires Sorted(radios)
    ensures Covered(Ids(radios, net), cursor, room, Walk(radios, net, cursor, room))
    decreases |radios|
  {
    if radios != [] {
      var r, rest := radios[0], radios[1..];
      IdsFront(radios, net);
      if r.idx < cursor || r.net != net {
        WalkSorted(rest, net, cursor, room);
      } else if room > 0 {
        WalkSorted(rest, net, r.idx + 1, room - 1);
        CoveredFront(Ids(rest, net), r.idx + 1, room - 1, Walk(rest, net, r.idx + 1, room - 1), r.idx, cursor);
      }
    }
  }

  // ---------------------------------------------------------------------------------------------
  // Every dump
  // ---------------------------------------------------------------------------------------------

  /** Setups end in the order in which they began. */
  predicate InOrder(s: State, op: Op) {
    op.OpInsert? && op.idx in s.inSetup ==> forall r :: r in s.radios ==> r.idx < op.idx
  }

  /** The identifiers emitted ascend and are below the cursor; a radio that was there throughout has been emitted
      if the cursor is past it. */
  ghost predicate Resumable(s: State) {
    && Sorted(s.radios)
    && (forall r :: r in s.radios ==> r.idx < s.radioIdx) && (forall id :: id in s.inSetup ==> id < s.radioIdx)
    && s.cursor <= s.radioIdx
    && Ascending(s.emitted) && (forall id :: id in s.emitted ==> id < s.cursor) && |s.emitted| <= s.cursor
    && s.throughout <= Ids(s.radios, s.net)
    && (forall id :: id in s.throughout && id < s.cursor ==> id in s.emitted)
  }

  lemma BeginResumable(radios: seq<Radio>, radioIdx: nat, inSetup: set<nat>, net: nat)
    requires Sorted(radios) && (forall r :: r in radios ==> r.idx < radioIdx)
    requires forall id :: id in inSetup ==> id < radioIdx
    ensures Resumable(Begin(radios, radioIdx, inSetup, net))
  {
  }

  /** The shortcut for a cursor at the next free identifier skips only walks that emit nothing. */
  lemma CallCovers(s: State, room: nat)
    requires Resumable(s)
    ensures Covered(Ids(s.radios, s.net), s.cursor, room, Call(s, room)) && Call(s, room).cursor <= s.radioIdx
  {
    WalkSorted(s.radios, s.net, s.cursor, room);
    var w := Walk(s.radios, s.net, s.cursor, room);
    WalkCursor(s.radios, s.net, s.cursor, room, s.radioIdx);
  }

  lemma {:induction false} WalkCursor(radios: seq<Radio>, net: nat, cursor: nat, room: nat, bound: nat)
    requires cursor <= bound && forall r :: r in radios ==> r.idx < bound
    ensures Walk(radios, net, cursor, room).cursor <= bound
    decreases |radios|
  {
    if radios != [] {
      var r := radios[0];
      if r.idx < cursor || r.net != net {
        WalkCursor(radios[1..], net, cursor, room, bound);
      } else if room > 0 {
        WalkCursor(radios[1..], net, r.idx + 1, room - 1, bound);
      }
    }
  }

  lemma AscendConcat(a: seq<nat>, b: seq<nat>, cursor: nat)
    requires Ascending(a) && Ascending(b)
    requires (forall x :: x in a ==> x < cursor) && (forall x :: x in b ==> cursor <= x)
    ensures Ascending(a + b)
  {
    forall j | 0 <= j < |a|
      ensures a[j] < cursor
    {
      assert a[j] in a;
    }
    forall j | 0 <= j < |b|
      ensures cursor <= b[j]
    {
      assert b[j] in b;
    }
  }

  lemma CallResumable(s: State, room: nat)
    requires Resumable(s)
    ensures Resumable(Step(s, OpCall(room)))
  {
    CallCovers(s, room);
    AscendConcat(s.emitted, Call(s, room).emitted, s.cursor);
  }

  lemma StepResumable(s: State, op: Op)
    requires Resumable(s) && InOrder(s, op)
    ensures Resumable(Step(s, op))
  {
    match op
    case OpInsert(idx, net, name) =>
      if idx in s.inSetup {
        InsertSorted(s.radios, Radio(idx, net, name));
        assert forall r :: r in s.radios ==> r in s.radios + [Radio(idx, net, name)];
      }
    case OpDelete(key, net) => DeleteSorted(s.radios, key, net);
    case OpCall(room) => CallResumable(s, room);
    case _ =>
  }

  function Run(s: State, ops: seq<Op>): State
    decreases |ops|
  {
    if ops == [] then s else Run(Step(s, ops[0]), ops[1..])
  }

  ghost predicate OrderedRun(s: State, ops: seq<Op>)
    decreases |ops|
  {
    ops == [] || (InOrder(s, ops[0]) && OrderedRun(Step(s, ops[0]), ops[1..]))
  }

  lemma {:induction false} RunResumable(s: State, ops: seq<Op>)
    requires Resumable(s) && OrderedRun(s, ops)
    ensures Resumable(Run(s, ops))
    decreases |ops|
  {
    if ops != [] {
      StepResumable(s, ops[0]);
      RunResumable(Step(s, ops[0]), ops[1..]);
    }
  }

  /** No identifier is used twice, and none that is given out later has been used. */
  ghost predicate Unique(s: State) {
    && (forall i, j :: 0 <= i < j < |s.radios| ==> s.radios[i].idx != s.radios[j].idx)
    && (forall r :: r in s.radios ==> r.idx < s.radioIdx && r.idx !in s.inSetup)
    && (forall id :: id in s.inSetup ==> id < s.radioIdx)
  }

  /** So it is in every run, however setups overlap. */
  lemma {:induction false} RunUnique(s: State, ops: seq<Op>)
    requires Unique(s)
    ensures Unique(Run(s, ops))
    decreases |ops|
  {
    if ops != [] {
      if ops[0].OpDelete? {
        var i := FindAsked(s.radios, ops[0].key, ops[0].net);
        DeleteFirst(s.radios, ops[0].key, ops[0].net, i);
      }
      RunUnique(Step(s, ops[0]), ops[1..]);
    }
  }

  /** After any calls with any changes between them: identifiers were emitted in ascending order, so none twice.
      If a call with room for one radio then emits nothing, which ends the dump, every radio of the namespace
      that was there throughout has been emitted. No more calls than identifiers can emit something. */
  lemma DumpComplete(radios: seq<Radio>, radioIdx: nat, inSetup: set<nat>, net: nat, ops: seq<Op>, room: nat)
    requires Sorted(radios) && (forall r :: r in radios ==> r.idx < radioIdx)
    requires forall id :: id in inSetup ==> id < radioIdx
    requires OrderedRun(Begin(radios, radioIdx, inSetup, net), ops) && room > 0
    ensures var s := Run(Begin(radios, radioIdx, inSetup, net), ops);
            && Ascending(s.emitted) && |s.emitted| <= s.radioIdx
            && (Call(s, room).emitted == [] ==> forall id :: id in s.throughout ==> id in s.emitted)
            && (Call(s, room).emitted != [] ==> s.cursor < Call(s, room).cursor <= s.radioIdx)
  {
    BeginResumable(radios, radioIdx, inSetup, net);
    RunResumable(Begin(radios, radioIdx, inSetup, net), ops);
    CallCovers(Run(Begin(radios, radioIdx, inSetup, net), ops), room);
  }

  /** Two radios are set up at the same time, and the second to begin joins the list first. The dump steps over
      the other, which is there throughout. */
  lemma OutOfOrderExample(room: nat)
    requires room > 0
    ensures var empty := Begin([], 0, {}, 0);
            var built := Run(empty, [OpAllocate, OpAllocate, OpInsert(1, 0, 1), OpInsert(0, 0, 0)]);
            var s := Step(Begin(built.radios, built.radioIdx, built.inSetup, 0), OpCall(room));
            && built.radios == [Radio(1, 0, 1), Radio(0, 0, 0)]
            && s.emitted == [1] && Call(s, room).emitted == [] && s.throughout == {0, 1}
  {
    BuiltExample();
    StepsOverExample(room);
  }

  lemma BuiltExample()
    ensures var built := Run(Begin([], 0, {}, 0), [OpAllocate, OpAllocate, OpInsert(1, 0, 1), OpInsert(0, 0, 0)]);
            built.radios == [Radio(1, 0, 1), Radio(0, 0, 0)] && built.radioIdx == 2
  {
    var o2, o3 := OpInsert(1, 0, 1), OpInsert(0, 0, 0);
    assert [OpAllocate, OpAllocate, o2, o3][1..] == [OpAllocate, o2, o3];
    assert [OpAllocate, o2, o3][1..] == [o2, o3] && [o2, o3][1..] == [o3] && [o3][1..] == [];
    var s2 := Step(Step(Begin([], 0, {}, 0), OpAllocate), OpAllocate);
    assert s2.radioIdx == 2 && s2.inSetup == {0, 1};
    var s4 := Step(Step(s2, o2), o3);
    assert Run(s4, []) == s4;
    assert Run(s2, [o2, o3]) == Run(Step(s2, o2), [o3]) == Run(s4, []);
  }

  lemma StepsOverExample(room: nat)
    requires room > 0
    ensures forall inSetup: set<nat> ::
              var s := Step(Begin([Radio(1, 0, 1), Radio(0, 0, 0)], 2, inSetup, 0), OpCall(room));
              s.emitted == [1] && Call(s, room).emitted == [] && s.throughout == {0, 1}
  {
    var radios := [Radio(1, 0, 1), Radio(0, 0, 0)];
    assert radios[1..] == [Radio(0, 0, 0)];
    assert Walk(radios[1..], 0, 2, room - 1) == Walk(radios[1..][1..], 0, 2, room - 1);
    assert radios[0] in radios && radios[1] in radios;
    assert Ids(radios, 0) == {0, 1};
  }

  /** The namespace's identifiers ascend along the list, from `cursor` on. */
  predicate Climbs(radios: seq<Radio>, net: nat, cursor: nat) {
    if radios == [] then true
    else if radios[0].net != net then Climbs(radios[1..], net, cursor)
    else cursor <= radios[0].idx && Climbs(radios[1..], net, radios[0].idx + 1)
  }

  /** One call with room for all emits all of the namespace exactly if its identifiers ascend along the list. */
  lemma {:induction false} CompleteIffClimbs(radios: seq<Radio>, net: nat, cursor: nat, room: nat)
    requires room >= |radios| && forall i, j :: 0 <= i < j < |radios| ==> radios[i].idx != radios[j].idx
    ensures var emitted := Walk(radios, net, cursor, room).emitted;
            && (forall id :: id in emitted ==> cursor <= id)
            && ((forall id :: id in Ids(radios, net) ==> id in emitted) <==> Climbs(radios, net, cursor))
    decreases |radios|
  {
    if radios != [] {
      var r, rest := radios[0], radios[1..];
      assert radios == [r] + rest;
      assert Ids(radios, net) == Ids(rest, net) + if r.net == net then {r.idx} else {};
      if r.net != net {
        CompleteIffClimbs(rest, net, cursor, room);
      } else if r.idx < cursor {
        CompleteIffClimbs(rest, net, cursor, room);
        assert r.idx in Ids(radios, net);
      } else {
        CompleteIffClimbs(rest, net, r.idx + 1, room - 1);
        assert r.idx !in Ids(rest, net);
      }
    }
  }

  // ---------------------------------------------------------------------------------------------
  // A dump of several calls, on any list
  // ---------------------------------------------------------------------------------------------

  /** A walk that is resumed at its cursor emits what one walk with the room of both would have emitted. */
  lemma {:induction false} WalkResume(radios: seq<Radio>, net: nat, cursor: nat, r1: nat, r2: nat)
    ensures var w := Walk(radios, net, cursor, r1);
            && w.cursor >= cursor
            && Walk(radios, net, cursor, r1 + r2)
               == Walked(w.emitted + Walk(radios, net, w.cursor, r2).emitted, Walk(radios, net, w.cursor, r2).cursor)
    decreases |radios|
  {
    if radios != [] {
      var r, rest := radios[0], radios[1..];
      if r.idx < cursor || r.net != net {
        WalkResume(rest, net, cursor, r1, r2);
      } else if r1 > 0 {
        WalkResume(rest, net, r.idx + 1, r1 - 1, r2);
        Front(r.idx, Walk(rest, net, r.idx + 1, r1 - 1).emitted,
              Walk(rest, net, Walk(rest, net, r.idx + 1, r1 - 1).cursor, r2).emitted);
      }
    }
  }

  lemma Front(id: nat, a: seq<nat>, b: seq<nat>)
    ensures [id] + (a + b) == [id] + a + b
  {
  }

  /** If a walk with room for one emits nothing, so does a walk with any room. */
  lemma {:induction false} WalkEnded(radios: seq<Radio>, net: nat, cursor: nat, room: nat, other: nat)
    requires room > 0 && Walk(radios, net, cursor, room).emitted == []
    ensures Walk(radios, net, cursor, other) == Walked([], cursor)
    decreases |radios|
  {
    if radios != [] {
      WalkEnded(radios[1..], net, cursor, room, other);
    }
  }

  function Sum(rooms: seq<nat>): nat {
    if rooms == [] then 0 else Sum(rooms[..|rooms| - 1]) + rooms[|rooms| - 1]
  }

  /** The dump after calls with these rooms, and no change of the list between them. */
  function Calls(s: State, rooms: seq<nat>): State {
    if rooms == [] then s else Step(Calls(s, rooms[..|rooms| - 1]), OpCall(rooms[|rooms| - 1]))
  }

  /** Several calls emit what one call with the room of all would emit, on any list. */
  lemma {:induction false} CallsAreOneWalk(s: State, rooms: seq<nat>)
    requires s.emitted == [] && s.cursor <= s.radioIdx && forall r :: r in s.radios ==> r.idx < s.radioIdx
    ensures var w := Walk(s.radios, s.net, s.cursor, Sum(rooms));
            && Calls(s, rooms) == s.(cursor := w.cursor, emitted := w.emitted)
            && w.cursor <= s.radioIdx
  {
    WalkCursor(s.radios, s.net, s.cursor, Sum(rooms), s.radioIdx);
    if rooms == [] {
      WalkNoRoom(s.radios, s.net, s.cursor);
    } else {
      var front, room := rooms[..|rooms| - 1], rooms[|rooms| - 1];
      CallsAreOneWalk(s, front);
      WalkResume(s.radios, s.net, s.cursor, Sum(front), room);
      PastAll(s.radios, s.net, s.radioIdx, room);
    }
  }

  lemma {:induction false} WalkNoRoom(radios: seq<Radio>, net: nat, cursor: nat)
    ensures Walk(radios, net, cursor, 0) == Walked([], cursor)
    decreases |radios|
  {
    if radios != [] {
      WalkNoRoom(radios[1..], net, cursor);
    }
  }

  /** Beyond all identifiers there is nothing to emit, so the shortcut of a call changes nothing. */
  lemma {:induction false} PastAll(radios: seq<Radio>, net: nat, bound: nat, room: nat)
    requires forall r :: r in radios ==> r.idx < bound
    ensures Walk(radios, net, bound, room) == Walked([], bound)
    decreases |radios|
  {
    if radios != [] {
      PastAll(radios[1..], net, bound, room);
    }
  }

  /** A dump by any number of calls, with any room each, that has ended because a call with room for one emitted
      nothing, has emitted all radios of the namespace exactly if their identifiers ascend along the list. */
  lemma DumpCompleteIff(radios: seq<Radio>, radioIdx: nat, inSetup: set<nat>, net: nat, rooms: seq<nat>, room: nat)
    requires forall i, j :: 0 <= i < j < |radios| ==> radios[i].idx != radios[j].idx
    requires (forall r :: r in radios ==> r.idx < radioIdx) && room > 0
    ensures var s := Calls(Begin(radios, radioIdx, inSetup, net), rooms);
            Call(s, room).emitted == [] || Sum(rooms) >= |radios| ==>
              ((forall id :: id in Ids(radios, net) ==> id in s.emitted) <==> Climbs(radios, net, 0))
  {
    var s0 := Begin(radios, radioIdx, inSetup, net);
    CallsAreOneWalk(s0, rooms);
    var s := Calls(s0, rooms);
    if Sum(rooms) >= |radios| {
      CompleteIffClimbs(radios, net, 0, Sum(rooms));
    } else if Call(s, room).emitted == [] {
      PastAll(radios, net, radioIdx, room);
      WalkEnded(radios, net, s.cursor, room, |radios|);
      WalkResume(radios, net, 0, Sum(rooms), |radios|);
      CompleteIffClimbs(radios, net, 0, Sum(rooms) + |radios|);
      assert s.emitted + [] == s.emitted;
    }
  }

  // ---------------------------------------------------------------------------------------------
  // The module's variables
  // ---------------------------------------------------------------------------------------------

  class Hwsim {
    var radios: seq<Radio>
    var radioIdx: nat

    constructor ()
      ensures radios == [] && radioIdx == 0
    {
      radios, radioIdx := [], 0;
    }

    /** The beginning and the end of mac80211_hwsim_new_radio. */
    method Allocate() returns (idx: nat)
      modifies this`radioIdx
      ensures idx == old(radioIdx) && radioIdx == idx + 1
    {
      idx := radioIdx;
      radioIdx := radioIdx + 1;
    }

    method Insert(r: Radio)
      modifies this`radios
      ensures radios == old(radios) + [r]
    {
      radios := radios + [r];
    }

    /** hwsim_del_radio_nl */
    method DelRadio(key: Key, net: nat) returns (found: bool)
      modifies this`radios
      ensures radios == Delete(old(radios), key, net)
      ensures found <==> exists r :: r in old(radios) && Asked(r, key, net)
      ensures !found ==> radios == old(radios)
      ensures found ==> exists i: nat :: FirstAsked(old(radios), key, net, i)
                                         && radios == old(radios)[..i] + old(radios)[i + 1..]
    {
      ghost var was := radios;
      var i := 0;
      while i < |radios|
        invariant i <= |radios|
        invariant forall j :: 0 <= j < i ==> !Asked(radios[j], key, net)
      {
        if Matches(radios[i], key, net) {
          DeleteFirst(radios, key, net, i);
          assert FirstAsked(was, key, net, i) && was[i] in was;
          radios := radios[..i] + radios[i + 1..];
          return true;
        }
        i := i + 1;
      }
      DeleteFirst(radios, key, net, i);
      return false;
    }

    /** hwsim_dump_radio_nl: `args0` is what the callback remembers, `room` how many radios fit. */
    method DumpRadio(args0: nat, net: nat, room: nat) returns (emitted: seq<nat>, args1: nat)
      ensures args0 == radioIdx ==> emitted == [] && args1 == args0
      ensures args0 != radioIdx ==> Walked(emitted, args1) == Walk(radios, net, args0, room)
    {
      emitted := [];
      args1 := args0;
      if args0 == radioIdx {
        return;
      }
      ghost var whole := Walk(radios, net, args0, room);
      var idx: nat, i := args0, 0;
      assert radios[0..] == radios;
      while i < |radios|
        invariant i <= |radios| && |emitted| <= room
        invariant var more := Walk(radios[i..], net, idx, room - |emitted|);
                  whole == Walked(emitted + more.emitted, more.cursor)
      {
        var data := radios[i];
        assert radios[i..][1..] == radios[i + 1..];
        i := i + 1;
        if data.idx < idx || data.net != net {
          continue;
        }
        if |emitted| == room {
          assert whole == Walked(emitted, idx);
          return emitted, idx;
        }
        ghost var more := Walk(radios[i..], net, data.idx + 1, room - |emitted| - 1);
        assert emitted + ([data.idx] + more.emitted) == emitted + [data.idx] + more.emitted;
        emitted := emitted + [data.idx];
        idx := data.idx + 1;
      }
      args1 := idx;
    }
  }
}
