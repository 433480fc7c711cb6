/** The fixed-size queue between a producer thread and a consumer thread (aq_type.c): a ring of slots that
    are handed out in place. `Ring` is the record as a value; `RingQueue` changes it in place. */
module RingQueue {
  import opened Common

  datatype Ring<T> = Ring(head: nat, tail: nat, full: bool, empty: bool, slots: seq<T>)
  {
    /** Head and tail meet exactly when the ring is full or empty. */
    ghost predicate Valid() {
      && head < |slots| && tail < |slots|
      && !(full && empty)
      && (head == tail <==> full || empty)
    }

    function Next(i: nat): nat { if i + 1 == |slots| then 0 else i + 1 }

    function Wrap(i: nat): nat
      requires i < 2 * |slots|
    {
      if i < |slots| then i else i - |slots|
    }

    function Count(): nat
      requires Valid()
    {
      if full then |slots| else if tail >= head then tail - head else tail + |slots| - head
    }

    /** The queue this ring stands for, oldest first. */
    function Contents(): (q: seq<T>)
      requires Valid()
      ensures |q| == Count() <= |slots|
    {
      seq(Count(), i requires 0 <= i < Count() => slots[Wrap(head + i)])
    }

    function GetHead(): Option<nat> { if empty then None else Some(head) }

    function GetTail(): Option<nat> { if full then None else Some(tail) }

    function UsedHead(): Ring<T>
      requires Valid()
    {
      this.(head := Next(head), empty := empty || Next(head) == tail, full := false)
    }

    function PutTail(): Ring<T>
      requires Valid()
    {
      this.(tail := Next(tail), full := full || Next(tail) == head, empty := false)
    }

    function Fill(i: nat, x: T): Ring<T>
      requires i < |slots|
    {
      this.(slots := slots[i := x])
    }
  }

  function New<T>(slots: seq<T>): Ring<T> { Ring(0, 0, false, true, slots) }

  // ---------------------------------------------------------------------------------------------
  // The ring is a bounded first-in first-out queue
  // ---------------------------------------------------------------------------------------------

  /** A slot is handed out exactly when the queue has an oldest item, or room for another. */
  lemma HandsOut<T>(r: Ring<T>)
    requires r.Valid()
    ensures r.GetHead().Some? <==> r.Contents() != []
    ensures r.GetTail().Some? <==> |r.Contents()| < |r.slots|
    ensures r.GetHead().Some? ==> r.slots[r.GetHead().value] == r.Contents()[0]
  {
    if !r.empty {
      assert r.Wrap(r.head + 0) == r.head;
    }
  }

  /** Advancing the head removes the oldest item; on an empty ring it would fabricate items. */
  lemma UsedHeadDequeues<T>(r: Ring<T>)
    requires r.Valid()
    ensures !r.empty ==> r.UsedHead().Valid() && r.UsedHead().Contents() == r.Contents()[1..]
    ensures r.UsedHead().Valid() <==> !r.empty || |r.slots| == 1
  {
    if !r.empty {
      var q := r.UsedHead();
      assert q.Valid();
      forall i | 0 <= i < |q.Contents()|
        ensures q.Contents()[i] == r.Contents()[i + 1]
      {
        assert q.Wrap(q.head + i) == r.Wrap(r.head + (i + 1));
      }
    }
  }

  /** Advancing the tail appends what the tail slot holds; the protocol forbids it on a full ring. */
  lemma PutTailEnqueues<T>(r: Ring<T>)
    requires r.Valid()
    ensures !r.full ==> r.PutTail().Valid() && r.PutTail().Contents() == r.Contents() + [r.slots[r.tail]]
    ensures r.PutTail().Valid() <==> !r.full || |r.slots| == 1
  {
    if !r.full {
      var q := r.PutTail();
      assert q.Valid();
      forall i | 0 <= i < |q.Contents()|
        ensures q.Contents()[i] == (r.Contents() + [r.slots[r.tail]])[i]
      {
        assert q.Wrap(q.head + i) == r.Wrap(r.head + i);
        if i == |r.Contents()| {
          assert r.Wrap(r.head + i) == r.tail;
        }
      }
    }
  }

  /** The slot behind the tail is not part of the queue: filling it changes nothing. */
  lemma FillTailIsInvisible<T>(r: Ring<T>, x: T)
    requires r.Valid() && !r.full
    ensures r.Fill(r.tail, x).Valid() && r.Fill(r.tail, x).Contents() == r.Contents()
  {
    var q := r.Fill(r.tail, x);
    forall i | 0 <= i < |r.Contents()|
      ensures q.Contents()[i] == r.Contents()[i]
    {
      assert q.Wrap(q.head + i) == r.Wrap(r.head + i) != r.tail;
    }
  }

  // ---------------------------------------------------------------------------------------------
  // One producer, one consumer, any interleaving
  // ---------------------------------------------------------------------------------------------

  /** `filling` and `reading` are the slots the two threads hold between get and advance. */
  datatype Shared<T> = Shared(
    ring: Ring<T>, filling: Option<nat>, reading: Option<nat>, put: seq<T>, used: seq<T>)

  datatype Act<T> = ProducerGet | ProducerFill(x: T) | ProducerPut | ConsumerGet | ConsumerUsed

  /** A thread that holds no slot can only ask for one; the queue is advanced only by the holder. */
  function Apply<T>(s: Shared<T>, a: Act<T>): Shared<T>
    requires Exclusive(s)
  {
    match a
    case ProducerGet => if s.filling.None? then s.(filling := s.ring.GetTail()) else s
    case ProducerFill(x) => if s.filling.Some? then s.(ring := s.ring.Fill(s.filling.value, x)) else s
    case ProducerPut =>
      if s.filling.Some? then
        s.(ring := s.ring.PutTail(), filling := None, put := s.put + [s.ring.slots[s.filling.value]])
      else s
    case ConsumerGet => if s.reading.None? then s.(reading := s.ring.GetHead()) else s
    case ConsumerUsed =>
      if s.reading.Some? then
        s.(ring := s.ring.UsedHead(), reading := None, used := s.used + [s.ring.slots[s.reading.value]])
      else s
  }

  /** The slot being filled is the free tail, the slot being read is the oldest item, and they differ. What
      was used is a prefix of what was put; the queue holds the rest. */
  ghost predicate Exclusive<T>(s: Shared<T>) {
    && s.ring.Valid()
    && (s.filling.Some? ==> !s.ring.full && s.filling.value == s.ring.tail)
    && (s.reading.Some? ==> !s.ring.empty && s.reading.value == s.ring.head)
    && (s.filling.Some? && s.reading.Some? ==> s.filling.value != s.reading.value)
    && s.put == s.used + s.ring.Contents()
  }

  lemma ApplyKeepsExclusive<T>(s: Shared<T>, a: Act<T>)
    requires Exclusive(s)
    ensures Exclusive(Apply(s, a))
    ensures s.reading.Some? && Apply(s, a).reading.Some? ==>
              Apply(s, a).ring.slots[s.reading.value] == s.ring.slots[s.reading.value]
  {
    HandsOut(s.ring);
    match a
    case ProducerFill(x) => if s.filling.Some? { FillTailIsInvisible(s.ring, x); }
    case ProducerPut => if s.filling.Some? { PutTailEnqueues(s.ring); }
    case ConsumerUsed => if s.reading.Some? { UsedHeadDequeues(s.ring); }
    case _ =>
  }

  /** The state after any interleaving of the two threads, started on a new ring: the slot being filled is
      never the slot being read, nothing is lost, duplicated or reordered, and at most the capacity waits. */
  function Play<T>(slots: seq<T>, acts: seq<Act<T>>): (s: Shared<T>)
    requires |slots| > 0
    ensures Exclusive(s) && s.used <= s.put && |s.put| - |s.used| <= |slots| == |s.ring.slots|
    decreases |acts|
  {
    if acts == [] then Shared(New(slots), None, None, [], [])
    else
      var before := Play(slots, acts[..|acts| - 1]);
      Advance(before, acts[|acts| - 1])
  }

  /** One act, with what it keeps. */
  function Advance<T>(s: Shared<T>, a: Act<T>): (s1: Shared<T>)
    requires Exclusive(s)
    ensures Exclusive(s1) && |s1.ring.slots| == |s.ring.slots|
  {
    ApplyKeepsExclusive(s, a);
    Apply(s, a)
  }

  // ---------------------------------------------------------------------------------------------
  // The record in memory
  // ---------------------------------------------------------------------------------------------

  class AqQueue<T> {
    const numItems: nat
    const data: array<T>
    var head: nat
    var tail: nat
    var full: bool
    var empty: bool

    ghost function View(): Ring<T>
      reads this, data
    {
      Ring(head, tail, full, empty, data[..])
    }

    ghost predicate Valid()
      reads this, data
    {
      data.Length == numItems && View().Valid()
    }

    ghost function Contents(): seq<T>
      requires Valid()
      reads this, data
    {
      View().Contents()
    }

    constructor (numItems: nat, blank: T)
      requires numItems > 0
      ensures Valid() && fresh(data) && this.numItems == numItems && Contents() == []
    {
      this.numItems := numItems;
      data := new T[numItems](_ => blank);
      head, tail, full, empty := 0, 0, false, true;
    }

    method GetHead() returns (slot: Option<nat>)
      requires Valid()
      ensures slot.Some? <==> Contents() != []
      ensures slot.Some? ==> slot.value == head && data[slot.value] == Contents()[0]
    {
      HandsOut(View());
      slot := None;
      if !empty {
        slot := Some(head);
      }
    }

    method GetTail() returns (slot: Option<nat>)
      requires Valid()
      ensures slot.Some? <==> |Contents()| < numItems
      ensures slot.Some? ==> slot.value == tail
    {
      HandsOut(View());
      slot := None;
      if !full {
        slot := Some(tail);
      }
    }

    /** Hand the head slot back; only allowed while holding it. */
    method UsedHead()
      requires Valid() && Contents() != []
      modifies this
      ensures Valid() && Contents() == old(Contents())[1..] && tail == old(tail)
    {
      UsedHeadDequeues(View());
      ghost var r := View();
      head := head + 1;
      if head == numItems {
        head := 0;
      }
      if head == tail {
        empty := true;
      }
      full := false;
      assert View() == r.UsedHead();
    }

    /** Publish the tail slot; only allowed while holding it. */
    method PutTail()
      requires Valid() && |Contents()| < numItems
      modifies this
      ensures Valid() && Contents() == old(Contents() + [data[tail]]) && head == old(head)
    {
      PutTailEnqueues(View());
      ghost var r := View();
      tail := tail + 1;
      if tail == numItems {
        tail := 0;
      }
      if tail == head {
        full := true;
      }
      empty := false;
      assert View() == r.PutTail();
    }

    /** Write through the pointer that `GetTail` handed out. */
    method Write(slot: nat, x: T)
      requires Valid() && |Contents()| < numItems && slot == tail
      modifies data
      ensures Valid() && Contents() == old(Contents()) && data[..] == old(data[..])[slot := x]
    {
      FillTailIsInvisible(View(), x);
      ghost var r := View();
      data[slot] := x;
      assert View() == r.Fill(slot, x);
    }
  }
}
