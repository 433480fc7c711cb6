/** The two ends of one link (ci_queues.c): the send thread turns queue items into bytes, the receive thread
    turns bytes into queue items. Each step moves as many bytes as the socket takes or has. */
module Link {
  import opened Common
  import opened Codec
  import opened RingQueue

  function Min(a: nat, b: nat): nat { if a <= b then a else b }

  // ---------------------------------------------------------------------------------------------
  // Sending
  // ---------------------------------------------------------------------------------------------

  /** How far into a frame of `total` bytes one send step gets from `pos`: the length, the timestamp and the
      packet are offered one after the other, and the socket accepts up to `k1`, `k2`, `k3` bytes of them. */
  function SendTo(pos: nat, total: nat, k1: nat, k2: nat, k3: nat): (r: nat)
    requires pos <= total && total >= HEADER
    ensures pos <= r <= total
  {
    var p := SendHeaderTo(pos, k1, k2);
    if p >= HEADER then p + Min(k3, total - p) else p
  }

  function SendHeaderTo(pos: nat, k1: nat, k2: nat): (r: nat)
    ensures pos <= r && (pos <= HEADER ==> r <= HEADER) && (pos >= HEADER ==> r == pos)
  {
    var p := if pos < 4 then pos + Min(k1, 4 - pos) else pos;
    if 4 <= p < HEADER then p + Min(k2, HEADER - p) else p
  }

  /** What one step takes: all the socket accepts, part by part; with enough accepted, all that is left. */
  lemma SendsWhatIsTaken(pos: nat, total: nat, k1: nat, k2: nat, k3: nat)
    requires pos <= total && total >= 20
    ensures var p := SendTo(pos, total, k1, k2, k3);
            && (pos < 4 && k1 < 4 - pos ==> p == pos + k1)
            && (pos < 4 <= pos + k1 && k2 < 16 ==> p == 4 + k2)
            && (4 <= pos < 20 && k2 < 20 - pos ==> p == pos + k2)
            && (pos < 4 <= pos + k1 && k2 >= 16 ==> p == if 20 + k3 < total then 20 + k3 else total)
            && (4 <= pos < 20 <= pos + k2 ==> p == if 20 + k3 < total then 20 + k3 else total)
            && (pos >= 20 ==> p == if pos + k3 < total then pos + k3 else total)
  {
  }

  /** One send step as a relation: the queue went from `before` to `after`, the position in the frame of its
      oldest item from `pos` to `pos1`, and `sent` went out: the next bytes of that frame. The item leaves the
      queue when its frame is complete. */
  ghost predicate Sent(before: seq<Slot>, pos: nat, k1: nat, k2: nat, k3: nat,
                       sent: seq<Byte>, after: seq<Slot>, pos1: nat)
    requires forall x :: x in before ==> x.Legal()
  {
    if before == [] then sent == [] && after == [] && pos == pos1 == 0
    else
      assert before[0] in before;
      var f := Frame(before[0].Packet());
      && pos <= |f|
      && var p := SendTo(pos, |f|, k1, k2, k3);
      && sent == f[pos..p]
      && (if p < |f| then after == before && pos1 == p else after == before[1..] && pos1 == 0)
  }

  class Sender {
    const len: array<Byte>
    const timestamp: array<Byte>
    const q: AqQueue<Slot>
    var lenProcessed: nat
    var pktProcessed: nat
    var inProcess: bool
    var item: Option<nat>

    ghost predicate Valid()
      reads this, q, q.data
    {
      && len.Length == 4 && timestamp.Length == 16 && len != timestamp
      && q.Valid() && (forall x :: x in q.Contents() ==> x.Legal())
      && lenProcessed <= HEADER && (lenProcessed < HEADER ==> pktProcessed == 0)
      && (!inProcess ==> lenProcessed == 0 && pktProcessed == 0)
      && (inProcess ==> q.Contents() != [] && item == Some(q.head) && pktProcessed <= q.Contents()[0].size)
    }

    /** The bytes of the current frame that are already on the link. */
    ghost function Pos(): nat
      reads this
    {
      lenProcessed + pktProcessed
    }

    constructor (q: AqQueue<Slot>)
      requires q.Valid() && forall x :: x in q.Contents() ==> x.Legal()
      ensures Valid() && this.q == q && Pos() == 0 && fresh(len) && fresh(timestamp)
    {
      this.q := q;
      len, timestamp := new Byte[4](_ => 0), new Byte[16](_ => 0);
      lenProcessed, pktProcessed, inProcess, item := 0, 0, false, None;
    }

    /** Offer the rest of the length to the socket. */
    method SendLength(slot: Slot, k: nat) returns (sent: seq<Byte>)
      requires len.Length == 4 && slot.Legal() && lenProcessed < 4
      modifies this`lenProcessed, len
      ensures lenProcessed == old(lenProcessed) + Min(k, 4 - old(lenProcessed))
      ensures sent == Frame(slot.Packet())[old(lenProcessed)..lenProcessed]
    {
      FrameParts(slot.Packet());
      SetLength(len, slot.size);
      var n := Min(k, 4 - lenProcessed);
      sent := len[lenProcessed..lenProcessed + n];
      SliceOfPart(Frame(slot.Packet()), 0, 4, len[..], lenProcessed, lenProcessed + n);
      lenProcessed := lenProcessed + n;
    }

    /** Offer the rest of the timestamp. */
    method SendTimestamp(slot: Slot, k: nat) returns (sent: seq<Byte>)
      requires timestamp.Length == 16 && slot.Legal() && 4 <= lenProcessed < HEADER
      modifies this`lenProcessed, timestamp
      ensures lenProcessed == old(lenProcessed) + Min(k, HEADER - old(lenProcessed))
      ensures sent == Frame(slot.Packet())[old(lenProcessed)..lenProcessed]
    {
      FrameParts(slot.Packet());
      StoreWord(timestamp, 0, slot.sec);
      ghost var firstHalf := timestamp[0..8];
      StoreWord(timestamp, 8, slot.nsec);
      assert timestamp[..8] == firstHalf;
      assert timestamp[..] == timestamp[..8] + timestamp[8..16];
      var n := Min(k, HEADER - lenProcessed);
      ghost var from := lenProcessed - 4;
      sent := timestamp[lenProcessed - 4..lenProcessed - 4 + n];
      SliceOfPart(Frame(slot.Packet()), 4, HEADER, timestamp[..], from, from + n);
      lenProcessed := lenProcessed + n;
    }

    /** Offer the rest of the packet. */
    method SendPayload(slot: Slot, k: nat) returns (sent: seq<Byte>)
      requires slot.Legal() && pktProcessed <= slot.size
      modifies this`pktProcessed
      ensures pktProcessed == old(pktProcessed) + Min(k, slot.size - old(pktProcessed))
      ensures sent == Frame(slot.Packet())[HEADER + old(pktProcessed)..HEADER + pktProcessed]
    {
      FrameParts(slot.Packet());
      var n := Min(k, slot.size - pktProcessed);
      sent := slot.buffer[pktProcessed..pktProcessed + n];
      SliceOfPart(slot.buffer, 0, slot.size, slot.Packet().payload, pktProcessed, pktProcessed + n);
      ghost var f := Frame(slot.Packet());
      assert f[HEADER..|f|] == f[HEADER..];
      SliceOfPart(f, HEADER, |f|, slot.Packet().payload, pktProcessed, pktProcessed + n);
      pktProcessed := pktProcessed + n;
    }

    /** One step of the send thread on a connected link. */
    method Step(k1: nat, k2: nat, k3: nat) returns (sent: seq<Byte>)
      requires Valid()
      modifies this, len, timestamp, q
      ensures Valid()
      ensures Sent(old(q.Contents()), old(Pos()), k1, k2, k3, sent, q.Contents(), Pos())
    {
      sent := [];
      if !inProcess {
        item := q.GetHead();
        if item.Some? {
          inProcess := true;
        }
      }
      if !inProcess {
        return;
      }
      HandsOut(q.View());
      var slot := q.data[item.value];
      assert slot == q.Contents()[0] && slot in q.Contents();
      sent := Offer(slot, k1, k2, k3);
      if lenProcessed == HEADER && pktProcessed == slot.size {
        Complete();
      }
    }

    /** The frame is out: free the slot. */
    method Complete()
      requires len.Length == 4 && timestamp.Length == 16 && len != timestamp && q.Valid() && q.Contents() != []
      requires forall x :: x in q.Contents() ==> x.Legal()
      modifies this, q
      ensures Valid() && Pos() == 0 && q.Contents() == old(q.Contents())[1..]
    {
      q.UsedHead();
      inProcess := false;
      lenProcessed := 0;
      pktProcessed := 0;
    }

    /** The three transfers of one step. */
    method Offer(slot: Slot, k1: nat, k2: nat, k3: nat) returns (sent: seq<Byte>)
      requires len.Length == 4 && timestamp.Length == 16 && slot.Legal()
      requires lenProcessed <= HEADER && (lenProcessed < HEADER ==> pktProcessed == 0) && pktProcessed <= slot.size
      modifies this`lenProcessed, this`pktProcessed, len, timestamp
      ensures lenProcessed <= HEADER && (lenProcessed < HEADER ==> pktProcessed == 0) && pktProcessed <= slot.size
      ensures Pos() == SendTo(old(Pos()), HEADER + slot.size, k1, k2, k3)
      ensures sent == Frame(slot.Packet())[old(Pos())..Pos()]
    {
      ghost var f := Frame(slot.Packet());
      ghost var start := Pos();
      sent := OfferHeader(slot, k1, k2);
      if lenProcessed == HEADER {
        ghost var mid := Pos();
        var more := SendPayload(slot, k3);
        SliceJoin(f, start, mid, Pos());
        sent := sent + more;
      }
    }

    method OfferHeader(slot: Slot, k1: nat, k2: nat) returns (sent: seq<Byte>)
      requires len.Length == 4 && timestamp.Length == 16 && slot.Legal()
      requires lenProcessed <= HEADER && (lenProcessed < HEADER ==> pktProcessed == 0) && pktProcessed <= slot.size
      modifies this`lenProcessed, len, timestamp
      ensures lenProcessed <= HEADER && Pos() == SendHeaderTo(old(Pos()), k1, k2)
      ensures sent == Frame(slot.Packet())[old(Pos())..Pos()]
    {
      sent := [];
      ghost var f := Frame(slot.Packet());
      ghost var start := Pos();
      if lenProcessed < 4 {
        sent := SendLength(slot, k1);
      }
      if 4 <= lenProcessed < HEADER {
        ghost var mid := Pos();
        var more := SendTimestamp(slot, k2);
        SliceJoin(f, start, mid, Pos());
        sent := sent + more;
      }
    }
  }

  lemma SliceJoin<T>(f: seq<T>, a: nat, b: nat, c: nat)
    requires a <= b <= c <= |f|
    ensures f[a..b] + f[b..c] == f[a..c]
  {
  }

  /** A slice of a part is a slice of the whole. */
  lemma SliceOfPart<T>(s: seq<T>, lo: nat, hi: nat, part: seq<T>, a: nat, b: nat)
    requires lo <= hi <= |s| && part == s[lo..hi] && a <= b <= hi - lo
    ensures part[a..b] == s[lo + a..lo + b]
  {
    forall i | 0 <= i < b - a
      ensures part[a..b][i] == s[lo + a..lo + b][i]
    {
      assert part[a + i] == s[lo + (a + i)];
    }
  }

  lemma FrameParts(x: Item)
    requires Legal(x)
    ensures var f := Frame(x);
            && f[..4] == BigEndian(|x.payload|, 4)
            && f[4..HEADER] == BigEndian(x.sec, 8) + BigEndian(x.nsec, 8)
            && f[HEADER..] == x.payload
            && |x.payload| < TWO32
  {
  }

  // ---------------------------------------------------------------------------------------------
  // Receiving
  // ---------------------------------------------------------------------------------------------

  /** How many bytes of a frame are present after the length read of a step that starts with `have` of them and
      finds `avail` bytes on the link, and after the timestamp read. */
  function SizeTo(have: nat, avail: nat, k: nat): (r: nat)
    ensures have <= r && r - have <= avail
  {
    if have < 4 then have + Min(k, Min(4 - have, avail)) else have
  }

  function StampTo(have: nat, avail: nat, k: nat): (r: nat)
    ensures have <= r && r - have <= avail && (have <= HEADER ==> r <= HEADER)
  {
    if 4 <= have < HEADER then have + Min(k, Min(HEADER - have, avail)) else have
  }

  function HeaderTo(have: nat, avail: nat, k1: nat, k2: nat): (r: nat)
    ensures have <= r && r - have <= avail && (have <= HEADER ==> r <= HEADER) && (have >= HEADER ==> r == have)
  {
    var n := SizeTo(have, avail, k1);
    StampTo(n, avail - (n - have), k2)
  }

  /** The same after a whole step. `size` is the announced length of the packet; `room` says whether the queue
      has a free slot. Never a byte more than the frame is asked for. */
  function ReceiveTo(have: nat, avail: nat, size: nat, room: bool, k1: nat, k2: nat, k3: nat): (r: nat)
    requires have <= HEADER + size
    ensures have <= r <= HEADER + size && r - have <= avail
  {
    var n := HeaderTo(have, avail, k1, k2);
    if n >= HEADER && room then n + Min(k3, Min(HEADER + size - n, avail - (n - have))) else n
  }

  /** The same for receiving, with `avail` bytes on the link: with enough of them and enough delivered, the frame is
      complete unless the queue is full, and then its header is. */
  lemma ReceivesWhatIsThere(have: nat, avail: nat, size: nat, room: bool, k1: nat, k2: nat, k3: nat)
    requires have <= 20 + size
    ensures var r := ReceiveTo(have, avail, size, room, k1, k2, k3);
            && (k1 >= 4 && k2 >= 16 && k3 >= size && room ==>
                  r == if have + avail < 20 + size then have + avail else 20 + size)
            && (k1 >= 4 && k2 >= 16 && !room && have <= 20 ==> r == if have + avail < 20 then have + avail else 20)
            && (have < 4 && k1 < 4 - have && k1 <= avail ==> r == have + k1)
            && (4 <= have < 20 && k2 < 20 - have && k2 <= avail ==> r == have + k2)
            && (have >= 20 && room && k3 <= avail && have + k3 <= 20 + size ==> r == have + k3)
            && (have >= 20 && !room ==> r == have)
  {
  }

  /** `after` is `before` and one more slot, which holds the packet of frame `f`. */
  ghost predicate Enqueued(before: seq<Slot>, after: seq<Slot>, f: seq<Byte>) {
    && |f| >= HEADER && |after| == |before| + 1 && after[..|before|] == before
    && after[|before|].Legal() && after[|before|].Packet() == Unframe(f)
  }

  /** One receive step as a relation: `part` bytes of the current frame had arrived, `avail` lie on the link,
      and the queue, with room for `room` more, went from `before` to `after`. */
  ghost predicate Received(part: seq<Byte>, avail: seq<Byte>, before: seq<Slot>, room: bool,
                           k1: nat, k2: nat, k3: nat, taken: nat, part1: seq<Byte>, after: seq<Slot>)
  {
    var all := part + avail;
    var size := if |all| >= 4 then Value(all[..4]) else 0;
    && |part| <= HEADER + size
    && var have := ReceiveTo(|part|, |avail|, size, room, k1, k2, k3);
    && taken == have - |part|
    && (if room && have == HEADER + size then part1 == [] && Enqueued(before, after, all[..have])
        else part1 == all[..have] && after == before)
  }

  /** The packet part of a step: `n` more bytes of a frame of `HEADER + size` bytes, if there is room. */
  ghost predicate BodyReceived(part: seq<Byte>, avail: seq<Byte>, before: seq<Slot>, room: bool,
                               size: nat, k: nat, n: nat, part1: seq<Byte>, after: seq<Slot>)
  {
    && HEADER <= |part| <= HEADER + size
    && n == (if room then Min(k, Min(HEADER + size - |part|, |avail|)) else 0)
    && var all := part + avail[..n];
    && (if room && |all| == HEADER + size then part1 == [] && Enqueued(before, after, all)
        else part1 == all && after == before)
  }

  lemma HeaderThenBody(part: seq<Byte>, avail: seq<Byte>, before: seq<Slot>, room: bool, size: nat,
                       k1: nat, k2: nat, k3: nat, t: nat, n: nat, part1: seq<Byte>, after: seq<Slot>)
    requires |part| + t == HeaderTo(|part|, |avail|, k1, k2) >= HEADER && t <= |avail|
    requires Value((part + avail)[..4]) == size
    requires BodyReceived(part + avail[..t], avail[t..], before, room, size, k3, n, part1, after)
    ensures Received(part, avail, before, room, k1, k2, k3, t + n, part1, after)
  {
    assert part + avail[..t] + avail[t..][..n] == (part + avail)[..|part| + t + n];
  }

  lemma TakeTwice<T>(s: seq<T>, a: nat, b: nat)
    requires a + b <= |s|
    ensures s[..a] + s[a..][..b] == s[..a + b]
  {
  }

  class Receiver {
    const len: array<Byte>
    const timestamp: array<Byte>
    const q: AqQueue<Slot>
    var lenReceived: nat
    var bytesToReceive: nat
    var bytesReceived: nat
    var item: Option<nat>

    ghost predicate Valid()
      reads this, q, q.data, len
    {
      && len.Length == 4 && timestamp.Length == 16 && len != timestamp
      && q.Valid() && (forall i :: 0 <= i < q.data.Length ==> q.data[i].Legal())
      && lenReceived <= HEADER
      && (lenReceived >= 4 ==> bytesToReceive == Value(len[..]) <= BUFFER_SIZE)
      && (lenReceived < HEADER ==> bytesReceived == 0)
      && (bytesReceived > 0 ==> |q.Contents()| < q.numItems && bytesReceived < bytesToReceive)
    }

    /** The bytes of the header that have arrived. */
    ghost function Head(): seq<Byte>
      requires len.Length == 4 && timestamp.Length == 16 && lenReceived <= HEADER
      reads this, len, timestamp
    {
      len[..Min(4, lenReceived)] + timestamp[..if lenReceived < 4 then 0 else lenReceived - 4]
    }

    /** The bytes of the current frame that have arrived; the packet bytes lie in the queue's free slot. */
    ghost function Part(): seq<Byte>
      requires Valid()
      reads this, q, q.data, len, timestamp
    {
      Head() + q.data[q.tail].buffer[..bytesReceived]
    }

    constructor (q: AqQueue<Slot>)
      requires q.Valid() && forall i :: 0 <= i < q.data.Length ==> q.data[i].Legal()
      ensures Valid() && this.q == q && Part() == [] && fresh(len) && fresh(timestamp)
    {
      this.q := q;
      len, timestamp := new Byte[4](_ => 0), new Byte[16](_ => 0);
      lenReceived, bytesToReceive, bytesReceived, item := 0, 0, 0, None;
    }

    /** recv into the length array. */
    method ReceiveLength(avail: seq<Byte>, k: nat) returns (n: nat)
      requires len.Length == 4 && lenReceived < 4
      modifies this`lenReceived, len
      ensures n == Min(k, Min(4 - old(lenReceived), |avail|)) && lenReceived == old(lenReceived) + n
      ensures len[..lenReceived] == old(len[..lenReceived]) + avail[..n]
    {
      n := Min(k, Min(4 - lenReceived, |avail|));
      forall i | 0 <= i < n {
        len[lenReceived + i] := avail[i];
      }
      lenReceived := lenReceived + n;
    }

    /** recv into the timestamp array. */
    method ReceiveTimestamp(avail: seq<Byte>, k: nat) returns (n: nat)
      requires len.Length == 4 && timestamp.Length == 16 && len != timestamp && 4 <= lenReceived < HEADER
      modifies this`lenReceived, timestamp
      ensures n <= |avail| && lenReceived == old(lenReceived) + n == StampTo(old(lenReceived), |avail|, k) <= HEADER
      ensures Head() == old(Head()) + avail[..n]
    {
      n := Min(k, Min(HEADER - lenReceived, |avail|));
      forall i | 0 <= i < n {
        timestamp[lenReceived - 4 + i] := avail[i];
      }
      lenReceived := lenReceived + n;
    }

    /** The announced length is read when its four bytes are there. */
    method ReceiveSize(avail: seq<Byte>, k: nat) returns (n: nat)
      requires len.Length == 4 && timestamp.Length == 16 && len != timestamp && lenReceived < HEADER
      requires lenReceived >= 4 ==> bytesToReceive == Value(len[..])
      modifies this`lenReceived, this`bytesToReceive, len
      ensures n <= |avail| && lenReceived == old(lenReceived) + n == SizeTo(old(lenReceived), |avail|, k) < HEADER
      ensures Head() == old(Head()) + avail[..n]
      ensures lenReceived >= 4 ==> bytesToReceive == Value(len[..])
    {
      n := 0;
      if lenReceived < 4 {
        n := ReceiveLength(avail, k);
      }
      if lenReceived == 4 {
        bytesToReceive := GetLength(len);
      }
    }

    /** The header part of a step. */
    method ReceiveHeader(avail: seq<Byte>, k1: nat, k2: nat) returns (taken: nat)
      requires len.Length == 4 && timestamp.Length == 16 && len != timestamp && lenReceived < HEADER
      requires lenReceived >= 4 ==> bytesToReceive == Value(len[..])
      modifies this`lenReceived, this`bytesToReceive, len, timestamp
      ensures taken <= |avail| && lenReceived == old(lenReceived) + taken <= HEADER
      ensures Head() == old(Head()) + avail[..taken]
      ensures lenReceived == HeaderTo(old(lenReceived), |avail|, k1, k2)
      ensures lenReceived >= 4 ==> bytesToReceive == Value(len[..])
    {
      taken := ReceiveSize(avail, k1);
      if 4 <= lenReceived < HEADER {
        ghost var headed := Head();
        var n := ReceiveTimestamp(avail[taken..], k2);
        TakeTwice(avail, taken, n);
        assert Head() == headed + avail[taken..][..n];
        taken := taken + n;
      }
    }

    /** recv into the buffer of the free slot, after its size and time are set. */
    method ReceivePayload(slot: nat, avail: seq<Byte>, k: nat) returns (n: nat)
      requires Valid() && lenReceived == HEADER && |q.Contents()| < q.numItems && slot == q.tail
      requires bytesReceived <= bytesToReceive
      modifies this`bytesReceived, q.data
      ensures q.Valid() && q.Contents() == old(q.Contents())
      ensures forall i :: 0 <= i < q.data.Length ==> q.data[i].Legal()
      ensures n == Min(k, Min(bytesToReceive - old(bytesReceived), |avail|))
      ensures bytesReceived == old(bytesReceived) + n <= bytesToReceive <= BUFFER_SIZE
      ensures slot < q.data.Length && q.data[slot].Legal() && q.data[slot].size == bytesToReceive
      ensures q.data[slot].sec == Value(timestamp[0..8]) && q.data[slot].nsec == Value(timestamp[8..16])
      ensures q.data[slot].buffer[..bytesReceived] == old(q.data[slot].buffer[..bytesReceived]) + avail[..n]
    {
      var sec := LoadWord(timestamp, 0);
      var nsec := LoadWord(timestamp, 8);
      n := Min(k, Min(bytesToReceive - bytesReceived, |avail|));
      var buffer := q.data[slot].buffer;
      assert |buffer| == BUFFER_SIZE;
      buffer := buffer[..bytesReceived] + avail[..n] + buffer[bytesReceived + n..];
      q.Write(slot, Slot(bytesToReceive, sec, nsec, buffer));
      assert q.data[slot] == q.data[..][slot];
      forall i | 0 <= i < q.data.Length
        ensures q.data[i].Legal()
      {
        ValueBound(timestamp[0..8]);
        assert q.data[i] == q.data[..][i];
      }
      bytesReceived := bytesReceived + n;
    }

    /** The slot that `ReceivePayload` has filled to the end is the packet of the frame that arrived. */
    lemma FilledSlot(slot: Slot, all: seq<Byte>)
      requires timestamp.Length == 16 && len.Length == 4 && lenReceived == HEADER && slot.Legal()
      requires slot.sec == Value(timestamp[0..8]) && slot.nsec == Value(timestamp[8..16])
      requires all == Head() + slot.buffer[..slot.size]
      ensures |all| == HEADER + slot.size && slot.Packet() == Unframe(all)
    {
      assert all[4..12] == timestamp[0..8];
      assert all[12..20] == timestamp[8..16];
      assert all[20..] == slot.buffer[..slot.size];
    }

    /** The same, seen from the whole receiver. */
    method ReceiveInto(slot: nat, avail: seq<Byte>, k: nat) returns (n: nat)
      requires Valid() && lenReceived == HEADER && |q.Contents()| < q.numItems && slot == q.tail
      modifies this`bytesReceived, q.data
      ensures q.Valid() && q.Contents() == old(q.Contents()) && |q.Contents()| < q.numItems
      ensures forall i :: 0 <= i < q.data.Length ==> q.data[i].Legal()
      ensures old(|Part()|) <= HEADER + bytesToReceive
      ensures n == Min(k, Min(HEADER + bytesToReceive - old(|Part()|), |avail|))
      ensures var x := q.data[q.tail];
              && x.Legal() && x.size == bytesToReceive && bytesReceived <= bytesToReceive
              && x.sec == Value(timestamp[0..8]) && x.nsec == Value(timestamp[8..16])
              && Head() + x.buffer[..bytesReceived] == old(Part()) + avail[..n]
    {
      ghost var head := Head();
      ghost var had := q.data[q.tail].buffer[..bytesReceived];
      n := ReceivePayload(slot, avail, k);
      assert Head() == head;
      assert head + (had + avail[..n]) == head + had + avail[..n];
    }

    /** The packet part of a step: nothing is taken from the link while the queue is full. */
    method ReceiveBody(avail: seq<Byte>, k: nat) returns (n: nat)
      requires Valid() && lenReceived == HEADER
      modifies this`lenReceived, this`bytesReceived, this`bytesToReceive, this`item, q, q.data
      ensures Valid()
      ensures BodyReceived(old(Part()), avail, old(q.Contents()), old(|q.Contents()|) < q.numItems,
                           old(bytesToReceive), k, n, Part(), q.Contents())
    {
      n := 0;
      item := q.GetTail();
      if item.None? {
        return;
      }
      ghost var all := Part();
      n := ReceiveInto(item.value, avail, k);
      if bytesReceived == bytesToReceive {
        Finish(all + avail[..n]);
      }
    }

    /** Publish the filled slot and start over. */
    method Finish(ghost all: seq<Byte>)
      requires len.Length == 4 && timestamp.Length == 16 && len != timestamp && lenReceived == HEADER
      requires q.Valid() && (forall i :: 0 <= i < q.data.Length ==> q.data[i].Legal()) && |q.Contents()| < q.numItems
      requires var x := q.data[q.tail];
               && x.Legal() && x.sec == Value(timestamp[0..8]) && x.nsec == Value(timestamp[8..16])
               && all == Head() + x.buffer[..x.size]
      modifies this`lenReceived, this`bytesReceived, this`bytesToReceive, this`item, q
      ensures Valid() && Part() == [] && Enqueued(old(q.Contents()), q.Contents(), all)
    {
      ghost var x := q.data[q.tail];
      FilledSlot(x, all);
      q.PutTail();
      lenReceived, bytesReceived, bytesToReceive, item := 0, 0, 0, None;
    }

    /** The header part, seen from the whole receiver. */
    method ReceiveHead(avail: seq<Byte>, k1: nat, k2: nat) returns (taken: nat)
      requires Valid() && lenReceived < HEADER
      requires |Part() + avail| >= 4 ==> Value((Part() + avail)[..4]) <= BUFFER_SIZE
      modifies this`lenReceived, this`bytesToReceive, len, timestamp
      ensures Valid() && taken <= |avail| && lenReceived == old(|Part()|) + taken
      ensures lenReceived == HeaderTo(old(|Part()|), |avail|, k1, k2)
      ensures Part() == old(Part()) + avail[..taken]
    {
      ghost var all := Part() + avail;
      taken := ReceiveHeader(avail, k1, k2);
      if lenReceived >= 4 {
        assert len[..] == Head()[..4];
        assert Head() == all[..lenReceived];
        assert all[..4] == all[..lenReceived][..4];
      }
    }

    /** What the announced length is, once it is known. */
    lemma AnnouncedSize(all: seq<Byte>)
      requires Valid() && Part() <= all && lenReceived >= 4
      ensures |all| >= 4 && bytesToReceive == Value(all[..4]) && |Part()| == lenReceived + bytesReceived
    {
      assert len[..] == Part()[..4] == all[..4];
    }

    /** One step of the receive thread. The bytes taken are the next bytes of the current frame and none of the
        frame after it; a complete frame enters the queue, and waits on the link while the queue is full. */
    method Step(avail: seq<Byte>, k1: nat, k2: nat, k3: nat) returns (taken: nat)
      requires Valid()
      requires |Part() + avail| >= 4 ==> Value((Part() + avail)[..4]) <= BUFFER_SIZE
      modifies this, len, timestamp, q, q.data
      ensures Valid()
      ensures Received(old(Part()), avail, old(q.Contents()), old(|q.Contents()|) < q.numItems,
                       k1, k2, k3, taken, Part(), q.Contents())
    {
      taken := 0;
      ghost var part, before := Part(), q.Contents();
      if lenReceived < HEADER {
        taken := ReceiveHead(avail, k1, k2);
        assert Part() == (part + avail)[..|part| + taken];
        if lenReceived < HEADER {
          return;
        }
      }
      AnnouncedSize(part + avail);
      ghost var size := bytesToReceive;
      assert Part() == part + avail[..taken];
      var n := ReceiveBody(avail[taken..], k3);
      HeaderThenBody(part, avail, before, |before| < q.numItems, size, k1, k2, k3, taken, n, Part(), q.Contents());
      taken := taken + n;
    }
  }

  // ---------------------------------------------------------------------------------------------
  // Capturing and injecting
  // ---------------------------------------------------------------------------------------------

  /** One step of the capture thread. pcap delivers a packet or not; it is asked only if there is a free slot.
      The packet is cut to the slot's buffer. */
  method CaptureStep(q: AqQueue<Slot>, delivered: bool, data: seq<Byte>, sec: nat, nsec: nat)
    requires q.Valid() && forall i :: 0 <= i < q.data.Length ==> q.data[i].Legal()
    requires sec < TWO64 && nsec < TWO64
    modifies q, q.data
    ensures q.Valid() && forall i :: 0 <= i < q.data.Length ==> q.data[i].Legal()
    ensures if delivered && old(|q.Contents()|) < q.numItems
            then Enqueued(old(q.Contents()), q.Contents(), Frame(Item(sec, nsec, data[..Min(|data|, BUFFER_SIZE)])))
            else q.Contents() == old(q.Contents())
  {
    var newItem := q.GetTail();
    if newItem.Some? && delivered {
      var size := if |data| < BUFFER_SIZE then |data| else BUFFER_SIZE;
      var buffer := q.data[newItem.value].buffer;
      var filled := Slot(size, sec, nsec, data[..size] + buffer[size..]);
      q.Write(newItem.value, filled);
      assert filled.Packet().payload == data[..size];
      FrameRoundTrip(filled.Packet());
      forall i | 0 <= i < q.data.Length
        ensures q.data[i].Legal()
      {
        assert q.data[i] == q.data[..][i];
      }
      assert q.data[q.tail] == q.data[..][q.tail] == filled;
      q.PutTail();
    }
  }

  /** One step of the inject thread: the oldest packet is handed to pcap, whatever that returns, and freed. */
  method InjectStep(q: AqQueue<Slot>) returns (injected: Option<Item>)
    requires q.Valid() && forall x :: x in q.Contents() ==> x.Legal()
    modifies q
    ensures q.Valid()
    ensures old(q.Contents()) == [] ==> injected == None && q.Contents() == []
    ensures old(q.Contents()) != [] ==>
              && old(q.Contents())[0].Legal()
              && injected == Some(old(q.Contents())[0].Packet()) && q.Contents() == old(q.Contents())[1..]
  {
    injected := None;
    var item := q.GetHead();
    if item.Some? {
      var slot := q.data[item.value];
      assert slot in q.Contents();
      injected := Some(Item(slot.sec, slot.nsec, slot.buffer[..slot.size]));
      q.UsedHead();
    }
  }
}
