/** Reassembly in the host server (bcaster main.c): bytes of one client arrive in arbitrary chunks, complete
    frames are handed on, and what is left is moved to the front of the buffer. */
module Host {
  import opened Codec

  const MAX_SIZE: nat := 3000

  /** What one receive hands on, what stays in the buffer, and the frame length remembered for it (0: unknown). */
  datatype Outcome = Outcome(packets: seq<seq<Byte>>, rest: seq<Byte>, expected: nat)

  /** The frame length announced by the first four bytes, including length and timestamp. */
  function Announced(b: seq<Byte>): nat
    requires |b| >= 4
  {
    HEADER + Value(b[..4])
  }

  function Before(packets: seq<seq<Byte>>, o: Outcome): Outcome { o.(packets := packets + o.packets) }

  /** The intended loop: every frame's length is read where that frame starts. */
  function Split(b: seq<Byte>): Outcome
    decreases |b|
  {
    if |b| < 4 then Outcome([], b, 0)
    else if |b| < Announced(b) then Outcome([], b, Announced(b))
    else
      Before([b[..Announced(b)]], Split(b[Announced(b)..]))
  }

  /** The packets handed on are at least a header long. */
  function Packets(b: seq<Byte>): (packets: seq<seq<Byte>>)
    ensures packets == Split(b).packets && forall p :: p in packets ==> |p| >= HEADER
  {
    SplitHeaders(b);
    Split(b).packets
  }

  lemma {:induction false} SplitHeaders(b: seq<Byte>)
    ensures forall p :: p in Split(b).packets ==> |p| >= HEADER
    decreases |b|
  {
    if |b| >= 4 && |b| >= Announced(b) {
      SplitHeaders(b[Announced(b)..]);
    }
  }

  /** The loop as written, at `b`: a frame's length is read at the front of the buffer, whatever frame comes
      next. */
  function Drain(front: seq<Byte>, b: seq<Byte>, expected: nat): Outcome
    requires |b| <= |front|
    decreases |b|
  {
    if |b| < 4 || |b| < expected then Outcome([], b, expected)
    else
      var length := if expected == 0 then Announced(front) else expected;
      if |b| < length then Outcome([], b, length)
      else
        Before([b[..length]], Drain(front, b[length..], 0))
  }

  // ---------------------------------------------------------------------------------------------
  // The intended loop does not depend on chunking
  // ---------------------------------------------------------------------------------------------

  /** Splitting in two goes equals splitting at once. */
  lemma {:induction false} SplitConcat(a: seq<Byte>, b: seq<Byte>)
    ensures Split(a + b) == Before(Split(a).packets, Split(Split(a).rest + b))
    decreases |a|
  {
    if |a| >= 4 && Announced(a) <= |a| {
      var n := Announced(a);
      assert (a + b)[..4] == a[..4];
      assert (a + b)[..n] == a[..n] && (a + b)[n..] == a[n..] + b;
      SplitConcat(a[n..], b);
      assert [a[..n]] + (Split(a[n..]).packets + Split(Split(a).rest + b).packets)
          == [a[..n]] + Split(a[n..]).packets + Split(Split(a).rest + b).packets;
    }
  }

  function Flatten(chunks: seq<seq<Byte>>): seq<Byte> {
    if chunks == [] then [] else chunks[0] + Flatten(chunks[1..])
  }

  /** A run of receives: the packets handed on by all of them, and the state after the last. */
  function Feed(rest: seq<Byte>, chunks: seq<seq<Byte>>): Outcome
    decreases |chunks|
  {
    if chunks == [] then Split(rest)
    else
      var now := Split(rest + chunks[0]);
      Before(now.packets, Feed(now.rest, chunks[1..]))
  }

  /** However the bytes are cut into chunks, the same packets come out and the same bytes are left. */
  lemma {:induction false} ChunkingIsInvisible(rest: seq<Byte>, chunks: seq<seq<Byte>>)
    ensures Feed(rest, chunks) == Split(rest + Flatten(chunks))
    decreases |chunks|
  {
    if chunks == [] {
      assert rest + Flatten(chunks) == rest;
    } else {
      var b, later := rest + chunks[0], Flatten(chunks[1..]);
      assert rest + (chunks[0] + later) == b + later;
      ChunkingIsInvisible(Split(b).rest, chunks[1..]);
      SplitConcat(b, later);
    }
  }

  // ---------------------------------------------------------------------------------------------
  // On a stream of frames
  // ---------------------------------------------------------------------------------------------

  function Frames(xs: seq<Item>): (r: seq<seq<Byte>>)
    ensures |r| == |xs| && forall i :: 0 <= i < |xs| ==> r[i] == Frame(xs[i])
  {
    seq(|xs|, i requires 0 <= i < |xs| => Frame(xs[i]))
  }

  /** How many frames are complete in the first `k` bytes of the stream. */
  function Complete(xs: seq<Item>, k: nat): (n: nat)
    ensures n <= |xs|
  {
    if xs == [] || k < |Frame(xs[0])| then 0 else 1 + Complete(xs[1..], k - |Frame(xs[0])|)
  }

  /** A whole frame at the front is handed on. */
  lemma SplitFrame(x: Item, b: seq<Byte>)
    requires Legal(x) && Frame(x) <= b
    ensures Split(b) == Before([Frame(x)], Split(b[|Frame(x)|..]))
  {
    FrameRoundTrip(x);
    assert b[..4] == Frame(x)[..4] && b[..|Frame(x)|] == Frame(x);
  }

  /** A part of a frame is not. */
  lemma SplitPart(x: Item, b: seq<Byte>)
    requires Legal(x) && b < Frame(x)
    ensures Split(b).packets == [] && Split(b).rest == b
  {
    FrameRoundTrip(x);
    if |b| >= 4 {
      assert b[..4] == Frame(x)[..4];
    }
  }

  lemma TakePast<T>(f: seq<T>, t: seq<T>, k: nat)
    requires |f| <= k <= |f| + |t|
    ensures (f + t)[..k] == f + t[..k - |f|] && (f + t)[k..] == t[k - |f|..]
    ensures (f + t)[..k][|f|..] == t[..k - |f|]
  {
  }

  lemma FramesFront(xs: seq<Item>, n: nat)
    requires 0 < n <= |xs|
    ensures xs[n..] == xs[1..][n - 1..] && Frames(xs[..n]) == [Frame(xs[0])] + Frames(xs[1..][..n - 1])
  {
  }

  /** What arrives of a stream is handed on frame by frame: exactly the complete ones, in order, unchanged.
      The unfinished one stays, so that the rest of the stream continues it, and leaves room in the buffer. */
  lemma {:induction false} SplitStream(xs: seq<Item>, k: nat)
    requires (forall x :: x in xs ==> Legal(x)) && k <= |Stream(xs)|
    ensures var s, n := Split(Stream(xs)[..k]), Complete(xs, k);
            && s.packets == Frames(xs[..n])
            && s.rest + Stream(xs)[k..] == Stream(xs[n..])
            && |s.rest| <= k && |s.rest| < HEADER + BUFFER_SIZE
            && (n < |xs| ==> |s.rest| < |Frame(xs[n])|)
            && (n == |xs| ==> s.rest == [])
    decreases |xs|
  {
    var b, n := Stream(xs)[..k], Complete(xs, k);
    if xs != [] && k >= |Frame(xs[0])| {
      var f, t := Frame(xs[0]), Stream(xs[1..]);
      TakePast(f, t, k);
      SplitFrame(xs[0], b);
      SplitStream(xs[1..], k - |f|);
      FramesFront(xs, n);
    } else if xs != [] {
      var f, t := Frame(xs[0]), Stream(xs[1..]);
      assert b == f[..k];
      SplitPart(xs[0], b);
      assert b + Stream(xs)[k..] == Stream(xs);
    }
  }

  /** For every chunking of what has arrived of a stream: the complete frames, and room for another receive. */
  lemma Reassembly(xs: seq<Item>, chunks: seq<seq<Byte>>)
    requires (forall x :: x in xs ==> Legal(x)) && Flatten(chunks) <= Stream(xs)
    ensures Feed([], chunks).packets == Frames(xs[..Complete(xs, |Flatten(chunks)|)])
    ensures |Feed([], chunks).rest| + 480 < 3000
  {
    ChunkingIsInvisible([], chunks);
    assert [] + Flatten(chunks) == Flatten(chunks) == Stream(xs)[..|Flatten(chunks)|];
    SplitStream(xs, |Flatten(chunks)|);
  }

  // ---------------------------------------------------------------------------------------------
  // When the loop as written agrees
  // ---------------------------------------------------------------------------------------------

  /** Every frame whose length bytes are in the buffer announces `length`. */
  predicate AllAnnounce(b: seq<Byte>, length: nat)
    decreases |b|
  {
    |b| < 4 || (Announced(b) == length && (length <= |b| ==> AllAnnounce(b[Announced(b)..], length)))
  }

  /** The remembered length belongs to the frame at the front. */
  predicate Remembered(rest: seq<Byte>, expected: nat) {
    expected == 0 || (|rest| >= 4 && expected == Announced(rest))
  }

  lemma {:induction false} DrainAgrees(front: seq<Byte>, b: seq<Byte>)
    requires 4 <= |front| && |b| <= |front|
    ensures Drain(front, b, 0) == Split(b) <==> AllAnnounce(b, Announced(front))
    decreases |b|
  {
    if |b| >= 4 && Announced(front) == Announced(b) <= |b| {
      DrainAgrees(front, b[Announced(b)..]);
      assert Drain(front, b, 0).packets[1..] == Drain(front, b[Announced(b)..], 0).packets;
      assert Split(b).packets[1..] == Split(b[Announced(b)..]).packets;
    } else if |b| >= 4 && Announced(front) != Announced(b) && Announced(front) <= |b| && Announced(b) <= |b| {
      assert Drain(front, b, 0).packets[0] == b[..Announced(front)];
      assert Split(b).packets[0] == b[..Announced(b)];
    }
  }

  /** One receive as written does what is intended exactly when all frames whose length bytes it sees have the
      same length. In particular when it completes at most one frame and sees less than four bytes after it. */
  lemma AsWrittenAgrees(rest: seq<Byte>, expected: nat, chunk: seq<Byte>)
    requires Remembered(rest, expected)
    ensures var b := rest + chunk;
            Drain(b, b, expected) == Split(b) <==> |b| < 4 || AllAnnounce(b, Announced(b))
    ensures var b := rest + chunk;
            |Split(b).packets| <= 1 && (|Split(b).packets| == 1 ==> |Split(b).rest| < 4) ==>
              Drain(b, b, expected) == Split(b)
    ensures Remembered(Split(rest + chunk).rest, Split(rest + chunk).expected)
  {
    var b := rest + chunk;
    if expected != 0 {
      assert b[..4] == rest[..4];
    }
    SplitRemembers(b);
    if |b| >= 4 {
      DrainAgrees(b, b);
      if Announced(b) <= |b| {
        assert Split(b).packets[1..] == Split(b[Announced(b)..]).packets;
      }
    }
  }

  lemma {:induction false} SplitRemembers(b: seq<Byte>)
    ensures Remembered(Split(b).rest, Split(b).expected)
    decreases |b|
  {
    if |b| >= 4 && Announced(b) <= |b| {
      SplitRemembers(b[Announced(b)..]);
    }
  }

  /** In terms of packets: those whose length bytes are among the first `k` of the stream have `size` bytes. */
  ghost predicate SameSize(xs: seq<Item>, k: nat, size: nat) {
    forall i :: 0 <= i < |xs| && |Stream(xs[..i])| + 4 <= k ==> |xs[i].payload| == size
  }

  lemma StreamFront(xs: seq<Item>, i: nat)
    requires 0 < i <= |xs|
    ensures |Stream(xs[..i])| == |Frame(xs[0])| + |Stream(xs[1..][..i - 1])|
  {
    assert xs[..i][0] == xs[0] && xs[..i][1..] == xs[1..][..i - 1];
  }

  lemma SameSizeFront(xs: seq<Item>, k: nat, size: nat)
    requires xs != [] && k >= 4
    ensures SameSize(xs, k, size) <==>
              |xs[0].payload| == size && (|Frame(xs[0])| <= k ==> SameSize(xs[1..], k - |Frame(xs[0])|, size))
  {
    var n := |Frame(xs[0])|;
    assert Stream(xs[..0]) == [];
    forall i | 0 <= i < |xs| - 1
      ensures |Stream(xs[1..][..i])| + 4 + n == |Stream(xs[..i + 1])| + 4 && xs[1..][i] == xs[i + 1]
    {
      StreamFront(xs, i + 1);
    }
    if SameSize(xs, k, size) {
      assert |xs[0].payload| == size;
      forall i | n <= k && 0 <= i < |xs| - 1 && |Stream(xs[1..][..i])| + 4 <= k - n
        ensures |xs[1..][i].payload| == size
      {
        assert |Stream(xs[..i + 1])| + 4 <= k;
      }
    } else {
      var i :| 0 <= i < |xs| && |Stream(xs[..i])| + 4 <= k && |xs[i].payload| != size;
      if i > 0 {
        assert |Stream(xs[1..][..i - 1])| + 4 <= k - n && xs[1..][i - 1] == xs[i];
      }
    }
  }

  lemma {:induction false} AnnounceSizes(xs: seq<Item>, k: nat, size: nat)
    requires (forall x :: x in xs ==> Legal(x)) && k <= |Stream(xs)|
    ensures AllAnnounce(Stream(xs)[..k], HEADER + size) <==> SameSize(xs, k, size)
    decreases |xs|
  {
    var b := Stream(xs)[..k];
    if |b| >= 4 {
      var f := Frame(xs[0]);
      FrameRoundTrip(xs[0]);
      assert b[..4] == f[..4];
      SameSizeFront(xs, k, size);
      if |xs[0].payload| == size && |f| <= k {
        TakePast(f, Stream(xs[1..]), k);
        AnnounceSizes(xs[1..], k - |f|, size);
      }
    }
  }

  /** On a stream: the frames seen have one length exactly if the packets have the size of the first. */
  lemma UniformSizes(xs: seq<Item>, k: nat)
    requires (forall x :: x in xs ==> Legal(x)) && k <= |Stream(xs)|
    ensures var b := Stream(xs)[..k];
            |b| < 4 || AllAnnounce(b, Announced(b)) <==> (xs != [] ==> SameSize(xs, k, |xs[0].payload|))
  {
    var b := Stream(xs)[..k];
    if xs != [] {
      AnnounceSizes(xs, k, |xs[0].payload|);
      FrameRoundTrip(xs[0]);
      if |b| >= 4 {
        assert b[..4] == Frame(xs[0])[..4];
      }
    }
  }

  /** A packet of one byte followed by a packet of two: as written, the second frame is handed on without its last
      byte, which then stands at the front of the buffer as if a frame began there. */
  lemma MisreadExample(sec: nat, nsec: nat, p: Byte, q: Byte, last: Byte)
    requires sec < TWO64 && nsec < TWO64
    ensures var x, y := Item(sec, nsec, [p]), Item(sec, nsec, [q, last]);
            var b := Frame(x) + Frame(y);
            && Split(b) == Outcome([Frame(x), Frame(y)], [], 0)
            && Drain(b, b, 0) == Outcome([Frame(x), Frame(y)[..HEADER + 1]], [last], 0)
  {
    var x, y := Item(sec, nsec, [p]), Item(sec, nsec, [q, last]);
    var f, g := Frame(x), Frame(y);
    var b := f + g;
    FrameRoundTrip(x);
    FrameRoundTrip(y);
    assert b[..4] == f[..4] && b[..HEADER + 1] == f && b[HEADER + 1..] == g;
    assert g[..|g|] == g && g[|g|..] == [] && g[HEADER + 1..] == [last];
    assert Split(g) == Outcome([g], [], 0) by { assert Split([]) == Outcome([], [], 0); }
    assert Drain(b, g, 0) == Outcome([g[..HEADER + 1]], [last], 0) by {
      assert Drain(b, [last], 0) == Outcome([], [last], 0);
    }
  }

  // ---------------------------------------------------------------------------------------------
  // Runs of receives as written
  // ---------------------------------------------------------------------------------------------

  /** What each receive of a run does, as intended and as written. */
  function IntendedRun(rest: seq<Byte>, chunks: seq<seq<Byte>>): seq<Outcome>
    decreases |chunks|
  {
    if chunks == [] then []
    else
      var now := Split(rest + chunks[0]);
      [now] + IntendedRun(now.rest, chunks[1..])
  }

  function WrittenRun(rest: seq<Byte>, expected: nat, chunks: seq<seq<Byte>>): seq<Outcome>
    decreases |chunks|
  {
    if chunks == [] then []
    else
      var b := rest + chunks[0];
      var now := Drain(b, b, expected);
      [now] + WrittenRun(now.rest, now.expected, chunks[1..])
  }

  /** Each receive of the intended run sees frames of one length only. */
  predicate UniformRun(rest: seq<Byte>, chunks: seq<seq<Byte>>)
    decreases |chunks|
  {
    chunks == [] ||
    (var b := rest + chunks[0];
     (|b| < 4 || AllAnnounce(b, Announced(b))) && UniformRun(Split(b).rest, chunks[1..]))
  }

  /** A whole run as written is the intended one exactly if each of its receives sees frames of one length. */
  lemma {:induction false} RunAgrees(rest: seq<Byte>, expected: nat, chunks: seq<seq<Byte>>)
    requires Remembered(rest, expected)
    ensures WrittenRun(rest, expected, chunks) == IntendedRun(rest, chunks) <==> UniformRun(rest, chunks)
    decreases |chunks|
  {
    if chunks != [] {
      AsWrittenAgrees(rest, expected, chunks[0]);
      var b := rest + chunks[0];
      var now := Split(b);
      if Drain(b, b, expected) == now {
        RunAgrees(now.rest, now.expected, chunks[1..]);
        assert WrittenRun(rest, expected, chunks)[1..] == WrittenRun(now.rest, now.expected, chunks[1..]);
        assert IntendedRun(rest, chunks)[1..] == IntendedRun(now.rest, chunks[1..]);
      } else {
        assert WrittenRun(rest, expected, chunks)[0] != IntendedRun(rest, chunks)[0];
      }
    }
  }

  function AllPackets(run: seq<Outcome>): seq<seq<Byte>> {
    if run == [] then [] else run[0].packets + AllPackets(run[1..])
  }

  lemma {:induction false} NothingLeft(b: seq<Byte>)
    ensures Split(Split(b).rest).packets == []
    decreases |b|
  {
    if |b| >= 4 && Announced(b) <= |b| {
      NothingLeft(b[Announced(b)..]);
    }
  }

  lemma {:induction false} RunFeeds(rest: seq<Byte>, chunks: seq<seq<Byte>>)
    requires Split(rest).packets == []
    ensures AllPackets(IntendedRun(rest, chunks)) == Feed(rest, chunks).packets
    decreases |chunks|
  {
    if chunks != [] {
      var now := Split(rest + chunks[0]);
      NothingLeft(rest + chunks[0]);
      RunFeeds(now.rest, chunks[1..]);
      assert IntendedRun(rest, chunks)[1..] == IntendedRun(now.rest, chunks[1..]);
    }
  }

  /** For every chunking of a stream in which each receive sees frames of one length, the code as written hands on
      exactly the complete frames. */
  lemma WrittenReassembly(xs: seq<Item>, chunks: seq<seq<Byte>>)
    requires (forall x :: x in xs ==> Legal(x)) && Flatten(chunks) <= Stream(xs) && UniformRun([], chunks)
    ensures AllPackets(WrittenRun([], 0, chunks)) == Frames(xs[..Complete(xs, |Flatten(chunks)|)])
  {
    RunAgrees([], 0, chunks);
    RunFeeds([], chunks);
    Reassembly(xs, chunks);
  }

  /** Handing on one frame is one step of the loop. */
  lemma DrainOne(packets: seq<seq<Byte>>, front: seq<Byte>, b: seq<Byte>, length: nat)
    requires 4 <= |b| <= |front| && 0 < length <= |b|
    ensures Before(packets, Drain(front, b, length)) == Before(packets + [b[..length]], Drain(front, b[length..], 0))
  {
    var more := Drain(front, b[length..], 0);
    assert packets + ([b[..length]] + more.packets) == packets + [b[..length]] + more.packets;
  }

  // ---------------------------------------------------------------------------------------------
  // The buffer in memory
  // ---------------------------------------------------------------------------------------------

  class ClientData {
    const buffer: array<Byte>
    var bytesExpected: nat
    var bytesReceived: nat
    var nextPkt: nat

    ghost predicate Valid()
      reads this
    {
      buffer.Length == MAX_SIZE == 3000 && bytesReceived <= MAX_SIZE && nextPkt == 0
    }

    /** The bytes that wait to be processed. */
    ghost function Pending(): seq<Byte>
      requires Valid()
      reads this, buffer
    {
      buffer[..bytesReceived]
    }

    constructor ()
      ensures Valid() && fresh(buffer) && Pending() == [] && bytesExpected == 0
    {
      buffer := new Byte[MAX_SIZE](_ => 0);
      bytesExpected, bytesReceived, nextPkt := 0, 0, 0;
    }

    /** lisa_recv_part2: the socket delivers behind what is there. */
    method Deliver(chunk: seq<Byte>)
      requires Valid() && |chunk| <= MAX_SIZE - bytesReceived
      modifies this`bytesReceived, buffer
      ensures Valid() && Pending() == old(Pending()) + chunk
    {
      forall i | 0 <= i < |chunk| {
        buffer[bytesReceived + i] := chunk[i];
      }
      bytesReceived := bytesReceived + |chunk|;
    }

    /** pkt_get_length at the front of the buffer, plus length and timestamp, in 32 bits. */
    method Expect()
      requires buffer.Length == MAX_SIZE && HEADER + Value(buffer[..4]) < TWO32
      modifies this`bytesExpected
      ensures bytesExpected == HEADER + Value(buffer[..4])
    {
      ghost var s := buffer[..4];
      assert s[..1] == [buffer[0]] && s[..1][..0] == [] && s[..4] == s;
      var size: nat := buffer[0];
      ValueStep(s, 1);
      size := ShiftIn(size, buffer[1]);
      ValueStep(s, 2);
      size := ShiftIn(size, buffer[2]);
      ValueStep(s, 3);
      size := ShiftIn(size, buffer[3]);
      bytesExpected := (size + 20) % TWO32;
    }

    /** process_pkt on the frame at `next_pkt`. */
    method HandOn(ghost front: seq<Byte>) returns (packet: seq<Byte>)
      requires buffer.Length == MAX_SIZE && 0 < bytesExpected <= bytesReceived
      requires nextPkt + bytesReceived == |front| <= MAX_SIZE && buffer[..|front|] == front
      modifies this
      ensures nextPkt == old(nextPkt + bytesExpected) && bytesReceived == old(bytesReceived - bytesExpected)
      ensures bytesExpected == 0
      ensures packet == front[old(nextPkt)..][..old(bytesExpected)]
      ensures front[nextPkt..] == front[old(nextPkt)..][old(bytesExpected)..]
    {
      packet := buffer[nextPkt..nextPkt + bytesExpected];
      forall i | 0 <= i < bytesExpected
        ensures packet[i] == front[nextPkt + i]
      {
        assert packet[i] == buffer[nextPkt + i] == buffer[..|front|][nextPkt + i];
      }
      bytesReceived := bytesReceived - bytesExpected;
      nextPkt := nextPkt + bytesExpected;
      bytesExpected := 0;
    }

    /** One turn of the loop, as one turn of `Drain`. */
    method Turn(ghost front: seq<Byte>, packets: seq<seq<Byte>>) returns (packets1: seq<seq<Byte>>)
      requires nextPkt + bytesReceived == |front| <= MAX_SIZE == buffer.Length && buffer[..|front|] == front
      requires bytesReceived >= 4 && bytesExpected <= bytesReceived && Announced(front) < TWO32
      modifies this
      ensures nextPkt + bytesReceived == |front|
      ensures || bytesReceived < old(bytesReceived)
              || (bytesReceived == old(bytesReceived) && bytesExpected > bytesReceived)
      ensures Before(packets, Drain(front, front[old(nextPkt)..], old(bytesExpected)))
           == Before(packets1, Drain(front, front[nextPkt..], bytesExpected))
    {
      packets1 := packets;
      if bytesExpected == 0 && bytesReceived >= 4 {
        assert buffer[..4] == front[..4];
        Expect();
      }
      if bytesExpected > 0 && bytesExpected <= bytesReceived {
        ghost var b, length := front[nextPkt..], bytesExpected;
        var packet := HandOn(front);
        DrainOne(packets, front, b, length);
        packets1 := packets + [packet];
      }
    }

    /** The while loop. */
    method Process() returns (packets: seq<seq<Byte>>)
      requires Valid()
      requires |Pending()| >= 4 ==> Announced(Pending()) < TWO32
      modifies this
      ensures buffer.Length == MAX_SIZE && nextPkt + bytesReceived == old(bytesReceived)
      ensures Outcome(packets, old(Pending())[nextPkt..], bytesExpected)
              == Drain(old(Pending()), old(Pending()), old(bytesExpected))
    {
      packets := [];
      ghost var front := Pending();
      ghost var whole := Drain(front, front, bytesExpected);
      assert front[0..] == front && whole.packets == [] + whole.packets;
      while bytesReceived >= 4 && bytesExpected <= bytesReceived
        invariant nextPkt + bytesReceived == |front| == old(bytesReceived) <= MAX_SIZE
        invariant whole == Before(packets, Drain(front, front[nextPkt..], bytesExpected))
        decreases bytesReceived, if bytesExpected <= bytesReceived then 1 else 0
      {
        packets := Turn(front, packets);
      }
    }

    /** The forward copy of the remaining bytes; source and target may overlap. */
    method Relocate()
      requires buffer.Length == MAX_SIZE && nextPkt + bytesReceived <= MAX_SIZE
      modifies this`nextPkt, buffer
      ensures Valid() && Pending() == old(buffer[nextPkt..nextPkt + bytesReceived])
    {
      if bytesReceived > 0 {
        for i := 0 to bytesReceived
          invariant nextPkt == old(nextPkt)
          invariant buffer[..i] == old(buffer[nextPkt..nextPkt + i])
          invariant buffer[nextPkt + i..] == old(buffer[nextPkt + i..])
        {
          assert buffer[nextPkt + i] == buffer[nextPkt + i..][0];
          buffer[i] := buffer[nextPkt + i];
          assert buffer[..i + 1] == buffer[..i] + [buffer[i]];
          assert buffer[nextPkt + i + 1..] == buffer[nextPkt + i..][1..];
        }
      }
      nextPkt := 0;
    }

    /** One receive: the packets handed on, and the new contents of the buffer. The announced length may be any,
        as after a misread, unless its 32-bit sum with the header wraps around; at 2^32 - 20 the sum is zero and
        the loop does not end. */
    method Receive(chunk: seq<Byte>) returns (packets: seq<seq<Byte>>)
      requires Valid() && |chunk| <= MAX_SIZE - bytesReceived
      requires |Pending() + chunk| >= 4 ==> Announced(Pending() + chunk) < TWO32
      modifies this, buffer
      ensures Valid()
      ensures var b := old(Pending()) + chunk;
              Outcome(packets, Pending(), bytesExpected) == Drain(b, b, old(bytesExpected))
    {
      Deliver(chunk);
      ghost var b := Pending();
      packets := Process();
      assert buffer[nextPkt..nextPkt + bytesReceived] == b[nextPkt..];
      Relocate();
    }
  }
}
