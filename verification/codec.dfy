/** Big-endian numbers and the frame that carries a packet between two virtual machines: four bytes of
    length, eight of seconds, eight of nanoseconds, and the packet (ci_queues.c, pkt.c). */
module Codec {

  type Byte = x: int | 0 <= x < 0x100

  const TWO32: nat := 0x1_0000_0000
  const TWO64: nat := 0x1_0000_0000_0000_0000

  /** The `k` low bytes of `n`, most significant first. */
  function BigEndian(n: nat, k: nat): (r: seq<Byte>)
    ensures |r| == k
  {
    if k == 0 then [] else BigEndian(n / 0x100, k - 1) + [n % 0x100]
  }

  function Value(s: seq<Byte>): nat {
    if s == [] then 0 else Value(s[..|s| - 1]) * 0x100 + s[|s| - 1]
  }

  function Pow256(k: nat): nat {
    if k == 0 then 1 else 0x100 * Pow256(k - 1)
  }

  /** `n` shifted right by `k` bytes. */
  function Shift(n: nat, k: nat): nat {
    if k == 0 then n else Shift(n, k - 1) / 0x100
  }

  lemma {:induction false} ValueBound(s: seq<Byte>)
    ensures Value(s) < Pow256(|s|)
  {
    if s != [] {
      ValueBound(s[..|s| - 1]);
    }
  }

  /** Reading back what was written gives the number, if it fits. */
  lemma {:induction false} ValueOfBigEndian(n: nat, k: nat)
    requires n < Pow256(k)
    ensures Value(BigEndian(n, k)) == n
  {
    if k > 0 {
      ValueOfBigEndian(n / 0x100, k - 1);
      assert BigEndian(n, k)[..k - 1] == BigEndian(n / 0x100, k - 1);
    }
  }

  /** Writing back what was read gives the bytes. */
  lemma {:induction false} BigEndianOfValue(s: seq<Byte>)
    ensures BigEndian(Value(s), |s|) == s
  {
    if s != [] {
      BigEndianOfValue(s[..|s| - 1]);
      assert Value(s) / 0x100 == Value(s[..|s| - 1]) && Value(s) % 0x100 == s[|s| - 1];
    }
  }

  lemma {:induction false} ShiftFirst(n: nat, k: nat)
    requires k > 0
    ensures Shift(n / 0x100, k - 1) == Shift(n, k)
  {
    if k > 1 {
      ShiftFirst(n, k - 1);
    }
  }

  /** One more byte goes in front. */
  lemma {:induction false} BigEndianFront(n: nat, k: nat)
    ensures BigEndian(n, k + 1) == [Shift(n, k) % 0x100] + BigEndian(n, k)
  {
    if k > 0 {
      BigEndianFront(n / 0x100, k - 1);
      ShiftFirst(n, k);
    } else {
      assert BigEndian(n, 1) == BigEndian(n / 0x100, 0) + [n % 0x100];
    }
  }

  lemma Widths()
    ensures Pow256(4) == TWO32 && Pow256(8) == TWO64
  {
    assert Pow256(2) == 0x1_0000;
    assert Pow256(4) == 0x100 * (0x100 * Pow256(2));
    assert Pow256(6) == 0x100 * (0x100 * Pow256(4));
    assert Pow256(8) == 0x100 * (0x100 * Pow256(6));
  }

  // ---------------------------------------------------------------------------------------------
  // The byte loops
  // ---------------------------------------------------------------------------------------------

  method SetLength(len: array<Byte>, size: nat)
    requires len.Length == 4 && size < TWO32
    modifies len
    ensures len[..] == BigEndian(size, 4)
  {
    var rest := size;
    len[3] := rest % 0x100;
    rest := rest / 0x100;
    len[2] := rest % 0x100;
    rest := rest / 0x100;
    len[1] := rest % 0x100;
    rest := rest / 0x100;
    len[0] := rest % 0x100;
    BigEndianFront(size, 0);
    BigEndianFront(size, 1);
    BigEndianFront(size, 2);
    BigEndianFront(size, 3);
    assert Shift(size, 1) == size / 0x100 && Shift(size, 2) == Shift(size, 1) / 0x100;
    assert Shift(size, 3) == Shift(size, 2) / 0x100 == rest;
    assert len[..] == [len[0]] + [len[1]] + [len[2]] + [len[3]];
  }

  method GetLength(len: array<Byte>) returns (size: nat)
    requires len.Length == 4
    ensures size == Value(len[..]) && size < TWO32
  {
    ghost var s := len[..];
    assert s[..1] == [len[0]] && s[..1][..0] == [] && s[..4] == s;
    size := len[0];
    ValueStep(s, 1);
    size := ShiftIn(size, len[1]);
    ValueStep(s, 2);
    size := ShiftIn(size, len[2]);
    ValueStep(s, 3);
    size := ShiftIn(size, len[3]);
  }

  /** Shift left by a byte and add one, in 32 bits; nothing is lost when the result fits. */
  function ShiftIn(size: nat, b: Byte): (r: nat)
    ensures size * 0x100 + b < TWO32 ==> r == size * 0x100 + b
  {
    ((size * 0x100) % TWO32 + b) % TWO32
  }

  lemma ValueStep(s: seq<Byte>, i: nat)
    requires 0 < i < |s| && i < 4
    ensures Value(s[..i + 1]) == Value(s[..i]) * 0x100 + s[i] < TWO32
  {
    assert s[..i + 1][..i] == s[..i];
    ValueBound(s[..i + 1]);
    PowMonotone(i + 1, 4);
    Widths();
  }

  /** The shift loop that stores one 64-bit number at `ts[at..at + 8]`. */
  method StoreWord(ts: array<Byte>, at: nat, word: nat)
    requires at + 8 <= ts.Length && word < TWO64
    modifies ts
    ensures ts[at..at + 8] == BigEndian(word, 8)
    ensures ts[..at] == old(ts[..at]) && ts[at + 8..] == old(ts[at + 8..])
  {
    var byte8 := word;
    for i := 0 to 8
      invariant byte8 == Shift(word, i)
      invariant ts[at + 8 - i..at + 8] == BigEndian(word, i)
      invariant ts[..at] == old(ts[..at]) && ts[at + 8..] == old(ts[at + 8..])
    {
      BigEndianFront(word, i);
      ghost var done := ts[at + 8 - i..at + 8];
      ts[at + 7 - i] := byte8 % 0x100;
      assert ts[at + 8 - i..at + 8] == done;
      byte8 := byte8 / 0x100;
    }
  }

  method LoadWord(ts: array<Byte>, at: nat) returns (word: nat)
    requires at + 8 <= ts.Length
    ensures word == Value(ts[at..at + 8]) && word < TWO64
  {
    ghost var s := ts[at..at + 8];
    word := 0;
    for i := 0 to 8
      invariant word == if i < 8 then Value(s[..i]) * 0x100 else Value(s)
    {
      assert s[..i + 1][..i] == s[..i] && s[..i + 1][i] == ts[at + i];
      ValueBound(s[..i + 1]);
      Widths();
      PowMonotone(i + 1, 8);
      word := (word + ts[at + i]) % TWO64;
      if i < 7 {
        PowMonotone(i + 2, 8);
        word := (word * 0x100) % TWO64;
      } else {
        assert s[..8] == s;
      }
    }
    ValueBound(s);
    Widths();
  }

  lemma {:induction false} PowMonotone(j: nat, k: nat)
    requires j <= k
    ensures Pow256(j) <= Pow256(k)
  {
    if j < k {
      PowMonotone(j, k - 1);
    }
  }

  // ---------------------------------------------------------------------------------------------
  // Frames and streams of frames
  // ---------------------------------------------------------------------------------------------

  const BUFFER_SIZE: nat := 2500
  const HEADER: nat := 20

  datatype Item = Item(sec: nat, nsec: nat, payload: seq<Byte>)

  /** What a capture thread produces: the packet is cut to the buffer size, the time fits two 64-bit words. */
  predicate Legal(x: Item) {
    |x.payload| <= BUFFER_SIZE && x.sec < TWO64 && x.nsec < TWO64
  }

  function Header(size: nat, sec: nat, nsec: nat): (r: seq<Byte>)
    ensures |r| == HEADER
  {
    BigEndian(size, 4) + (BigEndian(sec, 8) + BigEndian(nsec, 8))
  }

  function Frame(x: Item): (r: seq<Byte>)
    ensures |r| == HEADER + |x.payload|
  {
    Header(|x.payload|, x.sec, x.nsec) + x.payload
  }

  function Stream(xs: seq<Item>): seq<Byte> {
    if xs == [] then [] else Frame(xs[0]) + Stream(xs[1..])
  }

  /** The packet in a complete frame. */
  function Unframe(f: seq<Byte>): Item
    requires |f| >= HEADER
  {
    Item(Value(f[4..12]), Value(f[12..20]), f[20..])
  }

  /** A frame determines its item, and announces its own length. */
  lemma FrameRoundTrip(x: Item)
    requires Legal(x)
    ensures Unframe(Frame(x)) == x && Value(Frame(x)[..4]) == |x.payload|
  {
    var f := Frame(x);
    Widths();
    ValueOfBigEndian(|x.payload|, 4);
    ValueOfBigEndian(x.sec, 8);
    ValueOfBigEndian(x.nsec, 8);
    assert f[..4] == BigEndian(|x.payload|, 4);
    assert f[4..12] == BigEndian(x.sec, 8);
    assert f[12..20] == BigEndian(x.nsec, 8);
    assert f[20..] == x.payload;
  }

  /** Where everything stands in a frame: four bytes of length, eight of seconds, eight of nanoseconds, the most
      significant byte first, and the packet. */
  lemma FrameLayout(x: Item)
    requires Legal(x)
    ensures var f := Frame(x);
            && |f| == 20 + |x.payload| && f[20..] == x.payload
            && f[0] == |x.payload| / 0x1000000 % 0x100 && f[1] == |x.payload| / 0x10000 % 0x100
            && f[2] == |x.payload| / 0x100 % 0x100 && f[3] == |x.payload| % 0x100
            && (forall i :: 0 <= i < 8 ==> f[4..12][i] == Shift(x.sec, 7 - i) % 0x100)
            && forall i :: 0 <= i < 8 ==> f[12..20][i] == Shift(x.nsec, 7 - i) % 0x100
  {
    var f := Frame(x);
    assert f[..4] == BigEndian(|x.payload|, 4) && f[4..12] == BigEndian(x.sec, 8) && f[12..20] == BigEndian(x.nsec, 8);
    forall i | 0 <= i < 4
      ensures f[i] == Shift(|x.payload|, 3 - i) % 0x100
    {
      BigEndianAt(|x.payload|, 4, i);
    }
    ShiftsOf(|x.payload|);
    forall i | 0 <= i < 8
      ensures f[4..12][i] == Shift(x.sec, 7 - i) % 0x100 && f[12..20][i] == Shift(x.nsec, 7 - i) % 0x100
    {
      BigEndianAt(x.sec, 8, i);
      BigEndianAt(x.nsec, 8, i);
    }
  }

  lemma {:induction false} BigEndianAt(n: nat, k: nat, i: nat)
    requires i < k
    ensures BigEndian(n, k)[i] == Shift(n, k - 1 - i) % 0x100
  {
    BigEndianFront(n, k - 1);
    if i > 0 {
      BigEndianAt(n, k - 1, i - 1);
    }
  }

  lemma ShiftsOf(n: nat)
    ensures Shift(n, 0) == n && Shift(n, 1) == n / 0x100 && Shift(n, 2) == n / 0x10000 && Shift(n, 3) == n / 0x1000000
  {
    assert Shift(n, 1) == Shift(n, 0) / 0x100;
    assert Shift(n, 2) == Shift(n, 1) / 0x100;
    assert Shift(n, 3) == Shift(n, 2) / 0x100;
    assert n / 0x100 / 0x100 == n / 0x10000;
  }

  lemma {:induction false} StreamConcat(xs: seq<Item>, ys: seq<Item>)
    ensures Stream(xs + ys) == Stream(xs) + Stream(ys)
  {
    if xs == [] {
      assert xs + ys == ys;
    } else {
      assert (xs + ys)[0] == xs[0] && (xs + ys)[1..] == xs[1..] + ys;
      StreamConcat(xs[1..], ys);
    }
  }

  lemma StreamSnoc(xs: seq<Item>, x: Item)
    ensures Stream(xs + [x]) == Stream(xs) + Frame(x)
  {
    StreamConcat(xs, [x]);
    assert Stream([x]) == Frame(x) + Stream([]);
  }

  /** A queue slot: the packet is the first `size` bytes of a buffer that never moves. */
  datatype Slot = Slot(size: nat, sec: nat, nsec: nat, buffer: seq<Byte>)
  {
    predicate Legal() {
      size <= BUFFER_SIZE == |buffer| && sec < TWO64 && nsec < TWO64
    }

    function Packet(): Item
      requires Legal()
    {
      Item(sec, nsec, buffer[..size])
    }
  }
}
