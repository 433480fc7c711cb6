/** Parts of the association request (mlme.c, ieee80211_send_assoc): the rates are spread over two elements, and
    the caller's elements are cut into pieces between which the driver puts its own. */
module AssocFrame {
  import opened Common
  import opened Codec

  const SUPP_RATES: Byte := 1
  const EXT_SUPP_RATES: Byte := 50

  /** The rates of a band, in half megabits over the channel width's divisor, and which of them are selected. */
  datatype Band = Band(bitrates: seq<nat>, selected: seq<bool>, unit: nat)
  {
    predicate Valid() { |selected| == |bitrates| <= 32 && unit > 0 }

    function Rate(i: nat): Byte
      requires Valid() && i < |bitrates|
    {
      ((bitrates[i] + 5 * unit - 1) / (5 * unit)) % 0x100
    }
  }

  /** The selected rates among the first `n`, in band order. */
  function Rates(b: Band, n: nat): (r: seq<Byte>)
    requires b.Valid() && n <= |b.bitrates|
    ensures |r| <= n
  {
    if n == 0 then [] else Rates(b, n - 1) + if b.selected[n - 1] then [b.Rate(n - 1)] else []
  }

  function AllRates(b: Band): seq<Byte>
    requires b.Valid()
  {
    Rates(b, |b.bitrates|)
  }

  lemma {:induction false} RatesPrefix(b: Band, m: nat, n: nat)
    requires b.Valid() && m <= n <= |b.bitrates|
    ensures Rates(b, m) <= Rates(b, n)
  {
    if m < n {
      RatesPrefix(b, m, n - 1);
    }
  }

  /** How many of the first `n` rates are selected. */
  function Count(selected: seq<bool>, n: nat): nat
    requires n <= |selected|
  {
    if n == 0 then 0 else Count(selected, n - 1) + if selected[n - 1] then 1 else 0
  }

  /** `rate` is the bit rate in 500 kbit/s for the channel width, rounded up, in one byte. */
  ghost predicate RateByte(rate: int, bitrate: nat, unit: nat) {
    exists q: nat :: 5 * unit * (q - 1) < bitrate <= 5 * unit * q && rate == q % 256
  }

  /** The byte for a selected rate stands where the number of selected rates before it says, and is the bit rate
      over five times the unit, rounded up, in one byte. */
  lemma {:induction false} RateAt(b: Band, i: nat, n: nat)
    requires b.Valid() && i < n <= |b.bitrates| && b.selected[i]
    ensures |Rates(b, n)| == Count(b.selected, n) && Count(b.selected, i) < Count(b.selected, n)
    ensures var rate: int := Rates(b, n)[Count(b.selected, i)];
            RateByte(rate, b.bitrates[i], b.unit)
  {
    RatesCount(b, n);
    RatesCount(b, i);
    RatesCount(b, i + 1);
    RatesPrefix(b, i + 1, n);
    var gap := 5 * b.unit;
    var q := (b.bitrates[i] + gap - 1) / gap;
    RoundedUp(b.bitrates[i], gap);
    assert Rates(b, n)[Count(b.selected, i)] == Rates(b, i + 1)[Count(b.selected, i)] == b.Rate(i);
    assert b.Rate(i) as int == q % 256;
  }

  lemma RoundedUp(x: nat, gap: nat)
    requires gap > 0
    ensures var q := (x + gap - 1) / gap; q >= 0 && gap * (q - 1) < x <= gap * q
  {
    var q := (x + gap - 1) / gap;
    assert x + gap - 1 == gap * q + (x + gap - 1) % gap;
    assert gap * (q - 1) == gap * q - gap;
  }

  lemma {:induction false} RatesCount(b: Band, n: nat)
    requires b.Valid() && n <= |b.bitrates|
    ensures |Rates(b, n)| == Count(b.selected, n)
  {
    if n > 0 {
      RatesCount(b, n - 1);
    }
  }

  /** An element in the frame: the length byte and reservation, and the bytes written after it. */
  datatype Element = Element(id: Byte, reserved: nat, written: seq<Byte>)
  {
    /** Every reserved byte is written, and none besides. */
    predicate Filled() { |written| == reserved < 0x100 }

    function Bytes(): seq<Byte>
      requires Filled()
    {
      [id, reserved] + written
    }
  }

  /** The elements that carry the rates, written for `ratesLen` rates. */
  function RateElements(b: Band, ratesLen: nat): seq<Element>
    requires b.Valid()
  {
    var all := AllRates(b);
    var first := if |all| < 8 then all else all[..8];
    [Element(SUPP_RATES, if ratesLen > 8 then 8 else ratesLen, first)]
    + if ratesLen > |first| then [Element(EXT_SUPP_RATES, ratesLen - |first|, all[|first|..])] else []
  }

  method SendRates(b: Band, ratesLen: nat) returns (elements: seq<Element>)
    requires b.Valid()
    ensures elements == RateElements(b, ratesLen)
  {
    var suppRatesLen := ratesLen;
    if suppRatesLen > 8 {
      suppRatesLen := 8;
    }
    var supp: seq<Byte>, ext: seq<Byte> := [], [];
    ghost var n := |b.bitrates|;
    var count, i := 0, 0;
    while i < |b.bitrates|
      invariant i <= n && |supp| == count < 8 && supp == Rates(b, i)
    {
      if b.selected[i] {
        supp := supp + [b.Rate(i)];
        count := count + 1;
        if count == 8 {
          break;
        }
      }
      i := i + 1;
    }
    ghost var done := if i < n then i + 1 else n;
    assert supp == Rates(b, done) && |supp| == count && (done < n ==> count == 8);
    RatesPrefix(b, done, n);
    assert supp == if |AllRates(b)| < 8 then AllRates(b) else AllRates(b)[..8];
    elements := [Element(SUPP_RATES, suppRatesLen, supp)];
    if ratesLen > count {
      i := i + 1;
      while i < |b.bitrates|
        invariant done <= i && (i <= n ==> supp + ext == Rates(b, i)) && (i > n ==> ext == [] && done == n)
      {
        if b.selected[i] {
          ext := ext + [b.Rate(i)];
        }
        i := i + 1;
      }
      assert supp + ext == AllRates(b);
      assert ext == AllRates(b)[count..];
      elements := elements + [Element(EXT_SUPP_RATES, ratesLen - count, ext)];
    }
  }

  /** All rates, if the access point has not said which it supports. */
  method SelectAll(bitrates: seq<nat>, unit: nat) returns (b: Band, ratesLen: nat)
    requires |bitrates| <= 32 && unit > 0
    ensures b.Valid() && b.bitrates == bitrates && b.unit == unit && ratesLen == |AllRates(b)| == |bitrates|
  {
    var selected: seq<bool> := [];
    ratesLen := 0;
    for i := 0 to |bitrates|
      invariant |selected| == i == ratesLen && forall j :: 0 <= j < i ==> selected[j]
    {
      selected := selected + [true];
      ratesLen := ratesLen + 1;
    }
    b := Band(bitrates, selected, unit);
    AllSelected(b, |bitrates|);
  }

  lemma {:induction false} AllSelected(b: Band, n: nat)
    requires b.Valid() && n <= |b.bitrates| && forall j :: 0 <= j < n ==> b.selected[j]
    ensures |Rates(b, n)| == n
  {
    if n > 0 {
      AllSelected(b, n - 1);
    }
  }

  // ---------------------------------------------------------------------------------------------
  // Reading the rates back
  // ---------------------------------------------------------------------------------------------

  /** The contents of all elements with one of the two identifiers, as the access point reads them. */
  function ParseRates(frame: seq<Byte>): Option<seq<Byte>>
    decreases |frame|
  {
    if frame == [] then Some([])
    else if |frame| < 2 || |frame| < After(frame[1]) then None
    else
      var end := After(frame[1]);
      match ParseRates(frame[end..])
      case None => None
      case Some(more) =>
        Some((if frame[0] == SUPP_RATES || frame[0] == EXT_SUPP_RATES then frame[2..end] else []) + more)
  }

  /** Where an element ends whose length byte is `length`. */
  function After(length: int): int { 2 + length }

  lemma ParseElement(e: Element, rest: seq<Byte>)
    requires e.Filled() && (e.id == SUPP_RATES || e.id == EXT_SUPP_RATES) && ParseRates(rest).Some?
    ensures ParseRates(e.Bytes() + rest) == Some(e.written + ParseRates(rest).value)
  {
    var f := e.Bytes() + rest;
    assert f[0] == e.id && f[1] == e.reserved;
    assert f[2..After(f[1])] == e.written && f[After(f[1])..] == rest;
  }

  ghost predicate AllFilled(es: seq<Element>) { forall e :: e in es ==> e.Filled() }

  function FrameBytes(es: seq<Element>): seq<Byte>
    requires AllFilled(es)
  {
    if es == [] then []
    else
      assert es[0] in es;
      es[0].Bytes() + FrameBytes(es[1..])
  }

  /** The elements are filled and give back all selected rates, once each and in band order, exactly when the
      count they were reserved for is the number of selected rates. */
  lemma RatesRoundTrip(b: Band, ratesLen: nat)
    requires b.Valid()
    ensures var es := RateElements(b, ratesLen);
            AllFilled(es) && ParseRates(FrameBytes(es)) == Some(AllRates(b)) <==> ratesLen == |AllRates(b)|
  {
    var all, es := AllRates(b), RateElements(b, ratesLen);
    var first, rest := es[0].written, all[|es[0].written|..];
    assert first + rest == all;
    assert es[0] in es && (|es| == 2 ==> es[1] in es);
    if AllFilled(es) {
      ParseElements(es);
      assert |es| == 1 && rest != [] ==> |first| < |all|;
    }
  }

  /** What the elements hold for any length given: room for as many rates as the length says, the first eight selected
      rates in the first, and all others in the second, if the length leaves anything for it; each rounded up. */
  lemma WrittenRates(b: Band, ratesLen: nat)
    requires b.Valid()
    ensures var n := Count(b.selected, |b.bitrates|);
            var first := if n > 8 then 8 else n;
            var es := RateElements(b, ratesLen);
            && |es| == (if ratesLen > first then 2 else 1)
            && es[0].id == 1 && es[0].reserved == (if ratesLen > 8 then 8 else ratesLen) && |es[0].written| == first
            && (ratesLen > first ==>
                  es[1].id == 50 && es[1].reserved == ratesLen - first && |es[1].written| == n - first)
            && var bytes := es[0].written + if ratesLen > first then es[1].written else [];
            forall i :: 0 <= i < |b.bitrates| && b.selected[i] && Count(b.selected, i) < |bytes| ==>
              RateByte(bytes[Count(b.selected, i)], b.bitrates[i], b.unit)
  {
    var n := Count(b.selected, |b.bitrates|);
    var es, all := RateElements(b, ratesLen), AllRates(b);
    RatesCount(b, |b.bitrates|);
    var bytes := es[0].written + if |es| == 2 then es[1].written else [];
    assert bytes == all[..|bytes|];
    forall i | 0 <= i < |b.bitrates| && b.selected[i] && Count(b.selected, i) < |bytes|
      ensures RateByte(bytes[Count(b.selected, i)], b.bitrates[i], b.unit)
    {
      RateAt(b, i, |b.bitrates|);
    }
  }

  lemma ParseElements(es: seq<Element>)
    requires AllFilled(es) && 1 <= |es| <= 2 && forall e :: e in es ==> e.id == SUPP_RATES || e.id == EXT_SUPP_RATES
    ensures ParseRates(FrameBytes(es)) == Some(es[0].written + if |es| == 2 then es[1].written else [])
  {
    assert ParseRates([]) == Some([]);
    assert es[0] in es;
    if |es| == 2 {
      assert es[1] in es && es[1..] == [es[1]] && es[1..][1..] == [];
      ParseElement(es[1], []);
      assert es[1].written + [] == es[1].written;
    } else {
      assert es[1..] == [];
    }
    ParseElement(es[0], FrameBytes(es[1..]));
  }

  // ---------------------------------------------------------------------------------------------
  // The caller's elements
  // ---------------------------------------------------------------------------------------------

  /** A part of the frame: bytes of the caller's elements, or an element of the driver. */
  datatype Part = Custom(bytes: seq<Byte>) | Own(bytes: seq<Byte>)

  function CustomBytes(parts: seq<Part>): seq<Byte> {
    if parts == [] then []
    else (match parts[0] case Custom(bytes) => bytes case Own(_) => []) + CustomBytes(parts[1..])
  }

  function OwnElements(parts: seq<Part>): seq<seq<Byte>> {
    if parts == [] then []
    else (match parts[0] case Custom(_) => [] case Own(bytes) => [bytes]) + OwnElements(parts[1..])
  }

  /** The driver cuts the caller's elements at `offset` and puts its own element there, if it has one. */
  datatype Cut = Cut(offset: nat, own: Option<seq<Byte>>)

  function OwnPart(own: Option<seq<Byte>>): seq<Part> {
    match own case None => [] case Some(bytes) => [Own(bytes)]
  }

  /** The splitters return offsets from the one before to the end of the elements. */
  predicate Ordered(cuts: seq<Cut>, offset: nat, end: nat) {
    if cuts == [] then offset <= end else offset <= cuts[0].offset && Ordered(cuts[1..], cuts[0].offset, end)
  }

  /** The rest of the frame from `offset` of the caller's elements on. */
  function Arranged(ie: seq<Byte>, offset: nat, cuts: seq<Cut>): seq<Part>
    requires ie != [] ==> Ordered(cuts, offset, |ie|)
    decreases |cuts|
  {
    if cuts == [] then Piece(ie, offset, |ie|)
    else
      CutInside(cuts, offset, |ie|);
      Piece(ie, offset, cuts[0].offset) + OwnPart(cuts[0].own) + Arranged(ie, cuts[0].offset, cuts[1..])
  }

  function Piece(ie: seq<Byte>, offset: nat, noffset: nat): seq<Part>
    requires ie != [] ==> offset <= noffset <= |ie|
  {
    if ie == [] then [] else [Custom(ie[offset..noffset])]
  }

  lemma {:induction false} CutInside(cuts: seq<Cut>, offset: nat, end: nat)
    ensures Ordered(cuts, offset, end) ==> offset <= end && (cuts != [] ==> offset <= cuts[0].offset <= end)
  {
    if cuts != [] {
      CutInside(cuts[1..], cuts[0].offset, end);
    }
  }

  function OwnOf(cuts: seq<Cut>): seq<seq<Byte>> {
    if cuts == [] then []
    else (match cuts[0].own case None => [] case Some(bytes) => [bytes]) + OwnOf(cuts[1..])
  }

  lemma OnePiece(ie: seq<Byte>, offset: nat, cut: Cut, rest: seq<Part>)
    requires ie != [] ==> offset <= cut.offset <= |ie|
    ensures var parts := Piece(ie, offset, cut.offset) + OwnPart(cut.own) + rest;
            && CustomBytes(parts) == (if ie == [] then [] else ie[offset..cut.offset]) + CustomBytes(rest)
            && OwnElements(parts) == (match cut.own case None => [] case Some(bytes) => [bytes]) + OwnElements(rest)
  {
    var own := OwnPart(cut.own) + rest;
    assert own == rest || (own[0] == Own(cut.own.value) && own[1..] == rest);
    assert CustomBytes(own) == CustomBytes(rest);
    if ie == [] {
      assert Piece(ie, offset, cut.offset) + OwnPart(cut.own) + rest == own;
    } else {
      var parts := Piece(ie, offset, cut.offset) + OwnPart(cut.own) + rest;
      assert parts[0] == Custom(ie[offset..cut.offset]) && parts[1..] == own;
    }
  }

  /** Whatever offsets the splitters return, the pieces make up the caller's elements, and the driver's elements
      are all there, in order. */
  lemma {:induction false} ArrangedKeeps(ie: seq<Byte>, offset: nat, cuts: seq<Cut>)
    requires ie != [] ==> Ordered(cuts, offset, |ie|)
    ensures ie != [] ==> offset <= |ie|
    ensures CustomBytes(Arranged(ie, offset, cuts)) == if ie == [] then [] else ie[offset..]
    ensures OwnElements(Arranged(ie, offset, cuts)) == OwnOf(cuts)
    decreases |cuts|
  {
    CutInside(cuts, offset, |ie|);
    if cuts == [] {
      LastPiece(ie, offset);
    } else {
      ArrangedKeeps(ie, cuts[0].offset, cuts[1..]);
      OnePiece(ie, offset, cuts[0], Arranged(ie, cuts[0].offset, cuts[1..]));
      if ie != [] {
        SliceJoins(ie, offset, cuts[0].offset);
      }
    }
  }

  lemma SliceJoins<T>(s: seq<T>, a: nat, b: nat)
    requires a <= b <= |s|
    ensures s[a..b] + s[b..] == s[a..]
  {
  }

  lemma LastPiece(ie: seq<Byte>, offset: nat)
    requires ie != [] ==> offset <= |ie|
    ensures CustomBytes(Piece(ie, offset, |ie|)) == if ie == [] then [] else ie[offset..]
    ensures OwnElements(Piece(ie, offset, |ie|)) == []
  {
    if ie != [] {
      assert Piece(ie, offset, |ie|)[1..] == [];
      assert ie[offset..|ie|] + CustomBytes([]) == ie[offset..];
    }
  }

  /** The end of the frame: the HT element stands after the first piece of the caller's elements, the VHT element
      after the second, WMM after the third. */
  method SendCustom(ie: seq<Byte>, beforeHt: nat, beforeVht: nat, vendor: nat,
                    ht: Option<seq<Byte>>, vht: Option<seq<Byte>>, wmm: Option<seq<Byte>>)
    returns (parts: seq<Part>)
    requires ie != [] ==> beforeHt <= beforeVht <= vendor <= |ie|
    ensures ie == [] ==> parts == OwnPart(ht) + OwnPart(vht) + OwnPart(wmm)
    ensures ie != [] ==>
              parts == [Custom(ie[0..beforeHt])] + OwnPart(ht) + [Custom(ie[beforeHt..beforeVht])] + OwnPart(vht)
                       + [Custom(ie[beforeVht..vendor])] + OwnPart(wmm) + [Custom(ie[vendor..|ie|])]
    ensures ie != [] ==> Ordered([Cut(beforeHt, ht), Cut(beforeVht, vht), Cut(vendor, wmm)], 0, |ie|)
    ensures parts == Arranged(ie, 0, [Cut(beforeHt, ht), Cut(beforeVht, vht), Cut(vendor, wmm)])
  {
    var offset, noffset := 0, 0;
    parts := [];
    if ie != [] {
      noffset := beforeHt;
      parts := parts + [Custom(ie[offset..noffset])];
      offset := noffset;
    }
    parts := AddOwn(parts, ht);
    assert parts == Piece(ie, 0, beforeHt) + OwnPart(ht);
    if ie != [] {
      noffset := beforeVht;
      parts := parts + [Custom(ie[offset..noffset])];
      offset := noffset;
    }
    parts := AddOwn(parts, vht);
    assert parts == Piece(ie, 0, beforeHt) + OwnPart(ht) + Piece(ie, beforeHt, beforeVht) + OwnPart(vht);
    if ie != [] {
      noffset := vendor;
      parts := parts + [Custom(ie[offset..noffset])];
      offset := noffset;
    }
    parts := AddOwn(parts, wmm);
    if ie != [] {
      noffset := |ie|;
      parts := parts + [Custom(ie[offset..noffset])];
    }
    ThreeCuts(ie, Cut(beforeHt, ht), Cut(beforeVht, vht), Cut(vendor, wmm));
    assert parts == Arranged(ie, 0, [Cut(beforeHt, ht), Cut(beforeVht, vht), Cut(vendor, wmm)]);
    Placed(ie, Cut(beforeHt, ht), Cut(beforeVht, vht), Cut(vendor, wmm));
  }

  /** Three cuts, element by element. */
  lemma Placed(ie: seq<Byte>, c0: Cut, c1: Cut, c2: Cut)
    requires ie != [] ==> c0.offset <= c1.offset <= c2.offset <= |ie|
    ensures ie != [] ==> Ordered([c0, c1, c2], 0, |ie|)
    ensures Arranged(ie, 0, [c0, c1, c2])
         == if ie == [] then OwnPart(c0.own) + OwnPart(c1.own) + OwnPart(c2.own)
            else [Custom(ie[0..c0.offset])] + OwnPart(c0.own) + [Custom(ie[c0.offset..c1.offset])] + OwnPart(c1.own)
                 + [Custom(ie[c1.offset..c2.offset])] + OwnPart(c2.own) + [Custom(ie[c2.offset..|ie|])]
  {
    ThreeCuts(ie, c0, c1, c2);
    NoPieces(OwnPart(c0.own), OwnPart(c1.own), OwnPart(c2.own));
  }

  lemma NoPieces<T>(a: seq<T>, b: seq<T>, c: seq<T>)
    ensures [] + a + [] + b + [] + c + [] == a + b + c == [] + a + b + c
  {
  }

  /** An element of the driver, if it has one. */
  method AddOwn(parts: seq<Part>, own: Option<seq<Byte>>) returns (more: seq<Part>)
    ensures more == parts + OwnPart(own)
  {
    more := parts;
    if own.Some? {
      more := more + [Own(own.value)];
    }
  }

  lemma ThreeCuts(ie: seq<Byte>, c0: Cut, c1: Cut, c2: Cut)
    requires ie != [] ==> c0.offset <= c1.offset <= c2.offset <= |ie|
    ensures ie != [] ==> Ordered([c0, c1, c2], 0, |ie|)
    ensures Arranged(ie, 0, [c0, c1, c2])
         == Piece(ie, 0, c0.offset) + OwnPart(c0.own) + Piece(ie, c0.offset, c1.offset) + OwnPart(c1.own)
            + Piece(ie, c1.offset, c2.offset) + OwnPart(c2.own) + Piece(ie, c2.offset, |ie|)
  {
    LastCut(ie, c1.offset, c2);
    FirstOf(ie, c0.offset, c1, [c2]);
    FirstOf(ie, 0, c0, [c1, c2]);
    assert [c0] + [c1, c2] == [c0, c1, c2] && [c1] + [c2] == [c1, c2];
    Regroup(Piece(ie, 0, c0.offset) + OwnPart(c0.own), Piece(ie, c0.offset, c1.offset), OwnPart(c1.own),
            Piece(ie, c1.offset, c2.offset), OwnPart(c2.own), Piece(ie, c2.offset, |ie|));
  }

  lemma FirstOf(ie: seq<Byte>, offset: nat, cut: Cut, rest: seq<Cut>)
    requires ie != [] ==> offset <= cut.offset && Ordered(rest, cut.offset, |ie|)
    ensures ie != [] ==> Ordered([cut] + rest, offset, |ie|) && cut.offset <= |ie|
    ensures Arranged(ie, offset, [cut] + rest)
         == Piece(ie, offset, cut.offset) + OwnPart(cut.own) + Arranged(ie, cut.offset, rest)
  {
    assert ([cut] + rest)[1..] == rest;
    CutInside(rest, cut.offset, |ie|);
  }

  lemma LastCut(ie: seq<Byte>, offset: nat, cut: Cut)
    requires ie != [] ==> offset <= cut.offset <= |ie|
    ensures ie != [] ==> Ordered([cut], offset, |ie|)
    ensures Arranged(ie, offset, [cut])
         == Piece(ie, offset, cut.offset) + OwnPart(cut.own) + Piece(ie, cut.offset, |ie|)
  {
    assert [cut] + [] == [cut];
    assert ie != [] ==> Ordered([], cut.offset, |ie|);
    FirstOf(ie, offset, cut, []);
  }

  lemma Regroup<T>(a: seq<T>, b: seq<T>, c: seq<T>, d: seq<T>, e: seq<T>, f: seq<T>)
    ensures a + (b + c + (d + e + f)) == a + b + c + d + e + f
  {
  }
}
