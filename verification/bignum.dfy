/** Signed seconds and nanoseconds (bignum_sec_profiling.c). `Num` is the record as a value, with the arithmetic
    of unsigned 64-bit fields written out; `Cell` is the record in memory, where operands may alias the result. */
module Bignum {
  import opened Common
  import opened Codec

  const BILLION: nat := 1000000000

  datatype Num = Num(positive: bool, sec: nat, nsec: nat)
  {
    predicate Fits() { sec < TWO64 && nsec <= BILLION }

    /** The nanoseconds are carried: what a clock delivers. */
    predicate Canonical() { sec < TWO64 && nsec < BILLION }

    function Mag(): nat { sec * BILLION + nsec }

    function Val(): int { if positive then Mag() else 0 - Mag() }

    predicate SamePair(b: Num) { sec == b.sec && nsec == b.nsec }
  }

  const ZERO := Num(true, 0, 0)

  // ---------------------------------------------------------------------------------------------
  // The operations as functions; None is a failed assertion
  // ---------------------------------------------------------------------------------------------

  function AddUnsigned(positive: bool, a: Num, b: Num): Num {
    var nsec := (a.nsec + b.nsec) % TWO64;
    if nsec > BILLION then Num(positive, (a.sec + b.sec + 1) % TWO64, nsec - BILLION)
    else Num(positive, (a.sec + b.sec) % TWO64, nsec)
  }

  predicate GreaterUnsigned(a: Num, b: Num) {
    a.sec > b.sec || (a.sec == b.sec && a.nsec > b.nsec)
  }

  function SubUnsigned(positive: bool, a: Num, b: Num): Option<Num> {
    if !GreaterUnsigned(a, b) then None
    else if a.nsec < b.nsec then
      Some(Num(positive, (a.sec - 1 - b.sec) % TWO64, (a.nsec + BILLION - b.nsec) % TWO64))
    else Some(Num(positive, a.sec - b.sec, a.nsec - b.nsec))
  }

  function Add(a: Num, b: Num): Option<Num> {
    if a.positive == b.positive then Some(AddUnsigned(a.positive, a, b))
    else if a.positive then
      if GreaterUnsigned(a, b) then SubUnsigned(true, a, b) else SubUnsigned(false, b, a)
    else
      if GreaterUnsigned(b, a) then SubUnsigned(true, b, a) else SubUnsigned(false, a, b)
  }

  /** Subtraction below the test for equality, which does not return. */
  function SubBelow(a: Num, b: Num): Option<Num> {
    if a.positive && b.positive then
      if GreaterUnsigned(a, b) then SubUnsigned(true, a, b) else SubUnsigned(false, b, a)
    else if a.positive then Some(AddUnsigned(true, a, b))
    else if b.positive then Some(AddUnsigned(false, a, b))
    else if GreaterUnsigned(b, a) then SubUnsigned(true, b, a)
    else SubUnsigned(false, a, b)
  }

  function NsecQuotient(remainder: nat, nsec: nat, b: nat): nat
    requires b > 0
  {
    ((remainder * BILLION + nsec) % TWO64) / b
  }

  /** Full billions of nanoseconds go to the seconds. */
  function Carried(positive: bool, sec: nat, nsec: nat): Num {
    Num(positive, (sec + nsec / BILLION) % TWO64, nsec - nsec / BILLION * BILLION)
  }

  function Divs(a: Num, b: nat, remainder: nat): Num
    requires b > 0
  {
    Carried(a.positive, a.sec / b, NsecQuotient(remainder, a.nsec, b))
  }

  predicate GreaterThan(a: Num, b: Num) {
    if a == b then false
    else if a.positive && b.positive then GreaterUnsigned(a, b)
    else if a.positive then true
    else if b.positive then false
    else GreaterUnsigned(b, a)
  }

  predicate LessThan(a: Num, b: Num) {
    if a == b then false
    else if a.positive && b.positive then GreaterUnsigned(b, a)
    else if a.positive then false
    else if b.positive then true
    else GreaterUnsigned(a, b)
  }

  predicate IsZero(a: Num) { a.sec == 0 && a.nsec == 0 }

  // ---------------------------------------------------------------------------------------------
  // Exactness
  // ---------------------------------------------------------------------------------------------

  /** The seconds that a sum of magnitudes needs. */
  function CarriedSec(a: Num, b: Num): nat {
    a.sec + b.sec + if a.nsec + b.nsec > BILLION then 1 else 0
  }

  lemma AddUnsignedExact(positive: bool, a: Num, b: Num)
    requires a.Fits() && b.Fits()
    ensures AddUnsigned(positive, a, b).Fits()
    ensures AddUnsigned(positive, a, b).Mag() == a.Mag() + b.Mag() <==> CarriedSec(a, b) < TWO64
  {
    var s := CarriedSec(a, b);
    assert s < TWO64 ==> s % TWO64 == s;
    assert s % TWO64 < TWO64;
  }

  lemma SubUnsignedExact(positive: bool, a: Num, b: Num)
    requires a.Fits() && b.Fits()
    ensures SubUnsigned(positive, a, b).Some? <==> GreaterUnsigned(a, b)
    ensures var r := SubUnsigned(positive, a, b);
            r.Some? ==> r.value.Fits() && r.value.Mag() == a.Mag() - b.Mag() && r.value.positive == positive
    ensures a.Canonical() && b.Canonical() && GreaterUnsigned(a, b) ==> SubUnsigned(positive, a, b).value.Canonical()
  {
    if GreaterUnsigned(a, b) && a.nsec < b.nsec {
      var s := a.sec - 1 - b.sec;
      assert 0 <= s < TWO64;
      assert s % TWO64 == s;
      assert (s + 1) * BILLION == s * BILLION + BILLION;
    }
  }

  /** Addition fails exactly on opposite signs and equal fields; otherwise it is exact exactly when the seconds
      do not overflow. */
  lemma AddExact(a: Num, b: Num)
    requires a.Fits() && b.Fits()
    ensures Add(a, b).None? <==> a.positive != b.positive && a.SamePair(b)
    ensures Add(a, b).Some? ==>
              && Add(a, b).value.Fits()
              && (Add(a, b).value.Val() == a.Val() + b.Val()
                  <==> (a.positive == b.positive ==> CarriedSec(a, b) < TWO64))
  {
    AddUnsignedExact(a.positive, a, b);
    SubUnsignedExact(true, a, b);
    SubUnsignedExact(false, a, b);
    SubUnsignedExact(true, b, a);
    SubUnsignedExact(false, b, a);
  }

  /** The same for subtraction, which fails on equal operands although it tests for them. */
  lemma SubExact(a: Num, b: Num)
    requires a.Fits() && b.Fits()
    ensures SubBelow(a, b).None? <==> a == b
    ensures SubBelow(a, b).Some? ==>
              && SubBelow(a, b).value.Fits()
              && (SubBelow(a, b).value.Val() == a.Val() - b.Val()
                  <==> (a.positive != b.positive ==> CarriedSec(a, b) < TWO64))
    ensures a.Canonical() && b.Canonical() && a.positive == b.positive && a != b ==> SubBelow(a, b).value.Canonical()
  {
    AddUnsignedExact(a.positive, a, b);
    SubUnsignedExact(true, a, b);
    SubUnsignedExact(false, a, b);
    SubUnsignedExact(true, b, a);
    SubUnsignedExact(false, b, a);
  }

  /** `b` is the same magnitude as `a`, with a full billion of nanoseconds instead of one more second. Addition
      can leave such numbers. */
  predicate Uncarried(a: Num, b: Num) { a.sec == b.sec + 1 && a.nsec == 0 && b.nsec == BILLION }

  lemma MagOrder(a: Num, b: Num)
    requires a.Fits() && b.Fits()
    ensures GreaterUnsigned(a, b) <==> a.Mag() > b.Mag() || Uncarried(a, b)
    ensures a.Mag() == 0 <==> IsZero(a)
  {
    if a.sec > b.sec {
      assert a.sec * BILLION >= (b.sec + 1) * BILLION;
    } else if a.sec < b.sec {
      assert b.sec * BILLION >= (a.sec + 1) * BILLION;
    }
  }

  /** The comparisons order the values exactly except for two zeros of different sign, the positive one being
      above, and for one magnitude in two forms, the carried one being further from zero. */
  lemma ComparesValues(a: Num, b: Num)
    requires a.Fits() && b.Fits()
    ensures GreaterThan(a, b) <==>
              || a.Val() > b.Val()
              || (IsZero(a) && IsZero(b) && a.positive && !b.positive)
              || (a.positive && b.positive && Uncarried(a, b))
              || (!a.positive && !b.positive && Uncarried(b, a))
    ensures LessThan(a, b) <==> GreaterThan(b, a)
  {
    MagOrder(a, b);
    MagOrder(b, a);
  }

  lemma DivCarry(sec: nat, nsec: nat, b: nat)
    requires b > 0
    ensures (sec * BILLION + nsec) / b == (sec / b) * BILLION + (sec % b * BILLION + nsec) / b
  {
    var q, r := sec / b, sec % b;
    assert sec == q * b + r;
    assert sec * BILLION + nsec == b * (q * BILLION) + (r * BILLION + nsec) by {
      assert (q * b + r) * BILLION == q * b * BILLION + r * BILLION;
      assert q * b * BILLION == b * (q * BILLION);
    }
    DivAddMultiple(q * BILLION, r * BILLION + nsec, b);
  }

  lemma DivAddMultiple(m: nat, n: nat, b: nat)
    requires b > 0
    ensures (b * m + n) / b == m + n / b
  {
    var x := b * m + n;
    assert n == b * (n / b) + n % b;
    assert x == b * (m + n / b) + n % b;
    DivModUnique(x, b, m + n / b, n % b);
  }

  /** Seconds reduced to 64 bits are exact exactly if they fit. */
  lemma WrapExact(s: nat, t: nat)
    requires t < BILLION
    ensures (s % TWO64) * BILLION + t == s * BILLION + t <==> s < TWO64
    ensures s * BILLION + t < TWO64 * BILLION <==> s < TWO64
  {
    assert s >= TWO64 ==> s % TWO64 < TWO64 <= s;
  }

  lemma NsecQuotientExact(remainder: nat, nsec: nat, b: nat)
    requires remainder < b < TWO32 && nsec <= BILLION
    ensures NsecQuotient(remainder, nsec, b) == (remainder * BILLION + nsec) / b
  {
    var n := remainder * BILLION + nsec;
    assert n <= (TWO32 - 1) * BILLION + BILLION < TWO64;
    assert n % TWO64 == n;
  }

  /** Carrying keeps the value, if the seconds do not overflow. */
  lemma CarriedExact(positive: bool, sec: nat, nsec: nat)
    ensures var c := Carried(positive, sec, nsec);
            && c.Canonical() && c.positive == positive
            && (c.Mag() == sec * BILLION + nsec <==> sec * BILLION + nsec < TWO64 * BILLION)
  {
    WrapExact(sec + nsec / BILLION, nsec % BILLION);
  }

  /** Quotient of the seconds and of the rest, before carrying. */
  lemma DivsParts(a: Num, b: nat) returns (q: nat, m: nat)
    requires a.Fits() && 0 < b < TWO32
    ensures Divs(a, b, a.sec % b) == Carried(a.positive, q, m) && a.Mag() / b == q * BILLION + m
  {
    q, m := a.sec / b, NsecQuotient(a.sec % b, a.nsec, b);
    NsecQuotientExact(a.sec % b, a.nsec, b);
    DivCarry(a.sec, a.nsec, b);
  }

  /** `c` has the sign and the magnitude of a quotient, carried, unless the seconds overflow. */
  predicate Divided(c: Num, positive: bool, quotient: int) {
    c.Canonical() && c.positive == positive && (c.Mag() == quotient <==> quotient < TWO64 * BILLION)
  }

  /** Division by a 32-bit number gives the magnitude's floor, carried, if it fits. */
  lemma DivsExact(a: Num, b: nat)
    requires a.Fits() && 0 < b < TWO32
    ensures Divided(Divs(a, b, a.sec % b), a.positive, a.Mag() / b)
  {
    var q, m := DivsParts(a, b);
    CarriedExact(a.positive, q, m);
    assert Divided(Carried(a.positive, q, m), a.positive, q * BILLION + m);
  }

  // ---------------------------------------------------------------------------------------------
  // The record in memory
  // ---------------------------------------------------------------------------------------------

  class Cell {
    var sec: nat
    var nsec: nat
    var positive: bool

    function View(): Num
      reads this
    {
      Num(positive, sec, nsec)
    }

    constructor ()
      ensures View() == ZERO
    {
      sec, nsec, positive := 0, 0, true;
    }

    /** bignum_sec_assigns */
    method Set(positive: bool, sec: nat, nsec: nat)
      modifies this
      ensures View() == Num(positive, sec, nsec)
    {
      this.positive := positive;
      this.sec := sec;
      this.nsec := nsec;
    }

    /** bignum_sec_assign */
    method Assign(b: Cell)
      modifies this
      ensures View() == old(b.View())
    {
      positive := b.positive;
      sec := b.sec;
      nsec := b.nsec;
    }
  }

  /** The result may be the place of an operand: fields are read before they are overwritten. */
  method AddUnsignedTo(a: Cell, b: Cell, c: Cell)
    modifies c`sec, c`nsec
    ensures c.View() == old(AddUnsigned(c.positive, a.View(), b.View()))
  {
    c.nsec := (a.nsec + b.nsec) % TWO64;
    if c.nsec > BILLION {
      c.nsec := c.nsec - BILLION;
      c.sec := (a.sec + b.sec + 1) % TWO64;
    } else {
      c.sec := (a.sec + b.sec) % TWO64;
    }
  }

  /** `ok` is false if the assertion fails. */
  method SubUnsignedTo(a: Cell, b: Cell, c: Cell) returns (ok: bool)
    modifies c`sec, c`nsec
    ensures ok == old(SubUnsigned(c.positive, a.View(), b.View())).Some?
    ensures ok ==> Some(c.View()) == old(SubUnsigned(c.positive, a.View(), b.View()))
  {
    ok := a.sec > b.sec || (a.sec == b.sec && a.nsec > b.nsec);
    if !ok {
      return;
    }
    if a.nsec < b.nsec {
      c.nsec := (a.nsec + BILLION - b.nsec) % TWO64;
      c.sec := (a.sec - 1 - b.sec) % TWO64;
    } else {
      c.nsec := a.nsec - b.nsec;
      c.sec := a.sec - b.sec;
    }
  }

  method AddTo(a: Cell, b: Cell, c: Cell) returns (ok: bool)
    modifies c
    ensures ok == old(Add(a.View(), b.View())).Some?
    ensures ok ==> Some(c.View()) == old(Add(a.View(), b.View()))
  {
    ok := true;
    if a.positive == b.positive {
      c.positive := a.positive;
      AddUnsignedTo(a, b, c);
      return;
    }
    if a.positive && !b.positive {
      if GreaterUnsigned(a.View(), b.View()) {
        c.positive := true;
        ok := SubUnsignedTo(a, b, c);
      } else {
        c.positive := false;
        ok := SubUnsignedTo(b, a, c);
      }
    } else {
      if GreaterUnsigned(b.View(), a.View()) {
        c.positive := true;
        ok := SubUnsignedTo(b, a, c);
      } else {
        c.positive := false;
        ok := SubUnsignedTo(a, b, c);
      }
    }
  }

  /** What subtraction sees after its test for equality: the result is cleared, with any operand it is. */
  function Cleared(a: Num, b: Num, isC: bool): Num {
    if a == b && isC then ZERO else a
  }

  method SubTo(a: Cell, b: Cell, c: Cell) returns (ok: bool)
    modifies c
    ensures var x, y := old(a.View()), old(b.View());
            var r := SubBelow(Cleared(x, y, c == a), Cleared(y, x, c == b));
            ok == r.Some? && (ok ==> Some(c.View()) == r)
  {
    if a.View() == b.View() {
      c.positive := true;
      c.sec := 0;
      c.nsec := 0;
    }
    ok := SubBelowTo(a, b, c);
  }

  method SubBelowTo(a: Cell, b: Cell, c: Cell) returns (ok: bool)
    modifies c
    ensures ok == old(SubBelow(a.View(), b.View())).Some?
    ensures ok ==> Some(c.View()) == old(SubBelow(a.View(), b.View()))
  {
    ok := true;
    if a.positive && b.positive {
      if GreaterUnsigned(a.View(), b.View()) {
        c.positive := true;
        ok := SubUnsignedTo(a, b, c);
      } else {
        c.positive := false;
        ok := SubUnsignedTo(b, a, c);
      }
    } else if a.positive && !b.positive {
      c.positive := true;
      AddUnsignedTo(a, b, c);
    } else if !a.positive && b.positive {
      c.positive := false;
      AddUnsignedTo(a, b, c);
    } else if GreaterUnsigned(b.View(), a.View()) {
      c.positive := true;
      ok := SubUnsignedTo(b, a, c);
    } else {
      c.positive := false;
      ok := SubUnsignedTo(a, b, c);
    }
  }

  /** In the place of an operand, the difference of equal numbers does not fail but is wrong: it is the negated
      other operand, or the other operand. It is right exactly for negative zeros. */
  lemma AliasedDifference(x: Num)
    requires x.Fits()
    ensures var r := SubBelow(Cleared(x, x, true), x);
            && (r.None? <==> x == ZERO)
            && (r.Some? ==> r.value.Val() == -x.Val() && (r.value.Val() == 0 <==> x == Num(false, 0, 0)))
    ensures var r := SubBelow(x, Cleared(x, x, true));
            && (r.None? <==> x == ZERO)
            && (r.Some? ==> r.value.Val() == x.Val() && (r.value.Val() == 0 <==> x == Num(false, 0, 0)))
  {
    SubExact(ZERO, x);
    SubExact(x, ZERO);
  }

  /** bignum_sec_divs; if the result is the operand, the remainder is taken of the quotient. */
  method DivsTo(a: Cell, b: nat, c: Cell)
    requires 0 < b < TWO32
    modifies c
    ensures var x := old(a.View());
            c.View() == Divs(x, b, if c == a then (x.sec / b) % b else x.sec % b)
  {
    c.positive := a.positive;
    c.sec := a.sec / b;
    var remainder := a.sec % b;
    c.nsec := ((remainder * BILLION + a.nsec) % TWO64) / b;
    var carry := c.nsec / BILLION;
    c.sec := (c.sec + carry) % TWO64;
    c.nsec := c.nsec - carry * BILLION;
  }
}
