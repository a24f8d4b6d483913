/** The 32-bit words of the GPIO port.  A register is a `bv32`; this module says what its bits are
    and gives the bitwise laws that the other modules use. */
module Words {
  type Word = bv32

  /** A pin of the port: one of the 32 bits of a register. */
  type Pin = p: nat | p < 32

  /** `1 << pin`, as a 32-bit shift: pin 31 gives the top bit and no sign. */
  function PinMask(p: Pin): Word {
    (1 as Word) << p
  }

  predicate Meets(w: Word, k: Word) {
    w & k != 0
  }

  lemma MeetsIsNonzero(w: Word, k: Word)
    ensures w & k != 0 <==> Meets(w, k)
  {
  }

  predicate Bit(w: Word, p: Pin) {
    Meets(w, PinMask(p))
  }

  /** The mask is not empty, and the word has all of it or nothing. */
  predicate WholeOrNothing(w: Word, k: Word) {
    k != 0 && (w & k == 0 || w & k == k)
  }

  lemma PinMaskIsOneBit(w: Word, p: Pin)
    ensures WholeOrNothing(w, PinMask(p))
  {
  }

  lemma BitOfPinMask(p: Pin, q: Pin)
    ensures Bit(PinMask(p), q) <==> p == q
  {
  }

  lemma ZeroHasNoBits(p: Pin)
    ensures !Bit(0, p)
  {
  }

  /** Under a mask that each operand has in full or not at all, the bitwise operations are the
      logical ones. */
  lemma OrMeets(a: Word, b: Word, k: Word)
    requires WholeOrNothing(a, k) && WholeOrNothing(b, k)
    ensures Meets(a | b, k) <==> Meets(a, k) || Meets(b, k)
  {
    assert (a | b) & k == if a & k == 0 then b & k else k;
  }

  lemma AndMeets(a: Word, b: Word, k: Word)
    requires WholeOrNothing(a, k) && WholeOrNothing(b, k)
    ensures Meets(a & b, k) <==> Meets(a, k) && Meets(b, k)
  {
    assert (a & b) & k == if a & k == 0 then 0 else b & k;
  }

  lemma XorUnderMask(a: Word, b: Word, k: Word)
    requires a & k == 0 || a & k == k
    requires b & k == 0 || b & k == k
    ensures (a ^ b) & k == if a & k == b & k then 0 else k
  {
  }

  lemma XorMeets(a: Word, b: Word, k: Word)
    requires WholeOrNothing(a, k) && WholeOrNothing(b, k)
    ensures Meets(a ^ b, k) <==> Meets(a, k) != Meets(b, k)
  {
    XorUnderMask(a, b, k);
  }

  lemma NotMeets(a: Word, k: Word)
    requires WholeOrNothing(a, k)
    ensures Meets(!a, k) <==> !Meets(a, k)
  {
    assert !a & k == if a & k == 0 then k else 0;
  }

  /** A bit of a combined word is the combination of the bits. */
  lemma BitOr(a: Word, b: Word, p: Pin)
    ensures Bit(a | b, p) <==> Bit(a, p) || Bit(b, p)
  {
    PinMaskIsOneBit(a, p);
    PinMaskIsOneBit(b, p);
    OrMeets(a, b, PinMask(p));
  }

  lemma BitAnd(a: Word, b: Word, p: Pin)
    ensures Bit(a & b, p) <==> Bit(a, p) && Bit(b, p)
  {
    PinMaskIsOneBit(a, p);
    PinMaskIsOneBit(b, p);
    AndMeets(a, b, PinMask(p));
  }

  lemma BitXor(a: Word, b: Word, p: Pin)
    ensures Bit(a ^ b, p) <==> Bit(a, p) != Bit(b, p)
  {
    PinMaskIsOneBit(a, p);
    PinMaskIsOneBit(b, p);
    XorMeets(a, b, PinMask(p));
  }

  lemma BitNot(a: Word, p: Pin)
    ensures Bit(!a, p) <==> !Bit(a, p)
  {
    PinMaskIsOneBit(a, p);
    NotMeets(a, PinMask(p));
  }

  lemma NoBitsMeansZero(w: Word)
    requires forall p: Pin :: !Bit(w, p)
    ensures w == 0
  {
    assert w & 0xFF == 0 by {
      assert !Bit(w, 0) && !Bit(w, 1) && !Bit(w, 2) && !Bit(w, 3) && !Bit(w, 4) && !Bit(w, 5) && !Bit(w, 6) && !Bit(w, 7);
    }
    assert w & 0xFF00 == 0 by {
      assert !Bit(w, 8) && !Bit(w, 9) && !Bit(w, 10) && !Bit(w, 11) && !Bit(w, 12) && !Bit(w, 13) && !Bit(w, 14) && !Bit(w, 15);
    }
    assert w & 0xFF0000 == 0 by {
      assert !Bit(w, 16) && !Bit(w, 17) && !Bit(w, 18) && !Bit(w, 19) && !Bit(w, 20) && !Bit(w, 21) && !Bit(w, 22) && !Bit(w, 23);
    }
    assert w & 0xFF000000 == 0 by {
      assert !Bit(w, 24) && !Bit(w, 25) && !Bit(w, 26) && !Bit(w, 27) && !Bit(w, 28) && !Bit(w, 29) && !Bit(w, 30) && !Bit(w, 31);
    }
  }

  lemma XorZeroMeansEqual(a: Word, b: Word)
    ensures a ^ b == 0 <==> a == b
  {
  }

  /** Two words with the same 32 bits are the same word. */
  lemma SameBitsMeansEqual(a: Word, b: Word)
    requires forall p: Pin :: Bit(a, p) <==> Bit(b, p)
    ensures a == b
  {
    var difference := a ^ b;
    forall p: Pin ensures !Bit(difference, p) {
      BitXor(a, b, p);
    }
    NoBitsMeansZero(difference);
    XorZeroMeansEqual(a, b);
  }

  /** The bit of a pin, shifted to the right end of a word. */
  function ShiftedOut(w: Word, p: Pin): Word {
    (w >> p) & 1
  }

  predicate ShiftFinds(w: Word, k: bv6)
    requires k < 32
  {
    (w >> k) & 1 == if w & ((1 as Word) << k) != 0 then 1 else 0
  }

  lemma ShiftFindsBit(w: Word, k: bv6)
    requires k < 32
    ensures ShiftFinds(w, k)
  {
  }

  lemma ShiftedOutIsBit(w: Word, p: Pin)
    ensures ShiftedOut(w, p) == if Bit(w, p) then 1 else 0
  {
    assert ShiftFinds(w, p as bv6) by {
      hide ShiftFinds;
      ShiftFindsBit(w, p as bv6);
    }
  }

  // ----- Words as sets of pins -----

  /** The pins whose bit is set in a word. */
  function Pins(w: Word): set<Pin> {
    set p: Pin | Bit(w, p)
  }

  /** How C asks for one bit. */
  lemma MaskedBit(w: Word, p: Pin)
    ensures w & PinMask(p) != 0 <==> p in Pins(w)
  {
    hide Meets, PinMask;
    MeetsIsNonzero(w, PinMask(p));
  }

  /** The other way in which C asks for one bit. */
  lemma ShiftedBit(w: Word, p: Pin)
    ensures ShiftedOut(w, p) == if p in Pins(w) then 1 else 0
  {
    hide Meets, PinMask, ShiftedOut;
    ShiftedOutIsBit(w, p);
  }

  /** The pins in exactly one of two sets. */
  function SymmetricDifference(a: set<Pin>, b: set<Pin>): (c: set<Pin>)
    ensures forall p: Pin :: p in c <==> (p in a) != (p in b)
  {
    (a - b) + (b - a)
  }

  /** C's operators on 32-bit words are the set operations on the pins. */
  lemma PinsOfOr(a: Word, b: Word)
    ensures Pins(a | b) == Pins(a) + Pins(b)
  {
    hide Meets, PinMask;
    forall p: Pin ensures p in Pins(a | b) <==> p in Pins(a) + Pins(b) {
      BitOr(a, b, p);
    }
  }

  lemma PinsOfAnd(a: Word, b: Word)
    ensures Pins(a & b) == Pins(a) * Pins(b)
  {
    hide Meets, PinMask;
    forall p: Pin ensures p in Pins(a & b) <==> p in Pins(a) * Pins(b) {
      BitAnd(a, b, p);
    }
  }

  lemma PinsOfXor(a: Word, b: Word)
    ensures Pins(a ^ b) == SymmetricDifference(Pins(a), Pins(b))
  {
    hide Meets, PinMask;
    forall p: Pin ensures p in Pins(a ^ b) <==> p in SymmetricDifference(Pins(a), Pins(b)) {
      BitXor(a, b, p);
    }
  }

  lemma PinsOfAndNot(a: Word, b: Word)
    ensures Pins(a & !b) == Pins(a) - Pins(b)
  {
    hide Meets, PinMask;
    forall p: Pin ensures p in Pins(a & !b) <==> p in Pins(a) - Pins(b) {
      BitAnd(a, !b, p);
      BitNot(b, p);
    }
  }

  lemma AndCommutes(a: Word, b: Word)
    ensures a & b == b & a
  {
  }

  lemma PinsOfPinMask(p: Pin)
    ensures Pins(PinMask(p)) == {p}
  {
    forall q: Pin ensures q in Pins(PinMask(p)) <==> q in {p} {
      BitOfPinMask(p, q);
    }
  }

  /** A word is true, for C, iff it has a pin. */
  lemma NonzeroHasPins(w: Word)
    ensures w != 0 <==> Pins(w) != {}
  {
    forall p: Pin ensures p !in Pins(0) {
      ZeroHasNoBits(p);
    }
    if Pins(w) == {} {
      PinsInjective(w, 0);
    }
  }

  /** No two words have the same pins. */
  lemma PinsInjective(a: Word, b: Word)
    requires Pins(a) == Pins(b)
    ensures a == b
  {
    forall p: Pin ensures Bit(a, p) <==> Bit(b, p) {
      assert p in Pins(a) <==> p in Pins(b);
    }
    SameBitsMeansEqual(a, b);
  }

  /** Every set of pins is the pins of a word. */
  lemma PinsSurjective(s: set<Pin>) returns (w: Word)
    ensures Pins(w) == s
  {
    if s == {} {
      w := 0;
      forall p: Pin ensures p !in Pins(w) {
        ZeroHasNoBits(p);
      }
    } else {
      var p :| p in s;
      var v := PinsSurjective(s - {p});
      w := v | PinMask(p);
      PinsOfOr(v, PinMask(p));
      PinsOfPinMask(p);
    }
  }
}
