/** The macros of boards.h on the words of the port. */
module LedMacros {
  import opened Words
  import opened LedCalls
  import opened Gpio

  /** The LED settings of a board header, as words. */
  datatype Header = Header(ledsList: seq<Pin>, ledsMask: Word, invMask: Word, activeState: bool) {
    ghost function View(): Board {
      Board(ledsList, Pins(ledsMask), Pins(invMask), activeState)
    }
  }

  /** The written words, as sets of pins. */
  lemma PinsOfInvertedPart(mask: Word, leds: Word, inv: Word)
    ensures Pins(mask & (leds & inv)) == Pins(mask) * (Pins(leds) * Pins(inv))
  {
    PinsOfAnd(mask, leds & inv);
    PinsOfAnd(leds, inv);
  }

  lemma PinsOfDirectPart(mask: Word, leds: Word, inv: Word)
    ensures Pins(mask & (leds & !inv)) == Pins(mask) * (Pins(leds) - Pins(inv))
  {
    PinsOfAnd(mask, leds & !inv);
    PinsOfAndNot(leds, inv);
  }

  lemma PinsOfLitPart(mask: Word, out: Word, inv: Word)
    ensures Pins(mask & (out ^ inv)) == Pins(mask) * SymmetricDifference(Pins(out), Pins(inv))
  {
    PinsOfAnd(mask, out ^ inv);
    PinsOfXor(out, inv);
  }

  /** LEDS_OFF: the selected LEDs go dark, and OUT takes just the one value in between. */
  method LedsOff(h: Header, gpio: Port, mask: Word)
    modifies gpio`OUT, gpio`levels
    ensures gpio.Out() == Effect(h.View(), Off(Pins(mask)), old(gpio.Out()))
    ensures gpio.levels == old(gpio.levels) + [Access(h.View(), Off(Pins(mask)), 0, old(gpio.Out()), {}), gpio.Out()]
  {
    PinsOfInvertedPart(mask, h.ledsMask, h.invMask);
    PinsOfDirectPart(mask, h.ledsMask, h.invMask);
    AccessesMakeEffect(h.View(), Off(Pins(mask)), gpio.Out(), {});
    gpio.OutSet(mask & (h.ledsMask & h.invMask));
    gpio.OutClr(mask & (h.ledsMask & !h.invMask));
  }

  /** LEDS_ON: the selected LEDs are lit, and OUT takes just the one value in between. */
  method LedsOn(h: Header, gpio: Port, mask: Word)
    modifies gpio`OUT, gpio`levels
    ensures gpio.Out() == Effect(h.View(), On(Pins(mask)), old(gpio.Out()))
    ensures gpio.levels == old(gpio.levels) + [Access(h.View(), On(Pins(mask)), 0, old(gpio.Out()), {}), gpio.Out()]
  {
    PinsOfInvertedPart(mask, h.ledsMask, h.invMask);
    PinsOfDirectPart(mask, h.ledsMask, h.invMask);
    AccessesMakeEffect(h.View(), On(Pins(mask)), gpio.Out(), {});
    gpio.OutClr(mask & (h.ledsMask & h.invMask));
    gpio.OutSet(mask & (h.ledsMask & !h.invMask));
  }

  /** LED_IS_ON: the selected pins that are lit; as a truth value, whether there is one. */
  method LedIsOn(h: Header, gpio: Port, mask: Word) returns (r: Word)
    ensures Pins(r) == Pins(mask) * Lit(h.View(), gpio.Out())
    ensures r != 0 <==> Pins(mask) * Lit(h.View(), gpio.Out()) != {}
  {
    r := mask & (gpio.OUT ^ h.invMask);
    PinsOfLitPart(mask, gpio.OUT, h.invMask);
    NonzeroHasPins(r);
  }

  /** LEDS_INVERT: the selected pins are flipped. */
  method LedsInvert(h: Header, gpio: Port, mask: Word)
    modifies gpio`OUT, gpio`levels
    ensures gpio.Out() == Effect(h.View(), Invert(Pins(mask)), old(gpio.Out()))
    ensures gpio.levels == old(gpio.levels) +
              [Access(h.View(), Invert(Pins(mask)), 1, old(gpio.Out()), old(gpio.Out())), gpio.Out()]
  {
    var gpio_state := gpio.OUT;
    PinsOfAndNot(mask, gpio_state);
    PinsOfAnd(mask, gpio_state);
    AccessesMakeEffect(h.View(), Invert(Pins(mask)), gpio.Out(), {});
    gpio.OutSet(mask & !gpio_state);
    gpio.OutClr(mask & gpio_state);
  }

  /** The pins of a set below a bound, in increasing order. */
  ghost function Ascending(s: set<Pin>, n: nat): (r: seq<Pin>)
    requires n <= 32
  {
    if n == 0 then [] else Ascending(s, n - 1) + if n - 1 in s then [n - 1] else []
  }

  /** Each pin of the set comes once, and in increasing order. */
  lemma {:induction false} AscendingListsEachOnce(s: set<Pin>, n: nat)
    requires n <= 32
    ensures forall p: Pin :: p in Ascending(s, n) <==> p in s && p < n
    ensures forall i, j :: 0 <= i < j < |Ascending(s, n)| ==> Ascending(s, n)[i] < Ascending(s, n)[j]
  {
    if n > 0 {
      AscendingListsEachOnce(s, n - 1);
      var rest := Ascending(s, n - 1);
      assert forall i :: 0 <= i < |rest| ==> rest[i] in rest;
    }
  }

  /** LEDS_CONFIGURE: the pins whose bit is set are made outputs, each once, in increasing order, and
      the configuration of the others is as before. */
  method LedsConfigure(gpio: Port, mask: Word)
    requires gpio.Valid()
    modifies gpio.PIN_CNF, gpio`configured, gpio`writesBefore
    ensures gpio.configured == old(gpio.configured) + Ascending(Pins(mask), 32)
    ensures gpio.PIN_CNF[..] == ConfiguredAs(old(gpio.PIN_CNF[..]), Pins(mask))
    ensures gpio.Outputs() == old(gpio.Outputs()) + Pins(mask)
  {
    hide Pins, PinMask;
    var pin := 0;
    while pin < 32
      invariant 0 <= pin <= 32
      invariant gpio.configured == old(gpio.configured) + Ascending(Pins(mask), pin)
      invariant forall p: Pin :: gpio.PIN_CNF[p] == if p in Pins(mask) && p < pin then OUTPUT_CONFIG else old(gpio.PIN_CNF[p])
    {
      MaskedBit(mask, pin);
      ghost var cnf := gpio.PIN_CNF[..];
      if mask & PinMask(pin) != 0 {
        gpio.CfgOutput(pin);
        assert gpio.PIN_CNF[..] == cnf[pin := OUTPUT_CONFIG];
      }
      assert forall p: Pin :: gpio.PIN_CNF[..][p] == if p in Pins(mask) && p == pin then OUTPUT_CONFIG else cnf[p];
      pin := pin + 1;
    }
    assert gpio.PIN_CNF[..] == ConfiguredAs(old(gpio.PIN_CNF[..]), Pins(mask));
    gpio.OutputsAre(old(gpio.PIN_CNF[..]), Pins(mask));
  }
}
