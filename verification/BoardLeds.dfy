/** The LED functions of boards.c. */
module BoardLeds {
  import opened Words
  import opened LedCalls
  import opened Interleaving
  import opened Uninterrupted
  import opened LitLeds
  import opened BulkInterrupts
  import opened Gpio
  import opened LedMacros

  method LedStateGet(h: Header, gpio: Port, idx: nat) returns (lit: bool)
    requires idx < |h.ledsList|
    ensures lit <==> idx in Reported(h.View(), gpio.Out())
  {
    var value := gpio.PinOutRead(h.ledsList[idx]);
    var pin_set := value != 0;
    return pin_set == h.activeState;
  }

  method LedOn(h: Header, gpio: Port, idx: nat)
    requires idx < |h.ledsList|
    modifies gpio`OUT, gpio`levels
    ensures gpio.Out() == Exec(h.View(), old(gpio.Out()), Op.LedOn(idx))
    ensures gpio.levels == old(gpio.levels) + [gpio.Out()]
  {
    gpio.PinWrite(h.ledsList[idx], h.activeState);
  }

  method LedOff(h: Header, gpio: Port, idx: nat)
    requires idx < |h.ledsList|
    modifies gpio`OUT, gpio`levels
    ensures gpio.Out() == Exec(h.View(), old(gpio.Out()), Op.LedOff(idx))
    ensures gpio.levels == old(gpio.levels) + [gpio.Out()]
  {
    gpio.PinWrite(h.ledsList[idx], !h.activeState);
  }

  /** A toggle is the LEDS_INVERT of one pin, access by access. */
  method LedInvert(h: Header, gpio: Port, idx: nat)
    requires idx < |h.ledsList|
    modifies gpio`OUT, gpio`levels
    ensures gpio.Out() == Exec(h.View(), old(gpio.Out()), Op.LedInvert(idx))
    ensures gpio.levels == old(gpio.levels) +
              [Access(h.View(), Invert({h.ledsList[idx]}), 1, old(gpio.Out()), old(gpio.Out())), gpio.Out()]
  {
    gpio.PinToggle(h.ledsList[idx]);
    ghost var out, p := old(gpio.Out()), h.ledsList[idx];
    assert out + {p} == Access(h.View(), Invert({p}), 1, out, out);
  }

  /** One more round of a bulk function. */
  lemma NextRound(b: Board, out: set<Pin>, n: nat, lit: bool)
    requires n < |b.ledPins|
    ensures WriteLeds(b, out, 0, lit) == out
    ensures WriteLeds(b, out, n + 1, lit) == Exec(b, WriteLeds(b, out, n, lit), if lit then Op.LedOn(n) else Op.LedOff(n))
  {
  }

  lemma AllRounds(b: Board, out: set<Pin>, lit: bool)
    ensures WriteLeds(b, out, 0, lit) == out
    ensures WriteLeds(b, out, |b.ledPins|, lit) == Exec(b, out, if lit then Op.LedsOn else Op.LedsOff)
  {
  }

  /** What OUT was after each round of a bulk function. */
  lemma BulkHistory(b: Board, out: set<Pin>, lit: bool, history: seq<set<Pin>>)
    requires |history| <= |b.ledPins|
    requires forall k :: 0 <= k < |history| ==> history[k] == WriteLeds(b, out, k + 1, lit)
    ensures forall k :: 0 <= k < |history| ==> history[k] == Run(b, Start(out, [BulkCalls(b, lit)]), Repeat(0, k + 1)).out
    ensures forall k, p: Pin {:trigger p in history[k]} :: 0 <= k < |history| ==>
              (p in history[k] <==> if p in b.ledPins[..k + 1] then lit == b.activeState else p in out)
  {
    forall k | 0 <= k < |history| ensures history[k] == Run(b, Start(out, [BulkCalls(b, lit)]), Repeat(0, k + 1)).out {
      BulkLevel(b, lit, k + 1, out);
    }
    forall k, p: Pin | 0 <= k < |history|
      ensures p in history[k] <==> if p in b.ledPins[..k + 1] then lit == b.activeState else p in out
    {
      WriteLedsOnPin(b, out, k + 1, lit, p);
    }
  }

  /** OUT takes exactly one value per LED: each is that after one more register access of the bulk
      function on the machine, and each has the pins up to that LED dark and all others as before. */
  method AllLedsOff(h: Header, gpio: Port)
    modifies gpio`OUT, gpio`levels
    ensures gpio.Out() == Exec(h.View(), old(gpio.Out()), Op.LedsOff)
    ensures old(gpio.levels) <= gpio.levels
    ensures var added := gpio.levels[|old(gpio.levels)|..];
            && |added| == |h.ledsList|
            && (forall k :: 0 <= k < |added| ==>
                 added[k] == Run(h.View(), Start(old(gpio.Out()), [BulkCalls(h.View(), false)]), Repeat(0, k + 1)).out)
            && (forall k, p: Pin {:trigger p in added[k]} :: 0 <= k < |added| ==>
                 (p in added[k] <==> if p in h.ledsList[..k + 1] then !h.activeState else p in old(gpio.Out())))
  {
    hide WriteLeds, Exec, Run, Repeat, Start, BulkCalls, Pins;
    ghost var before, out := gpio.levels, gpio.Out();
    ghost var added: seq<set<Pin>> := [];
    AllRounds(h.View(), out, false);
    var i := 0;
    while i < |h.ledsList|
      invariant i == |added| <= |h.ledsList|
      invariant gpio.levels == before + added
      invariant forall k :: 0 <= k < i ==> added[k] == WriteLeds(h.View(), out, k + 1, false)
      invariant gpio.Out() == WriteLeds(h.View(), out, i, false)
    {
      NextRound(h.View(), out, i, false);
      LedOff(h, gpio, i);
      added := added + [gpio.Out()];
      i := i + 1;
    }
    BulkHistory(h.View(), out, false, added);
    assert gpio.levels[|before|..] == added;
  }

  /** OUT takes exactly one value per LED: each is that after one more register access of the bulk
      function on the machine, and each has the pins up to that LED lit and all others as before. */
  method AllLedsOn(h: Header, gpio: Port)
    modifies gpio`OUT, gpio`levels
    ensures gpio.Out() == Exec(h.View(), old(gpio.Out()), Op.LedsOn)
    ensures old(gpio.levels) <= gpio.levels
    ensures var added := gpio.levels[|old(gpio.levels)|..];
            && |added| == |h.ledsList|
            && (forall k :: 0 <= k < |added| ==>
                 added[k] == Run(h.View(), Start(old(gpio.Out()), [BulkCalls(h.View(), true)]), Repeat(0, k + 1)).out)
            && (forall k, p: Pin {:trigger p in added[k]} :: 0 <= k < |added| ==>
                 (p in added[k] <==> if p in h.ledsList[..k + 1] then h.activeState else p in old(gpio.Out())))
  {
    hide WriteLeds, Exec, Run, Repeat, Start, BulkCalls, Pins;
    ghost var before, out := gpio.levels, gpio.Out();
    ghost var added: seq<set<Pin>> := [];
    AllRounds(h.View(), out, true);
    var i := 0;
    while i < |h.ledsList|
      invariant i == |added| <= |h.ledsList|
      invariant gpio.levels == before + added
      invariant forall k :: 0 <= k < i ==> added[k] == WriteLeds(h.View(), out, k + 1, true)
      invariant gpio.Out() == WriteLeds(h.View(), out, i, true)
    {
      NextRound(h.View(), out, i, true);
      LedOn(h, gpio, i);
      added := added + [gpio.Out()];
      i := i + 1;
    }
    BulkHistory(h.View(), out, true, added);
    assert gpio.levels[|before|..] == added;
  }

  /** The first `n` pins of a list. */
  ghost function Listed(list: seq<Pin>, n: nat): set<Pin>
    requires n <= |list|
  {
    set p | p in list[..n]
  }

  /** bsp_board_leds_init: first every listed pin is made an output, then every LED is switched off, one
      write each, and that is all; no other pin changes its configuration or its level, and no LED
      that was dark is lit on the way. */
  method LedsInit(h: Header, gpio: Port)
    requires gpio.Valid()
    modifies gpio`OUT, gpio`levels, gpio.PIN_CNF, gpio`configured, gpio`writesBefore
    ensures gpio.PIN_CNF[..] == ConfiguredAs(old(gpio.PIN_CNF[..]), LedPins(h.View()))
    ensures gpio.Outputs() == old(gpio.Outputs()) + LedPins(h.View())
    ensures gpio.configured == old(gpio.configured) + h.ledsList
    ensures Reported(h.View(), gpio.Out()) == {}
    ensures gpio.Out() - LedPins(h.View()) == old(gpio.Out()) - LedPins(h.View())
    ensures gpio.writesBefore == old(gpio.writesBefore) + seq(|h.ledsList|, _ => |old(gpio.levels)|)
    ensures old(gpio.levels) <= gpio.levels
    ensures var added := gpio.levels[|old(gpio.levels)|..];
            && |added| == |h.ledsList|
            && (forall k :: 0 <= k < |added| ==>
                 added[k] == Run(h.View(), Start(old(gpio.Out()), [BulkCalls(h.View(), false)]), Repeat(0, k + 1)).out)
            && (forall k, p: Pin {:trigger p in added[k]} :: 0 <= k < |added| ==>
                 (p in added[k] <==> if p in h.ledsList[..k + 1] then !h.activeState else p in old(gpio.Out())))
    ensures forall k :: |old(gpio.levels)| <= k < |gpio.levels| ==>
              Reported(h.View(), gpio.levels[k]) <= Reported(h.View(), old(gpio.Out()))
  {
    hide WriteLeds, Exec, Run, Repeat, Start, BulkCalls, Pins, Reported, OutputsOf;
    var i := 0;
    assert ConfiguredAs(gpio.PIN_CNF[..], {}) == gpio.PIN_CNF[..];
    while i < |h.ledsList|
      invariant i <= |h.ledsList|
      invariant gpio.configured == old(gpio.configured) + h.ledsList[..i]
      invariant gpio.PIN_CNF[..] == ConfiguredAs(old(gpio.PIN_CNF[..]), Listed(h.ledsList, i))
      invariant gpio.writesBefore == old(gpio.writesBefore) + seq(i, _ => |old(gpio.levels)|)
      invariant gpio.levels == old(gpio.levels) && gpio.Out() == old(gpio.Out())
    {
      gpio.CfgOutput(h.ledsList[i]);
      ConfigureOneMore(old(gpio.PIN_CNF[..]), Listed(h.ledsList, i), h.ledsList[i]);
      assert h.ledsList[..i + 1] == h.ledsList[..i] + [h.ledsList[i]];
      assert Listed(h.ledsList, i + 1) == Listed(h.ledsList, i) + {h.ledsList[i]};
      i := i + 1;
    }
    assert h.ledsList[..i] == h.ledsList;
    gpio.OutputsAre(old(gpio.PIN_CNF[..]), LedPins(h.View()));
    AllLedsOff(h, gpio);
    AfterAllOff(h.View(), old(gpio.Out()));
    ghost var added := gpio.levels[|old(gpio.levels)|..];
    NoneIsLit(h.View(), old(gpio.Out()), added);
    assert forall k :: |old(gpio.levels)| <= k < |gpio.levels| ==> gpio.levels[k] == added[k - |old(gpio.levels)|];
  }

  /** While LEDs are switched off one after the other, none of them is lit. */
  lemma NoneIsLit(b: Board, out: set<Pin>, history: seq<set<Pin>>)
    requires |history| <= |b.ledPins|
    requires forall k, p: Pin {:trigger p in history[k]} :: 0 <= k < |history| ==>
               (p in history[k] <==> if p in b.ledPins[..k + 1] then !b.activeState else p in out)
    ensures forall k :: 0 <= k < |history| ==> Reported(b, history[k]) <= Reported(b, out)
  {
    forall k, i | 0 <= k < |history| && i in Reported(b, history[k]) ensures i in Reported(b, out) {
      var p: Pin := b.ledPins[i];
      assert p in history[k] <==> if p in b.ledPins[..k + 1] then !b.activeState else p in out;
    }
  }

  /** LEDS_CONFIGURE(LEDS_MASK) configures as bsp_board_leds_init does, whatever PIN_CNF was, exactly on
      the boards whose LEDS_MASK is the pins of LEDS_LIST. */
  lemma ConfigureAgreesExact(b: Board)
    ensures (forall pinCnf: seq<Word> :: |pinCnf| == 32 ==> ConfiguredAs(pinCnf, b.leds) == ConfiguredAs(pinCnf, LedPins(b)))
            <==> b.leds == LedPins(b)
  {
    ConfiguredAsInjective(b.leds, LedPins(b));
  }

  /** After bsp_board_leds_off nothing is lit, even where two LEDs share a pin. */
  lemma AfterAllOff(b: Board, out: set<Pin>)
    ensures Reported(b, Exec(b, out, Op.LedsOff)) == {}
    ensures Exec(b, out, Op.LedsOff) - LedPins(b) == out - LedPins(b)
  {
    forall p: Pin
      ensures p in Exec(b, out, Op.LedsOff) <==> if p in LedPins(b) then !b.activeState else p in out
    {
      BulkOnPin(b, out, false, p);
    }
  }
}
