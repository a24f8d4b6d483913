/** The calls on the output register, as sequences of single register accesses: the macros LEDS_ON,
    LEDS_OFF and LEDS_INVERT, the one-pin write behind bsp_board_led_on and bsp_board_led_off, and
    the reads of selected bits behind LED_IS_ON and bsp_board_led_state_get.  The one-pin toggle behind
    bsp_board_led_invert makes the accesses of a LEDS_INVERT of that pin.  Registers and masks are
    sets of pins here; `Words` shows that 32-bit words are exactly those. */
module LedCalls {
  import opened Words

  /** The LED settings of a board header: LEDS_LIST, LEDS_MASK, LEDS_INV_MASK, and
      LEDS_ACTIVE_STATE read as a truth value. */
  datatype Board = Board(ledPins: seq<Pin>, leds: set<Pin>, inverted: set<Pin>, activeState: bool)

  datatype Call =
    | On(mask: set<Pin>)
    | Off(mask: set<Pin>)
    | Invert(mask: set<Pin>)
    | PinWrite(pin: Pin, high: bool)
    | Read(mask: set<Pin>)

  /** The lit view of the output register: the value LED_IS_ON masks. */
  function Lit(b: Board, out: set<Pin>): set<Pin> {
    SymmetricDifference(out, b.inverted)
  }

  /** The register value with a given lit view. */
  function Unlit(b: Board, lit: set<Pin>): (out: set<Pin>)
    ensures Lit(b, out) == lit
  {
    SymmetricDifference(lit, b.inverted)
  }

  /** The bits a call may write.  LEDS_INVERT does not restrict itself to LEDS_MASK. */
  function Footprint(b: Board, call: Call): set<Pin> {
    match call
    case On(m) => m * b.leds
    case Off(m) => m * b.leds
    case Invert(m) => m
    case PinWrite(p, _) => {p}
    case Read(_) => {}
  }

  /** What a call is for.  The macros are described on the lit view: light, darken or flip the
      selected LEDs. */
  function Effect(b: Board, call: Call, out: set<Pin>): set<Pin> {
    match call
    case On(m) => Unlit(b, Lit(b, out) + m * b.leds)
    case Off(m) => Unlit(b, Lit(b, out) - m * b.leds)
    case Invert(m) => Unlit(b, SymmetricDifference(Lit(b, out), m))
    case PinWrite(p, high) => if high then out + {p} else out - {p}
    case Read(_) => out
  }

  /** What a call returns: if it is a read, the bits of OUT that it selects. */
  function Answer(call: Call, out: set<Pin>): seq<set<Pin>> {
    if call.Read? then [call.mask * out] else []
  }

  /** How many separate register accesses a call makes. */
  function Accesses(call: Call): nat {
    match call
    case On(_) => 2
    case Off(_) => 2
    case Invert(_) => 3
    case PinWrite(_, _) => 1
    case Read(_) => 1
  }

  /** The value of OUT after access number `pc` of a call; `snap` is the local copy of OUT that
      LEDS_INVERT takes in its access number 0. */
  function Access(b: Board, call: Call, pc: nat, out: set<Pin>, snap: set<Pin>): set<Pin> {
    match call
    case On(m) =>
      if pc == 0 then out - m * (b.leds * b.inverted) else out + m * (b.leds - b.inverted)
    case Off(m) =>
      if pc == 0 then out + m * (b.leds * b.inverted) else out - m * (b.leds - b.inverted)
    case Invert(m) =>
      if pc == 0 then out else if pc == 1 then out + (m - snap) else out - m * snap
    case PinWrite(p, high) =>
      if high then out + {p} else out - {p}
    case Read(_) =>
      out
  }

  // ----- A call that is not interrupted -----

  /** Run without interruption, the accesses of a call have exactly the effect of the call. */
  lemma AccessesMakeEffect(b: Board, call: Call, out: set<Pin>, snap: set<Pin>)
    ensures call.PinWrite? || call.Read? ==> Access(b, call, 0, out, snap) == Effect(b, call, out)
    ensures call.On? || call.Off? ==> Access(b, call, 1, Access(b, call, 0, out, snap), snap) == Effect(b, call, out)
    ensures call.Invert? ==> Access(b, call, 2, Access(b, call, 1, out, out), out) == Effect(b, call, out)
  {
  }

  /** No access leaves a glitch behind, whatever OUT was when it ran and whoever else writes OUT:
      it changes no pin outside the selected ones, and a selected pin either stays as it was or
      becomes what its call wants. */
  lemma AccessMovesTowardEffect(b: Board, call: Call, pc: nat, out: set<Pin>, snap: set<Pin>, p: Pin)
    requires !call.Invert?
    ensures var after := Access(b, call, pc, out, snap);
            (p in after <==> p in out) || (p in Footprint(b, call) && (p in after <==> p in Effect(b, call, out)))
  {
  }

  /** An access decides each pin alone, and leaves alone every pin outside the footprint. */
  lemma AccessIsLocal(b: Board, call: Call, pc: nat, out: set<Pin>, out': set<Pin>, snap: set<Pin>, snap': set<Pin>, p: Pin)
    requires p in out <==> p in out'
    requires p in snap <==> p in snap'
    ensures p in Access(b, call, pc, out, snap) <==> p in Access(b, call, pc, out', snap')
    ensures p !in Footprint(b, call) ==> (p in Access(b, call, pc, out, snap) <==> p in out)
  {
  }

  lemma EffectIsLocal(b: Board, call: Call, out: set<Pin>, out': set<Pin>, p: Pin)
    requires p in out <==> p in out'
    ensures p in Effect(b, call, out) <==> p in Effect(b, call, out')
    ensures p !in Footprint(b, call) ==> (p in Effect(b, call, out) <==> p in out)
  {
  }
}
