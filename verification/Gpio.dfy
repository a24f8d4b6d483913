/** The GPIO port as the LED code sees it. */
module Gpio {
  import opened Words

  /** The value nrf_gpio_cfg puts together for PIN_CNF, each setting at its place. */
  function Configuration(dir: Word, input: Word, pull: Word, drive: Word, sense: Word): Word {
    (dir << 0) | (input << 1) | (pull << 2) | (drive << 8) | (sense << 16)
  }

  /** Every setting can be read back from its place, as long as it fits there. */
  lemma ConfigurationFields(dir: Word, input: Word, pull: Word, drive: Word, sense: Word)
    requires dir <= 1 && input <= 1 && pull <= 3 && drive <= 7 && sense <= 3
    ensures var w := Configuration(dir, input, pull, drive, sense);
            && w & 0x1 == dir && (w >> 1) & 0x1 == input && (w >> 2) & 0x3 == pull
            && (w >> 8) & 0x7 == drive && (w >> 16) & 0x3 == sense
            && w & 0xFFFC_F8F0 == 0
  {
  }

  /** An output without input buffer, pull-up, strong drive or sensing. */
  const OUTPUT_CONFIG: Word := 0x3

  lemma OutputConfiguration()
    ensures Configuration(1, 1, 0, 0, 0) == OUTPUT_CONFIG
    ensures Bit(OUTPUT_CONFIG, 0)
  {
  }

  /** The words that nrf_gpio_pin_toggle writes, as sets of pins. */
  lemma ToggleParts(state: Word, p: Pin)
    ensures Pins(!state & PinMask(p)) == {p} - Pins(state)
    ensures Pins(state & PinMask(p)) == {p} * Pins(state)
  {
    hide Pins, PinMask;
    PinsOfPinMask(p);
    PinsOfAnd(state, PinMask(p));
    PinsOfAndNot(PinMask(p), state);
    AndCommutes(!state, PinMask(p));
  }

  /** The registers of NRF_GPIO that the LED code uses.  `levels` records the value of OUT after every
      write, `configured` the pins passed to nrf_gpio_cfg_output, in order, and `writesBefore` how
      many writes OUT had seen each time. */
  class Port {
    var OUT: Word
    const PIN_CNF: array<Word>
    ghost var levels: seq<set<Pin>>
    ghost var configured: seq<Pin>
    ghost var writesBefore: seq<nat>

    ghost predicate Valid() {
      PIN_CNF.Length == 32
    }

    constructor (out: Word, pinCnf: array<Word>)
      requires pinCnf.Length == 32
      ensures Valid() && OUT == out && PIN_CNF == pinCnf && levels == [] && configured == [] && writesBefore == []
    {
      OUT, PIN_CNF := out, pinCnf;
      levels, configured, writesBefore := [], [], [];
    }

    ghost function Out(): set<Pin>
      reads `OUT
    {
      Pins(OUT)
    }

    /** The pins that are outputs: bit 0 of PIN_CNF is the direction. */
    ghost function Outputs(): set<Pin>
      requires Valid()
      reads PIN_CNF
    {
      OutputsOf(PIN_CNF[..])
    }

    lemma OutputsAre(before: seq<Word>, pins: set<Pin>)
      requires Valid() && |before| == 32
      requires PIN_CNF[..] == ConfiguredAs(before, pins)
      ensures Outputs() == OutputsOf(before) + pins
    {
      hide Bit;
      OutputConfiguration();
      assert forall p: Pin :: PIN_CNF[p] == PIN_CNF[..][p];
    }

    /** A write to OUTSET: a one sets the bit, a zero has no effect. */
    method OutSet(w: Word)
      modifies `OUT, `levels
      ensures Out() == old(Out()) + Pins(w)
      ensures levels == old(levels) + [Out()]
    {
      PinsOfOr(OUT, w);
      OUT := OUT | w;
      levels := levels + [Out()];
    }

    /** A write to OUTCLR: a one clears the bit, a zero has no effect. */
    method OutClr(w: Word)
      modifies `OUT, `levels
      ensures Out() == old(Out()) - Pins(w)
      ensures levels == old(levels) + [Out()]
    {
      PinsOfAndNot(OUT, w);
      OUT := OUT & !w;
      levels := levels + [Out()];
    }

    /** nrf_gpio_pin_set. */
    method PinSet(p: Pin)
      modifies `OUT, `levels
      ensures Out() == old(Out()) + {p}
      ensures levels == old(levels) + [Out()]
    {
      PinsOfPinMask(p);
      OutSet(PinMask(p));
    }

    /** nrf_gpio_pin_clear. */
    method PinClear(p: Pin)
      modifies `OUT, `levels
      ensures Out() == old(Out()) - {p}
      ensures levels == old(levels) + [Out()]
    {
      PinsOfPinMask(p);
      OutClr(PinMask(p));
    }

    /** nrf_gpio_pin_write: one write, which changes at most the one pin. */
    method PinWrite(p: Pin, value: bool)
      modifies `OUT, `levels
      ensures Out() == if value then old(Out()) + {p} else old(Out()) - {p}
      ensures levels == old(levels) + [Out()]
    {
      if !value {
        PinClear(p);
      } else {
        PinSet(p);
      }
    }

    /** nrf_gpio_pin_toggle: a read and two writes; of the two, the one that has nothing to do leaves
        OUT as it is. */
    method PinToggle(p: Pin)
      modifies `OUT, `levels
      ensures Out() == SymmetricDifference(old(Out()), {p})
      ensures levels == old(levels) + [old(Out()) + {p}, Out()]
    {
      hide Pins, PinMask;
      var pins_state := OUT;
      ToggleParts(pins_state, p);
      OutSet(!pins_state & PinMask(p));
      assert Out() == old(Out()) + {p};
      OutClr(pins_state & PinMask(p));
    }

    /** nrf_gpio_pin_out_read. */
    method PinOutRead(p: Pin) returns (value: Word)
      ensures value == if p in Out() then 1 else 0
    {
      hide Pins, ShiftedOut;
      ShiftedBit(OUT, p);
      value := ShiftedOut(OUT, p);
    }

    /** nrf_gpio_cfg. */
    method Cfg(p: Pin, dir: Word, input: Word, pull: Word, drive: Word, sense: Word)
      requires Valid()
      modifies PIN_CNF
      ensures PIN_CNF[..] == old(PIN_CNF[..])[p := Configuration(dir, input, pull, drive, sense)]
    {
      PIN_CNF[p] := Configuration(dir, input, pull, drive, sense);
    }

    /** nrf_gpio_cfg_output: it makes one pin an output and leaves OUT alone. */
    method CfgOutput(p: Pin)
      requires Valid()
      modifies PIN_CNF, `configured, `writesBefore
      ensures PIN_CNF[..] == old(PIN_CNF[..])[p := 0x3]
      ensures configured == old(configured) + [p]
      ensures writesBefore == old(writesBefore) + [|levels|]
    {
      OutputConfiguration();
      Cfg(p, 1, 1, 0, 0, 0);
      configured := configured + [p];
      writesBefore := writesBefore + [|levels|];
    }
  }

  ghost function OutputsOf(pinCnf: seq<Word>): set<Pin>
    requires |pinCnf| == 32
  {
    set p: Pin | Bit(pinCnf[p], 0)
  }

  /** PIN_CNF after these pins were made outputs. */
  ghost function ConfiguredAs(pinCnf: seq<Word>, pins: set<Pin>): (r: seq<Word>)
    requires |pinCnf| == 32
    ensures |r| == 32 && forall p: Pin :: r[p] == if p in pins then OUTPUT_CONFIG else pinCnf[p]
  {
    seq(32, i requires 0 <= i < 32 => if i in pins then OUTPUT_CONFIG else pinCnf[i])
  }

  lemma ConfigureOneMore(pinCnf: seq<Word>, pins: set<Pin>, p: Pin)
    requires |pinCnf| == 32
    ensures ConfiguredAs(pinCnf, pins)[p := OUTPUT_CONFIG] == ConfiguredAs(pinCnf, pins + {p})
  {
  }

  /** Two sets of pins have the same effect on every configuration only if they are the same. */
  lemma ConfiguredAsInjective(pins: set<Pin>, pins': set<Pin>)
    ensures (forall pinCnf: seq<Word> :: |pinCnf| == 32 ==> ConfiguredAs(pinCnf, pins) == ConfiguredAs(pinCnf, pins')) <==> pins == pins'
  {
    var inputs := seq(32, i => 0 as Word);
    if ConfiguredAs(inputs, pins) == ConfiguredAs(inputs, pins') {
      forall p: Pin ensures p in pins <==> p in pins' {
        assert ConfiguredAs(inputs, pins)[p] == ConfiguredAs(inputs, pins')[p];
        assert inputs[p] == 0;
      }
      assert pins == pins';
    }
  }
}
