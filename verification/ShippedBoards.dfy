/** What the results say about the board headers of the repository. */
module ShippedBoards {
  import opened Words
  import opened LedCalls
  import opened LitLeds
  import opened LedMacros
  import opened Sequences
  import opened Linearizability
  import opened PairAtomicity
  import opened ConcurrentLeds

  /** The shape of every header: LEDS_MASK holds the pins of LEDS_LIST, and LEDS_INV_MASK is LEDS_MASK
      or 0. */
  function HeaderBoard(pins: seq<Pin>, inverted: bool, activeState: bool): Board {
    var leds := set p | p in pins;
    Board(pins, leds, if inverted then leds else {}, activeState)
  }

  datatype Name =
    | Nrf6310 | Pca10000 | Pca10001 | Pca10003 | Pca10028 | Pca10031 | Pca10036 | Pca10040 | Pca10056
    | Pca20006 | Wt51822 | N5dk1 | D52dk1 | ArduinoPrimo

  /** LEDS_LIST of each header. */
  function LedsList(n: Name): seq<Pin> {
    match n
    case Nrf6310 => [8, 9, 10, 11, 12, 13, 14, 15]
    case Pca10000 | Pca10031 => [21, 22, 23]
    case Pca10001 | Pca10003 => [18, 19]
    case Pca10028 => [21, 22, 23, 24]
    case Pca10036 | Pca10040 => [17, 18, 19, 20]
    case Pca10056 => [13, 14, 15, 16]
    case Pca20006 => [16, 12, 15]
    case Wt51822 => [3, 4, 5]
    case N5dk1 => [8, 3, 15, 30]
    case D52dk1 => [24, 31, 17, 20]
    case ArduinoPrimo => [25]
  }

  /** BSP_LED_0, BSP_LED_1 and so on, as far as the header defines them. */
  function BspLeds(n: Name): seq<Pin> {
    match n
    case Nrf6310 => [8, 9, 10, 11, 12, 13, 14, 15]
    case Pca10000 => [21, 22, 23]
    case Pca10001 => [18, 19]
    case Pca10003 => [18, 19]
    case Pca10028 => [21, 22, 23, 24]
    case Pca10031 => [21, 22, 23]
    case Pca10036 => [17, 18, 19, 20]
    case Pca10040 => [17, 18, 19, 20]
    case Pca10056 => [13, 14, 15, 16]
    case Pca20006 => [16, 12, 15]
    case Wt51822 => [3, 4, 5]
    case N5dk1 => [8, 3, 15, 30]
    case D52dk1 => [24, 31, 17, 20]
    case ArduinoPrimo => [25]
  }

  /** `1 << pin` of all pins, put together; the masks of LEDs that are not defined are 0. */
  function MaskOf(pins: seq<Pin>): Word {
    if pins == [] then 0 else PinMask(pins[0]) | MaskOf(pins[1..])
  }

  /** LEDS_MASK, as boards.h puts it together. */
  function LedsMask(n: Name): Word {
    MaskOf(BspLeds(n))
  }

  /** LEDS_INV_MASK of each header. */
  function LedsInvMask(n: Name): Word {
    match n
    case Nrf6310 | Pca10001 | Pca10003 | ArduinoPrimo => 0
    case _ => LedsMask(n)
  }

  /** LEDS_NUMBER of each header. */
  function LedsNumber(n: Name): nat {
    match n
    case Nrf6310 => 8
    case Pca10000 | Pca10031 | Pca20006 | Wt51822 => 3
    case Pca10001 | Pca10003 => 2
    case ArduinoPrimo => 1
    case _ => 4
  }

  datatype Range = NoRange | Range(start: Pin, stop: Pin)

  /** LED_START and LED_STOP, where the header defines them. */
  function LedRange(n: Name): Range {
    match n
    case Nrf6310 => Range(8, 15)
    case Pca10000 | Pca10031 => Range(21, 23)
    case Pca10001 | Pca10003 => Range(18, 19)
    case Pca10028 => Range(21, 24)
    case Pca10036 | Pca10040 => Range(17, 20)
    case _ => NoRange
  }

  /** LEDS_ACTIVE_STATE. */
  predicate ActiveState(n: Name) {
    n.Nrf6310? || n.Pca10001? || n.Pca10003? || n.Pca10031?
  }

  function HeaderOf(n: Name): Header {
    Header(LedsList(n), LedsMask(n), LedsInvMask(n), ActiveState(n))
  }

  ghost function Shipped(n: Name): Board {
    HeaderOf(n).View()
  }

  // ----- The tables of a header agree with each other -----

  lemma PinsOfMaskTail(pins: seq<Pin>)
    ensures Pins(MaskOf(pins)) == if pins == [] then {} else {pins[0]} + Pins(MaskOf(pins[1..]))
  {
    hide Pins, PinMask;
    if pins == [] {
      NonzeroHasPins(0);
    } else {
      PinsOfOr(PinMask(pins[0]), MaskOf(pins[1..]));
      PinsOfPinMask(pins[0]);
    }
  }

  /** A mask has exactly the pins it is put together from. */
  lemma {:induction false} PinsOfMask(pins: seq<Pin>)
    ensures Pins(MaskOf(pins)) == set p | p in pins
    decreases |pins|
  {
    hide Pins, PinMask, MaskOf;
    PinsOfMaskTail(pins);
    if pins != [] {
      PinsOfMask(pins[1..]);
      assert pins == [pins[0]] + pins[1..];
    }
  }

  /** LEDS_LIST, BSP_LED_n, LEDS_NUMBER, LED_START and LED_STOP say the same of every header: LED
      number i is BSP_LED_i, there are LEDS_NUMBER of them, and where there is a range they are its pins
      in order.  The pins of the other headers are in no such order. */
  lemma TablesAgree(n: Name)
    ensures LedsList(n) == BspLeds(n) && |LedsList(n)| == LedsNumber(n) > 0 && Distinct(LedsList(n))
    ensures LedRange(n).Range? ==>
              && LedRange(n).stop - LedRange(n).start + 1 == LedsNumber(n)
              && forall i :: 0 <= i < |LedsList(n)| ==> LedsList(n)[i] == LedRange(n).start + i
    ensures n.Pca10056? ==> LedsList(n) == [13, 14, 15, 16]
    ensures n.Pca20006? ==> LedsList(n) == [16, 12, 15]
    ensures n.Wt51822? ==> LedsList(n) == [3, 4, 5]
    ensures n.N5dk1? ==> LedsList(n) == [8, 3, 15, 30]
    ensures n.D52dk1? ==> LedsList(n) == [24, 31, 17, 20]
    ensures n.ArduinoPrimo? ==> LedsList(n) == [25]
  {
  }

  /** LEDS_MASK is the pins of LEDS_LIST, and LEDS_INV_MASK is all or none of them. */
  lemma ShippedIsHeaderBoard(n: Name)
    ensures Shipped(n) == HeaderBoard(LedsList(n), !(n.Nrf6310? || n.Pca10001? || n.Pca10003? || n.ArduinoPrimo?), ActiveState(n))
    ensures Shipped(n).leds == LedPins(Shipped(n))
  {
    hide Pins, MaskOf;
    PinsOfMask(BspLeds(n));
    TablesAgree(n);
    NonzeroHasPins(0);
  }

  /** Which level lights the LEDs of a board: high on four boards for the index API, and on four for the
      macros, low on all others. */
  lemma LightingLevels(n: Name, out: set<Pin>, i: Index)
    requires i < |LedsList(n)|
    ensures i in Reported(Shipped(n), out) <==>
            (LedsList(n)[i] in out <==> n.Nrf6310? || n.Pca10001? || n.Pca10003? || n.Pca10031?)
    ensures LedsList(n)[i] in Lit(Shipped(n), out) <==>
            (LedsList(n)[i] in out <==> n.Nrf6310? || n.Pca10001? || n.Pca10003? || n.ArduinoPrimo?)
  {
    hide LedsList;
    ShippedIsHeaderBoard(n);
    assert i in Reported(Shipped(n), out) <==> ReportsLit(Shipped(n), out, i);
  }

  /** For a header of this shape: the mask calls are always linearizable, and the two APIs agree over
      every run iff the two polarity settings match. */
  lemma HeaderBoardExact(pins: seq<Pin>, inverted: bool, activeState: bool)
    requires pins != [] && DistinctPins(HeaderBoard(pins, inverted, activeState))
    ensures OnOffLinearizable(HeaderBoard(pins, inverted, activeState))
    ensures TogglesLinearizable(HeaderBoard(pins, inverted, activeState))
    ensures AlwaysRefines(HeaderBoard(pins, inverted, activeState)) <==> inverted != activeState
    ensures BulkAgrees(HeaderBoard(pins, inverted, activeState), true) <==> inverted != activeState
    ensures LinearizableSet(HeaderBoard(pins, inverted, activeState)) <==> inverted != activeState
  {
    var b := HeaderBoard(pins, inverted, activeState);
    OnOffLinearizableExact(b);
    RefinementExact(b);
    LinearizableSetExact(b);
    BulkAgreesExact(b, true);
    assert b.ledPins[0] in b.leds;
  }

  /** LEDS_ON, LEDS_OFF, one-pin writes and reads are safe to interleave on every shipped board, and so
      are toggles of every LED from one context.  The mask macros and the index API agree on what is lit,
      and the LEDs are a linearizable set, on all boards but
      two, the PCA10031 and the Arduino Primo. */
  lemma ShippedBoardsExact(n: Name)
    ensures OnOffLinearizable(Shipped(n)) && TogglesLinearizable(Shipped(n))
    ensures AlwaysRefines(Shipped(n)) <==> !n.Pca10031? && !n.ArduinoPrimo?
    ensures LinearizableSet(Shipped(n)) <==> !n.Pca10031? && !n.ArduinoPrimo?
  {
    TablesAgree(n);
    ShippedIsHeaderBoard(n);
    HeaderBoardExact(LedsList(n), !(n.Nrf6310? || n.Pca10001? || n.Pca10003? || n.ArduinoPrimo?), ActiveState(n));
  }
}
