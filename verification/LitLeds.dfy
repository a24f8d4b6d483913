/** The LED index API of boards.c and the mask macros of boards.h, both seen as operations on one
    abstract set: the indices of the LEDs that are lit. */
module LitLeds {
  import opened Words
  import opened LedCalls
  import opened Sequences

  type Index = nat

  /** The operations of the two APIs. */
  datatype Op =
    | LedOn(i: Index)
    | LedOff(i: Index)
    | LedInvert(i: Index)
    | LedStateGet(i: Index)
    | LedsOn
    | LedsOff
    | Macro(call: Call)
    | LedIsOn(mask: set<Pin>)

  /** What the ASSERTs of boards.c and the kinds of macro allow. */
  predicate ValidOp(b: Board, op: Op) {
    match op
    case LedOn(i) => i < |b.ledPins|
    case LedOff(i) => i < |b.ledPins|
    case LedInvert(i) => i < |b.ledPins|
    case LedStateGet(i) => i < |b.ledPins|
    case Macro(call) => call.On? || call.Off? || call.Invert?
    case _ => true
  }

  /** All but the bulk functions of boards.c, which loop over the others. */
  predicate IsSingleCall(op: Op) {
    !op.LedsOn? && !op.LedsOff?
  }

  // ----- What the code does to OUT -----

  /** The call on the output register that an operation makes. */
  function CallOf(b: Board, op: Op): Call
    requires ValidOp(b, op) && IsSingleCall(op)
  {
    match op
    case LedOn(i) => PinWrite(b.ledPins[i], b.activeState)
    case LedOff(i) => PinWrite(b.ledPins[i], !b.activeState)
    case LedInvert(i) => Invert({b.ledPins[i]})
    case LedStateGet(i) => Read({b.ledPins[i]})
    case Macro(call) => call
    case LedIsOn(m) => Read(m)
  }

  /** The first `n` rounds of the loops of bsp_board_leds_on and bsp_board_leds_off. */
  function WriteLeds(b: Board, out: set<Pin>, n: nat, lit: bool): set<Pin>
    requires n <= |b.ledPins|
  {
    if n == 0 then out else Effect(b, CallOf(b, WriteLed(n - 1, lit)), WriteLeds(b, out, n - 1, lit))
  }

  /** bsp_board_led_on for `lit`, bsp_board_led_off otherwise. */
  function WriteLed(i: Index, lit: bool): Op {
    if lit then LedOn(i) else LedOff(i)
  }

  /** What an operation does to OUT if nobody interrupts it. */
  function Exec(b: Board, out: set<Pin>, op: Op): set<Pin>
    requires ValidOp(b, op)
  {
    match op
    case LedsOn => WriteLeds(b, out, |b.ledPins|, true)
    case LedsOff => WriteLeds(b, out, |b.ledPins|, false)
    case _ => Effect(b, CallOf(b, op), out)
  }

  function ExecAll(b: Board, out: set<Pin>, ops: seq<Op>): set<Pin>
    requires forall op :: op in ops ==> ValidOp(b, op)
    decreases |ops|
  {
    if ops == [] then out else ExecAll(b, Exec(b, out, ops[0]), ops[1..])
  }

  /** bsp_board_led_state_get. */
  predicate ReportsLit(b: Board, out: set<Pin>, i: Index)
    requires i < |b.ledPins|
  {
    (b.ledPins[i] in out) == b.activeState
  }

  function Reported(b: Board, out: set<Pin>): set<Index> {
    set i | 0 <= i < |b.ledPins| && ReportsLit(b, out, i)
  }

  // ----- What the operations mean -----

  /** The LEDs a mask selects. */
  function Selected(b: Board, mask: set<Pin>): set<Index> {
    set i | 0 <= i < |b.ledPins| && b.ledPins[i] in mask
  }

  /** LEDS_LIST as a set. */
  function LedPins(b: Board): set<Pin> {
    set p | p in b.ledPins
  }

  function AllLeds(b: Board): set<Index> {
    Selected(b, LedPins(b))
  }

  function Flip(lit: set<Index>, which: set<Index>): set<Index> {
    (lit - which) + (which - lit)
  }

  function Meaning(b: Board, lit: set<Index>, op: Op): set<Index> {
    match op
    case LedOn(i) => lit + {i}
    case LedOff(i) => lit - {i}
    case LedInvert(i) => Flip(lit, {i})
    case LedStateGet(_) => lit
    case LedsOn => AllLeds(b)
    case LedsOff => {}
    case Macro(On(m)) => lit + Selected(b, m)
    case Macro(Off(m)) => lit - Selected(b, m)
    case Macro(Invert(m)) => Flip(lit, Selected(b, m))
    case Macro(_) => lit
    case LedIsOn(_) => lit
  }

  /** The LEDs that an operation toggles. */
  function Toggled(b: Board, op: Op): set<Index> {
    match op
    case LedInvert(i) => {i}
    case Macro(Invert(m)) => Selected(b, m)
    case _ => {}
  }

  function MeaningAll(b: Board, lit: set<Index>, ops: seq<Op>): set<Index>
    decreases |ops|
  {
    if ops == [] then lit else MeaningAll(b, Meaning(b, lit, ops[0]), ops[1..])
  }

  /** On every run of the two APIs, from every OUT, the LEDs reported lit are the abstract set. */
  ghost predicate AlwaysRefines(b: Board) {
    forall out: set<Pin>, ops: seq<Op> :: (forall op :: op in ops ==> ValidOp(b, op)) ==>
      Reported(b, ExecAll(b, out, ops)) == MeaningAll(b, Reported(b, out), ops)
  }

  // ----- The board settings that make it so -----

  predicate DistinctPins(b: Board) {
    Distinct(b.ledPins)
  }

  /** The macros and the index API agree on what is lit on this pin. */
  predicate CoherentAt(b: Board, p: Pin) {
    p in b.inverted <==> !b.activeState
  }

  /** Every LED of LEDS_LIST is in LEDS_MASK, with matching polarity. */
  predicate CoherentLeds(b: Board) {
    forall i :: 0 <= i < |b.ledPins| ==> b.ledPins[i] in b.leds && CoherentAt(b, b.ledPins[i])
  }

  // ----- Sufficient -----

  lemma {:induction false} WriteLedsOnPin(b: Board, out: set<Pin>, n: nat, lit: bool, p: Pin)
    requires n <= |b.ledPins|
    ensures p in WriteLeds(b, out, n, lit) <==> if p in b.ledPins[..n] then lit == b.activeState else p in out
  {
    if n > 0 {
      WriteLedsOnPin(b, out, n - 1, lit, p);
      assert b.ledPins[..n] == b.ledPins[..n - 1] + [b.ledPins[n - 1]];
    }
  }

  /** One operation, on one LED. */
  lemma ExecRefinesOnLed(b: Board, out: set<Pin>, op: Op, i: Index)
    requires DistinctPins(b) && CoherentLeds(b) && ValidOp(b, op) && i < |b.ledPins|
    ensures i in Reported(b, Exec(b, out, op)) <==> i in Meaning(b, Reported(b, out), op)
  {
    match op
    case LedsOn => WriteLedsOnPin(b, out, |b.ledPins|, true, b.ledPins[i]);
    case LedsOff => WriteLedsOnPin(b, out, |b.ledPins|, false, b.ledPins[i]);
    case _ =>
  }

  lemma MeaningInRange(b: Board, lit: set<Index>, op: Op)
    requires ValidOp(b, op) && lit <= AllLeds(b)
    ensures Meaning(b, lit, op) <= AllLeds(b)
  {
  }

  lemma ExecRefines(b: Board, out: set<Pin>, op: Op)
    requires DistinctPins(b) && CoherentLeds(b) && ValidOp(b, op)
    ensures Reported(b, Exec(b, out, op)) == Meaning(b, Reported(b, out), op)
  {
    MeaningInRange(b, Reported(b, out), op);
    forall i | i in AllLeds(b)
      ensures i in Reported(b, Exec(b, out, op)) <==> i in Meaning(b, Reported(b, out), op)
    {
      ExecRefinesOnLed(b, out, op, i);
    }
  }

  lemma {:induction false} ExecAllRefines(b: Board, out: set<Pin>, ops: seq<Op>)
    requires DistinctPins(b) && CoherentLeds(b) && forall op :: op in ops ==> ValidOp(b, op)
    ensures Reported(b, ExecAll(b, out, ops)) == MeaningAll(b, Reported(b, out), ops)
    decreases |ops|
  {
    if ops != [] {
      ExecRefines(b, out, ops[0]);
      ExecAllRefines(b, Exec(b, out, ops[0]), ops[1..]);
    }
  }

  // ----- Necessary -----

  lemma OneOp(b: Board, out: set<Pin>, op: Op)
    requires AlwaysRefines(b) && ValidOp(b, op)
    ensures Reported(b, Exec(b, out, op)) == Meaning(b, Reported(b, out), op)
  {
    var ops, none: seq<Op> := [op], [];
    assert ops[1..] == none && forall o :: o in ops ==> ValidOp(b, o);
    assert ExecAll(b, out, ops) == ExecAll(b, Exec(b, out, op), none) == Exec(b, out, op);
    assert MeaningAll(b, Reported(b, out), ops) == MeaningAll(b, Meaning(b, Reported(b, out), op), none);
    assert Reported(b, ExecAll(b, out, ops)) == MeaningAll(b, Reported(b, out), ops);
  }

  /** A value of OUT in which the LED on a pin is dark. */
  function DarkAt(b: Board, p: Pin): set<Pin> {
    if b.activeState then {} else {p}
  }

  lemma SharedPinBreaks(b: Board, i: Index, j: Index) returns (out: set<Pin>, op: Op)
    requires i < j < |b.ledPins| && b.ledPins[i] == b.ledPins[j]
    ensures ValidOp(b, op) && IsSingleCall(op) && Toggled(b, op) == {}
    ensures Reported(b, Exec(b, out, op)) != Meaning(b, Reported(b, out), op)
  {
    out, op := DarkAt(b, b.ledPins[i]), LedOn(i);
    assert !ReportsLit(b, out, j) && ReportsLit(b, Exec(b, out, op), j);
    assert j in Reported(b, Exec(b, out, op)) && j !in Meaning(b, Reported(b, out), op);
  }

  lemma IncoherenceBreaks(b: Board, i: Index) returns (out: set<Pin>, op: Op)
    requires i < |b.ledPins| && !(b.ledPins[i] in b.leds && CoherentAt(b, b.ledPins[i]))
    ensures ValidOp(b, op) && IsSingleCall(op) && Toggled(b, op) == {}
    ensures Reported(b, Exec(b, out, op)) != Meaning(b, Reported(b, out), op)
  {
    out, op := DarkAt(b, b.ledPins[i]), Macro(On({b.ledPins[i]}));
    assert !ReportsLit(b, Exec(b, out, op), i);
    assert i !in Reported(b, Exec(b, out, op)) && i in Meaning(b, Reported(b, out), op);
  }

  /** On every other board a single LED switched on is enough to break the agreement. */
  lemma OneOpBreaks(b: Board) returns (out: set<Pin>, op: Op)
    requires !(DistinctPins(b) && CoherentLeds(b))
    ensures ValidOp(b, op) && IsSingleCall(op) && Toggled(b, op) == {}
    ensures Reported(b, Exec(b, out, op)) != Meaning(b, Reported(b, out), op)
  {
    if !DistinctPins(b) {
      var i, j :| 0 <= i < j < |b.ledPins| && b.ledPins[i] == b.ledPins[j];
      out, op := SharedPinBreaks(b, i, j);
    } else {
      var i :| 0 <= i < |b.ledPins| && !(b.ledPins[i] in b.leds && CoherentAt(b, b.ledPins[i]));
      out, op := IncoherenceBreaks(b, i);
    }
  }

  /** The two APIs keep one consistent set of lit LEDs, over every run, exactly on the boards whose
      LED pins are distinct, all in LEDS_MASK, and of matching polarity. */
  lemma RefinementExact(b: Board)
    ensures AlwaysRefines(b) <==> DistinctPins(b) && CoherentLeds(b)
  {
    if DistinctPins(b) && CoherentLeds(b) {
      forall out: set<Pin>, ops: seq<Op> | forall op :: op in ops ==> ValidOp(b, op)
        ensures Reported(b, ExecAll(b, out, ops)) == MeaningAll(b, Reported(b, out), ops)
      {
        ExecAllRefines(b, out, ops);
      }
    } else {
      var out, op := OneOpBreaks(b);
      if AlwaysRefines(b) {
        OneOp(b, out, op);
      }
    }
  }

  // ----- The answers -----

  /** The LEDs that a reading operation shows as lit, when it reads `out` on the pins it selects: of
      LED_IS_ON, the LEDs whose bit is in the result. */
  function Shown(b: Board, op: Op, out: set<Pin>): set<Index>
    requires ValidOp(b, op)
  {
    match op
    case LedStateGet(i) => if ReportsLit(b, out, i) then {i} else {}
    case LedIsOn(m) => Selected(b, m * Lit(b, out))
    case _ => {}
  }

  /** What it should show. */
  function ShouldShow(b: Board, op: Op, lit: set<Index>): set<Index> {
    match op
    case LedStateGet(i) => lit * {i}
    case LedIsOn(m) => lit * Selected(b, m)
    case _ => {}
  }

  lemma ShownRefines(b: Board, out: set<Pin>, op: Op)
    requires CoherentLeds(b) && ValidOp(b, op)
    ensures Shown(b, op, out) == ShouldShow(b, op, Reported(b, out))
  {
    forall i | 0 <= i < |b.ledPins|
      ensures i in Shown(b, op, out) <==> i in ShouldShow(b, op, Reported(b, out))
    {
      assert i in Reported(b, out) <==> ReportsLit(b, out, i);
    }
  }

  // ----- One API against the other -----

  /** LED_IS_ON, at the pin of an LED, shows the same LEDs as bsp_board_led_state_get, for every OUT,
      exactly on the LEDs of matching polarity. */
  lemma LedIsOnAgreesExact(b: Board, i: Index)
    requires i < |b.ledPins|
    ensures (forall out: set<Pin> :: b.ledPins[i] in Lit(b, out) <==> i in Reported(b, out)) <==> CoherentAt(b, b.ledPins[i])
  {
    var p := b.ledPins[i];
    assert p !in DarkAt(b, p) <==> b.activeState;
    assert !ReportsLit(b, DarkAt(b, p), i);
    assert i !in Reported(b, DarkAt(b, p));
  }

  /** The macro for one LED is the index call for that LED where the polarities match, and the
      opposite index call where they do not; whatever OUT is. */
  lemma OneLedMacroExact(b: Board, out: set<Pin>, i: Index)
    requires i < |b.ledPins| && b.ledPins[i] in b.leds
    ensures var p := b.ledPins[i];
            && (Effect(b, On({p}), out) == Exec(b, out, LedOn(i)) <==> CoherentAt(b, p))
            && (Effect(b, On({p}), out) == Exec(b, out, LedOff(i)) <==> !CoherentAt(b, p))
            && (Effect(b, Off({p}), out) == Exec(b, out, LedOff(i)) <==> CoherentAt(b, p))
            && (Effect(b, Off({p}), out) == Exec(b, out, LedOn(i)) <==> !CoherentAt(b, p))
            && Effect(b, Invert({p}), out) == Exec(b, out, LedInvert(i))
  {
  }

  /** LEDS_MASK is the set of pins of LEDS_LIST, with matching polarity. */
  predicate MatchingTables(b: Board) {
    b.leds == LedPins(b) && forall p :: p in b.leds ==> CoherentAt(b, p)
  }

  /** The macro call that covers all LEDs. */
  function BulkMacro(b: Board, lit: bool): Call {
    if lit then On(b.leds) else Off(b.leds)
  }

  ghost predicate BulkAgrees(b: Board, lit: bool) {
    forall out: set<Pin> ::
      WriteLeds(b, out, |b.ledPins|, lit) == Effect(b, BulkMacro(b, lit), out)
  }

  lemma BulkOnPin(b: Board, out: set<Pin>, lit: bool, p: Pin)
    ensures p in WriteLeds(b, out, |b.ledPins|, lit) <==> if p in LedPins(b) then lit == b.activeState else p in out
    ensures p in Effect(b, BulkMacro(b, lit), out) <==> if p in b.leds then lit == (p !in b.inverted) else p in out
  {
    WriteLedsOnPin(b, out, |b.ledPins|, lit, p);
    assert b.ledPins[..|b.ledPins|] == b.ledPins;
  }

  /** bsp_board_leds_on is LEDS_ON(LEDS_MASK), and bsp_board_leds_off is LEDS_OFF(LEDS_MASK), for
      every OUT, exactly on the boards whose two tables match. */
  lemma BulkAgreesExact(b: Board, lit: bool)
    ensures BulkAgrees(b, lit) <==> MatchingTables(b)
  {
    if MatchingTables(b) {
      forall out: set<Pin> ensures WriteLeds(b, out, |b.ledPins|, lit) == Effect(b, BulkMacro(b, lit), out) {
        forall p: Pin
          ensures p in WriteLeds(b, out, |b.ledPins|, lit) <==> p in Effect(b, BulkMacro(b, lit), out)
        {
          BulkOnPin(b, out, lit, p);
        }
      }
    } else {
      var p: Pin :| (p in b.leds) != (p in LedPins(b)) || (p in b.leds && !CoherentAt(b, p));
      var low: set<Pin>, high: set<Pin> := {}, {p};
      BulkOnPin(b, low, lit, p);
      BulkOnPin(b, high, lit, p);
      // one of the two values of OUT tells the results apart
      var w, w' := p in WriteLeds(b, low, |b.ledPins|, lit), p in WriteLeds(b, high, |b.ledPins|, lit);
      var e, e' := p in Effect(b, BulkMacro(b, lit), low), p in Effect(b, BulkMacro(b, lit), high);
      if p !in LedPins(b) {
        assert e == e' && !w && w';
      } else if p !in b.leds {
        assert w == w' && !e && e';
      } else {
        assert !CoherentAt(b, p);
        assert w != e;
      }
    }
  }
}
