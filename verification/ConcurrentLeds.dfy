/** The LEDs as one shared object: several contexts use both APIs at the same time, and what they see
    is a set of lit LEDs on which single operations run one after the other. */
module ConcurrentLeds {
  import opened Words
  import opened LedCalls
  import opened Interleaving
  import opened Linearizability
  import opened Uninterrupted
  import opened Pairs
  import opened PairAtomicity
  import opened SharedToggles
  import opened Views
  import opened LitLeds
  import opened OpPrograms

  // ----- The abstract object -----

  /** The abstract set after the operations ran one at a time, in a given order. */
  function MeaningInOrder(b: Board, lit: set<Index>, programs: seq<seq<Op>>, order: seq<nat>): set<Index>
    requires SingleCalls(b, programs) && Runnable(AllCallsOf(b, programs), order)
    decreases |order|
  {
    if order == [] then
      lit
    else
      var t := order[0];
      CallsAfterOne(b, programs, t);
      MeaningInOrder(b, Meaning(b, lit, programs[t][0]), programs[t := programs[t][1..]], order[1..])
  }

  predicate IsRead(op: Op) {
    op.LedStateGet? || op.LedIsOn?
  }

  /** What the reading operations of context `t` should show then. */
  function ShouldShowInOrder(b: Board, lit: set<Index>, programs: seq<seq<Op>>, order: seq<nat>, t: nat): seq<set<Index>>
    requires SingleCalls(b, programs) && Runnable(AllCallsOf(b, programs), order)
    decreases |order|
  {
    if order == [] then
      []
    else
      var u := order[0];
      var op := programs[u][0];
      CallsAfterOne(b, programs, u);
      (if u == t && IsRead(op) then [ShouldShow(b, op, lit)] else [])
      + ShouldShowInOrder(b, Meaning(b, lit, op), programs[u := programs[u][1..]], order[1..], t)
  }

  /** What the reading operations of a program show, given what they read of OUT. */
  function ShownBy(b: Board, program: seq<Op>, values: seq<set<Pin>>): seq<set<Index>>
    requires forall op :: op in program ==> ValidOp(b, op)
  {
    if program == [] || values == [] then []
    else if IsRead(program[0]) then [Shown(b, program[0], values[0])] + ShownBy(b, program[1..], values[1..])
    else ShownBy(b, program[1..], values)
  }

  // ----- Only the LED pins matter -----

  lemma ShownOnLeds(b: Board, op: Op, value: set<Pin>)
    requires ValidOp(b, op)
    ensures Shown(b, op, value * LedPins(b)) == Shown(b, op, value)
  {
    forall i | 0 <= i < |b.ledPins| ensures i in Shown(b, op, value * LedPins(b)) <==> i in Shown(b, op, value) {
      assert b.ledPins[i] in LedPins(b);
    }
  }

  lemma {:induction false} ShownByOnLeds(b: Board, program: seq<Op>, values: seq<set<Pin>>)
    requires forall op :: op in program ==> ValidOp(b, op)
    ensures ShownBy(b, program, Seen(values, LedPins(b))) == ShownBy(b, program, values)
    decreases |program|
  {
    if program != [] && values != [] {
      var seen := Seen(values, LedPins(b));
      assert seen[1..] == Seen(values[1..], LedPins(b));
      ShownOnLeds(b, program[0], values[0]);
      ShownByOnLeds(b, program[1..], if IsRead(program[0]) then values[1..] else values);
    }
  }

  lemma ReportedOnLeds(b: Board, out: set<Pin>, out': set<Pin>)
    requires out * LedPins(b) == out' * LedPins(b)
    ensures Reported(b, out) == Reported(b, out')
  {
    forall i | 0 <= i < |b.ledPins| ensures i in Reported(b, out) <==> i in Reported(b, out') {
      SameOnPin(out, out', LedPins(b), b.ledPins[i]);
    }
  }

  // ----- Sequential orders -----

  /** A read of the selected pins shows as much as a read of all. */
  lemma ShownOfAnswer(b: Board, op: Op, out: set<Pin>)
    requires ValidOp(b, op) && IsRead(op)
    ensures Shown(b, op, CallOf(b, op).mask * out) == Shown(b, op, out)
  {
  }

  lemma ShownByTail(b: Board, program: seq<Op>, out: set<Pin>, values: seq<set<Pin>>)
    requires program != [] && forall op :: op in program ==> ValidOp(b, op) && IsSingleCall(op)
    ensures ShownBy(b, program, Answer(CallOf(b, program[0]), out) + values) ==
            (if IsRead(program[0]) then [Shown(b, program[0], out)] else []) + ShownBy(b, program[1..], values)
  {
    var all := Answer(CallOf(b, program[0]), out) + values;
    if IsRead(program[0]) {
      ShownOfAnswer(b, program[0], out);
      assert all[0] == CallOf(b, program[0]).mask * out && all[1..] == values;
    } else {
      assert all == values;
    }
  }

  /** Whole operations in any order report what the abstract set has in that order. */
  lemma {:induction false} SerialRefines(b: Board, out: set<Pin>, programs: seq<seq<Op>>, order: seq<nat>)
    requires DistinctPins(b) && CoherentLeds(b)
    requires SingleCalls(b, programs) && Runnable(AllCallsOf(b, programs), order)
    ensures Reported(b, Serial(b, out, AllCallsOf(b, programs), order)) == MeaningInOrder(b, Reported(b, out), programs, order)
    decreases |order|
  {
    if order != [] {
      var t := order[0];
      var op := programs[t][0];
      assert op in programs[t];
      CallsAfterOne(b, programs, t);
      assert AllCallsOf(b, programs)[t][0] == CallOf(b, op);
      ExecRefines(b, out, op);
      assert Exec(b, out, op) == Effect(b, AllCallsOf(b, programs)[t][0], out);
      SerialRefines(b, Exec(b, out, op), programs[t := programs[t][1..]], order[1..]);
    }
  }

  /** And their reads show it. */
  lemma {:induction false} SerialShows(b: Board, out: set<Pin>, programs: seq<seq<Op>>, order: seq<nat>, t: nat)
    requires DistinctPins(b) && CoherentLeds(b) && t < |programs|
    requires SingleCalls(b, programs) && Runnable(AllCallsOf(b, programs), order)
    ensures ShownBy(b, programs[t], SerialReads(b, out, AllCallsOf(b, programs), order, t)) ==
            ShouldShowInOrder(b, Reported(b, out), programs, order, t)
    decreases |order|
  {
    if order != [] {
      var u := order[0];
      var op := programs[u][0];
      var programs' := programs[u := programs[u][1..]];
      assert op in programs[u];
      CallsAfterOne(b, programs, u);
      assert AllCallsOf(b, programs)[u][0] == CallOf(b, op);
      ExecRefines(b, out, op);
      assert Exec(b, out, op) == Effect(b, AllCallsOf(b, programs)[u][0], out);
      SerialShows(b, Exec(b, out, op), programs', order[1..], t);
      ShownRefines(b, out, op);
      var values := SerialReads(b, Exec(b, out, op), AllCallsOf(b, programs'), order[1..], t);
      assert SerialReads(b, out, AllCallsOf(b, programs), order, t) ==
             (if u == t then Answer(CallOf(b, op), out) else []) + values;
      if u == t {
        assert programs'[t] == programs[t][1..];
        ShownByTail(b, programs[t], out, values);
      } else {
        assert programs'[t] == programs[t];
        var none: seq<set<Pin>> := [];
        assert none + values == values;
      }
    }
  }

  // ----- The toggles, on the LED pins -----

  /** The write of LEDS_ON and LEDS_OFF that acts on the LEDs, if the board is coherent. */
  function LedPhase(b: Board): Phase {
    if b.activeState then Second else First
  }

  lemma ToggledPin(b: Board, op: Op, p: Pin) returns (i: Index)
    requires ValidOp(b, op) && IsSingleCall(op) && CallOf(b, op).Invert?
    requires p in CallOf(b, op).mask * LedPins(b)
    ensures i in Toggled(b, op) && i < |b.ledPins| && b.ledPins[i] == p
  {
    if op.LedInvert? {
      i := op.i;
    } else {
      i :| 0 <= i < |b.ledPins| && b.ledPins[i] == p;
    }
  }

  lemma SharedToggle(b: Board, op: Op, op': Op, p: Pin)
    requires DistinctPins(b)
    requires ValidOp(b, op) && IsSingleCall(op) && CallOf(b, op).Invert?
    requires ValidOp(b, op') && IsSingleCall(op') && CallOf(b, op').Invert?
    requires p in CallOf(b, op).mask * LedPins(b) && p in CallOf(b, op').mask * LedPins(b)
    ensures Toggled(b, op) * Toggled(b, op') != {}
  {
    var i := ToggledPin(b, op, p);
    var j := ToggledPin(b, op', p);
    assert i in Toggled(b, op) * Toggled(b, op');
  }

  lemma OpOfCutCall(b: Board, programs: seq<seq<Op>>, t: nat, call: Call) returns (op: Op)
    requires SingleCalls(b, programs) && t < |programs|
    requires call in CutAll(AllCallsOf(b, programs), LedPins(b))[t]
    ensures op in programs[t] && call == Cut(CallOf(b, op), LedPins(b))
  {
    var k :| 0 <= k < |programs[t]| && call == Cut(AllCallsOf(b, programs)[t][k], LedPins(b));
    op := programs[t][k];
  }

  lemma CutIsManageable(b: Board, programs: seq<seq<Op>>)
    requires DistinctPins(b) && CoherentLeds(b)
    requires SingleCalls(b, programs) && OneTogglerPerLed(b, programs)
    ensures Manageable(b, CutAll(AllCallsOf(b, programs), LedPins(b)), LedPhase(b))
  {
    var cut := CutAll(AllCallsOf(b, programs), LedPins(b));
    CutFits(b, AllCallsOf(b, programs), LedPins(b), LedPhase(b));
    forall t, call: Call | 0 <= t < |cut| && call in cut[t] && call.Invert? ensures AtMostOne(call.mask) {
      var op := OpOfCutCall(b, programs, t, call);
      forall p, q | p in call.mask && q in call.mask ensures p == q {
        var i := ToggledPin(b, op, p);
        var j := ToggledPin(b, op, q);
        assert OneLed(Toggled(b, op));
      }
    }
    forall t, u, x: Call, y: Call | 0 <= t < |cut| && 0 <= u < |cut| && t != u && x in cut[t] && y in cut[u] && x.Invert? && y.Invert?
      ensures x.mask * y.mask == {}
    {
      var op := OpOfCutCall(b, programs, t, x);
      var op' := OpOfCutCall(b, programs, u, y);
      if p :| p in x.mask * y.mask {
        SharedToggle(b, op, op', p);
      }
    }
  }

  // ----- The results -----

  /** The calls that contexts make, with the bulk functions unrolled. */
  function Calls(b: Board, programs: seq<seq<Op>>): (calls: seq<seq<Call>>)
    requires ValidOps(b, programs)
    ensures |calls| == |programs|
  {
    AllCallsOf(b, UnrollAll(b, programs))
  }

  /** The LEDs reported lit, and all that the reading operations have shown, are those of the abstract
      operations run one at a time in this order. */
  ghost predicate BehavesAsSet(b: Board, out: set<Pin>, programs: seq<seq<Op>>, soFar: seq<nat>, order: seq<nat>)
    requires ValidOps(b, programs) && Runnable(Calls(b, programs), order)
  {
    var s, ops := Start(out, Calls(b, programs)), UnrollAll(b, programs);
    && Reported(b, Run(b, s, soFar).out) == MeaningInOrder(b, Reported(b, out), ops, order)
    && forall t :: 0 <= t < |programs| ==>
         ShownBy(b, ops[t], Reads(b, s, soFar, t)) == ShouldShowInOrder(b, Reported(b, out), ops, order, t)
  }

  /** If the LED pins are distinct, in LEDS_MASK, and of matching polarity, the LEDs are a linearizable
      set.  Any contexts use both APIs, and their register accesses interleave in any way; no LED is
      toggled by two of them, but the others may switch it meanwhile.  Then there is one order of the
      single operations for the whole run, which respects real time, and at every point, finished or
      not, the LEDs behave as a set on which the part of the order that has taken effect was run. */
  lemma LedsAreLinearizableSet(b: Board, out: set<Pin>, programs: seq<seq<Op>>, soFar: seq<nat>, more: seq<nat>) returns (order: seq<nat>)
    requires DistinctPins(b) && CoherentLeds(b)
    requires ValidOps(b, programs) && OneTogglerPerLed(b, programs)
    ensures var calls := Calls(b, programs);
            && order == ViewOrder(b, LedPins(b), out, calls, soFar, more, LedPhase(b))
            && order <= ViewOrder(b, LedPins(b), out, calls, soFar + more, [], LedPhase(b))
            && Runnable(calls, order) && BehavesAsSet(b, out, programs, soFar, order)
            && (forall t :: 0 <= t < |programs| ==> DuringCall(calls, Run(b, Start(out, calls), soFar), order, t))
            && (Finished(Run(b, Start(out, calls), soFar)) ==> IsOrder(calls, order))
  {
    var ops, calls := UnrollAll(b, programs), Calls(b, programs);
    var s := Start(out, calls);
    order := ViewOrder(b, LedPins(b), out, calls, soFar, more, LedPhase(b));
    UnrolledTogglers(b, programs);
    CutIsManageable(b, ops);
    ViewIsLinearizable(b, LedPins(b), out, calls, soFar, more, LedPhase(b));
    ReportedOnLeds(b, Run(b, s, soFar).out, Serial(b, out, calls, order));
    SerialRefines(b, out, ops, order);
    forall t | 0 <= t < |programs|
      ensures ShownBy(b, ops[t], Reads(b, s, soFar, t)) == ShouldShowInOrder(b, Reported(b, out), ops, order, t)
    {
      ShownByOnLeds(b, ops[t], Reads(b, s, soFar, t));
      ShownByOnLeds(b, ops[t], SerialReads(b, out, calls, order, t));
      SerialShows(b, out, ops, order, t);
    }
  }

  /** Every finished run of such programs behaves as the set in some order. */
  ghost predicate LinearizableSet(b: Board) {
    forall out: set<Pin>, programs: seq<seq<Op>>, schedule: seq<nat> ::
      ValidOps(b, programs) && OneTogglerPerLed(b, programs) && Finished(Run(b, Start(out, Calls(b, programs)), schedule)) ==>
        exists order :: IsOrder(Calls(b, programs), order) && BehavesAsSet(b, out, programs, schedule, order)
  }

  /** One context that makes one call. */
  lemma OneCallRun(b: Board, out: set<Pin>, call: Call)
    ensures Finished(Run(b, Start(out, [[call]]), Repeat(0, Accesses(call))))
    ensures Run(b, Start(out, [[call]]), Repeat(0, Accesses(call))).out == Effect(b, call, out)
  {
    var s := Start(out, [[call]]);
    RestOfCall(b, s, 0, call);
    WholeCall(b, call, out);
  }

  lemma OneCallOrder(call: Call, order: seq<nat>)
    requires IsOrder([[call]], order)
    ensures order == [0]
  {
    SomeCallFirst([[call]], order, 0);
    var none: seq<Call> := [];
    OrderTail([[call]], order);
    assert [call][1..] == none;
    assert order[1..] == [] by {
      assert Runnable([[call]][0 := none], order[1..]);
    }
  }

  lemma OneOpProgram(b: Board, op: Op)
    requires ValidOp(b, op) && IsSingleCall(op)
    ensures ValidOps(b, [[op]]) && UnrollAll(b, [[op]]) == [[op]] && Calls(b, [[op]]) == [[CallOf(b, op)]]
  {
    var none: seq<Op> := [];
    assert [op][1..] == none;
    assert UnrollProgram(b, [op]) == Unroll(b, op) + UnrollProgram(b, none) == [op];
    assert UnrollAll(b, [[op]])[0] == [op];
    assert CallsOf(b, [op]) == [CallOf(b, op)];
  }

  lemma ExecIsEffect(b: Board, out: set<Pin>, op: Op)
    requires ValidOp(b, op) && IsSingleCall(op)
    ensures Exec(b, out, op) == Effect(b, CallOf(b, op), out)
  {
  }

  lemma OneOpMeaning(b: Board, lit: set<Index>, op: Op)
    requires ValidOp(b, op) && IsSingleCall(op)
    ensures SingleCalls(b, [[op]]) && Runnable(AllCallsOf(b, [[op]]), [0])
    ensures MeaningInOrder(b, lit, [[op]], [0]) == Meaning(b, lit, op)
  {
    var rest: seq<nat> := [];
    assert [0][1..] == rest && [[op]][0] == [op];
    CallsAfterOne(b, [[op]], 0);
    var programs := [[op]][0 := [op][1..]];
    assert MeaningInOrder(b, Meaning(b, lit, op), programs, rest) == Meaning(b, lit, op);
  }

  lemma OneOpBehaves(b: Board, out: set<Pin>, op: Op, order: seq<nat>)
    requires ValidOp(b, op) && IsSingleCall(op) && ValidOps(b, [[op]])
    requires IsOrder(Calls(b, [[op]]), order)
    requires BehavesAsSet(b, out, [[op]], Repeat(0, Accesses(CallOf(b, op))), order)
    ensures Reported(b, Exec(b, out, op)) == Meaning(b, Reported(b, out), op)
  {
    hide Meaning, Exec, Reported, MeaningInOrder, Effect, Run, Repeat, UnrollAll, IsOrder, ValidOps;
    ExecIsEffect(b, out, op);
    OneOpProgram(b, op);
    OneCallRun(b, out, CallOf(b, op));
    OneCallOrder(CallOf(b, op), order);
    OneOpMeaning(b, Reported(b, out), op);
  }

  lemma SetNeedsRefinement(b: Board, out: set<Pin>, op: Op)
    requires LinearizableSet(b)
    requires ValidOp(b, op) && IsSingleCall(op) && Toggled(b, op) == {}
    ensures Reported(b, Exec(b, out, op)) == Meaning(b, Reported(b, out), op)
  {
    hide Exec, Meaning, Run, Repeat, BehavesAsSet, UnrollAll;
    var programs, schedule := [[op]], Repeat(0, Accesses(CallOf(b, op)));
    OneOpProgram(b, op);
    OneCallRun(b, out, CallOf(b, op));
    assert OneTogglerPerLed(b, programs);
    var order :| IsOrder(Calls(b, programs), order) && BehavesAsSet(b, out, programs, schedule, order);
    OneOpBehaves(b, out, op, order);
  }

  /** Exactly the boards with distinct LED pins, all in LEDS_MASK and of matching polarity, make the LEDs
      a linearizable set. */
  lemma LinearizableSetExact(b: Board)
    ensures LinearizableSet(b) <==> DistinctPins(b) && CoherentLeds(b)
  {
    if DistinctPins(b) && CoherentLeds(b) {
      forall out: set<Pin>, programs: seq<seq<Op>>, schedule: seq<nat> |
        ValidOps(b, programs) && OneTogglerPerLed(b, programs) && Finished(Run(b, Start(out, Calls(b, programs)), schedule))
        ensures exists order :: IsOrder(Calls(b, programs), order) && BehavesAsSet(b, out, programs, schedule, order)
      {
        var order := LedsAreLinearizableSet(b, out, programs, schedule, []);
      }
    } else {
      var out, op := OneOpBreaks(b);
      if LinearizableSet(b) {
        SetNeedsRefinement(b, out, op);
      }
    }
  }

  /** With LEDS_INVERT of several LEDs, private to one context each, the end of every run is still that
      of the abstract operations. */
  lemma EndIsLinearizable(b: Board, out: set<Pin>, programs: seq<seq<Op>>, schedule: seq<nat>) returns (order: seq<nat>)
    requires DistinctPins(b) && CoherentLeds(b)
    requires ValidOps(b, programs) && forall p :: p in LedPins(b) ==> InvertPrivateOn(b, Calls(b, programs), p)
    requires Finished(Run(b, Start(out, Calls(b, programs)), schedule))
    ensures order == CommitOrder(b, Start(out, Calls(b, programs)), schedule, LedPhase(b))
    ensures IsOrder(Calls(b, programs), order)
    ensures Reported(b, Run(b, Start(out, Calls(b, programs)), schedule).out) ==
            MeaningInOrder(b, Reported(b, out), UnrollAll(b, programs), order)
  {
    var calls := Calls(b, programs);
    order := CommitOrder(b, Start(out, calls), schedule, LedPhase(b));
    LinearizableOnPolarity(b, out, calls, schedule, LedPhase(b));
    var end, serial := Run(b, Start(out, calls), schedule).out, Serial(b, out, calls, order);
    forall p | p in LedPins(b) ensures p in end <==> p in serial {
      assert Fits(b, calls, LedPhase(b), p) && InvertPrivateOn(b, calls, p);
    }
    assert end * LedPins(b) == serial * LedPins(b);
    ReportedOnLeds(b, end, serial);
    SerialRefines(b, out, UnrollAll(b, programs), order);
  }

  /** Two calls of bsp_board_led_invert are atomic against each other exactly if their LEDs are on
      different pins; on one pin a toggle can be lost, also when one of the two is in an interrupt. */
  lemma LedInvertPairExact(b: Board, i: Index, j: Index)
    requires i < |b.ledPins| && j < |b.ledPins|
    ensures var x, y := CallOf(b, LedInvert(i)), CallOf(b, LedInvert(j));
            && (AlwaysAtomic(b, x, y) <==> b.ledPins[i] != b.ledPins[j])
            && (InterruptAtomic(b, x, y) <==> b.ledPins[i] != b.ledPins[j])
  {
    var x, y := CallOf(b, LedInvert(i)), CallOf(b, LedInvert(j));
    ToggleAtomicityExact(b, x, b.ledPins[j]);
    PairAtomicityExact(b, x, y);
  }
}
