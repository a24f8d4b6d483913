/** Main code makes a call, and an interrupt makes another one between two of its accesses: exactly
    when the outcome, reads included, is always that of one call after the other. */
module Interrupts {
  import opened Words
  import opened LedCalls
  import opened Interleaving
  import opened Linearizability
  import opened Uninterrupted
  import opened Pairs

  // ----- An interrupt: what exactly it does -----

  /** OUT after `main` is interrupted by `isr` after its first `k` accesses. */
  function Overtaken(b: Board, main: Call, isr: Call, k: nat, out: set<Pin>): set<Pin> {
    Alone(b, Effect(b, isr, Midway(b, main, k, out)), Thread([main], k, if k == 0 then {} else out))
  }

  /** The run of an interrupted call. */
  lemma NestedRun(b: Board, main: Call, isr: Call, k: nat, out: set<Pin>)
    requires k < Accesses(main)
    ensures var s, schedule := Start(out, Pair(main, isr)), Nested(main, isr, k);
            && Finished(Run(b, s, schedule))
            && Run(b, s, schedule).out == Overtaken(b, main, isr, k, out)
            && Reads(b, s, schedule, 0) == Answer(main, Effect(b, isr, Midway(b, main, k, out)))
            && Reads(b, s, schedule, 1) == Answer(isr, Midway(b, main, k, out))
  {
    hide Run, Reads, Step, Access, Effect, Alone, Midway, Repeat;
    var before, during, after := Repeat(0, k), Repeat(1, Accesses(isr)), Repeat(0, Accesses(main) - k);
    var s0 := Start(out, Pair(main, isr));
    var s1 := Run(b, s0, before);
    var s2 := Run(b, s1, during);
    BeginningOfCall(b, s0, 0, main, k);
    RestOfCall(b, s1, 1, isr);
    WholeCall(b, isr, s1.out);
    RestOfCall(b, s2, 0, main);
    RunAppend(b, s0, before, during + after);
    RunAppend(b, s1, during, after);
    NestedReads(b, s0, before, during, after, 0);
    NestedReads(b, s0, before, during, after, 1);
    ReadsOfOthers(b, s0, 0, k, 1);
    ReadsOfOthers(b, s1, 1, Accesses(isr), 0);
    ReadsOfOthers(b, s2, 0, Accesses(main) - k, 1);
  }

  lemma NestedReads(b: Board, s: Machine, before: seq<nat>, during: seq<nat>, after: seq<nat>, t: nat)
    ensures Reads(b, s, before + (during + after), t) ==
            Reads(b, s, before, t) + (Reads(b, Run(b, s, before), during, t) + Reads(b, Run(b, Run(b, s, before), during), after, t))
  {
    ReadsAppend(b, s, before, during + after, t);
    ReadsAppend(b, Run(b, s, before), during, after, t);
  }

  /** The interrupt that comes after the call. */
  lemma LateInterrupt(b: Board, main: Call, isr: Call, out: set<Pin>)
    ensures Finished(Run(b, Start(out, Pair(main, isr)), Nested(main, isr, Accesses(main))))
    ensures FirstThenSecond(b, main, isr, out, Nested(main, isr, Accesses(main)))
  {
    hide Run, Reads, Step, Access, Effect, Alone;
    var before, during, after := Repeat(0, Accesses(main)), Repeat(1, Accesses(isr)), Repeat(0, 0);
    var s0 := Start(out, Pair(main, isr));
    var s1 := Run(b, s0, before);
    RestOfCall(b, s0, 0, main);
    WholeCall(b, main, out);
    RestOfCall(b, s1, 1, isr);
    WholeCall(b, isr, s1.out);
    RunAppend(b, s0, before, during + after);
    RunAppend(b, s1, during, after);
    NestedReads(b, s0, before, during, after, 0);
    NestedReads(b, s0, before, during, after, 1);
    ReadsOfOthers(b, s0, 0, Accesses(main), 1);
    ReadsOfOthers(b, s1, 1, Accesses(isr), 0);
    RunNothing(b, Run(b, s1, during));
  }

  lemma RunNothing(b: Board, s: Machine)
    ensures Run(b, s, Repeat(0, 0)) == s
    ensures forall t :: Reads(b, s, Repeat(0, 0), t) == []
  {
  }

  lemma NestedFinishes(b: Board, main: Call, isr: Call, k: nat, out: set<Pin>)
    requires k <= Accesses(main)
    ensures Finished(Run(b, Start(out, Pair(main, isr)), Nested(main, isr, k)))
  {
    if k < Accesses(main) {
      NestedRun(b, main, isr, k, out);
    } else {
      LateInterrupt(b, main, isr, out);
    }
  }

  /** OUT after LEDS_ON or LEDS_OFF interrupted between its writes. */
  lemma InterruptedWrites(b: Board, main: Call, isr: Call, out: set<Pin>)
    requires main.On? || main.Off?
    ensures Midway(b, main, 1, out) == Access(b, main, 0, out, out)
    ensures Overtaken(b, main, isr, 1, out) == Access(b, main, 1, Effect(b, isr, Access(b, main, 0, out, out)), out)
  {
    var th, v := Thread([main], 1, out), Effect(b, isr, Access(b, main, 0, out, out));
    assert Alone(b, v, th) == Alone(b, Access(b, main, 1, v, out), StepThread(th, v));
  }

  // ----- An interrupt: the condition suffices -----

  /** LEDS_ON or LEDS_OFF interrupted by a LEDS_INVERT. */
  lemma InvertBetweenWrites(b: Board, main: Call, isr: Call, out: set<Pin>)
    requires (main.On? || main.Off?) && isr.Invert?
    requires OnePolarity(b, Contested(b, main, isr))
    ensures Overtaken(b, main, isr, 1, out) ==
            if Contested(b, main, isr) <= b.inverted then Then(b, out, main, isr) else Then(b, out, isr, main)
  {
    InterruptedWrites(b, main, isr, out);
    var end := Overtaken(b, main, isr, 1, out);
    forall p: Pin
      ensures p in end <==> p in if Contested(b, main, isr) <= b.inverted then Then(b, out, main, isr) else Then(b, out, isr, main)
    {
      assert p in Contested(b, main, isr) * b.inverted <==> p in Contested(b, main, isr) && p in b.inverted;
    }
  }

  lemma InterruptSuffices(b: Board, main: Call, isr: Call, k: nat, out: set<Pin>)
    requires InterruptAllows(b, main, isr) && k <= Accesses(main)
    ensures EndsAsOneOrder(b, main, isr, out, Nested(main, isr, k))
  {
    if k == Accesses(main) {
      LateInterrupt(b, main, isr, out);
    } else {
      NestedRun(b, main, isr, k, out);
      if k == 0 {
        WholeCall(b, main, Effect(b, isr, out));
      } else if !main.Invert? && isr.Invert? {
        InvertBetweenWrites(b, main, isr, out);
      } else {
        ContestedIsSymmetric(b, main, isr);
        MasksSuffice(b, main, isr, out, Nested(main, isr, k));
      }
    }
  }

  // ----- An interrupt: the condition is necessary -----

  /** LEDS_ON or LEDS_OFF, interrupted between its writes by a call that contests LEDs of both
      polarities, has won or been seen on one polarity and not on the other. */
  lemma MixedPolarityTears(b: Board, main: Call, isr: Call, p: Pin, q: Pin)
    requires main.On? || main.Off?
    requires {p, q} <= Contested(b, main, isr) && p in b.inverted && q !in b.inverted
    ensures !InterruptAtomic(b, main, isr)
  {
    var out := if main.On? then {p} else {q};
    var middle, end := Midway(b, main, 1, out), Overtaken(b, main, isr, 1, out);
    NestedRun(b, main, isr, 1, out);
    InterruptedWrites(b, main, isr, out);
    if isr.Read? {
      SeenBetweenWrites(b, main, isr.mask, out, p, q);
    } else {
      WonOnOnePolarity(b, main, isr, out, p, q);
    }
    assert !EndsAsOneOrder(b, main, isr, out, Nested(main, isr, 1));
  }

  lemma SeenBetweenWrites(b: Board, main: Call, mask: set<Pin>, out: set<Pin>, p: Pin, q: Pin)
    requires main.On? || main.Off?
    requires {p, q} <= mask * Footprint(b, main) && p in b.inverted && q !in b.inverted
    requires out == if main.On? then {p} else {q}
    ensures mask * Access(b, main, 0, out, out) != mask * out
    ensures mask * Access(b, main, 0, out, out) != mask * Effect(b, main, out)
  {
    var middle := Access(b, main, 0, out, out);
    assert p in mask * out <==> p !in mask * middle;
    assert q in mask * middle <==> q !in mask * Effect(b, main, out);
  }

  lemma WonOnOnePolarity(b: Board, main: Call, isr: Call, out: set<Pin>, p: Pin, q: Pin)
    requires (main.On? || main.Off?) && !isr.Read?
    requires {p, q} <= Contested(b, main, isr) && p in b.inverted && q !in b.inverted
    ensures Overtaken(b, main, isr, 1, out) != Then(b, out, main, isr)
    ensures Overtaken(b, main, isr, 1, out) != Then(b, out, isr, main)
  {
    InterruptedWrites(b, main, isr, out);
    var end := Overtaken(b, main, isr, 1, out);
    assert p in end <==> p !in Then(b, out, isr, main);
    assert q in end <==> q !in Then(b, out, main, isr);
  }

  /** OUT after a LEDS_INVERT interrupted right after its copy. */
  lemma InterruptedInvert(b: Board, main: Call, isr: Call, out: set<Pin>)
    requires main.Invert?
    ensures Overtaken(b, main, isr, 1, out) == Effect(b, isr, out) + (main.mask - out) - main.mask * out
    ensures Midway(b, main, 2, out) == out + (main.mask - out)
  {
    var th := Thread([main], 1, out);
    var v := Effect(b, isr, out);
    var v', th' := Access(b, main, 1, v, out), StepThread(th, v);
    assert Midway(b, main, 1, out) == Access(b, main, 0, Midway(b, main, 0, out), out) == out;
    assert Overtaken(b, main, isr, 1, out) == Alone(b, v, th) == Alone(b, v', th')
        == Alone(b, Access(b, main, 2, v', out), StepThread(th', v'));
  }

  /** Two LEDS_INVERT of one pin: the interrupted one, with its copy from before, undoes the other. */
  lemma LostInvert(b: Board, main: Call, isr: Call, p: Pin)
    requires main.Invert? && isr.Invert? && p in main.mask * isr.mask
    ensures !InterruptAtomic(b, main, isr)
  {
    var out: set<Pin> := {};
    NestedRun(b, main, isr, 1, out);
    InterruptedInvert(b, main, isr, out);
    assert p in Overtaken(b, main, isr, 1, out) && p !in Then(b, out, main, isr) && p !in Then(b, out, isr, main);
    assert !EndsAsOneOrder(b, main, isr, out, Nested(main, isr, 1));
  }

  /** The value LEDS_ON or LEDS_OFF writes on a selected pin. */
  predicate WritesOne(b: Board, call: Call, p: Pin) {
    call.On? <==> p !in b.inverted
  }

  /** An interrupted LEDS_INVERT always wins: the shared pins end as the opposite of the copy. */
  lemma InterruptedInvertWins(b: Board, out: set<Pin>, main: Call, isr: Call, p: Pin)
    requires main.Invert? && (isr.On? || isr.Off?) && p in Contested(b, main, isr)
    ensures p in Overtaken(b, main, isr, 1, out) <==> p !in out
    ensures p in Then(b, out, main, isr) <==> WritesOne(b, isr, p)
    ensures p in Then(b, out, isr, main) <==> !WritesOne(b, isr, p)
  {
    InterruptedInvert(b, main, isr, out);
  }

  /** LEDS_INVERT, interrupted by LEDS_ON or LEDS_OFF on two shared pins: from some OUT, one pin ends
      as if it ran first, the other as if it ran last. */
  lemma OvertakenInvertTears(b: Board, main: Call, isr: Call, p: Pin, q: Pin)
    requires main.Invert? && (isr.On? || isr.Off?)
    requires p != q && {p, q} <= Contested(b, main, isr)
    ensures !InterruptAtomic(b, main, isr)
  {
    var out := set r | r in {p, q} && (WritesOne(b, isr, r) <==> r == q);
    NestedRun(b, main, isr, 1, out);
    InterruptedInvertWins(b, out, main, isr, p);
    InterruptedInvertWins(b, out, main, isr, q);
    var result := Overtaken(b, main, isr, 1, out);
    assert p in result <==> p !in Then(b, out, isr, main);
    assert q in result <==> q !in Then(b, out, main, isr);
    assert !EndsAsOneOrder(b, main, isr, out, Nested(main, isr, 1));
  }

  /** A read between the writes of a LEDS_INVERT that selects two of its pins sees both of them set, if
      one of them was. */
  lemma TornRead(b: Board, main: Call, isr: Call, p: Pin, q: Pin)
    requires main.Invert? && isr.Read?
    requires p != q && {p, q} <= main.mask * isr.mask
    ensures !InterruptAtomic(b, main, isr)
  {
    var out: set<Pin> := {q};
    NestedRun(b, main, isr, 2, out);
    InterruptedInvert(b, main, isr, out);
    var seen := isr.mask * Midway(b, main, 2, out);
    assert p in seen && p !in isr.mask * out;
    assert q in seen && q !in isr.mask * Effect(b, main, out);
    assert !EndsAsOneOrder(b, main, isr, out, Nested(main, isr, 2));
  }

  /** A call may be interrupted by another exactly if the masks allow it. */
  lemma InterruptAtomicityExact(b: Board, main: Call, isr: Call)
    ensures InterruptAtomic(b, main, isr) <==> InterruptAllows(b, main, isr)
  {
    if InterruptAllows(b, main, isr) {
      forall out: set<Pin>, k | 0 <= k <= Accesses(main)
        ensures EndsAsOneOrder(b, main, isr, out, Nested(main, isr, k))
      {
        InterruptSuffices(b, main, isr, k, out);
      }
    } else if main.On? || main.Off? {
      var p :| p in Contested(b, main, isr) * b.inverted;
      var q :| q in Contested(b, main, isr) && q !in b.inverted;
      MixedPolarityTears(b, main, isr, p, q);
    } else if isr.Invert? {
      var p :| p in Contested(b, main, isr);
      LostInvert(b, main, isr, p);
    } else {
      var p, q :| p in Contested(b, main, isr) && q in Contested(b, main, isr) && p != q;
      if isr.Read? {
        TornRead(b, main, isr, p, q);
      } else {
        ContestedIsSymmetric(b, main, isr);
        OvertakenInvertTears(b, main, isr, p, q);
      }
    }
  }
}
