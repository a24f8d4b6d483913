/** The other way round: an interrupt that calls bsp_board_leds_on or bsp_board_leds_off between two
    accesses of a LED call of main code. */
module InterruptingBulk {
  import opened Words
  import opened LedCalls
  import opened Interleaving
  import opened Linearizability
  import opened Uninterrupted
  import opened LitLeds
  import opened OpPrograms
  import opened BulkInterrupts

  function CallAndBulk(b: Board, main: Call, lit: bool): seq<seq<Call>> {
    [[main], BulkCalls(b, lit)]
  }

  function NestedBulk(b: Board, main: Call, k: nat): seq<nat>
    requires k <= Accesses(main)
  {
    Repeat(0, k) + (Repeat(1, |b.ledPins|) + Repeat(0, Accesses(main) - k))
  }

  /** OUT ends, and the call reads, as if one had run after the other. */
  predicate EndsInOrder(b: Board, main: Call, lit: bool, out: set<Pin>, k: nat)
    requires k <= Accesses(main)
  {
    var s, schedule := Start(out, CallAndBulk(b, main, lit)), NestedBulk(b, main, k);
    var result, read := Run(b, s, schedule).out, Reads(b, s, schedule, 0);
    || (result == Exec(b, Effect(b, main, out), Bulk(lit)) && read == Answer(main, out))
    || (result == Effect(b, main, Exec(b, out, Bulk(lit))) && read == Answer(main, Exec(b, out, Bulk(lit))))
  }

  ghost predicate AtomicUnderBulk(b: Board, main: Call, lit: bool) {
    forall out: set<Pin>, k :: 0 <= k <= Accesses(main) ==> EndsInOrder(b, main, lit, out, k)
  }

  /** The LED pins that the call leaves at another value than the bulk function. */
  function ContestedWithBulk(b: Board, main: Call, lit: bool): set<Pin> {
    set p | p in LedPins(b) && (p in Effect(b, main, Written(b, lit)) <==> p !in Written(b, lit))
  }

  /** LEDS_INVERT selects one LED pin at most. */
  predicate BulkAllowed(b: Board, main: Call) {
    main.Invert? ==> AtMostOne(main.mask * LedPins(b))
  }

  // ----- The run -----

  /** OUT at the end, if the bulk function comes after `k` accesses. */
  function End(b: Board, main: Call, lit: bool, k: nat, out: set<Pin>): set<Pin> {
    Alone(b, Exec(b, Midway(b, main, k, out), Bulk(lit)), Thread([main], k, if k == 0 then {} else out))
  }

  lemma BulkWhole(b: Board, lit: bool, s: Machine)
    requires |s.threads| == 2 && s.threads[1] == Fresh(BulkCalls(b, lit))
    ensures var s' := Run(b, s, Repeat(1, |b.ledPins|));
            && s'.out == Exec(b, s.out, Bulk(lit)) && |s'.threads| == 2
            && s'.threads[0] == s.threads[0] && s'.threads[1].todo == []
  {
    var none: seq<Call> := [];
    assert BulkCalls(b, lit) + none == BulkCalls(b, lit);
    NextCalls(b, s, 1, BulkCalls(b, lit), none);
    OpIsSerial(b, s.out, Bulk(lit));
    BulkCallsWrite(b, lit);
    NoReadsInRounds(b, s.out, BulkCalls(b, lit));
  }

  lemma NestedBulkRun(b: Board, main: Call, lit: bool, k: nat, out: set<Pin>)
    requires k < Accesses(main)
    ensures var s, schedule := Start(out, CallAndBulk(b, main, lit)), NestedBulk(b, main, k);
            && Finished(Run(b, s, schedule)) && Run(b, s, schedule).out == End(b, main, lit, k, out)
            && Reads(b, s, schedule, 0) == Answer(main, Exec(b, Midway(b, main, k, out), Bulk(lit)))
  {
    hide Run, Reads, Step, Access, Effect, Exec, Alone, Midway, Repeat, BulkCalls;
    var before, during, after := Repeat(0, k), Repeat(1, |b.ledPins|), Repeat(0, Accesses(main) - k);
    var s0 := Start(out, CallAndBulk(b, main, lit));
    var s1 := Run(b, s0, before);
    var s2 := Run(b, s1, during);
    BeginningOfCall(b, s0, 0, main, k);
    BulkWhole(b, lit, s1);
    RestOfCall(b, s2, 0, main);
    RunAppend(b, s0, before, during + after);
    RunAppend(b, s1, during, after);
    ReadsAppend(b, s0, before, during + after, 0);
    ReadsAppend(b, s1, during, after, 0);
    ReadsOfOthers(b, s1, 1, |b.ledPins|, 0);
  }

  /** The bulk function that comes after the call. */
  lemma LateBulk(b: Board, main: Call, lit: bool, out: set<Pin>)
    ensures EndsInOrder(b, main, lit, out, Accesses(main))
  {
    hide Step, Access, Effect, Exec, BulkCalls;
    var before, during, after := Repeat(0, Accesses(main)), Repeat(1, |b.ledPins|), Repeat(0, 0);
    var s0 := Start(out, CallAndBulk(b, main, lit));
    var s1 := Run(b, s0, before);
    RestOfCall(b, s0, 0, main);
    WholeCall(b, main, out);
    BulkWhole(b, lit, s1);
    assert during + after == during;
    RunAppend(b, s0, before, during);
    ReadsAppend(b, s0, before, during, 0);
    ReadsOfOthers(b, s1, 1, |b.ledPins|, 0);
  }

  // ----- Single pins -----

  lemma OrdersOnPin(b: Board, main: Call, lit: bool, out: set<Pin>, p: Pin)
    ensures var callFirst, callLast := Exec(b, Effect(b, main, out), Bulk(lit)), Effect(b, main, Exec(b, out, Bulk(lit)));
            if p in LedPins(b) then
              && (p in callFirst <==> p in Written(b, lit)) && (p in callLast <==> p in Effect(b, main, Written(b, lit)))
              && (p in ContestedWithBulk(b, main, lit) <==> !(p in callFirst <==> p in callLast))
            else
              (p in callFirst <==> p in Effect(b, main, out)) && (p in callLast <==> p in Effect(b, main, out))
  {
    BulkOnLed(b, lit, out, p);
    BulkOnLed(b, lit, Effect(b, main, out), p);
    EffectIsLocal(b, main, Exec(b, out, Bulk(lit)), if p in LedPins(b) then Written(b, lit) else out, p);
  }

  lemma EndOfOnOff(b: Board, main: Call, lit: bool, out: set<Pin>, p: Pin)
    requires main.On? || main.Off?
    ensures var callFirst, callLast := Exec(b, Effect(b, main, out), Bulk(lit)), Effect(b, main, Exec(b, out, Bulk(lit)));
            p in End(b, main, lit, 1, out) <==> p in if p in b.inverted then callFirst else callLast
  {
    var th, v := Thread([main], 1, out), Exec(b, Access(b, main, 0, out, out), Bulk(lit));
    assert Midway(b, main, 1, out) == Access(b, main, 0, out, out);
    assert Alone(b, v, th) == Alone(b, Access(b, main, 1, v, out), StepThread(th, v)) == Access(b, main, 1, v, out);
    BulkOnLed(b, lit, Access(b, main, 0, out, out), p);
    BulkOnLed(b, lit, Effect(b, main, out), p);
    BulkOnLed(b, lit, out, p);
  }

  lemma EndOfInvert(b: Board, main: Call, lit: bool, k: nat, out: set<Pin>)
    requires main.Invert? && 1 <= k <= 2
    ensures End(b, main, lit, k, out) ==
            if k == 1 then Exec(b, out, Bulk(lit)) + (main.mask - out) - main.mask * out
            else Exec(b, out + (main.mask - out), Bulk(lit)) - main.mask * out
  {
    var th := Thread([main], k, out);
    assert Midway(b, main, 1, out) == Access(b, main, 0, Midway(b, main, 0, out), out) == out;
    assert Midway(b, main, 2, out) == Access(b, main, 1, Midway(b, main, 1, out), out);
    var v := Exec(b, Midway(b, main, k, out), Bulk(lit));
    var v', th' := Access(b, main, k, v, out), StepThread(th, v);
    assert Alone(b, v, th) == Alone(b, v', th');
    if k == 1 {
      assert Alone(b, v', th') == Alone(b, Access(b, main, 2, v', out), StepThread(th', v'));
    }
  }

  /** A pin that LEDS_INVERT does not share with the LEDs ends as in both orders. */
  lemma InvertOnPin(b: Board, main: Call, lit: bool, k: nat, out: set<Pin>, p: Pin)
    requires main.Invert? && 1 <= k <= 2
    ensures p in ContestedWithBulk(b, main, lit) <==> p in LedPins(b) && p in main.mask
    ensures p !in ContestedWithBulk(b, main, lit) ==>
              (p in End(b, main, lit, k, out) <==> p in Exec(b, Effect(b, main, out), Bulk(lit)))
  {
    EndOfInvert(b, main, lit, k, out);
    BulkOnLed(b, lit, out, p);
    BulkOnLed(b, lit, out + (main.mask - out), p);
    OrdersOnPin(b, main, lit, out, p);
  }

  // ----- The condition suffices -----

  /** The bulk function writes one value on all LEDs, and LEDS_ON and LEDS_OFF write a different one on
      each polarity; so they disagree on one polarity at most. */
  lemma ContestedHasOnePolarity(b: Board, main: Call, lit: bool, p: Pin)
    requires main.On? || main.Off?
    ensures p in ContestedWithBulk(b, main, lit) ==> (p in b.inverted <==> main.On? == (lit == b.activeState))
  {
  }

  lemma OnOffSuffices(b: Board, main: Call, lit: bool, out: set<Pin>)
    requires main.On? || main.Off?
    ensures EndsInOrder(b, main, lit, out, 1)
  {
    NestedBulkRun(b, main, lit, 1, out);
    var end := End(b, main, lit, 1, out);
    var callFirst, callLast := Exec(b, Effect(b, main, out), Bulk(lit)), Effect(b, main, Exec(b, out, Bulk(lit)));
    var first := main.On? == (lit == b.activeState);
    forall p: Pin ensures p in end <==> p in if first then callFirst else callLast {
      EndOfOnOff(b, main, lit, out, p);
      OrdersOnPin(b, main, lit, out, p);
      ContestedHasOnePolarity(b, main, lit, p);
    }
    assert end == if first then callFirst else callLast;
  }

  lemma InvertSuffices(b: Board, main: Call, lit: bool, k: nat, out: set<Pin>)
    requires main.Invert? && 1 <= k <= 2 && BulkAllowed(b, main)
    ensures EndsInOrder(b, main, lit, out, k)
  {
    NestedBulkRun(b, main, lit, k, out);
    var end, contested := End(b, main, lit, k, out), ContestedWithBulk(b, main, lit);
    var callFirst, callLast := Exec(b, Effect(b, main, out), Bulk(lit)), Effect(b, main, Exec(b, out, Bulk(lit)));
    var first := forall q :: q in main.mask * LedPins(b) ==> (q in end <==> q in callFirst);
    forall p: Pin ensures p in end <==> p in if first then callFirst else callLast {
      InvertOnPin(b, main, lit, k, out, p);
      OrdersOnPin(b, main, lit, out, p);
      assert p in contested <==> p in main.mask * LedPins(b);
    }
    assert end == if first then callFirst else callLast;
  }

  // ----- The condition is necessary -----

  lemma InvertTears(b: Board, main: Call, lit: bool, p: Pin, q: Pin)
    requires main.Invert? && p != q && {p, q} <= main.mask * LedPins(b)
    ensures !AtomicUnderBulk(b, main, lit)
  {
    var out := {p};
    NestedBulkRun(b, main, lit, 1, out);
    EndOfInvert(b, main, lit, 1, out);
    forall r | r in {p, q}
      ensures r in End(b, main, lit, 1, out) <==> r == q
      ensures r in Exec(b, Effect(b, main, out), Bulk(lit)) <==> lit == b.activeState
      ensures r in Effect(b, main, Exec(b, out, Bulk(lit))) <==> lit != b.activeState
    {
      InvertOnPin(b, main, lit, 1, out, r);
      OrdersOnPin(b, main, lit, out, r);
    }
    assert p !in End(b, main, lit, 1, out) && q in End(b, main, lit, 1, out);
    assert End(b, main, lit, 1, out) != Exec(b, Effect(b, main, out), Bulk(lit));
    assert End(b, main, lit, 1, out) != Effect(b, main, Exec(b, out, Bulk(lit)));
    assert !EndsInOrder(b, main, lit, out, 1);
  }

  /** Every call may be interrupted by a bulk function, except a LEDS_INVERT of two LEDs. */
  lemma InterruptingBulkExact(b: Board, main: Call, lit: bool)
    ensures AtomicUnderBulk(b, main, lit) <==> BulkAllowed(b, main)
  {
    if BulkAllowed(b, main) {
      forall out: set<Pin>, k | 0 <= k <= Accesses(main) ensures EndsInOrder(b, main, lit, out, k) {
        if k == Accesses(main) {
          LateBulk(b, main, lit, out);
        } else if k == 0 {
          NestedBulkRun(b, main, lit, 0, out);
          WholeCall(b, main, Exec(b, out, Bulk(lit)));
        } else if main.Invert? {
          InvertSuffices(b, main, lit, k, out);
        } else {
          OnOffSuffices(b, main, lit, out);
        }
      }
    } else {
      var shared := main.mask * LedPins(b);
      var p, q :| p in shared && q in shared && p != q;
      InvertTears(b, main, lit, p, q);
    }
  }
}
