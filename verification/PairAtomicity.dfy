/** Exactly which two LED calls may run concurrently: for every board and every two calls, the
    condition under which every interleaving of their accesses, from every value of OUT, ends as one
    of the two sequential orders, reads included. */
module PairAtomicity {
  import opened Words
  import opened LedCalls
  import opened Interleaving
  import opened Linearizability
  import opened Pairs
  import opened Interrupts
  import opened SharedToggles

  // ----- Exchanging the two contexts -----

  function Other(t: nat): nat {
    if t == 0 then 1 else if t == 1 then 0 else t
  }

  function Exchanged(s: Machine): Machine
    requires |s.threads| == 2
  {
    Machine(s.out, [s.threads[1], s.threads[0]])
  }

  function ExchangedSchedule(schedule: seq<nat>): (r: seq<nat>)
    ensures |r| == |schedule|
  {
    if schedule == [] then [] else [Other(schedule[0])] + ExchangedSchedule(schedule[1..])
  }

  lemma {:induction false} RunExchanged(b: Board, s: Machine, schedule: seq<nat>)
    requires |s.threads| == 2
    ensures |Run(b, s, schedule).threads| == 2
    ensures Run(b, Exchanged(s), ExchangedSchedule(schedule)) == Exchanged(Run(b, s, schedule))
    ensures Reads(b, Exchanged(s), ExchangedSchedule(schedule), 1) == Reads(b, s, schedule, 0)
    ensures Reads(b, Exchanged(s), ExchangedSchedule(schedule), 0) == Reads(b, s, schedule, 1)
    decreases |schedule|
  {
    if schedule != [] {
      var u := schedule[0];
      StepExchanged(b, s, u);
      assert ExchangedSchedule(schedule)[1..] == ExchangedSchedule(schedule[1..]);
      RunExchanged(b, Step(b, s, u), schedule[1..]);
    }
  }

  lemma StepExchanged(b: Board, s: Machine, u: nat)
    requires |s.threads| == 2
    ensures |Step(b, s, u).threads| == 2
    ensures Step(b, Exchanged(s), Other(u)) == Exchanged(Step(b, s, u))
    ensures ReadNow(Exchanged(s), Other(u), 1) == ReadNow(s, u, 0)
    ensures ReadNow(Exchanged(s), Other(u), 0) == ReadNow(s, u, 1)
  {
  }

  lemma AtomicIsSymmetric(b: Board, x: Call, y: Call)
    requires AlwaysAtomic(b, x, y)
    ensures AlwaysAtomic(b, y, x)
  {
    forall out: set<Pin>, schedule: seq<nat> | Finished(Run(b, Start(out, Pair(y, x)), schedule))
      ensures EndsAsOneOrder(b, y, x, out, schedule)
    {
      var s := Start(out, Pair(y, x));
      assert Exchanged(s) == Start(out, Pair(x, y));
      RunExchanged(b, s, schedule);
      assert Finished(Run(b, Start(out, Pair(x, y)), ExchangedSchedule(schedule)));
      assert EndsAsOneOrder(b, x, y, out, ExchangedSchedule(schedule));
    }
  }

  lemma AtomicIsInterruptAtomic(b: Board, x: Call, y: Call)
    requires AlwaysAtomic(b, x, y)
    ensures InterruptAtomic(b, x, y)
  {
    forall out: set<Pin>, k | 0 <= k <= Accesses(x) ensures EndsAsOneOrder(b, x, y, out, Nested(x, y, k)) {
      NestedFinishes(b, x, y, k, out);
    }
  }

  /** Two calls of contexts that preempt each other freely are atomic exactly if either of them may
      interrupt the other; so nothing can go wrong that does not go wrong with a single interrupt. */
  lemma PairAtomicityExact(b: Board, x: Call, y: Call)
    ensures AlwaysAtomic(b, x, y) <==> MasksAllow(b, x, y)
    ensures AlwaysAtomic(b, x, y) <==> InterruptAtomic(b, x, y) && InterruptAtomic(b, y, x)
  {
    InterruptAtomicityExact(b, x, y);
    InterruptAtomicityExact(b, y, x);
    if MasksAllow(b, x, y) {
      forall out: set<Pin>, schedule: seq<nat> | Finished(Run(b, Start(out, Pair(x, y)), schedule))
        ensures EndsAsOneOrder(b, x, y, out, schedule)
      {
        MasksSuffice(b, x, y, out, schedule);
      }
    }
    if AlwaysAtomic(b, x, y) {
      AtomicIsSymmetric(b, x, y);
      AtomicIsInterruptAtomic(b, x, y);
      AtomicIsInterruptAtomic(b, y, x);
    }
  }

  // ----- Single LEDs -----

  /** A one-pin write is atomic against every other call, so bsp_board_led_on and bsp_board_led_off
      can be used next to any one macro. */
  lemma PinWriteAlwaysAtomic(b: Board, x: Call, p: Pin, high: bool)
    ensures AlwaysAtomic(b, x, PinWrite(p, high))
  {
    PairAtomicityExact(b, x, PinWrite(p, high));
    ContestedIsSymmetric(b, x, PinWrite(p, high));
  }

  /** And so is a read of one pin, as bsp_board_led_state_get makes it: also next to LEDS_INVERT of
      many LEDs. */
  lemma OnePinReadAlwaysAtomic(b: Board, x: Call, p: Pin)
    ensures AlwaysAtomic(b, x, Read({p}))
  {
    PairAtomicityExact(b, x, Read({p}));
    ContestedIsSymmetric(b, x, Read({p}));
    assert Contested(b, x, Read({p})) <= {p};
  }

  /** The toggle of bsp_board_led_invert is atomic against every call but a toggle of the same pin,
      and one of two such toggles can be lost even when the other is made by an interrupt. */
  lemma ToggleAtomicityExact(b: Board, x: Call, p: Pin)
    ensures AlwaysAtomic(b, x, Invert({p})) <==> !(x.Invert? && p in x.mask)
    ensures InterruptAtomic(b, x, Invert({p})) || InterruptAtomic(b, Invert({p}), x) <==> !(x.Invert? && p in x.mask)
  {
    var toggle := Invert({p});
    PairAtomicityExact(b, x, toggle);
    InterruptAtomicityExact(b, x, toggle);
    InterruptAtomicityExact(b, toggle, x);
    ContestedIsSymmetric(b, x, toggle);
    if x.Invert? {
      assert p in Contested(b, x, toggle) <==> p in x.mask;
      assert Contested(b, x, toggle) <= {p};
    } else {
      assert Contested(b, x, toggle) <= {p};
    }
  }

  // ----- Boards -----

  /** Every run of LEDS_ON, LEDS_OFF, one-pin writes and reads on the board is linearizable. */
  ghost predicate OnOffLinearizable(b: Board) {
    forall out: set<Pin>, programs: seq<seq<Call>>, schedule: seq<nat> ::
      NoInverts(programs) && Finished(Run(b, Start(out, programs), schedule)) ==>
        Linearizable(b, out, programs, schedule)
  }

  /** And so is every run with toggles, each LED toggled by one context. */
  ghost predicate TogglesLinearizable(b: Board) {
    forall out: set<Pin>, programs: seq<seq<Call>>, schedule: seq<nat> ::
      OnePinInverts(programs) && OneToggler(programs) && Finished(Run(b, Start(out, programs), schedule)) ==>
        Linearizable(b, out, programs, schedule)
  }

  lemma LinearizablePairIsAtomic(b: Board, x: Call, y: Call, out: set<Pin>, schedule: seq<nat>)
    requires Linearizable(b, out, Pair(x, y), schedule)
    ensures EndsAsOneOrder(b, x, y, out, schedule)
  {
    var order :| IsOrder(Pair(x, y), order) && RunIs(b, out, Pair(x, y), schedule, order);
    OnlyTwoOrders(x, y, order);
    TwoOrders(b, out, x, y);
    assert forall t :: 0 <= t < 2 ==>
      Reads(b, Start(out, Pair(x, y)), schedule, t) == SerialReads(b, out, Pair(x, y), order, t);
  }

  lemma UniformSuffices(b: Board)
    requires Uniform(b)
    ensures TogglesLinearizable(b)
  {
    forall out: set<Pin>, programs: seq<seq<Call>>, schedule: seq<nat> |
      OnePinInverts(programs) && OneToggler(programs) && Finished(Run(b, Start(out, programs), schedule))
      ensures Linearizable(b, out, programs, schedule)
    {
      UniformIsLinearizable(b, out, programs, schedule, []);
    }
  }

  lemma UniformIsNecessary(b: Board)
    requires OnOffLinearizable(b)
    ensures Uniform(b)
  {
    var x, y := On(b.leds), Off(b.leds);
    assert Contested(b, x, y) == b.leds;
    assert NoInverts(Pair(x, y));
    forall out: set<Pin>, schedule: seq<nat> | Finished(Run(b, Start(out, Pair(x, y)), schedule))
      ensures EndsAsOneOrder(b, x, y, out, schedule)
    {
      LinearizablePairIsAtomic(b, x, y, out, schedule);
    }
    PairAtomicityExact(b, x, y);
  }

  /** The boards on which LEDS_ON, LEDS_OFF, one-pin writes and reads can be made from anywhere, at
      any time, with any masks, are exactly those whose LEDs all have one polarity; and these allow
      toggles as well, of every LED from one context. */
  lemma OnOffLinearizableExact(b: Board)
    ensures OnOffLinearizable(b) <==> Uniform(b)
    ensures TogglesLinearizable(b) <==> Uniform(b)
  {
    if Uniform(b) {
      UniformSuffices(b);
    }
    if TogglesLinearizable(b) {
      forall out: set<Pin>, programs: seq<seq<Call>>, schedule: seq<nat> |
        NoInverts(programs) && Finished(Run(b, Start(out, programs), schedule))
        ensures Linearizable(b, out, programs, schedule)
      {
        assert OnePinInverts(programs) && OneToggler(programs);
      }
    }
    if OnOffLinearizable(b) {
      UniformIsNecessary(b);
    }
  }
}
