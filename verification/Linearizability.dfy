/** Overlapping calls.  Each pin of LEDS_MASK is written by only one of the two writes of LEDS_ON and
    LEDS_OFF, the one its polarity selects, so on the pins of one polarity every call takes effect
    at a single one of its own accesses. */
module Linearizability {
  import opened Words
  import opened LedCalls
  import opened Interleaving

  /** Which write of LEDS_ON and LEDS_OFF acts on a pin: the first one on inverted LEDs, the second
      one on the others. */
  datatype Phase = First | Second

  predicate CallFits(b: Board, call: Call, phase: Phase, p: Pin) {
    (call.On? || call.Off?) && p in Footprint(b, call) ==> (p in b.inverted <==> phase.First?)
  }

  /** Of every LEDS_ON and LEDS_OFF that selects `p`, this write acts on it. */
  predicate Fits(b: Board, programs: seq<seq<Call>>, phase: Phase, p: Pin) {
    forall t, call :: 0 <= t < |programs| && call in programs[t] ==> CallFits(b, call, phase, p)
  }

  /** The access at which the first call of a thread takes effect: the acting write of LEDS_ON and
      LEDS_OFF, the last write of LEDS_INVERT that has something to do, the one access of the others. */
  function CommitPc(th: Thread, phase: Phase): nat
    requires th.todo != []
  {
    match th.todo[0]
    case On(_) => if phase.First? then 0 else 1
    case Off(_) => if phase.First? then 0 else 1
    case Invert(m) => if m * th.snap == {} then 1 else 2
    case PinWrite(_, _) => 0
    case Read(_) => 0
  }

  predicate Commits(s: Machine, t: nat, phase: Phase) {
    CanStep(s, t) && s.threads[t].pc == CommitPc(s.threads[t], phase)
  }

  /** The order in which the calls of a run take effect: the schedule, thinned out to one access a call. */
  function CommitOrder(b: Board, s: Machine, schedule: seq<nat>, phase: Phase): seq<nat>
    decreases |schedule|
  {
    if schedule == [] then
      []
    else
      (if Commits(s, schedule[0], phase) then [schedule[0]] else [])
      + CommitOrder(b, Step(b, s, schedule[0]), schedule[1..], phase)
  }

  /** The calls of a thread that have not yet taken effect. */
  function Uncommitted(th: Thread, phase: Phase): seq<Call> {
    if th.todo != [] && th.pc > CommitPc(th, phase) then th.todo[1..] else th.todo
  }

  function AllUncommitted(threads: seq<Thread>, phase: Phase): seq<seq<Call>> {
    seq(|threads|, i requires 0 <= i < |threads| => Uncommitted(threads[i], phase))
  }

  predicate PcsInRange(threads: seq<Thread>) {
    forall t :: 0 <= t < |threads| ==>
      if threads[t].todo == [] then threads[t].pc == 0 else threads[t].pc < Accesses(threads[t].todo[0])
  }

  function Todos(threads: seq<Thread>): seq<seq<Call>> {
    seq(|threads|, i requires 0 <= i < |threads| => threads[i].todo)
  }

  // ----- LEDS_INVERT under way -----

  /** The thread has taken its copy of OUT for a LEDS_INVERT of `p`, and is not done. */
  predicate Flipping(th: Thread, p: Pin) {
    th.todo != [] && th.todo[0].Invert? && p in th.todo[0].mask && th.pc > 0
  }

  /** The thread has written `p` for a LEDS_INVERT that has not yet taken effect. */
  predicate Pending(th: Thread, p: Pin) {
    Flipping(th, p) && th.pc == 2 && p !in th.snap && th.todo[0].mask * th.snap != {}
  }

  /** No LEDS_INVERT is half done on `p`. */
  predicate Settled(s: Machine, p: Pin) {
    forall t :: 0 <= t < |s.threads| ==> !Pending(s.threads[t], p)
  }

  /** The next access is part of a call on `p`, while another thread is flipping `p`. */
  predicate Disturbs(b: Board, s: Machine, u: nat, p: Pin) {
    && CanStep(s, u) && p in Footprint(b, s.threads[u].todo[0])
    && exists t :: 0 <= t < |s.threads| && t != u && Flipping(s.threads[t], p)
  }

  /** From its copy of OUT to its end, a LEDS_INVERT has the pin for itself. */
  predicate Undisturbed(b: Board, s: Machine, schedule: seq<nat>, p: Pin)
    decreases |schedule|
  {
    schedule != [] ==>
      !Disturbs(b, s, schedule[0], p) && Undisturbed(b, Step(b, s, schedule[0]), schedule[1..], p)
  }

  /** OUT is never read while a LEDS_INVERT is half done. */
  predicate ReadsSettled(b: Board, s: Machine, schedule: seq<nat>)
    decreases |schedule|
  {
    schedule != [] ==>
      && (CanStep(s, schedule[0]) && s.threads[schedule[0]].todo[0].Read? ==> forall p: Pin :: Settled(s, p))
      && ReadsSettled(b, Step(b, s, schedule[0]), schedule[1..])
  }

  // ----- One step -----

  /** What a LEDS_INVERT under way may count on: its copy is still right on the pins it flips. */
  predicate SnapshotHolds(th: Thread, out: set<Pin>, p: Pin) {
    Flipping(th, p) ==>
      && (th.pc == 1 ==> (p in out <==> p in th.snap))
      && (th.pc == 2 ==> p in out)
  }

  /** OUT and the sequential value `serial` agree on `p`, unless a LEDS_INVERT is half done on it. */
  predicate Tracks(b: Board, s: Machine, serial: set<Pin>, phase: Phase, p: Pin) {
    && PcsInRange(s.threads)
    && Fits(b, Todos(s.threads), phase, p)
    && (forall t :: 0 <= t < |s.threads| ==> SnapshotHolds(s.threads[t], s.out, p))
    && ((p in s.out <==> p in serial) <==> Settled(s, p))
  }

  function SerialStep(b: Board, s: Machine, t: nat, serial: set<Pin>, phase: Phase): set<Pin> {
    if Commits(s, t, phase) then Effect(b, s.threads[t].todo[0], serial) else serial
  }

  lemma StepKeepsFits(b: Board, s: Machine, u: nat, phase: Phase, p: Pin)
    requires Fits(b, Todos(s.threads), phase, p)
    ensures Fits(b, Todos(Step(b, s, u).threads), phase, p)
  {
    var todos, todos' := Todos(s.threads), Todos(Step(b, s, u).threads);
    forall t, call | 0 <= t < |todos'| && call in todos'[t] ensures CallFits(b, call, phase, p) {
      assert call in todos[t];
    }
  }

  lemma StepTracks(b: Board, s: Machine, u: nat, serial: set<Pin>, phase: Phase, p: Pin)
    requires Tracks(b, s, serial, phase, p) && !Disturbs(b, s, u, p)
    ensures Tracks(b, Step(b, s, u), SerialStep(b, s, u, serial, phase), phase, p)
  {
    StepKeepsFits(b, s, u, phase, p);
    if CanStep(s, u) {
      if p in Footprint(b, s.threads[u].todo[0]) {
        StepOnPinTracks(b, s, u, serial, phase, p);
      } else {
        StepOffPinTracks(b, s, u, serial, phase, p);
      }
    }
  }

  lemma StepOffPinTracks(b: Board, s: Machine, u: nat, serial: set<Pin>, phase: Phase, p: Pin)
    requires Tracks(b, s, serial, phase, p)
    requires CanStep(s, u) && p !in Footprint(b, s.threads[u].todo[0])
    requires Fits(b, Todos(Step(b, s, u).threads), phase, p)
    ensures Tracks(b, Step(b, s, u), SerialStep(b, s, u, serial, phase), phase, p)
  {
    var s', th := Step(b, s, u), s.threads[u];
    var call := th.todo[0];
    AccessIsLocal(b, call, th.pc, s.out, s.out, th.snap, th.snap, p);
    EffectIsLocal(b, call, serial, serial, p);
    assert forall t :: 0 <= t < |s.threads| ==> (Pending(s'.threads[t], p) <==> Pending(s.threads[t], p));
  }

  /** The step of the thread that has `p` to itself. */
  lemma OwnStep(b: Board, th: Thread, out: set<Pin>, serial: set<Pin>, phase: Phase, p: Pin)
    requires th.todo != [] && th.pc < Accesses(th.todo[0])
    requires p in Footprint(b, th.todo[0]) && CallFits(b, th.todo[0], phase, p)
    requires SnapshotHolds(th, out, p)
    requires (p in out <==> p in serial) <==> !Pending(th, p)
    ensures var out' := Access(b, th.todo[0], th.pc, out, th.snap);
            var serial' := if th.pc == CommitPc(th, phase) then Effect(b, th.todo[0], serial) else serial;
            && SnapshotHolds(StepThread(th, out), out', p)
            && ((p in out' <==> p in serial') <==> !Pending(StepThread(th, out), p))
  {
    if th.todo[0].Invert? {
      assert p in th.todo[0].mask * th.snap <==> p in th.snap;
    }
  }

  lemma StepOnPinTracks(b: Board, s: Machine, u: nat, serial: set<Pin>, phase: Phase, p: Pin)
    requires Tracks(b, s, serial, phase, p) && !Disturbs(b, s, u, p)
    requires CanStep(s, u) && p in Footprint(b, s.threads[u].todo[0])
    requires Fits(b, Todos(Step(b, s, u).threads), phase, p)
    ensures Tracks(b, Step(b, s, u), SerialStep(b, s, u, serial, phase), phase, p)
  {
    var s', th := Step(b, s, u), s.threads[u];
    forall t | 0 <= t < |s.threads| && t != u
      ensures !Pending(s.threads[t], p) && !Pending(s'.threads[t], p) && SnapshotHolds(s'.threads[t], s'.out, p)
    {
      assert !Flipping(s.threads[t], p);
    }
    assert Todos(s.threads)[u] == th.todo && th.todo[0] in th.todo;
    assert (p in s.out <==> p in serial) <==> !Pending(th, p);
    OwnStep(b, th, s.out, serial, phase, p);
    assert (p in s'.out <==> p in SerialStep(b, s, u, serial, phase)) <==> !Pending(s'.threads[u], p);
  }

  // ----- The order of the calls -----

  lemma UncommittedAfterStep(b: Board, s: Machine, u: nat, phase: Phase)
    requires PcsInRange(s.threads)
    ensures PcsInRange(Step(b, s, u).threads)
    ensures var todo, todo' := AllUncommitted(s.threads, phase), AllUncommitted(Step(b, s, u).threads, phase);
            if Commits(s, u, phase) then
              todo[u] == s.threads[u].todo && todo' == todo[u := todo[u][1..]]
            else
              todo' == todo
  {
  }

  lemma CommitOrderAfterStep(b: Board, s: Machine, schedule: seq<nat>, phase: Phase)
    requires schedule != []
    ensures var order, rest := CommitOrder(b, s, schedule, phase), CommitOrder(b, Step(b, s, schedule[0]), schedule[1..], phase);
            if Commits(s, schedule[0], phase) then order != [] && order[0] == schedule[0] && order[1..] == rest else order == rest
  {
  }

  /** What is left of the programs after the calls that have taken effect is what has not. */
  lemma {:induction false} CommitOrderRuns(b: Board, s: Machine, schedule: seq<nat>, phase: Phase)
    requires PcsInRange(s.threads)
    ensures Runnable(AllUncommitted(s.threads, phase), CommitOrder(b, s, schedule, phase))
    ensures After(AllUncommitted(s.threads, phase), CommitOrder(b, s, schedule, phase)) ==
            AllUncommitted(Run(b, s, schedule).threads, phase)
    decreases |schedule|
  {
    if schedule != [] {
      CommitOrderRuns(b, Step(b, s, schedule[0]), schedule[1..], phase);
      UncommittedAfterStep(b, s, schedule[0], phase);
      CommitOrderAfterStep(b, s, schedule, phase);
    }
  }

  lemma CommitOrderIsOrder(b: Board, out: set<Pin>, programs: seq<seq<Call>>, schedule: seq<nat>, phase: Phase)
    ensures var order := CommitOrder(b, Start(out, programs), schedule, phase);
            Runnable(programs, order) && (Finished(Run(b, Start(out, programs), schedule)) ==> IsOrder(programs, order))
  {
    var s := Start(out, programs);
    assert AllUncommitted(s.threads, phase) == programs;
    CommitOrderRuns(b, s, schedule, phase);
  }

  // ----- Real time -----

  function Times(order: seq<nat>, t: nat): nat {
    if order == [] then 0 else (if order[0] == t then 1 else 0) + Times(order[1..], t)
  }

  lemma {:induction false} CommitsSoFar(b: Board, s: Machine, schedule: seq<nat>, phase: Phase, t: nat)
    requires PcsInRange(s.threads) && t < |s.threads|
    ensures var s' := Run(b, s, schedule);
            && |s'.threads| == |s.threads| && PcsInRange(s'.threads)
            && |Uncommitted(s'.threads[t], phase)| + Times(CommitOrder(b, s, schedule, phase), t) == |Uncommitted(s.threads[t], phase)|
    decreases |schedule|
  {
    if schedule != [] {
      var u := schedule[0];
      UncommittedAfterStep(b, s, u, phase);
      assert AllUncommitted(Step(b, s, u).threads, phase)[t] == Uncommitted(Step(b, s, u).threads[t], phase);
      assert AllUncommitted(s.threads, phase)[t] == Uncommitted(s.threads[t], phase);
      CommitOrderAfterStep(b, s, schedule, phase);
      CommitsSoFar(b, Step(b, s, u), schedule[1..], phase, t);
    }
  }

  lemma {:induction false} CommitOrderAppend(b: Board, s: Machine, first: seq<nat>, second: seq<nat>, phase: Phase)
    ensures CommitOrder(b, s, first + second, phase) ==
            CommitOrder(b, s, first, phase) + CommitOrder(b, Run(b, s, first), second, phase)
    decreases |first|
  {
    if first == [] {
      assert first + second == second;
    } else {
      assert (first + second)[1..] == first[1..] + second;
      CommitOrderAppend(b, Step(b, s, first[0]), first[1..], second, phase);
    }
  }

  /** Of the calls of context `t`, the order names all those completed and at most the one under way. */
  predicate DuringCall(programs: seq<seq<Call>>, now: Machine, order: seq<nat>, t: nat)
    requires t < |programs|
  {
    && |now.threads| == |programs|
    && var completed := |programs[t]| - |now.threads[t].todo|;
       completed <= Times(order, t) <= completed + if now.threads[t].pc > 0 then 1 else 0
  }

  /** Calls take effect while they run: at every point of every run, the calls of a context that have
      taken effect are all those it has completed and at most the one under way.  So a call that is
      over before another begins comes before it in the order. */
  lemma TakesEffectDuringCall(b: Board, out: set<Pin>, programs: seq<seq<Call>>, soFar: seq<nat>, more: seq<nat>, phase: Phase, t: nat)
    requires t < |programs|
    ensures var s := Start(out, programs);
            var now := Run(b, s, soFar);
            var before := CommitOrder(b, s, soFar, phase);
            && CommitOrder(b, s, soFar + more, phase) == before + CommitOrder(b, now, more, phase)
            && DuringCall(programs, now, before, t)
  {
    CommitOrderAppend(b, Start(out, programs), soFar, more, phase);
    CommitsSoFar(b, Start(out, programs), soFar, phase, t);
  }

  // ----- Whole runs -----

  /** At every point of every run in which no LEDS_INVERT is disturbed on `p`, OUT is on `p` as if the
      calls that have taken effect had run one at a time, in the order in which they did. */
  lemma {:induction false} RunTracks(b: Board, s: Machine, schedule: seq<nat>, serial: set<Pin>, phase: Phase, p: Pin)
    requires Tracks(b, s, serial, phase, p) && Undisturbed(b, s, schedule, p)
    requires Runnable(AllUncommitted(s.threads, phase), CommitOrder(b, s, schedule, phase))
    ensures Tracks(b, Run(b, s, schedule),
                   Serial(b, serial, AllUncommitted(s.threads, phase), CommitOrder(b, s, schedule, phase)), phase, p)
    decreases |schedule|
  {
    if schedule != [] {
      var u := schedule[0];
      var s' := Step(b, s, u);
      StepTracks(b, s, u, serial, phase, p);
      UncommittedAfterStep(b, s, u, phase);
      CommitOrderAfterStep(b, s, schedule, phase);
      RunTracks(b, s', schedule[1..], SerialStep(b, s, u, serial, phase), phase, p);
    }
  }

  predicate TracksAll(b: Board, s: Machine, schedule: seq<nat>, serial: set<Pin>, phase: Phase) {
    forall p: Pin :: Tracks(b, s, serial, phase, p) && Undisturbed(b, s, schedule, p)
  }

  lemma StepTracksAll(b: Board, s: Machine, schedule: seq<nat>, serial: set<Pin>, phase: Phase)
    requires schedule != [] && TracksAll(b, s, schedule, serial, phase)
    ensures TracksAll(b, Step(b, s, schedule[0]), schedule[1..], SerialStep(b, s, schedule[0], serial, phase), phase)
    ensures PcsInRange(s.threads)
    ensures (forall p: Pin :: Settled(s, p)) ==> s.out == serial
  {
    forall p: Pin
      ensures Tracks(b, s, serial, phase, p)
      ensures Settled(s, p) ==> (p in s.out <==> p in serial)
      ensures Tracks(b, Step(b, s, schedule[0]), SerialStep(b, s, schedule[0], serial, phase), phase, p)
      ensures Undisturbed(b, Step(b, s, schedule[0]), schedule[1..], p)
    {
      assert Undisturbed(b, s, schedule, p);
      StepTracks(b, s, schedule[0], serial, phase, p);
    }
    assert Tracks(b, s, serial, phase, 0);
  }

  /** And every read returns what it would return in that order. */
  lemma {:induction false} ReadsAreSerial(b: Board, s: Machine, schedule: seq<nat>, serial: set<Pin>, phase: Phase, t: nat)
    requires TracksAll(b, s, schedule, serial, phase) && ReadsSettled(b, s, schedule)
    requires Runnable(AllUncommitted(s.threads, phase), CommitOrder(b, s, schedule, phase))
    ensures Reads(b, s, schedule, t) ==
            SerialReads(b, serial, AllUncommitted(s.threads, phase), CommitOrder(b, s, schedule, phase), t)
    decreases |schedule|
  {
    if schedule != [] {
      var u := schedule[0];
      StepTracksAll(b, s, schedule, serial, phase);
      UncommittedAfterStep(b, s, u, phase);
      CommitOrderAfterStep(b, s, schedule, phase);
      ReadsAreSerial(b, Step(b, s, u), schedule[1..], SerialStep(b, s, u, serial, phase), phase, t);
    }
  }

  lemma StartTracks(b: Board, out: set<Pin>, programs: seq<seq<Call>>, phase: Phase, p: Pin)
    requires Fits(b, programs, phase, p)
    ensures Tracks(b, Start(out, programs), out, phase, p)
    ensures AllUncommitted(Start(out, programs).threads, phase) == programs
  {
    assert Todos(Start(out, programs).threads) == programs;
  }

  /** Runs without disturbance are linearizable on a pin, at every point where it is not half flipped. */
  lemma PinIsSerial(b: Board, out: set<Pin>, programs: seq<seq<Call>>, schedule: seq<nat>, phase: Phase, p: Pin)
    requires Fits(b, programs, phase, p) && Undisturbed(b, Start(out, programs), schedule, p)
    ensures var s, order := Start(out, programs), CommitOrder(b, Start(out, programs), schedule, phase);
            Runnable(programs, order)
            && (Settled(Run(b, s, schedule), p) ==> (p in Run(b, s, schedule).out <==> p in Serial(b, out, programs, order)))
  {
    StartTracks(b, out, programs, phase, p);
    CommitOrderIsOrder(b, out, programs, schedule, phase);
    RunTracks(b, Start(out, programs), schedule, out, phase, p);
  }

  /** The general result, for every point of a run: OUT and all reads are those of the order in which
      the calls took effect. */
  lemma RunIsCommitOrder(b: Board, out: set<Pin>, programs: seq<seq<Call>>, schedule: seq<nat>, phase: Phase)
    requires forall p: Pin :: Fits(b, programs, phase, p) && Undisturbed(b, Start(out, programs), schedule, p)
    requires ReadsSettled(b, Start(out, programs), schedule)
    requires forall p: Pin :: Settled(Run(b, Start(out, programs), schedule), p)
    ensures var order := CommitOrder(b, Start(out, programs), schedule, phase);
            Runnable(programs, order) && RunIs(b, out, programs, schedule, order)
  {
    var s, order := Start(out, programs), CommitOrder(b, Start(out, programs), schedule, phase);
    CommitOrderIsOrder(b, out, programs, schedule, phase);
    assert AllUncommitted(s.threads, phase) == programs;
    forall p: Pin
      ensures Tracks(b, s, out, phase, p)
      ensures p in Run(b, s, schedule).out <==> p in Serial(b, out, programs, order)
    {
      StartTracks(b, out, programs, phase, p);
      PinIsSerial(b, out, programs, schedule, phase, p);
    }
    forall t | 0 <= t < |programs| ensures Reads(b, s, schedule, t) == SerialReads(b, out, programs, order, t) {
      ReadsAreSerial(b, s, schedule, out, phase, t);
    }
  }

  // ----- Three ways to keep a LEDS_INVERT from being disturbed or seen half done -----

  /** A pin that a LEDS_INVERT flips is not touched by any other context. */
  predicate InvertPrivateOn(b: Board, programs: seq<seq<Call>>, p: Pin) {
    forall i, j, call: Call :: 0 <= i < |programs| && 0 <= j < |programs| && i != j && call in programs[i] && call.Invert? && p in call.mask ==>
      !Touches(b, programs[j], p)
  }

  predicate InvertsPrivate(b: Board, programs: seq<seq<Call>>) {
    forall p: Pin :: InvertPrivateOn(b, programs, p)
  }

  lemma StepKeepsInvertPrivate(b: Board, s: Machine, u: nat, p: Pin)
    requires InvertPrivateOn(b, Todos(s.threads), p)
    ensures InvertPrivateOn(b, Todos(Step(b, s, u).threads), p)
  {
    var todos, todos' := Todos(s.threads), Todos(Step(b, s, u).threads);
    forall i, j, call: Call | 0 <= i < |todos'| && 0 <= j < |todos'| && i != j && call in todos'[i] && call.Invert? && p in call.mask
      ensures !Touches(b, todos'[j], p)
    {
      assert call in todos[i];
      StepKeepsTodo(b, s, u, j, p);
      assert todos[j] == s.threads[j].todo && todos'[j] == Step(b, s, u).threads[j].todo;
    }
  }

  lemma PrivateIsNotDisturbed(b: Board, s: Machine, u: nat, p: Pin)
    requires InvertPrivateOn(b, Todos(s.threads), p)
    ensures !Disturbs(b, s, u, p)
  {
    if t :| 0 <= t < |s.threads| && t != u && Flipping(s.threads[t], p) && CanStep(s, u) {
      assert Todos(s.threads)[t] == s.threads[t].todo && s.threads[t].todo[0] in s.threads[t].todo;
      assert Todos(s.threads)[u] == s.threads[u].todo && s.threads[u].todo[0] in s.threads[u].todo;
    }
  }

  lemma {:induction false} PrivateIsUndisturbed(b: Board, s: Machine, schedule: seq<nat>, p: Pin)
    requires InvertPrivateOn(b, Todos(s.threads), p)
    ensures Undisturbed(b, s, schedule, p)
    decreases |schedule|
  {
    if schedule != [] {
      PrivateIsNotDisturbed(b, s, schedule[0], p);
      StepKeepsInvertPrivate(b, s, schedule[0], p);
      PrivateIsUndisturbed(b, Step(b, s, schedule[0]), schedule[1..], p);
    }
  }

  predicate AtMostOne(pins: set<Pin>) {
    forall p, q :: p in pins && q in pins ==> p == q
  }

  /** Every LEDS_INVERT flips a single LED, as bsp_board_led_invert does. */
  predicate OnePinInverts(programs: seq<seq<Call>>) {
    forall t, call :: 0 <= t < |programs| && call in programs[t] && call.Invert? ==> AtMostOne(call.mask)
  }

  /** No other context has a LEDS_INVERT under way. */
  predicate OthersNotInverting(s: Machine, u: nat) {
    forall t :: 0 <= t < |s.threads| && t != u && s.threads[t].todo != [] && s.threads[t].todo[0].Invert? ==> s.threads[t].pc == 0
  }

  /** Once begun, a LEDS_INVERT runs to its end before any other context gets a turn, as in the
      interrupt of the highest priority, or with interrupts disabled around it. */
  predicate InvertsWhole(b: Board, s: Machine, schedule: seq<nat>)
    decreases |schedule|
  {
    schedule != [] ==>
      && (CanStep(s, schedule[0]) ==> OthersNotInverting(s, schedule[0]))
      && InvertsWhole(b, Step(b, s, schedule[0]), schedule[1..])
  }

  lemma {:induction false} WholeIsUndisturbed(b: Board, s: Machine, schedule: seq<nat>)
    requires InvertsWhole(b, s, schedule)
    ensures ReadsSettled(b, s, schedule) && forall p: Pin :: Undisturbed(b, s, schedule, p)
    decreases |schedule|
  {
    if schedule != [] {
      WholeIsUndisturbed(b, Step(b, s, schedule[0]), schedule[1..]);
    }
  }

  // ----- Results -----

  /** Whatever the polarities, the pins of one polarity end as if every call ran at one instant
      during its own run: the order in which calls take effect is a sequential order, and it yields
      those pins.  Calls may overlap, except that a pin flipped by LEDS_INVERT is left to its context. */
  lemma LinearizableOnPolarity(b: Board, out: set<Pin>, programs: seq<seq<Call>>, schedule: seq<nat>, phase: Phase)
    requires Finished(Run(b, Start(out, programs), schedule))
    ensures IsOrder(programs, CommitOrder(b, Start(out, programs), schedule, phase))
    ensures forall p: Pin :: Fits(b, programs, phase, p) && InvertPrivateOn(b, programs, p) ==>
              (p in Run(b, Start(out, programs), schedule).out <==>
               p in Serial(b, out, programs, CommitOrder(b, Start(out, programs), schedule, phase)))
  {
    CommitOrderIsOrder(b, out, programs, schedule, phase);
    assert Todos(Start(out, programs).threads) == programs;
    forall p: Pin | Fits(b, programs, phase, p) && InvertPrivateOn(b, programs, p)
      ensures p in Run(b, Start(out, programs), schedule).out <==>
              p in Serial(b, out, programs, CommitOrder(b, Start(out, programs), schedule, phase))
    {
      PrivateIsUndisturbed(b, Start(out, programs), schedule, p);
      PinIsSerial(b, out, programs, schedule, phase, p);
    }
  }

  /** All LEDs of LEDS_MASK have the same polarity; so it is in every board header that is shipped. */
  predicate Uniform(b: Board) {
    b.leds * b.inverted == {} || b.leds <= b.inverted
  }

  /** The write of LEDS_ON and LEDS_OFF that does all the work on such a board. */
  function UniformPhase(b: Board): Phase {
    if b.leds <= b.inverted then First else Second
  }

  lemma UniformFits(b: Board, programs: seq<seq<Call>>, p: Pin)
    requires Uniform(b)
    ensures Fits(b, programs, UniformPhase(b), p)
  {
    assert p in b.leds * b.inverted <==> p in b.leds && p in b.inverted;
  }

  /** On such a board, LEDS_INVERT of any masks and of LEDs shared in any way only has to run whole. */
  lemma WholeInvertsAreLinearizable(b: Board, out: set<Pin>, programs: seq<seq<Call>>, schedule: seq<nat>)
    requires Uniform(b) && InvertsWhole(b, Start(out, programs), schedule)
    requires Finished(Run(b, Start(out, programs), schedule))
    ensures var order := CommitOrder(b, Start(out, programs), schedule, UniformPhase(b));
            IsOrder(programs, order) && RunIs(b, out, programs, schedule, order)
  {
    forall p: Pin ensures Fits(b, programs, UniformPhase(b), p) {
      UniformFits(b, programs, p);
    }
    WholeIsUndisturbed(b, Start(out, programs), schedule);
    RunIsCommitOrder(b, out, programs, schedule, UniformPhase(b));
    CommitOrderIsOrder(b, out, programs, schedule, UniformPhase(b));
  }

  /** Of LEDS_INVERT of several LEDs, private to one context each, the end of a run is linearizable;
      a read may see such a call half done. */
  lemma UniformEndIsSerial(b: Board, out: set<Pin>, programs: seq<seq<Call>>, schedule: seq<nat>)
    requires Uniform(b) && InvertsPrivate(b, programs)
    requires Finished(Run(b, Start(out, programs), schedule))
    ensures var order := CommitOrder(b, Start(out, programs), schedule, UniformPhase(b));
            IsOrder(programs, order) && Serial(b, out, programs, order) == Run(b, Start(out, programs), schedule).out
  {
    LinearizableOnPolarity(b, out, programs, schedule, UniformPhase(b));
    var order := CommitOrder(b, Start(out, programs), schedule, UniformPhase(b));
    forall p: Pin ensures p in Run(b, Start(out, programs), schedule).out <==> p in Serial(b, out, programs, order) {
      UniformFits(b, programs, p);
    }
  }
}
