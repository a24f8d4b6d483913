/** Some pins seen alone.  A run looks, on the pins of a view, like the run of the same programs with
    all masks cut down to the view; so what is proved of the cut programs holds on the view. */
module Views {
  import opened Words
  import opened LedCalls
  import opened Interleaving
  import opened Linearizability
  import opened SharedToggles

  function Cut(call: Call, view: set<Pin>): Call {
    match call
    case On(m) => On(m * view)
    case Off(m) => Off(m * view)
    case Invert(m) => Invert(m * view)
    case PinWrite(p, high) => call
    case Read(m) => Read(m * view)
  }

  function CutProgram(program: seq<Call>, view: set<Pin>): seq<Call> {
    seq(|program|, i requires 0 <= i < |program| => Cut(program[i], view))
  }

  function CutAll(programs: seq<seq<Call>>, view: set<Pin>): seq<seq<Call>> {
    seq(|programs|, t requires 0 <= t < |programs| => CutProgram(programs[t], view))
  }

  /** What is seen of the values that were read. */
  function Seen(values: seq<set<Pin>>, view: set<Pin>): seq<set<Pin>> {
    seq(|values|, i requires 0 <= i < |values| => values[i] * view)
  }

  lemma SeenAppend(first: seq<set<Pin>>, second: seq<set<Pin>>, view: set<Pin>)
    ensures Seen(first + second, view) == Seen(first, view) + Seen(second, view)
  {
  }

  /** The same on the view, with the calls cut down. */
  predicate AlikeThreads(th: Thread, cut: Thread, view: set<Pin>) {
    cut.todo == CutProgram(th.todo, view) && cut.pc == th.pc && cut.snap * view == th.snap * view
  }

  predicate Alike(s: Machine, cut: Machine, view: set<Pin>) {
    && cut.out * view == s.out * view
    && |cut.threads| == |s.threads|
    && forall t :: 0 <= t < |s.threads| ==> AlikeThreads(s.threads[t], cut.threads[t], view)
  }

  lemma CutOnPin(b: Board, call: Call, pc: nat, out: set<Pin>, cutOut: set<Pin>, snap: set<Pin>, cutSnap: set<Pin>, view: set<Pin>, p: Pin)
    requires p in view && (p in out <==> p in cutOut) && (p in snap <==> p in cutSnap)
    ensures p in Access(b, call, pc, out, snap) <==> p in Access(b, Cut(call, view), pc, cutOut, cutSnap)
    ensures p in Effect(b, call, out) <==> p in Effect(b, Cut(call, view), cutOut)
  {
  }

  lemma CutCall(b: Board, call: Call, pc: nat, out: set<Pin>, cutOut: set<Pin>, snap: set<Pin>, cutSnap: set<Pin>, view: set<Pin>)
    requires cutOut * view == out * view && cutSnap * view == snap * view
    ensures Access(b, Cut(call, view), pc, cutOut, cutSnap) * view == Access(b, call, pc, out, snap) * view
    ensures Effect(b, Cut(call, view), cutOut) * view == Effect(b, call, out) * view
    ensures Accesses(Cut(call, view)) == Accesses(call)
    ensures Answer(Cut(call, view), cutOut) == Seen(Answer(call, out), view)
  {
    forall p: Pin | p in view
      ensures p in Access(b, call, pc, out, snap) <==> p in Access(b, Cut(call, view), pc, cutOut, cutSnap)
      ensures p in Effect(b, call, out) <==> p in Effect(b, Cut(call, view), cutOut)
    {
      SameOnPin(out, cutOut, view, p);
      SameOnPin(snap, cutSnap, view, p);
      CutOnPin(b, call, pc, out, cutOut, snap, cutSnap, view, p);
    }
    if call.Read? {
      assert call.mask * view * cutOut == call.mask * out * view;
    }
  }

  lemma SameOnPin(x: set<Pin>, y: set<Pin>, view: set<Pin>, p: Pin)
    requires x * view == y * view && p in view
    ensures p in x <==> p in y
  {
    assert p in x * view <==> p in y * view;
  }

  lemma StepAlike(b: Board, s: Machine, cut: Machine, view: set<Pin>, u: nat)
    requires Alike(s, cut, view)
    ensures Alike(Step(b, s, u), Step(b, cut, u), view)
    ensures forall t :: ReadNow(cut, u, t) == Seen(ReadNow(s, u, t), view)
  {
    if CanStep(s, u) {
      var th, cutTh := s.threads[u], cut.threads[u];
      assert AlikeThreads(th, cutTh, view);
      CutCall(b, th.todo[0], th.pc, s.out, cut.out, th.snap, cutTh.snap, view);
      assert CutProgram(th.todo, view)[1..] == CutProgram(th.todo[1..], view);
    }
  }

  lemma {:induction false} RunAlike(b: Board, s: Machine, cut: Machine, view: set<Pin>, schedule: seq<nat>)
    requires Alike(s, cut, view)
    ensures Alike(Run(b, s, schedule), Run(b, cut, schedule), view)
    ensures forall t :: Reads(b, cut, schedule, t) == Seen(Reads(b, s, schedule, t), view)
    decreases |schedule|
  {
    if schedule != [] {
      var u := schedule[0];
      StepAlike(b, s, cut, view, u);
      RunAlike(b, Step(b, s, u), Step(b, cut, u), view, schedule[1..]);
      forall t ensures Reads(b, cut, schedule, t) == Seen(Reads(b, s, schedule, t), view) {
        SeenAppend(ReadNow(s, u, t), Reads(b, Step(b, s, u), schedule[1..], t), view);
      }
    }
  }

  lemma CutAfterOne(programs: seq<seq<Call>>, view: set<Pin>, t: nat)
    requires t < |programs| && programs[t] != []
    ensures CutAll(programs, view)[t] != [] && CutAll(programs, view)[t][0] == Cut(programs[t][0], view)
    ensures CutAll(programs[t := programs[t][1..]], view) == CutAll(programs, view)[t := CutAll(programs, view)[t][1..]]
  {
    assert CutProgram(programs[t][1..], view) == CutProgram(programs[t], view)[1..];
  }

  /** The cut programs run in the same orders, and with the same result on the view. */
  lemma {:induction false} SerialAlike(b: Board, out: set<Pin>, cutOut: set<Pin>, programs: seq<seq<Call>>, view: set<Pin>, order: seq<nat>)
    requires cutOut * view == out * view
    requires Runnable(CutAll(programs, view), order)
    ensures Runnable(programs, order)
    ensures After(CutAll(programs, view), order) == CutAll(After(programs, order), view)
    ensures Serial(b, cutOut, CutAll(programs, view), order) * view == Serial(b, out, programs, order) * view
    ensures forall t :: SerialReads(b, cutOut, CutAll(programs, view), order, t) == Seen(SerialReads(b, out, programs, order, t), view)
    decreases |order|
  {
    if order != [] {
      var u, cut := order[0], CutAll(programs, view);
      assert |cut[u]| == |programs[u]|;
      CutAfterOne(programs, view, u);
      var call, rest := programs[u][0], programs[u := programs[u][1..]];
      CutCall(b, call, 0, out, cutOut, {}, {}, view);
      SerialAlike(b, Effect(b, call, out), Effect(b, Cut(call, view), cutOut), rest, view, order[1..]);
      forall t ensures SerialReads(b, cutOut, cut, order, t) == Seen(SerialReads(b, out, programs, order, t), view) {
        SeenAppend(if u == t then Answer(call, out) else [], SerialReads(b, Effect(b, call, out), rest, order[1..], t), view);
      }
    }
  }

  // ----- Results -----

  /** On the view, the run so far is this sequential order. */
  ghost predicate SeenAs(b: Board, view: set<Pin>, out: set<Pin>, programs: seq<seq<Call>>, soFar: seq<nat>, order: seq<nat>) {
    var s := Start(out, programs);
    && Runnable(programs, order)
    && Run(b, s, soFar).out * view == Serial(b, out, programs, order) * view
    && (forall t :: 0 <= t < |programs| ==>
         Seen(Reads(b, s, soFar, t), view) == Seen(SerialReads(b, out, programs, order, t), view))
    && (forall t :: 0 <= t < |programs| ==> DuringCall(programs, Run(b, s, soFar), order, t))
    && (Finished(Run(b, s, soFar)) ==> IsOrder(programs, order))
  }

  /** The order in which the calls take effect on the view. */
  function ViewOrder(b: Board, view: set<Pin>, out: set<Pin>, programs: seq<seq<Call>>, soFar: seq<nat>, more: seq<nat>, phase: Phase): seq<nat> {
    EffectOrder(b, Start(out, CutAll(programs, view)), soFar, more, phase)
  }

  lemma DuringCutCall(programs: seq<seq<Call>>, now: Machine, cutNow: Machine, order: seq<nat>, view: set<Pin>, t: nat)
    requires t < |programs| && Alike(now, cutNow, view) && DuringCall(CutAll(programs, view), cutNow, order, t)
    ensures DuringCall(programs, now, order, t)
  {
    assert AlikeThreads(now.threads[t], cutNow.threads[t], view);
  }

  lemma FinishedAlike(now: Machine, cutNow: Machine, view: set<Pin>)
    requires Alike(now, cutNow, view) && Finished(now)
    ensures Finished(cutNow)
  {
    forall t | 0 <= t < |now.threads| ensures cutNow.threads[t].todo == [] {
      assert AlikeThreads(now.threads[t], cutNow.threads[t], view);
    }
  }

  lemma OrderOfCut(programs: seq<seq<Call>>, order: seq<nat>, view: set<Pin>)
    requires Runnable(programs, order) && IsOrder(CutAll(programs, view), order)
    requires After(CutAll(programs, view), order) == CutAll(After(programs, order), view)
    ensures IsOrder(programs, order)
  {
    forall t | 0 <= t < |programs| ensures After(programs, order)[t] == [] {
      assert |CutAll(After(programs, order), view)[t]| == |After(programs, order)[t]|;
    }
  }

  lemma StartAlike(out: set<Pin>, programs: seq<seq<Call>>, view: set<Pin>)
    ensures Alike(Start(out, programs), Start(out, CutAll(programs, view)), view)
  {
  }

  /** If the programs are manageable on a view, then on that view every run is linearizable, at each of
      its points, in one order that respects real time. */
  lemma ViewIsLinearizable(b: Board, view: set<Pin>, out: set<Pin>, programs: seq<seq<Call>>, soFar: seq<nat>, more: seq<nat>, phase: Phase)
    requires Manageable(b, CutAll(programs, view), phase)
    ensures SeenAs(b, view, out, programs, soFar, ViewOrder(b, view, out, programs, soFar, more, phase))
    ensures ViewOrder(b, view, out, programs, soFar, more, phase) <= ViewOrder(b, view, out, programs, soFar + more, [], phase)
  {
    hide Run, Reads, Serial, SerialReads, EffectOrder, Manageable, Alike, DuringCall, Start, After, Runnable, Finished, IsOrder, Seen;
    var cut := CutAll(programs, view);
    var s, s' := Start(out, programs), Start(out, cut);
    var order := ViewOrder(b, view, out, programs, soFar, more, phase);
    ManageableIsLinearizable(b, out, cut, soFar, more, phase);
    StartAlike(out, programs, view);
    RunAlike(b, s, s', view, soFar);
    SerialAlike(b, out, out, programs, view, order);
    forall t | 0 <= t < |programs|
      ensures DuringCall(programs, Run(b, s, soFar), order, t)
      ensures Seen(Reads(b, s, soFar, t), view) == Seen(SerialReads(b, out, programs, order, t), view)
    {
      SharedToggles.TakesEffectDuringCall(b, out, cut, soFar, more, phase, t);
      DuringCutCall(programs, Run(b, s, soFar), Run(b, s', soFar), order, view, t);
    }
    if Finished(Run(b, s, soFar)) {
      FinishedAlike(Run(b, s, soFar), Run(b, s', soFar), view);
      OrderOfCut(programs, order, view);
    }
  }

  // ----- The pins of one polarity -----

  /** The LEDs on which the given write of LEDS_ON and LEDS_OFF acts, and all pins that are no LEDs. */
  function PolarityView(b: Board, phase: Phase): set<Pin> {
    set p: Pin | p in b.leds ==> (p in b.inverted <==> phase.First?)
  }

  /** On any board: the LEDs of one polarity are linearizable by themselves, toggles included. */
  lemma PolarityIsLinearizable(b: Board, out: set<Pin>, programs: seq<seq<Call>>, soFar: seq<nat>, more: seq<nat>, phase: Phase)
    requires OnePinInverts(CutAll(programs, PolarityView(b, phase))) && OneToggler(CutAll(programs, PolarityView(b, phase)))
    ensures var view := PolarityView(b, phase);
            SeenAs(b, view, out, programs, soFar, ViewOrder(b, view, out, programs, soFar, more, phase))
  {
    var view := PolarityView(b, phase);
    CutFits(b, programs, view, phase);
    ViewIsLinearizable(b, view, out, programs, soFar, more, phase);
  }

  lemma CutFits(b: Board, programs: seq<seq<Call>>, view: set<Pin>, phase: Phase)
    requires forall p: Pin :: p in view && p in b.leds ==> (p in b.inverted <==> phase.First?)
    ensures forall p: Pin :: Fits(b, CutAll(programs, view), phase, p)
  {
    forall p: Pin, t, call | 0 <= t < |programs| && call in CutAll(programs, view)[t] ensures CallFits(b, call, phase, p) {
      var i :| 0 <= i < |programs[t]| && call == Cut(programs[t][i], view);
    }
  }
}
