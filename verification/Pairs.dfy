/** Two LED calls made concurrently: what it means that they are atomic against each other, for
    contexts that preempt each other freely and for main code with an interrupt handler, whose call
    runs whole; the conditions on their masks; and that the conditions suffice under free preemption. */
module Pairs {
  import opened Words
  import opened LedCalls
  import opened Interleaving
  import opened Linearizability
  import opened Uninterrupted

  function Pair(x: Call, y: Call): seq<seq<Call>> {
    [[x], [y]]
  }

  /** OUT after `x`, then `y`. */
  function Then(b: Board, out: set<Pin>, x: Call, y: Call): set<Pin> {
    Effect(b, y, Effect(b, x, out))
  }

  /** OUT ends as after `x`, then `y`, and what either of them reads is what it reads then. */
  predicate FirstThenSecond(b: Board, x: Call, y: Call, out: set<Pin>, schedule: seq<nat>) {
    var s := Start(out, Pair(x, y));
    && Run(b, s, schedule).out == Then(b, out, x, y)
    && Reads(b, s, schedule, 0) == Answer(x, out)
    && Reads(b, s, schedule, 1) == Answer(y, Effect(b, x, out))
  }

  predicate SecondThenFirst(b: Board, x: Call, y: Call, out: set<Pin>, schedule: seq<nat>) {
    var s := Start(out, Pair(x, y));
    && Run(b, s, schedule).out == Then(b, out, y, x)
    && Reads(b, s, schedule, 0) == Answer(x, Effect(b, y, out))
    && Reads(b, s, schedule, 1) == Answer(y, out)
  }

  predicate EndsAsOneOrder(b: Board, x: Call, y: Call, out: set<Pin>, schedule: seq<nat>) {
    FirstThenSecond(b, x, y, out, schedule) || SecondThenFirst(b, x, y, out, schedule)
  }

  /** Every interleaving of the two calls, from every value of OUT, ends as one after the other. */
  ghost predicate AlwaysAtomic(b: Board, x: Call, y: Call) {
    forall out: set<Pin>, schedule: seq<nat> :: Finished(Run(b, Start(out, Pair(x, y)), schedule)) ==>
      EndsAsOneOrder(b, x, y, out, schedule)
  }

  /** The interrupt comes after `k` accesses of the main call, and its own call runs to the end. */
  function Nested(main: Call, isr: Call, k: nat): seq<nat>
    requires k <= Accesses(main)
  {
    Repeat(0, k) + (Repeat(1, Accesses(isr)) + Repeat(0, Accesses(main) - k))
  }

  /** Wherever the interrupt comes, from every value of OUT, it is as if one call ran after the other. */
  ghost predicate InterruptAtomic(b: Board, main: Call, isr: Call) {
    forall out: set<Pin>, k :: 0 <= k <= Accesses(main) ==> EndsAsOneOrder(b, main, isr, out, Nested(main, isr, k))
  }

  // ----- The conditions, read off the masks -----

  /** The pins on which the order of the two calls matters: those that both write, or that one writes
      and the other selects for a read. */
  function Contested(b: Board, x: Call, y: Call): set<Pin> {
    if x.Read? then x.mask * Footprint(b, y)
    else if y.Read? then y.mask * Footprint(b, x)
    else if (x.On? && y.On?) || (x.Off? && y.Off?) then {}
    else Footprint(b, x) * Footprint(b, y)
  }

  predicate OnePolarity(b: Board, pins: set<Pin>) {
    pins * b.inverted == {} || pins <= b.inverted
  }

  /** What may interrupt `main`:
      - LEDS_ON and LEDS_OFF: any call that contests LEDs of one polarity only;
      - LEDS_INVERT: another one if they share no pin, any other call if they share one pin at most;
      - a call of one access: everything. */
  predicate InterruptAllows(b: Board, main: Call, isr: Call) {
    match main
    case On(_) => OnePolarity(b, Contested(b, main, isr))
    case Off(_) => OnePolarity(b, Contested(b, main, isr))
    case Invert(_) => if isr.Invert? then Contested(b, main, isr) == {} else AtMostOne(Contested(b, main, isr))
    case PinWrite(_, _) => true
    case Read(_) => true
  }

  /** Either may interrupt the other. */
  predicate MasksAllow(b: Board, x: Call, y: Call) {
    InterruptAllows(b, x, y) && InterruptAllows(b, y, x)
  }

  // ----- Free preemption: the condition suffices -----

  lemma TwoOrders(b: Board, out: set<Pin>, x: Call, y: Call)
    ensures IsOrder(Pair(x, y), [0, 1]) && Serial(b, out, Pair(x, y), [0, 1]) == Then(b, out, x, y)
    ensures SerialReads(b, out, Pair(x, y), [0, 1], 0) == Answer(x, out)
    ensures SerialReads(b, out, Pair(x, y), [0, 1], 1) == Answer(y, Effect(b, x, out))
    ensures IsOrder(Pair(x, y), [1, 0]) && Serial(b, out, Pair(x, y), [1, 0]) == Then(b, out, y, x)
    ensures SerialReads(b, out, Pair(x, y), [1, 0], 0) == Answer(x, Effect(b, y, out))
    ensures SerialReads(b, out, Pair(x, y), [1, 0], 1) == Answer(y, out)
  {
    var none: seq<nat> := [];
    assert [0, 1][1..] == [1] && [1, 0][1..] == [0] && [0][1..] == none && [1][1..] == none;
  }

  lemma SomeCallFirst(programs: seq<seq<Call>>, order: seq<nat>, t: nat)
    requires t < |programs| && programs[t] != []
    ensures IsOrder(programs, order) ==> order != []
  {
    if order == [] {
      assert After(programs, order)[t] == programs[t];
    }
  }

  lemma OnlyTwoOrders(x: Call, y: Call, order: seq<nat>)
    requires IsOrder(Pair(x, y), order)
    ensures order == [0, 1] || order == [1, 0]
  {
    SomeCallFirst(Pair(x, y), order, 0);
    var t := order[0];
    var one := Pair(x, y)[t := Pair(x, y)[t][1..]];
    OrderTail(Pair(x, y), order);
    assert one[t] == [] && one[1 - t] != [];
    SomeCallFirst(one, order[1..], 1 - t);
    var u := order[1..][0];
    var none := one[u := one[u][1..]];
    OrderTail(one, order[1..]);
    assert u < |one| && one[u] != [] && |one[u]| == 1;
    assert u == 1 - t && |none| == 2 && none[t] == [] && |none[u]| == 0;
    assert order[1..][1..] == [] by {
      assert Runnable(none, order[1..][1..]);
    }
  }

  lemma TouchesOne(b: Board, x: Call, p: Pin)
    ensures Touches(b, [x], p) <==> p in Footprint(b, x)
  {
  }

  lemma {:induction false} NoReadsByOthers(b: Board, s: Machine, schedule: seq<nat>, t: nat)
    requires t < |s.threads| && forall call :: call in s.threads[t].todo ==> !call.Read?
    ensures Reads(b, s, schedule, t) == []
    decreases |schedule|
  {
    if schedule != [] {
      NoReadsByOthers(b, Step(b, s, schedule[0]), schedule[1..], t);
    }
  }

  /** For calls that read nothing, what OUT ends as is all that counts. */
  lemma EndsByOut(b: Board, x: Call, y: Call, out: set<Pin>, schedule: seq<nat>)
    requires !x.Read? && !y.Read?
    ensures var result := Run(b, Start(out, Pair(x, y)), schedule).out;
            EndsAsOneOrder(b, x, y, out, schedule) <==> result == Then(b, out, x, y) || result == Then(b, out, y, x)
  {
    var s := Start(out, Pair(x, y));
    NoReadsByOthers(b, s, schedule, 0);
    NoReadsByOthers(b, s, schedule, 1);
  }

  /** Outside the shared pins the outcome is that of either order. */
  lemma UnsharedPin(b: Board, x: Call, y: Call, out: set<Pin>, schedule: seq<nat>, p: Pin)
    requires Finished(Run(b, Start(out, Pair(x, y)), schedule))
    requires p !in Footprint(b, x) * Footprint(b, y)
    ensures var result := Run(b, Start(out, Pair(x, y)), schedule).out;
            (p in result <==> p in Then(b, out, x, y)) && (p in result <==> p in Then(b, out, y, x))
  {
    TouchesOne(b, x, p);
    TouchesOne(b, y, p);
    TwoOrders(b, out, x, y);
    OneToucherConfluent(b, out, Pair(x, y), schedule, [0, 1], p);
    OneToucherConfluent(b, out, Pair(x, y), schedule, [1, 0], p);
  }

  /** LEDS_INVERT and LEDS_ON or LEDS_OFF end oppositely, in the two orders, on a shared pin; so any
      value of the pin is right for one of them. */
  lemma SharedPinHasBothValues(b: Board, x: Call, y: Call, out: set<Pin>, p: Pin)
    requires x.Invert? != y.Invert?
    requires p in Footprint(b, x) * Footprint(b, y)
    ensures p in Then(b, out, x, y) <==> p !in Then(b, out, y, x)
  {
  }

  lemma InvertPairAtomic(b: Board, x: Call, y: Call, out: set<Pin>, schedule: seq<nat>)
    requires (x.Invert? || y.Invert?) && !x.Read? && !y.Read?
    requires MasksAllow(b, x, y)
    requires Finished(Run(b, Start(out, Pair(x, y)), schedule))
    ensures EndsAsOneOrder(b, x, y, out, schedule)
  {
    var result := Run(b, Start(out, Pair(x, y)), schedule).out;
    var shared := Footprint(b, x) * Footprint(b, y);
    EndsByOut(b, x, y, out, schedule);
    forall p: Pin | p !in shared
      ensures (p in result <==> p in Then(b, out, x, y)) && (p in result <==> p in Then(b, out, y, x))
    {
      UnsharedPin(b, x, y, out, schedule, p);
    }
    if q :| q in shared {
      assert AtMostOne(shared) by {
        assert Contested(b, x, y) == Contested(b, y, x) == shared;
      }
      SharedPinHasBothValues(b, x, y, out, q);
      if q in result <==> q in Then(b, out, x, y) {
        assert result == Then(b, out, x, y);
      } else {
        assert result == Then(b, out, y, x);
      }
    } else {
      assert result == Then(b, out, x, y);
    }
  }

  lemma NoInvertsArePrivate(b: Board, programs: seq<seq<Call>>)
    requires NoInverts(programs)
    ensures InvertsPrivate(b, programs)
  {
  }

  lemma UncontestedPin(b: Board, x: Call, y: Call, out: set<Pin>, p: Pin)
    requires !x.Invert? && !y.Invert? && !x.Read? && !y.Read?
    requires p !in Contested(b, x, y)
    ensures p in Then(b, out, x, y) <==> p in Then(b, out, y, x)
  {
  }

  predicate NoInverts(programs: seq<seq<Call>>) {
    forall t, call :: 0 <= t < |programs| && call in programs[t] ==> !call.Invert?
  }

  lemma OnOffPairAtomic(b: Board, x: Call, y: Call, out: set<Pin>, schedule: seq<nat>)
    requires !x.Invert? && !y.Invert? && !x.Read? && !y.Read?
    requires OnePolarity(b, Contested(b, x, y))
    requires Finished(Run(b, Start(out, Pair(x, y)), schedule))
    ensures EndsAsOneOrder(b, x, y, out, schedule)
  {
    var result := Run(b, Start(out, Pair(x, y)), schedule).out;
    var phase := if Contested(b, x, y) <= b.inverted then First else Second;
    var other := if phase.First? then Second else First;
    NoInvertsArePrivate(b, Pair(x, y));
    LinearizableOnPolarity(b, out, Pair(x, y), schedule, phase);
    LinearizableOnPolarity(b, out, Pair(x, y), schedule, other);
    var order := CommitOrder(b, Start(out, Pair(x, y)), schedule, phase);
    OnlyTwoOrders(x, y, order);
    OnlyTwoOrders(x, y, CommitOrder(b, Start(out, Pair(x, y)), schedule, other));
    TwoOrders(b, out, x, y);
    forall p: Pin ensures p in result <==> p in Serial(b, out, Pair(x, y), order) {
      if (p in b.inverted) != phase.First? {
        assert Fits(b, Pair(x, y), other, p);
        assert p !in Contested(b, x, y) by {
          assert p in Contested(b, x, y) * b.inverted <==> p in Contested(b, x, y) && p in b.inverted;
        }
        UncontestedPin(b, x, y, out, p);
      } else {
        assert Fits(b, Pair(x, y), phase, p);
      }
    }
    assert result == Serial(b, out, Pair(x, y), order);
    EndsByOut(b, x, y, out, schedule);
  }

  lemma MidwayIsEffect(b: Board, call: Call, out: set<Pin>)
    ensures Midway(b, call, Accesses(call), out) == Effect(b, call, out)
  {
    AccessesMakeEffect(b, call, out, out);
    if call.Invert? {
      assert Midway(b, call, 1, out) == Access(b, call, 0, out, out) == out;
      assert Midway(b, call, 3, out) == Access(b, call, 2, Midway(b, call, 2, out), out);
    } else if Accesses(call) == 2 {
      assert Midway(b, call, 1, out) == Access(b, call, 0, out, out);
      assert Midway(b, call, 2, out) == Access(b, call, 1, Midway(b, call, 1, out), out);
    }
  }

  /** The thread, alone in writing, has made `k` accesses of its one call. */
  predicate WriterAt(b: Board, s: Machine, w: nat, writer: Call, k: nat, out: set<Pin>) {
    && w < |s.threads| && k <= Accesses(writer) && s.out == Midway(b, writer, k, out)
    && if k < Accesses(writer) then s.threads[w] == Thread([writer], k, if k == 0 then {} else out) else s.threads[w].todo == []
  }

  lemma WriterSteps(b: Board, s: Machine, w: nat, writer: Call, k: nat, out: set<Pin>)
    requires WriterAt(b, s, w, writer, k, out)
    ensures WriterAt(b, Step(b, s, w), w, writer, if k < Accesses(writer) then k + 1 else k, out)
  {
    if k < Accesses(writer) {
      StepOneCall(b, s, w, writer);
    }
  }

  /** A read next to one other call returns the selected bits of OUT after some access of that call. */
  lemma {:induction false} ReadSeesMidway(b: Board, s: Machine, schedule: seq<nat>, r: nat, read: Call, writer: Call, k: nat, out: set<Pin>)
    returns (j: nat)
    requires r < 2 == |s.threads| && read.Read? && s.threads[r] == Fresh([read])
    requires WriterAt(b, s, 1 - r, writer, k, out)
    requires Finished(Run(b, s, schedule))
    ensures j <= Accesses(writer) && Reads(b, s, schedule, r) == Answer(read, Midway(b, writer, j, out))
    decreases |schedule|
  {
    var u, s', rest := schedule[0], Step(b, s, schedule[0]), schedule[1..];
    if u == r {
      j := k;
      StepOneCall(b, s, r, read);
      NoReadsByOthers(b, s', rest, r);
    } else if u == 1 - r {
      WriterSteps(b, s, 1 - r, writer, k, out);
      j := ReadSeesMidway(b, s', rest, r, read, writer, if k < Accesses(writer) then k + 1 else k, out);
    } else {
      j := ReadSeesMidway(b, s', rest, r, read, writer, k, out);
    }
  }

  /** If the masks allow it, the selected bits are always those before the call or those after it. */
  lemma MidwaySeen(b: Board, writer: Call, read: Call, k: nat, out: set<Pin>)
    requires read.Read? && InterruptAllows(b, writer, read) && k <= Accesses(writer)
    ensures read.mask * Midway(b, writer, k, out) == read.mask * out
            || read.mask * Midway(b, writer, k, out) == read.mask * Effect(b, writer, out)
  {
    if k == Accesses(writer) {
      MidwayIsEffect(b, writer, out);
    } else if writer.Invert? && k == 2 {
      MidwayOfInvert(b, writer, read.mask, out);
    } else if (writer.On? || writer.Off?) && k == 1 {
      MidwayOfOnOff(b, writer, read.mask, out);
    } else if k == 1 {
      assert Midway(b, writer, 1, out) == Access(b, writer, 0, out, out) == out;
    }
  }

  lemma MidwayOfInvert(b: Board, writer: Call, mask: set<Pin>, out: set<Pin>)
    requires writer.Invert? && AtMostOne(mask * writer.mask)
    ensures mask * Midway(b, writer, 2, out) == mask * if mask * writer.mask <= out then out else Effect(b, writer, out)
  {
    assert Midway(b, writer, 1, out) == Access(b, writer, 0, out, out) == out;
    assert Midway(b, writer, 2, out) == Access(b, writer, 1, out, out);
    forall p: Pin | p in mask
      ensures p in Midway(b, writer, 2, out) <==> p in if mask * writer.mask <= out then out else Effect(b, writer, out)
    {
      assert p in mask * writer.mask <==> p in writer.mask;
      assert p in writer.mask ==> (mask * writer.mask <= out <==> p in out);
    }
  }

  lemma MidwayOfOnOff(b: Board, writer: Call, mask: set<Pin>, out: set<Pin>)
    requires (writer.On? || writer.Off?) && OnePolarity(b, mask * Footprint(b, writer))
    ensures mask * Midway(b, writer, 1, out) ==
            mask * if mask * Footprint(b, writer) <= b.inverted then Effect(b, writer, out) else out
  {
    assert Midway(b, writer, 1, out) == Access(b, writer, 0, out, out);
    forall p: Pin | p in mask
      ensures p in Midway(b, writer, 1, out) <==>
              p in if mask * Footprint(b, writer) <= b.inverted then Effect(b, writer, out) else out
    {
      assert p in mask * Footprint(b, writer) * b.inverted <==> p in Footprint(b, writer) && p in b.inverted;
    }
  }

  /** A read next to a call whose masks allow it. */
  lemma ReadPairAtomic(b: Board, x: Call, y: Call, out: set<Pin>, schedule: seq<nat>)
    requires x.Read? || y.Read?
    requires MasksAllow(b, x, y)
    requires Finished(Run(b, Start(out, Pair(x, y)), schedule))
    ensures EndsAsOneOrder(b, x, y, out, schedule)
  {
    var s := Start(out, Pair(x, y));
    forall p: Pin ensures p in Run(b, s, schedule).out <==> p in Then(b, out, x, y) {
      UnsharedPin(b, x, y, out, schedule, p);
    }
    assert Run(b, s, schedule).out == Then(b, out, x, y) == Then(b, out, y, x);
    if x.Read? {
      var j := ReadSeesMidway(b, s, schedule, 0, x, y, 0, out);
      MidwaySeen(b, y, x, j, out);
    } else {
      NoReadsByOthers(b, s, schedule, 0);
    }
    if y.Read? {
      var j := ReadSeesMidway(b, s, schedule, 1, y, x, 0, out);
      MidwaySeen(b, x, y, j, out);
    } else {
      NoReadsByOthers(b, s, schedule, 1);
    }
  }

  lemma MasksSuffice(b: Board, x: Call, y: Call, out: set<Pin>, schedule: seq<nat>)
    requires MasksAllow(b, x, y)
    requires Finished(Run(b, Start(out, Pair(x, y)), schedule))
    ensures EndsAsOneOrder(b, x, y, out, schedule)
  {
    if x.Read? || y.Read? {
      ReadPairAtomic(b, x, y, out, schedule);
    } else if x.Invert? || y.Invert? {
      InvertPairAtomic(b, x, y, out, schedule);
    } else {
      ContestedIsSymmetric(b, x, y);
      OnOffPairAtomic(b, x, y, out, schedule);
    }
  }

  lemma ContestedIsSymmetric(b: Board, x: Call, y: Call)
    ensures Contested(b, x, y) == Contested(b, y, x)
    ensures x.PinWrite? || y.PinWrite? ==> OnePolarity(b, Contested(b, x, y)) && AtMostOne(Contested(b, x, y))
  {
  }
}
