/** Several contexts, such as main code and interrupt handlers, make LED calls on the one output
    register.  Each call is a few separate register accesses, and a schedule decides whose access
    comes next. */
module Interleaving {
  import opened Words
  import opened LedCalls

  /** One context: the calls it still has to finish, how many accesses of the first of them are
      done, and the copy of OUT that call took if it is a LEDS_INVERT. */
  datatype Thread = Thread(todo: seq<Call>, pc: nat, snap: set<Pin>)

  datatype Machine = Machine(out: set<Pin>, threads: seq<Thread>)

  function Fresh(program: seq<Call>): Thread {
    Thread(program, 0, {})
  }

  function Start(out: set<Pin>, programs: seq<seq<Call>>): Machine {
    Machine(out, seq(|programs|, i requires 0 <= i < |programs| => Fresh(programs[i])))
  }

  predicate CanStep(s: Machine, t: nat) {
    t < |s.threads| && s.threads[t].todo != []
  }

  function StepThread(th: Thread, out: set<Pin>): Thread
    requires th.todo != []
  {
    var call := th.todo[0];
    if th.pc + 1 < Accesses(call) then
      Thread(th.todo, th.pc + 1, if th.pc == 0 then out else th.snap)
    else
      Thread(th.todo[1..], 0, th.snap)
  }

  /** Thread `t` makes its next register access; nothing happens if it has none left. */
  function Step(b: Board, s: Machine, t: nat): Machine {
    if CanStep(s, t) then
      var th := s.threads[t];
      Machine(Access(b, th.todo[0], th.pc, s.out, th.snap), s.threads[t := StepThread(th, s.out)])
    else
      s
  }

  function Run(b: Board, s: Machine, schedule: seq<nat>): Machine
    decreases |schedule|
  {
    if schedule == [] then s else Run(b, Step(b, s, schedule[0]), schedule[1..])
  }

  predicate Finished(s: Machine) {
    forall t :: 0 <= t < |s.threads| ==> s.threads[t].todo == []
  }

  /** What thread `t` reads when the next access is that of thread `u`. */
  function ReadNow(s: Machine, u: nat, t: nat): seq<set<Pin>> {
    if u == t && CanStep(s, u) then Answer(s.threads[u].todo[0], s.out) else []
  }

  /** The values of OUT that the reads of thread `t` return during a run. */
  function Reads(b: Board, s: Machine, schedule: seq<nat>, t: nat): seq<set<Pin>>
    decreases |schedule|
  {
    if schedule == [] then [] else ReadNow(s, schedule[0], t) + Reads(b, Step(b, s, schedule[0]), schedule[1..], t)
  }

  // ----- Sequential orders -----

  /** `order` names, call after call, the thread whose next call runs. */
  predicate Runnable(programs: seq<seq<Call>>, order: seq<nat>)
    decreases |order|
  {
    order != [] ==>
      && order[0] < |programs|
      && programs[order[0]] != []
      && Runnable(programs[order[0] := programs[order[0]][1..]], order[1..])
  }

  /** The calls that are left after an order. */
  function After(programs: seq<seq<Call>>, order: seq<nat>): (left: seq<seq<Call>>)
    requires Runnable(programs, order)
    ensures |left| == |programs|
    decreases |order|
  {
    if order == [] then programs else After(programs[order[0] := programs[order[0]][1..]], order[1..])
  }

  /** The order keeps the program order of every thread and leaves no call out. */
  predicate IsOrder(programs: seq<seq<Call>>, order: seq<nat>) {
    Runnable(programs, order) && forall t :: 0 <= t < |programs| ==> After(programs, order)[t] == []
  }

  lemma OrderTail(programs: seq<seq<Call>>, order: seq<nat>)
    requires IsOrder(programs, order) && order != []
    ensures IsOrder(programs[order[0] := programs[order[0]][1..]], order[1..])
  {
    var rest := programs[order[0] := programs[order[0]][1..]];
    assert After(programs, order) == After(rest, order[1..]);
    assert forall t :: 0 <= t < |rest| ==> After(rest, order[1..])[t] == After(programs, order)[t];
  }

  /** OUT after running whole calls, one at a time, in a given order. */
  function Serial(b: Board, out: set<Pin>, programs: seq<seq<Call>>, order: seq<nat>): set<Pin>
    requires Runnable(programs, order)
    decreases |order|
  {
    if order == [] then
      out
    else
      var t := order[0];
      Serial(b, Effect(b, programs[t][0], out), programs[t := programs[t][1..]], order[1..])
  }

  /** The values of OUT that the reads of thread `t` return then. */
  function SerialReads(b: Board, out: set<Pin>, programs: seq<seq<Call>>, order: seq<nat>, t: nat): seq<set<Pin>>
    requires Runnable(programs, order)
    decreases |order|
  {
    if order == [] then
      []
    else
      var u := order[0];
      (if u == t then Answer(programs[u][0], out) else [])
      + SerialReads(b, Effect(b, programs[u][0], out), programs[u := programs[u][1..]], order[1..], t)
  }

  lemma {:induction false} SerialAppend(b: Board, out: set<Pin>, programs: seq<seq<Call>>, first: seq<nat>, second: seq<nat>)
    requires Runnable(programs, first) && Runnable(After(programs, first), second)
    ensures Runnable(programs, first + second)
    ensures After(programs, first + second) == After(After(programs, first), second)
    ensures Serial(b, out, programs, first + second) == Serial(b, Serial(b, out, programs, first), After(programs, first), second)
    ensures forall t :: SerialReads(b, out, programs, first + second, t) ==
              SerialReads(b, out, programs, first, t) + SerialReads(b, Serial(b, out, programs, first), After(programs, first), second, t)
    decreases |first|
  {
    if first == [] {
      assert first + second == second;
    } else {
      var u := first[0];
      assert (first + second)[0] == u && (first + second)[1..] == first[1..] + second;
      SerialAppend(b, Effect(b, programs[u][0], out), programs[u := programs[u][1..]], first[1..], second);
    }
  }

  /** One more call at the end. */
  lemma SerialAppendOne(b: Board, out: set<Pin>, programs: seq<seq<Call>>, order: seq<nat>, t: nat)
    requires Runnable(programs, order) && t < |programs| && After(programs, order)[t] != []
    ensures var left := After(programs, order);
            && Runnable(programs, order + [t])
            && After(programs, order + [t]) == left[t := left[t][1..]]
            && Serial(b, out, programs, order + [t]) == Effect(b, left[t][0], Serial(b, out, programs, order))
            && forall u :: SerialReads(b, out, programs, order + [t], u) ==
                 SerialReads(b, out, programs, order, u) + if u == t then Answer(left[t][0], Serial(b, out, programs, order)) else []
  {
    var left := After(programs, order);
    var none: seq<nat> := [];
    assert [t][1..] == none;
    var v, rest := Serial(b, out, programs, order), left[t := left[t][1..]];
    var w := Effect(b, left[t][0], v);
    assert Runnable(rest, none) && After(rest, none) == rest && Serial(b, w, rest, none) == w;
    assert forall u :: SerialReads(b, w, rest, none, u) == [];
    assert forall u :: SerialReads(b, v, left, [t], u) == if u == t then Answer(left[t][0], v) else [];
    SerialAppend(b, out, programs, order, [t]);
  }

  /** OUT after one program alone. */
  function SerialProgram(b: Board, out: set<Pin>, program: seq<Call>): set<Pin>
    decreases |program|
  {
    if program == [] then out else SerialProgram(b, Effect(b, program[0], out), program[1..])
  }

  /** A run could have been this sequential order: OUT ends the same, and every read of every thread
      returns the same. */
  ghost predicate RunIs(b: Board, out: set<Pin>, programs: seq<seq<Call>>, schedule: seq<nat>, order: seq<nat>)
    requires Runnable(programs, order)
  {
    && Run(b, Start(out, programs), schedule).out == Serial(b, out, programs, order)
    && forall t :: 0 <= t < |programs| ==>
         Reads(b, Start(out, programs), schedule, t) == SerialReads(b, out, programs, order, t)
  }

  /** The run could have been some sequential order of all the calls. */
  ghost predicate Linearizable(b: Board, out: set<Pin>, programs: seq<seq<Call>>, schedule: seq<nat>) {
    exists order :: IsOrder(programs, order) && RunIs(b, out, programs, schedule, order)
  }

  // ----- Every run can be completed -----

  lemma {:induction false} RunAppend(b: Board, s: Machine, first: seq<nat>, second: seq<nat>)
    ensures Run(b, s, first + second) == Run(b, Run(b, s, first), second)
    decreases |first|
  {
    if first == [] {
      assert first + second == second;
    } else {
      assert (first + second)[1..] == first[1..] + second;
      RunAppend(b, Step(b, s, first[0]), first[1..], second);
    }
  }

  lemma FinishThread(b: Board, s: Machine, t: nat) returns (schedule: seq<nat>)
    requires t < |s.threads|
    ensures var s' := Run(b, s, schedule);
            |s'.threads| == |s.threads| && s'.threads[t].todo == []
            && forall j :: 0 <= j < |s.threads| && j != t ==> s'.threads[j] == s.threads[j]
    decreases |s.threads[t].todo|, 3 - s.threads[t].pc
  {
    schedule := [];
    if s.threads[t].todo != [] {
      var rest := FinishThread(b, Step(b, s, t), t);
      schedule := [t] + rest;
      assert schedule[1..] == rest;
    }
  }

  lemma FinishFrom(b: Board, s: Machine, t: nat) returns (schedule: seq<nat>)
    requires t <= |s.threads|
    requires forall j :: 0 <= j < t ==> s.threads[j].todo == []
    ensures Finished(Run(b, s, schedule))
    decreases |s.threads| - t
  {
    schedule := [];
    if t < |s.threads| {
      var now := FinishThread(b, s, t);
      var later := FinishFrom(b, Run(b, s, now), t + 1);
      schedule := now + later;
      RunAppend(b, s, now, later);
    }
  }

  /** From every point of every run, all calls can still be completed. */
  lemma EveryRunCanFinish(b: Board, s: Machine, soFar: seq<nat>)
    ensures exists more :: Finished(Run(b, s, soFar + more))
  {
    var more := FinishFrom(b, Run(b, s, soFar), 0);
    RunAppend(b, s, soFar, more);
  }

  // ----- Calls with disjoint footprints -----

  predicate Touches(b: Board, program: seq<Call>, p: Pin) {
    exists call :: call in program && p in Footprint(b, call)
  }

  /** At most one of the programs touches `p`. */
  predicate OneToucher(b: Board, programs: seq<seq<Call>>, p: Pin) {
    forall i, j :: 0 <= i < |programs| && 0 <= j < |programs| && i != j ==>
      !(Touches(b, programs[i], p) && Touches(b, programs[j], p))
  }

  /** No two programs touch a common pin. */
  predicate Disjoint(b: Board, programs: seq<seq<Call>>) {
    forall p: Pin :: OneToucher(b, programs, p)
  }

  /** Only thread `t` has calls that touch `p`. */
  predicate OnlyTouchedBy(b: Board, s: Machine, t: nat, p: Pin) {
    forall j :: 0 <= j < |s.threads| && j != t ==> !Touches(b, s.threads[j].todo, p)
  }

  /** OUT after the rest of a thread ran with no one else. */
  function Alone(b: Board, out: set<Pin>, th: Thread): set<Pin>
    decreases |th.todo|, 3 - th.pc
  {
    if th.todo == [] then
      out
    else
      Alone(b, Access(b, th.todo[0], th.pc, out, th.snap), StepThread(th, out))
  }

  lemma {:induction false} AloneIsLocal(b: Board, out: set<Pin>, out': set<Pin>, th: Thread, snap': set<Pin>, p: Pin)
    requires p in out <==> p in out'
    requires p in th.snap <==> p in snap'
    ensures p in Alone(b, out, th) <==> p in Alone(b, out', th.(snap := snap'))
    decreases |th.todo|, 3 - th.pc
  {
    if th.todo != [] {
      var th' := th.(snap := snap');
      AccessIsLocal(b, th.todo[0], th.pc, out, out', th.snap, snap', p);
      AloneIsLocal(b, Access(b, th.todo[0], th.pc, out, th.snap), Access(b, th'.todo[0], th'.pc, out', th'.snap),
                   StepThread(th, out), StepThread(th', out').snap, p);
    }
  }

  /** A thread that runs alone makes its calls one after the other. */
  lemma {:induction false} AloneIsSerial(b: Board, out: set<Pin>, th: Thread)
    requires th.pc == 0
    ensures Alone(b, out, th) == SerialProgram(b, out, th.todo)
    decreases |th.todo|
  {
    if th.todo != [] {
      var call := th.todo[0];
      var out1, th1 := Access(b, call, 0, out, th.snap), StepThread(th, out);
      assert Alone(b, out, th) == Alone(b, out1, th1);
      AccessesMakeEffect(b, call, out, th1.snap);
      if call.PinWrite? || call.Read? {
        AloneIsSerial(b, out1, th1);
      } else {
        var out2, th2 := Access(b, call, 1, out1, th1.snap), StepThread(th1, out1);
        assert Alone(b, out1, th1) == Alone(b, out2, th2);
        if call.Invert? {
          var out3, th3 := Access(b, call, 2, out2, th2.snap), StepThread(th2, out2);
          assert Alone(b, out2, th2) == Alone(b, out3, th3);
          AloneIsSerial(b, out3, th3);
        } else {
          AloneIsSerial(b, out2, th2);
        }
      }
    }
  }

  lemma StepKeepsTodo(b: Board, s: Machine, t: nat, j: nat, p: Pin)
    requires j < |s.threads|
    ensures |Step(b, s, t).threads| == |s.threads|
    ensures Touches(b, Step(b, s, t).threads[j].todo, p) ==> Touches(b, s.threads[j].todo, p)
  {
  }

  /** What a pin ends as is decided by the one thread that touches it, run alone. */
  lemma {:induction false} RunOnPinIsAlone(b: Board, s: Machine, schedule: seq<nat>, t: nat, p: Pin)
    requires t < |s.threads| && OnlyTouchedBy(b, s, t, p)
    requires Finished(Run(b, s, schedule))
    ensures p in Run(b, s, schedule).out <==> p in Alone(b, s.out, s.threads[t])
    decreases |schedule|
  {
    if schedule != [] {
      var u := schedule[0];
      var s' := Step(b, s, u);
      forall j | 0 <= j < |s.threads| && j != t ensures !Touches(b, s'.threads[j].todo, p) {
        StepKeepsTodo(b, s, u, j, p);
      }
      RunOnPinIsAlone(b, s', schedule[1..], t, p);
      if CanStep(s, u) && u != t {
        var th := s.threads[u];
        assert th.todo[0] in th.todo;
        AccessIsLocal(b, th.todo[0], th.pc, s.out, s.out, th.snap, th.snap, p);
        AloneIsLocal(b, s.out, s'.out, s.threads[t], s.threads[t].snap, p);
      }
    }
  }

  lemma {:induction false} SerialProgramIsLocal(b: Board, out: set<Pin>, out': set<Pin>, program: seq<Call>, p: Pin)
    requires p in out <==> p in out'
    ensures p in SerialProgram(b, out, program) <==> p in SerialProgram(b, out', program)
    decreases |program|
  {
    if program != [] {
      EffectIsLocal(b, program[0], out, out', p);
      SerialProgramIsLocal(b, Effect(b, program[0], out), Effect(b, program[0], out'), program[1..], p);
    }
  }

  lemma {:induction false} SerialOnPinIsAlone(b: Board, out: set<Pin>, programs: seq<seq<Call>>, order: seq<nat>, t: nat, p: Pin)
    requires IsOrder(programs, order)
    requires t < |programs|
    requires forall j :: 0 <= j < |programs| && j != t ==> !Touches(b, programs[j], p)
    ensures p in Serial(b, out, programs, order) <==> p in SerialProgram(b, out, programs[t])
    decreases |order|
  {
    if order == [] {
      assert After(programs, order)[t] == [];
    } else {
      var u := order[0];
      var call := programs[u][0];
      var programs' := programs[u := programs[u][1..]];
      assert call in programs[u];
      OrderTail(programs, order);
      SerialOnPinIsAlone(b, Effect(b, call, out), programs', order[1..], t, p);
      if u != t {
        EffectIsLocal(b, call, out, out, p);
        SerialProgramIsLocal(b, Effect(b, call, out), out, programs[t], p);
      }
    }
  }

  lemma {:induction false} NoThreads(b: Board, s: Machine, schedule: seq<nat>)
    requires s.threads == []
    ensures Run(b, s, schedule) == s
    decreases |schedule|
  {
    if schedule != [] {
      NoThreads(b, s, schedule[1..]);
    }
  }

  /** A pin that at most one context touches ends as in every sequential order. */
  lemma OneToucherConfluent(b: Board, out: set<Pin>, programs: seq<seq<Call>>, schedule: seq<nat>, order: seq<nat>, p: Pin)
    requires OneToucher(b, programs, p)
    requires Finished(Run(b, Start(out, programs), schedule))
    requires IsOrder(programs, order)
    ensures p in Run(b, Start(out, programs), schedule).out <==> p in Serial(b, out, programs, order)
  {
    var s := Start(out, programs);
    if |programs| == 0 {
      NoThreads(b, s, schedule);
    } else {
      var t := 0;
      if u :| 0 <= u < |programs| && Touches(b, programs[u], p) {
        t := u;
      }
      RunOnPinIsAlone(b, s, schedule, t, p);
      AloneIsSerial(b, out, s.threads[t]);
      SerialOnPinIsAlone(b, out, programs, order, t, p);
    }
  }

  /** Contexts whose LEDs are disjoint cannot disturb each other: however their register accesses
      interleave, OUT ends as in every sequential order.  This covers LEDS_INVERT, although it works
      on a copy of OUT that may be out of date. */
  lemma DisjointCallsConfluent(b: Board, out: set<Pin>, programs: seq<seq<Call>>, schedule: seq<nat>, order: seq<nat>)
    requires Disjoint(b, programs)
    requires Finished(Run(b, Start(out, programs), schedule))
    requires IsOrder(programs, order)
    ensures Run(b, Start(out, programs), schedule).out == Serial(b, out, programs, order)
  {
    forall p: Pin
      ensures p in Run(b, Start(out, programs), schedule).out <==> p in Serial(b, out, programs, order)
    {
      OneToucherConfluent(b, out, programs, schedule, order, p);
    }
  }
}
