/** Stretches of a run in which one context takes all the steps. */
module Uninterrupted {
  import opened Words
  import opened LedCalls
  import opened Interleaving

  function Repeat(t: nat, n: nat): seq<nat> {
    if n == 0 then [] else [t] + Repeat(t, n - 1)
  }

  lemma {:induction false} ReadsAppend(b: Board, s: Machine, first: seq<nat>, second: seq<nat>, t: nat)
    ensures Reads(b, s, first + second, t) == Reads(b, s, first, t) + Reads(b, Run(b, s, first), second, t)
    decreases |first|
  {
    if first == [] {
      assert first + second == second;
    } else {
      assert (first + second)[1..] == first[1..] + second;
      ReadsAppend(b, Step(b, s, first[0]), first[1..], second, t);
    }
  }

  lemma {:induction false} ReadsOfOthers(b: Board, s: Machine, u: nat, n: nat, t: nat)
    requires t != u
    ensures Reads(b, s, Repeat(u, n), t) == []
    decreases n
  {
    if n > 0 {
      assert Repeat(u, n)[1..] == Repeat(u, n - 1);
      ReadsOfOthers(b, Step(b, s, u), u, n - 1, t);
    }
  }

  /** A step of a thread that has one call left. */
  lemma StepOneCall(b: Board, s: Machine, u: nat, call: Call)
    requires u < |s.threads| && s.threads[u].todo == [call]
    ensures var th := s.threads[u];
            Step(b, s, u) == Machine(
              Access(b, call, th.pc, s.out, th.snap),
              s.threads[u := if th.pc + 1 < Accesses(call) then Thread([call], th.pc + 1, if th.pc == 0 then s.out else th.snap)
                             else Thread([], 0, th.snap)])
  {
    assert [call][1..] == [];
  }

  /** The rest of a call, uninterrupted. */
  lemma {:induction false} RestOfCall(b: Board, s: Machine, u: nat, call: Call)
    requires u < |s.threads| && s.threads[u].todo == [call] && s.threads[u].pc < Accesses(call)
    ensures var th := s.threads[u];
            var s' := Run(b, s, Repeat(u, Accesses(call) - th.pc));
            && s'.out == Alone(b, s.out, th)
            && |s'.threads| == |s.threads| && s'.threads == s.threads[u := s'.threads[u]] && s'.threads[u].todo == []
            && Reads(b, s, Repeat(u, Accesses(call) - th.pc), u) == Answer(call, s.out)
    decreases Accesses(call) - s.threads[u].pc
  {
    var th, s' := s.threads[u], Step(b, s, u);
    StepOneCall(b, s, u, call);
    var schedule := Repeat(u, Accesses(call) - th.pc);
    assert schedule[0] == u && schedule[1..] == Repeat(u, Accesses(call) - th.pc - 1);
    if th.pc + 1 < Accesses(call) {
      RestOfCall(b, s', u, call);
    } else {
      assert schedule[1..] == [];
    }
  }

  lemma WholeCall(b: Board, call: Call, out: set<Pin>)
    ensures Alone(b, out, Fresh([call])) == Effect(b, call, out)
  {
    AloneIsSerial(b, out, Fresh([call]));
    var none: seq<Call> := [];
    assert [call][1..] == none;
    assert SerialProgram(b, Effect(b, call, out), none) == Effect(b, call, out);
  }

  /** OUT after the first `k` accesses of a call. */
  function Midway(b: Board, call: Call, k: nat, out: set<Pin>): set<Pin> {
    if k == 0 then out else Access(b, call, k - 1, Midway(b, call, k - 1, out), out)
  }

  /** The beginning of a call, uninterrupted. */
  lemma {:induction false} BeginningOfCall(b: Board, s: Machine, u: nat, call: Call, k: nat)
    requires u < |s.threads| && s.threads[u] == Fresh([call]) && k < Accesses(call)
    ensures var s' := Run(b, s, Repeat(u, k));
            && s'.out == Midway(b, call, k, s.out)
            && s'.threads == s.threads[u := Thread([call], k, if k == 0 then {} else s.out)]
            && Reads(b, s, Repeat(u, k), u) == []
    decreases k
  {
    if k > 0 {
      BeginningOfCall(b, s, u, call, k - 1);
      RepeatAtEnd(u, k);
      RunAppend(b, s, Repeat(u, k - 1), [u]);
      ReadsAppend(b, s, Repeat(u, k - 1), [u], u);
      StepOneCall(b, Run(b, s, Repeat(u, k - 1)), u, call);
    }
  }

  lemma {:induction false} RepeatAtEnd(t: nat, n: nat)
    requires n > 0
    ensures Repeat(t, n) == Repeat(t, n - 1) + [t]
  {
    if n > 1 {
      RepeatAtEnd(t, n - 1);
    }
  }

  // ----- Programs -----

  function Length(program: seq<Call>): nat {
    if program == [] then 0 else Accesses(program[0]) + Length(program[1..])
  }

  /** What a program reads if it runs alone. */
  function ProgramReads(b: Board, out: set<Pin>, program: seq<Call>): seq<set<Pin>>
    decreases |program|
  {
    if program == [] then [] else Answer(program[0], out) + ProgramReads(b, Effect(b, program[0], out), program[1..])
  }

  lemma {:induction false} RepeatAppend(t: nat, m: nat, n: nat)
    ensures Repeat(t, m + n) == Repeat(t, m) + Repeat(t, n)
    decreases m
  {
    if m > 0 {
      RepeatAppend(t, m - 1, n);
    }
  }

  /** Thread `u` has just finished a call, or not yet begun one; the others are where they were. */
  predicate Between(s: Machine, s': Machine, u: nat, todo: seq<Call>)
    requires u < |s.threads|
  {
    && |s'.threads| == |s.threads| && s'.threads[u].todo == todo && s'.threads[u].pc == 0
    && forall t :: 0 <= t < |s.threads| && t != u ==> s'.threads[t] == s.threads[t]
  }

  /** The next call of a thread, uninterrupted. */
  lemma NextCall(b: Board, s: Machine, u: nat)
    requires u < |s.threads| && s.threads[u].todo != [] && s.threads[u].pc == 0
    ensures var th := s.threads[u];
            var call, schedule := th.todo[0], Repeat(u, Accesses(th.todo[0]));
            && Run(b, s, schedule).out == Effect(b, call, s.out)
            && Between(s, Run(b, s, schedule), u, th.todo[1..])
            && Reads(b, s, schedule, u) == Answer(call, s.out)
  {
    var call := s.threads[u].todo[0];
    var n, s1 := Accesses(call), Step(b, s, u);
    AccessesMakeEffect(b, call, s.out, s1.threads[u].snap);
    RunRepeat(b, s, u, n);
    if n > 1 {
      var s2 := Step(b, s1, u);
      RunRepeat(b, s1, u, n - 1);
      if n > 2 {
        RunRepeat(b, s2, u, n - 2);
      }
    }
  }

  lemma RunRepeat(b: Board, s: Machine, u: nat, n: nat)
    requires n > 0
    ensures Run(b, s, Repeat(u, n)) == Run(b, Step(b, s, u), Repeat(u, n - 1))
    ensures Reads(b, s, Repeat(u, n), u) == ReadNow(s, u, u) + Reads(b, Step(b, s, u), Repeat(u, n - 1), u)
  {
    assert Repeat(u, n)[1..] == Repeat(u, n - 1);
  }

  /** The next few calls of a thread, uninterrupted. */
  lemma {:induction false} NextCalls(b: Board, s: Machine, u: nat, first: seq<Call>, rest: seq<Call>)
    requires u < |s.threads| && s.threads[u].todo == first + rest && s.threads[u].pc == 0
    ensures var schedule := Repeat(u, Length(first));
            && Run(b, s, schedule).out == SerialProgram(b, s.out, first)
            && Between(s, Run(b, s, schedule), u, rest)
            && Reads(b, s, schedule, u) == ProgramReads(b, s.out, first)
    decreases |first|
  {
    if first == [] {
      assert first + rest == rest;
    } else {
      var n, m := Accesses(first[0]), Length(first[1..]);
      assert (first + rest)[0] == first[0] && (first + rest)[1..] == first[1..] + rest;
      NextCall(b, s, u);
      var s' := Run(b, s, Repeat(u, n));
      NextCalls(b, s', u, first[1..], rest);
      RepeatAppend(u, n, m);
      RunAppend(b, s, Repeat(u, n), Repeat(u, m));
      ReadsAppend(b, s, Repeat(u, n), Repeat(u, m), u);
    }
  }
}
