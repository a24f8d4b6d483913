/** Toggles of LEDs that other contexts switch on and off at the same time.  A LEDS_INVERT of one pin
    decides at its copy of OUT what it will write.  If, when it writes, the pin still has the copied
    value, it takes effect at its write.  If not, the last call that changed the pin has already given
    it the value to be written; the toggle then takes effect right before that call, and nobody can
    tell.  So it is enough that no two contexts toggle the same pin. */
module SharedToggles {
  import opened Words
  import opened LedCalls
  import opened Interleaving
  import opened Linearizability

  /** The thread has its copy of OUT for a toggle of `p`, but has not yet written `p`. */
  predicate Waiting(th: Thread, p: Pin) {
    Flipping(th, p) && (th.pc == 1 || p in th.snap)
  }

  /** Its next access is the write of `p`. */
  predicate WritesNext(th: Thread, p: Pin) {
    Flipping(th, p) && (th.pc == 1 <==> p !in th.snap)
  }

  /** In the rest of the run `p` keeps its value until thread `t` writes it. */
  predicate KeptUntilWrite(b: Board, s: Machine, schedule: seq<nat>, t: nat, p: Pin)
    requires t < |s.threads|
    decreases |schedule|
  {
    && schedule != []
    && if schedule[0] == t && WritesNext(s.threads[t], p) then
         true
       else
         && (p in s.out <==> p in Step(b, s, schedule[0]).out)
         && KeptUntilWrite(b, Step(b, s, schedule[0]), schedule[1..], t, p)
  }

  /** Somebody else has done the work of the toggle for the last time: `p` already has the value to be
      written, and keeps it. */
  predicate Anticipated(b: Board, s: Machine, schedule: seq<nat>, t: nat, p: Pin)
    requires t < |s.threads|
  {
    && Waiting(s.threads[t], p)
    && (p in s.out <==> p !in s.threads[t].snap)
    && KeptUntilWrite(b, s, schedule, t, p)
  }

  predicate TakenEffect(b: Board, s: Machine, schedule: seq<nat>, t: nat, phase: Phase)
    requires t < |s.threads|
  {
    var th := s.threads[t];
    (th.todo != [] && th.pc > CommitPc(th, phase)) || exists p: Pin :: Anticipated(b, s, schedule, t, p)
  }

  /** The calls of a thread that, in a run that goes on like this, have not yet taken effect. */
  function Left(b: Board, s: Machine, schedule: seq<nat>, t: nat, phase: Phase): seq<Call>
    requires t < |s.threads|
  {
    if TakenEffect(b, s, schedule, t, phase) && s.threads[t].todo != [] then s.threads[t].todo[1..] else s.threads[t].todo
  }

  function AllLeft(b: Board, s: Machine, schedule: seq<nat>, phase: Phase): (left: seq<seq<Call>>)
    ensures |left| == |s.threads|
  {
    seq(|s.threads|, t requires 0 <= t < |s.threads| => Left(b, s, schedule, t, phase))
  }

  /** The first access of the schedule does the work of the toggle of another thread `t`. */
  predicate Anticipates(b: Board, s: Machine, schedule: seq<nat>, t: nat, p: Pin)
    requires schedule != [] && t < |s.threads|
  {
    && t != schedule[0]
    && Anticipated(b, Step(b, s, schedule[0]), schedule[1..], t, p)
    && !Anticipated(b, s, schedule, t, p)
  }

  predicate AnticipatesSome(b: Board, s: Machine, schedule: seq<nat>, t: nat)
    requires schedule != [] && t < |s.threads|
  {
    exists p: Pin :: Anticipates(b, s, schedule, t, p)
  }

  /** The toggles, of the threads below `n`, that take effect right before the first access. */
  function Before(b: Board, s: Machine, schedule: seq<nat>, n: nat): seq<nat>
    requires schedule != [] && n <= |s.threads|
  {
    if n == 0 then []
    else Before(b, s, schedule, n - 1) + if AnticipatesSome(b, s, schedule, n - 1) then [n - 1] else []
  }

  /** The call of the thread whose turn it is takes effect. */
  predicate Own(b: Board, s: Machine, schedule: seq<nat>, phase: Phase)
    requires schedule != []
  {
    var u := schedule[0];
    Commits(s, u, phase) && !exists p: Pin :: Anticipated(b, s, schedule, u, p)
  }

  function Now(b: Board, s: Machine, schedule: seq<nat>, phase: Phase): seq<nat>
    requires schedule != []
  {
    Before(b, s, schedule, |s.threads|) + if Own(b, s, schedule, phase) then [schedule[0]] else []
  }

  /** The order in which calls take effect during the first part of a run, given how it goes on. */
  function EffectOrder(b: Board, s: Machine, soFar: seq<nat>, more: seq<nat>, phase: Phase): seq<nat>
    decreases |soFar|
  {
    if soFar == [] then []
    else Now(b, s, soFar + more, phase) + EffectOrder(b, Step(b, s, soFar[0]), soFar[1..], more, phase)
  }

  // ----- What every step keeps -----

  /** No two contexts toggle the same pin. */
  predicate OneToggler(programs: seq<seq<Call>>) {
    forall i, j, x: Call, y: Call ::
      0 <= i < |programs| && 0 <= j < |programs| && i != j && x in programs[i] && y in programs[j] && x.Invert? && y.Invert? ==>
        x.mask * y.mask == {}
  }

  predicate Good(b: Board, s: Machine, phase: Phase) {
    && PcsInRange(s.threads)
    && (forall p: Pin :: Fits(b, Todos(s.threads), phase, p))
    && OnePinInverts(Todos(s.threads))
    && OneToggler(Todos(s.threads))
  }

  lemma StepKeepsGood(b: Board, s: Machine, u: nat, phase: Phase)
    requires Good(b, s, phase)
    ensures Good(b, Step(b, s, u), phase)
  {
    var todos, todos' := Todos(s.threads), Todos(Step(b, s, u).threads);
    UncommittedAfterStep(b, s, u, phase);
    assert forall t, call: Call :: 0 <= t < |todos'| && call in todos'[t] ==> call in todos[t];
    forall p: Pin ensures Fits(b, todos', phase, p) {
      StepKeepsFits(b, s, u, phase, p);
    }
  }

  // ----- One step -----

  lemma AnticipatesChanges(b: Board, s: Machine, schedule: seq<nat>, t: nat, p: Pin)
    requires schedule != [] && t < |s.threads| && Anticipates(b, s, schedule, t, p)
    ensures p in s.out <==> p !in Step(b, s, schedule[0]).out
    ensures Waiting(s.threads[t], p)
  {
  }

  lemma OnePin(s: Machine, t: nat, p: Pin, q: Pin)
    requires OnePinInverts(Todos(s.threads)) && t < |s.threads|
    requires Flipping(s.threads[t], p) && Flipping(s.threads[t], q)
    ensures p == q
  {
    assert Todos(s.threads)[t] == s.threads[t].todo && s.threads[t].todo[0] in s.threads[t].todo;
  }

  /** The other threads: only a toggle whose work has just been done takes effect. */
  lemma OthersLeft(b: Board, s: Machine, schedule: seq<nat>, t: nat, phase: Phase)
    requires Good(b, s, phase) && schedule != [] && t < |s.threads| && t != schedule[0]
    ensures var left, left' := Left(b, s, schedule, t, phase), Left(b, Step(b, s, schedule[0]), schedule[1..], t, phase);
            if AnticipatesSome(b, s, schedule, t) then left == s.threads[t].todo && left != [] && left[0].Invert? && left' == left[1..]
            else left' == left
  {
    var th := s.threads[t];
    if p: Pin :| Anticipates(b, s, schedule, t, p) {
      assert th.pc == 2 ==> p in th.todo[0].mask * th.snap;
      forall q: Pin ensures !Anticipated(b, s, schedule, t, q) {
        if Flipping(th, q) {
          OnePin(s, t, p, q);
        }
      }
    } else {
      forall p: Pin ensures Anticipated(b, Step(b, s, schedule[0]), schedule[1..], t, p) <==> Anticipated(b, s, schedule, t, p) {
        assert !Anticipates(b, s, schedule, t, p);
      }
    }
  }

  /** A toggle under way takes effect at its write, unless that was anticipated. */
  lemma OwnToggle(b: Board, s: Machine, schedule: seq<nat>, phase: Phase, p: Pin)
    requires Good(b, s, phase) && schedule != [] && CanStep(s, schedule[0]) && Flipping(s.threads[schedule[0]], p)
    ensures var th := s.threads[schedule[0]];
            && (th.todo[0].mask * th.snap == {} <==> p !in th.snap)
            && (Commits(s, schedule[0], phase) <==> WritesNext(th, p))
            && (Own(b, s, schedule, phase) <==> WritesNext(th, p) && (p in s.out <==> p in th.snap))
            && (WritesNext(th, p) ==> (p in Step(b, s, schedule[0]).out <==> p !in th.snap))
            && (!WritesNext(th, p) ==> (p in Step(b, s, schedule[0]).out <==> p in s.out))
  {
    var u, th := schedule[0], s.threads[schedule[0]];
    assert p in th.todo[0].mask * th.snap <==> p in th.snap;
    forall q: Pin | Flipping(th, q) ensures q == p {
      OnePin(s, u, p, q);
    }
    assert forall q :: q in th.todo[0].mask ==> Flipping(th, q);
    assert WritesNext(th, p) ==> (Anticipated(b, s, schedule, u, p) <==> (p in s.out <==> p !in th.snap));
  }

  /** `v` is OUT on `p`, or `p` is just being changed by a call other than a toggle. */
  predicate Matches(b: Board, s: Machine, u: nat, v: set<Pin>, p: Pin)
    requires CanStep(s, u)
  {
    (p in v <==> p in s.out) || (!s.threads[u].todo[0].Invert? && (p in s.out <==> p !in Step(b, s, u).out))
  }

  /** What the next access makes of a pin is what its call makes of it, if it takes effect. */
  lemma OwnPin(b: Board, s: Machine, schedule: seq<nat>, v: set<Pin>, phase: Phase, p: Pin)
    requires Good(b, s, phase) && schedule != [] && CanStep(s, schedule[0])
    requires Matches(b, s, schedule[0], v, p)
    ensures p in (if Own(b, s, schedule, phase) then Effect(b, s.threads[schedule[0]].todo[0], v) else v)
            <==> p in Step(b, s, schedule[0]).out
  {
    var u, th := schedule[0], s.threads[schedule[0]];
    var call := th.todo[0];
    EffectIsLocal(b, call, v, v, p);
    AccessIsLocal(b, call, th.pc, s.out, s.out, th.snap, th.snap, p);
    assert Todos(s.threads)[u] == th.todo && call in th.todo;
    assert CallFits(b, call, phase, p) by {
      assert Fits(b, Todos(s.threads), phase, p);
    }
    if Flipping(th, p) {
      OwnToggle(b, s, schedule, phase, p);
    } else {
      assert call.Invert? && p in call.mask ==> th.pc == 0;
    }
  }

  predicate OwnLeftIs(b: Board, s: Machine, schedule: seq<nat>, phase: Phase)
    requires schedule != [] && CanStep(s, schedule[0])
  {
    var u := schedule[0];
    var left, left' := Left(b, s, schedule, u, phase), Left(b, Step(b, s, u), schedule[1..], u, phase);
    if Own(b, s, schedule, phase) then left == s.threads[u].todo && left' == left[1..] else left' == left
  }

  lemma OwnLeftOfToggle(b: Board, s: Machine, schedule: seq<nat>, phase: Phase, p: Pin)
    requires Good(b, s, phase) && schedule != [] && CanStep(s, schedule[0]) && Flipping(s.threads[schedule[0]], p)
    ensures OwnLeftIs(b, s, schedule, phase)
  {
    var u, th := schedule[0], s.threads[schedule[0]];
    var s' := Step(b, s, u);
    OwnToggle(b, s, schedule, phase, p);
    assert Anticipated(b, s', schedule[1..], u, p) <==> Anticipated(b, s, schedule, u, p) && !WritesNext(th, p);
    forall q: Pin | q != p
      ensures !Anticipated(b, s, schedule, u, q) && !Anticipated(b, s', schedule[1..], u, q)
    {
      if Flipping(th, q) {
        OnePin(s, u, p, q);
      }
    }
    assert TakenEffect(b, s, schedule, u, phase) <==> th.pc > CommitPc(th, phase) || Anticipated(b, s, schedule, u, p);
    if th.pc == 1 {
      assert TakenEffect(b, s', schedule[1..], u, phase) <==> p !in th.snap || Anticipated(b, s', schedule[1..], u, p);
    }
  }

  lemma OwnLeftOfOther(b: Board, s: Machine, schedule: seq<nat>, phase: Phase)
    requires Good(b, s, phase) && schedule != [] && CanStep(s, schedule[0])
    requires forall p: Pin :: !Flipping(s.threads[schedule[0]], p)
    ensures OwnLeftIs(b, s, schedule, phase)
  {
    var u, th := schedule[0], s.threads[schedule[0]];
    var s' := Step(b, s, u);
    var th' := s'.threads[u];
    forall q: Pin ensures !Anticipated(b, s, schedule, u, q) && !Anticipated(b, s', schedule[1..], u, q) {
      assert !Flipping(th, q);
      if Flipping(th', q) {
        assert th.pc == 0 && th'.todo == th.todo && s'.out == s.out == th'.snap;
      }
    }
    if th.todo[0].Invert? && th.pc > 0 && th.todo[0].mask != {} {
      var q :| q in th.todo[0].mask;
      assert Flipping(th, q);
    }
  }

  lemma OwnLeft(b: Board, s: Machine, schedule: seq<nat>, phase: Phase)
    requires Good(b, s, phase) && schedule != [] && CanStep(s, schedule[0])
    ensures OwnLeftIs(b, s, schedule, phase)
  {
    if p: Pin :| Flipping(s.threads[schedule[0]], p) {
      OwnLeftOfToggle(b, s, schedule, phase, p);
    } else {
      OwnLeftOfOther(b, s, schedule, phase);
    }
  }

  /** What is left once the anticipated toggles of the threads below `n` have taken effect. */
  function LeftAfter(b: Board, s: Machine, schedule: seq<nat>, n: nat, phase: Phase): (left: seq<seq<Call>>)
    requires Good(b, s, phase) && schedule != []
    ensures |left| == |s.threads|
  {
    seq(|s.threads|, t requires 0 <= t < |s.threads| =>
      if t < n && AnticipatesSome(b, s, schedule, t) then
        (OthersLeft(b, s, schedule, t, phase); Left(b, s, schedule, t, phase)[1..])
      else
        Left(b, s, schedule, t, phase))
  }

  lemma ToggleMatches(b: Board, s: Machine, schedule: seq<nat>, t: nat, v: set<Pin>, phase: Phase, p: Pin)
    requires Good(b, s, phase) && schedule != [] && CanStep(s, schedule[0])
    requires t < |s.threads| && AnticipatesSome(b, s, schedule, t)
    requires Matches(b, s, schedule[0], v, p)
    ensures s.threads[t].todo != [] && Matches(b, s, schedule[0], Effect(b, s.threads[t].todo[0], v), p)
  {
    var u := schedule[0];
    var q: Pin :| Anticipates(b, s, schedule, t, q);
    AnticipatesChanges(b, s, schedule, t, q);
    var th, call := s.threads[u], s.threads[u].todo[0];
    AccessIsLocal(b, call, th.pc, s.out, s.out, th.snap, th.snap, q);
    assert !call.Invert? by {
      assert Todos(s.threads)[t] == s.threads[t].todo && s.threads[t].todo[0] in s.threads[t].todo;
      assert Todos(s.threads)[u] == th.todo && call in th.todo;
      assert q in s.threads[t].todo[0].mask * Footprint(b, call);
    }
    if p in s.threads[t].todo[0].mask {
      OnePin(s, t, p, q);
    }
  }

  lemma TogglesMatch(b: Board, s: Machine, schedule: seq<nat>, t: nat, v: set<Pin>, phase: Phase)
    requires Good(b, s, phase) && schedule != [] && CanStep(s, schedule[0])
    requires t < |s.threads| && AnticipatesSome(b, s, schedule, t)
    requires MatchesAll(b, s, schedule[0], v)
    ensures s.threads[t].todo != [] && MatchesAll(b, s, schedule[0], Effect(b, s.threads[t].todo[0], v))
  {
    OthersLeft(b, s, schedule, t, phase);
    var w := Effect(b, s.threads[t].todo[0], v);
    forall p: Pin ensures Matches(b, s, schedule[0], w, p) {
      ToggleMatches(b, s, schedule, t, v, phase, p);
    }
  }

  /** The anticipated toggles change only pins that the access is about to change, and read nothing. */
  lemma {:induction false} BeforeRuns(b: Board, s: Machine, schedule: seq<nat>, n: nat, phase: Phase)
    requires Good(b, s, phase) && schedule != [] && CanStep(s, schedule[0]) && n <= |s.threads|
    ensures var left, order := AllLeft(b, s, schedule, phase), Before(b, s, schedule, n);
            && Runnable(left, order)
            && After(left, order) == LeftAfter(b, s, schedule, n, phase)
            && (forall t :: SerialReads(b, s.out, left, order, t) == [])
            && MatchesAll(b, s, schedule[0], Serial(b, s.out, left, order))
    decreases n
  {
    hide Good, MatchesAll, AnticipatesSome, LeftAfter, AllLeft, Effect, Step;
    if n == 0 {
      NothingBefore(b, s, schedule, phase);
    } else {
      BeforeRuns(b, s, schedule, n - 1, phase);
      LeftAfterOne(b, s, schedule, n, phase);
      if AnticipatesSome(b, s, schedule, n - 1) {
        var left, order := AllLeft(b, s, schedule, phase), Before(b, s, schedule, n - 1);
        var v, mid := Serial(b, s.out, left, order), LeftAfter(b, s, schedule, n - 1, phase);
        SerialAppendOne(b, s.out, left, order, n - 1);
        TogglesMatch(b, s, schedule, n - 1, v, phase);
      } else {
        assert Before(b, s, schedule, n) == Before(b, s, schedule, n - 1);
      }
    }
  }

  predicate MatchesAll(b: Board, s: Machine, u: nat, v: set<Pin>)
    requires CanStep(s, u)
  {
    forall p: Pin :: Matches(b, s, u, v, p)
  }

  lemma NothingBefore(b: Board, s: Machine, schedule: seq<nat>, phase: Phase)
    requires Good(b, s, phase) && schedule != [] && CanStep(s, schedule[0])
    ensures LeftAfter(b, s, schedule, 0, phase) == AllLeft(b, s, schedule, phase)
    ensures MatchesAll(b, s, schedule[0], s.out)
  {
  }

  lemma LeftAfterOne(b: Board, s: Machine, schedule: seq<nat>, n: nat, phase: Phase)
    requires Good(b, s, phase) && schedule != [] && 0 < n <= |s.threads|
    ensures var mid, next := LeftAfter(b, s, schedule, n - 1, phase), LeftAfter(b, s, schedule, n, phase);
            if AnticipatesSome(b, s, schedule, n - 1) then
              mid[n - 1] == s.threads[n - 1].todo && mid[n - 1] != [] && mid[n - 1][0].Invert? && next == mid[n - 1 := mid[n - 1][1..]]
            else
              next == mid
  {
    if AnticipatesSome(b, s, schedule, n - 1) {
      OthersLeft(b, s, schedule, n - 1, phase);
    }
  }

  /** The calls that take effect now make of OUT what the next access makes of it. */
  ghost predicate NowIs(b: Board, s: Machine, schedule: seq<nat>, phase: Phase)
    requires schedule != []
  {
    var left, order, s' := AllLeft(b, s, schedule, phase), Now(b, s, schedule, phase), Step(b, s, schedule[0]);
    && Runnable(left, order)
    && After(left, order) == AllLeft(b, s', schedule[1..], phase)
    && Serial(b, s.out, left, order) == s'.out
    && forall t :: SerialReads(b, s.out, left, order, t) == ReadNow(s, schedule[0], t)
  }

  lemma ReadChangesNothing(b: Board, s: Machine, u: nat, v: set<Pin>)
    requires CanStep(s, u) && s.threads[u].todo[0].Read? && MatchesAll(b, s, u, v)
    ensures v == s.out
  {
    forall p: Pin ensures p in v <==> p in s.out {
      assert Matches(b, s, u, v, p);
    }
  }

  lemma OwnOut(b: Board, s: Machine, schedule: seq<nat>, v: set<Pin>, phase: Phase)
    requires Good(b, s, phase) && schedule != [] && CanStep(s, schedule[0]) && MatchesAll(b, s, schedule[0], v)
    ensures (if Own(b, s, schedule, phase) then Effect(b, s.threads[schedule[0]].todo[0], v) else v) == Step(b, s, schedule[0]).out
  {
    var w := if Own(b, s, schedule, phase) then Effect(b, s.threads[schedule[0]].todo[0], v) else v;
    forall p: Pin ensures p in w <==> p in Step(b, s, schedule[0]).out {
      assert Matches(b, s, schedule[0], v, p);
      OwnPin(b, s, schedule, v, phase, p);
    }
  }

  /** What is left after the anticipated toggles, and after the own call. */
  lemma AllLeftAfter(b: Board, s: Machine, schedule: seq<nat>, phase: Phase)
    requires Good(b, s, phase) && schedule != [] && CanStep(s, schedule[0])
    ensures var u, mid := schedule[0], LeftAfter(b, s, schedule, |s.threads|, phase);
            var left' := AllLeft(b, Step(b, s, u), schedule[1..], phase);
            if Own(b, s, schedule, phase) then mid[u] == s.threads[u].todo && left' == mid[u := mid[u][1..]] else left' == mid
  {
    var u, mid := schedule[0], LeftAfter(b, s, schedule, |s.threads|, phase);
    var left' := AllLeft(b, Step(b, s, u), schedule[1..], phase);
    OwnLeft(b, s, schedule, phase);
    forall t | 0 <= t < |s.threads| && t != u ensures left'[t] == mid[t] {
      OthersLeft(b, s, schedule, t, phase);
    }
    assert mid[u] == Left(b, s, schedule, u, phase);
  }

  lemma StepNow(b: Board, s: Machine, schedule: seq<nat>, phase: Phase)
    requires Good(b, s, phase) && schedule != [] && CanStep(s, schedule[0])
    ensures NowIs(b, s, schedule, phase)
  {
    hide Good, MatchesAll, LeftAfter, AllLeft, Effect, Step, Own, Before;
    var u, n := schedule[0], |s.threads|;
    var left, order := AllLeft(b, s, schedule, phase), Before(b, s, schedule, n);
    BeforeRuns(b, s, schedule, n, phase);
    var v := Serial(b, s.out, left, order);
    AllLeftAfter(b, s, schedule, phase);
    OwnOut(b, s, schedule, v, phase);
    if s.threads[u].todo[0].Read? {
      ReadChangesNothing(b, s, u, v);
      ReadsAreOwn(b, s, schedule, phase);
    }
    if Own(b, s, schedule, phase) {
      SerialAppendOne(b, s.out, left, order, u);
    } else {
      assert Now(b, s, schedule, phase) == order;
    }
  }

  lemma ReadsAreOwn(b: Board, s: Machine, schedule: seq<nat>, phase: Phase)
    requires Good(b, s, phase) && schedule != [] && CanStep(s, schedule[0]) && s.threads[schedule[0]].todo[0].Read?
    ensures Own(b, s, schedule, phase)
  {
  }

  /** Where the thread has nothing left to do, nothing happens. */
  lemma StepNothing(b: Board, s: Machine, schedule: seq<nat>, phase: Phase)
    requires schedule != [] && !CanStep(s, schedule[0])
    ensures NowIs(b, s, schedule, phase)
  {
    var rest := schedule[1..];
    forall t, p: Pin | 0 <= t < |s.threads|
      ensures Anticipated(b, s, rest, t, p) <==> Anticipated(b, s, schedule, t, p)
    {
    }
    NoneBefore(b, s, schedule, |s.threads|);
    var left := AllLeft(b, s, schedule, phase);
    assert left == AllLeft(b, s, rest, phase) by {
      forall t | 0 <= t < |s.threads| ensures Left(b, s, schedule, t, phase) == Left(b, s, rest, t, phase) {
      }
    }
  }

  lemma {:induction false} NoneBefore(b: Board, s: Machine, schedule: seq<nat>, n: nat)
    requires schedule != [] && !CanStep(s, schedule[0]) && n <= |s.threads|
    ensures Before(b, s, schedule, n) == []
    decreases n
  {
    if n > 0 {
      NoneBefore(b, s, schedule, n - 1);
      NothingAnticipated(b, s, schedule, n - 1);
    }
  }

  lemma NothingAnticipated(b: Board, s: Machine, schedule: seq<nat>, t: nat)
    requires schedule != [] && !CanStep(s, schedule[0]) && t < |s.threads|
    ensures !AnticipatesSome(b, s, schedule, t)
  {
    forall p: Pin ensures !Anticipates(b, s, schedule, t, p) {
    }
  }

  // ----- Whole runs -----

  /** At every point of a run: OUT, the reads and what is left to do are those of the calls that have
      taken effect, one at a time. */
  lemma {:induction false} RunIsEffectOrder(b: Board, s: Machine, soFar: seq<nat>, more: seq<nat>, phase: Phase)
    requires Good(b, s, phase)
    ensures var left, order := AllLeft(b, s, soFar + more, phase), EffectOrder(b, s, soFar, more, phase);
            && Runnable(left, order)
            && After(left, order) == AllLeft(b, Run(b, s, soFar), more, phase)
            && Serial(b, s.out, left, order) == Run(b, s, soFar).out
            && forall t :: SerialReads(b, s.out, left, order, t) == Reads(b, s, soFar, t)
    decreases |soFar|
  {
    hide Good, AllLeft, Now, Step;
    if soFar == [] {
      assert soFar + more == more;
    } else {
      var u, schedule := soFar[0], soFar + more;
      assert schedule[0] == u && schedule[1..] == soFar[1..] + more;
      StepKeepsGood(b, s, u, phase);
      RunIsEffectOrder(b, Step(b, s, u), soFar[1..], more, phase);
      if CanStep(s, u) {
        StepNow(b, s, schedule, phase);
      } else {
        StepNothing(b, s, schedule, phase);
      }
      SerialAppend(b, s.out, AllLeft(b, s, schedule, phase), Now(b, s, schedule, phase),
                   EffectOrder(b, Step(b, s, u), soFar[1..], more, phase));
    }
  }

  lemma {:induction false} EffectOrderAppend(b: Board, s: Machine, soFar: seq<nat>, more: seq<nat>, phase: Phase)
    ensures EffectOrder(b, s, soFar + more, [], phase) ==
            EffectOrder(b, s, soFar, more, phase) + EffectOrder(b, Run(b, s, soFar), more, [], phase)
    decreases |soFar|
  {
    var none: seq<nat> := [];
    assert (soFar + more) + none == soFar + more;
    if soFar == [] {
      assert soFar + more == more;
    } else {
      assert (soFar + more)[1..] == soFar[1..] + more;
      EffectOrderAppend(b, Step(b, s, soFar[0]), soFar[1..], more, phase);
    }
  }

  lemma {:induction false} AfterLength(programs: seq<seq<Call>>, order: seq<nat>, t: nat)
    requires Runnable(programs, order) && t < |programs|
    ensures |After(programs, order)[t]| + Times(order, t) == |programs[t]|
    decreases |order|
  {
    if order != [] {
      AfterLength(programs[order[0] := programs[order[0]][1..]], order[1..], t);
    }
  }

  // ----- Results -----

  /** One of the two writes of LEDS_ON and LEDS_OFF does all their work, LEDS_INVERT flips one pin at a
      time, and no pin is flipped by two contexts. */
  predicate Manageable(b: Board, programs: seq<seq<Call>>, phase: Phase) {
    (forall p: Pin :: Fits(b, programs, phase, p)) && OnePinInverts(programs) && OneToggler(programs)
  }

  lemma StartIsGood(b: Board, out: set<Pin>, programs: seq<seq<Call>>, schedule: seq<nat>, phase: Phase)
    requires Manageable(b, programs, phase)
    ensures Good(b, Start(out, programs), phase)
    ensures AllLeft(b, Start(out, programs), schedule, phase) == programs
  {
    assert Todos(Start(out, programs).threads) == programs;
  }

  /** Of such programs every run is linearizable, at each of its points and in one order: OUT is what
      the calls that have taken effect make of it, one at a time, and every read has returned what it
      returns in that order. */
  lemma ManageableIsLinearizable(b: Board, out: set<Pin>, programs: seq<seq<Call>>, soFar: seq<nat>, more: seq<nat>, phase: Phase)
    requires Manageable(b, programs, phase)
    ensures var s := Start(out, programs);
            var order := EffectOrder(b, s, soFar, more, phase);
            && Runnable(programs, order) && RunIs(b, out, programs, soFar, order)
            && EffectOrder(b, s, soFar + more, [], phase) == order + EffectOrder(b, Run(b, s, soFar), more, [], phase)
            && (Finished(Run(b, s, soFar)) ==> IsOrder(programs, order) && Linearizable(b, out, programs, soFar))
  {
    var s := Start(out, programs);
    StartIsGood(b, out, programs, soFar + more, phase);
    RunIsEffectOrder(b, s, soFar, more, phase);
    EffectOrderAppend(b, s, soFar, more, phase);
  }

  /** The order respects real time: at every point of every run, the calls of a context that have taken
      effect are all those it has completed and at most the one under way. */
  lemma TakesEffectDuringCall(b: Board, out: set<Pin>, programs: seq<seq<Call>>, soFar: seq<nat>, more: seq<nat>, phase: Phase, t: nat)
    requires Manageable(b, programs, phase) && t < |programs|
    ensures var s := Start(out, programs);
            DuringCall(programs, Run(b, s, soFar), EffectOrder(b, s, soFar, more, phase), t)
  {
    var s := Start(out, programs);
    var now := Run(b, s, soFar);
    StartIsGood(b, out, programs, soFar + more, phase);
    RunIsEffectOrder(b, s, soFar, more, phase);
    AfterLength(programs, EffectOrder(b, s, soFar, more, phase), t);
    assert AllLeft(b, now, more, phase)[t] == Left(b, now, more, t, phase);
  }

  /** On a board of one polarity, any contexts may light, darken, write, read and toggle any LEDs at any
      time, as long as no two of them toggle the same one. */
  lemma UniformIsLinearizable(b: Board, out: set<Pin>, programs: seq<seq<Call>>, soFar: seq<nat>, more: seq<nat>)
    requires Uniform(b) && OnePinInverts(programs) && OneToggler(programs)
    ensures var s, phase := Start(out, programs), UniformPhase(b);
            var order := EffectOrder(b, s, soFar, more, phase);
            && Runnable(programs, order) && RunIs(b, out, programs, soFar, order)
            && EffectOrder(b, s, soFar + more, [], phase) == order + EffectOrder(b, Run(b, s, soFar), more, [], phase)
            && (Finished(Run(b, s, soFar)) ==> IsOrder(programs, order) && Linearizable(b, out, programs, soFar))
  {
    forall p: Pin ensures Fits(b, programs, UniformPhase(b), p) {
      UniformFits(b, programs, p);
    }
    ManageableIsLinearizable(b, out, programs, soFar, more, UniformPhase(b));
  }
}
