/** Programs of operations of both APIs, as programs of LED calls.  The bulk functions of boards.c are
    no calls of their own: they are loops of single writes, and are unrolled here. */
module OpPrograms {
  import opened Words
  import opened LedCalls
  import opened Interleaving
  import opened LitLeds

  predicate ValidOps(b: Board, programs: seq<seq<Op>>) {
    forall t, op :: 0 <= t < |programs| && op in programs[t] ==> ValidOp(b, op)
  }

  predicate SingleCalls(b: Board, programs: seq<seq<Op>>) {
    forall t, op :: 0 <= t < |programs| && op in programs[t] ==> ValidOp(b, op) && IsSingleCall(op)
  }

  function CallsOf(b: Board, program: seq<Op>): seq<Call>
    requires forall op :: op in program ==> ValidOp(b, op) && IsSingleCall(op)
  {
    seq(|program|, i requires 0 <= i < |program| => CallOf(b, program[i]))
  }

  function AllCallsOf(b: Board, programs: seq<seq<Op>>): seq<seq<Call>>
    requires SingleCalls(b, programs)
  {
    seq(|programs|, t requires 0 <= t < |programs| => CallsOf(b, programs[t]))
  }

  lemma CallsAfterOne(b: Board, programs: seq<seq<Op>>, t: nat)
    requires SingleCalls(b, programs) && t < |programs| && programs[t] != []
    ensures SingleCalls(b, programs[t := programs[t][1..]])
    ensures AllCallsOf(b, programs[t := programs[t][1..]]) == AllCallsOf(b, programs)[t := AllCallsOf(b, programs)[t][1..]]
  {
    var programs' := programs[t := programs[t][1..]];
    forall u, op | 0 <= u < |programs'| && op in programs'[u] ensures ValidOp(b, op) && IsSingleCall(op) {
      assert op in programs[u];
    }
    assert CallsOf(b, programs'[t]) == CallsOf(b, programs[t])[1..];
  }

  // ----- The bulk functions -----

  /** The single writes of a bulk function. */
  function Rounds(b: Board, lit: bool): seq<Op> {
    seq(|b.ledPins|, i requires 0 <= i < |b.ledPins| => WriteLed(i, lit))
  }

  function Unroll(b: Board, op: Op): (ops: seq<Op>)
    requires ValidOp(b, op)
    ensures forall o :: o in ops ==> ValidOp(b, o) && IsSingleCall(o) && Toggled(b, o) <= Toggled(b, op)
  {
    if op.LedsOn? then Rounds(b, true) else if op.LedsOff? then Rounds(b, false) else [op]
  }

  function UnrollProgram(b: Board, program: seq<Op>): (ops: seq<Op>)
    requires forall op :: op in program ==> ValidOp(b, op)
    ensures forall o :: o in ops ==> ValidOp(b, o) && IsSingleCall(o)
    ensures forall o :: o in ops ==> exists op :: op in program && Toggled(b, o) <= Toggled(b, op)
  {
    if program == [] then []
    else assert program[0] in program; Unroll(b, program[0]) + UnrollProgram(b, program[1..])
  }

  function UnrollAll(b: Board, programs: seq<seq<Op>>): (unrolled: seq<seq<Op>>)
    requires ValidOps(b, programs)
    ensures |unrolled| == |programs| && SingleCalls(b, unrolled)
  {
    seq(|programs|, t requires 0 <= t < |programs| => UnrollProgram(b, programs[t]))
  }

  lemma {:induction false} ExecAllAppend(b: Board, out: set<Pin>, first: seq<Op>, second: seq<Op>)
    requires forall op :: op in first + second ==> ValidOp(b, op)
    ensures ExecAll(b, out, first + second) == ExecAll(b, ExecAll(b, out, first), second)
    decreases |first|
  {
    assert forall op :: op in first || op in second ==> op in first + second;
    if first == [] {
      assert first + second == second;
    } else {
      assert (first + second)[0] == first[0] && (first + second)[1..] == first[1..] + second;
      ExecAllAppend(b, Exec(b, out, first[0]), first[1..], second);
    }
  }

  lemma ExecOne(b: Board, out: set<Pin>, op: Op)
    requires ValidOp(b, op)
    ensures ExecAll(b, out, [op]) == Exec(b, out, op)
  {
    var none: seq<Op> := [];
    assert [op][1..] == none;
    assert ExecAll(b, Exec(b, out, op), none) == Exec(b, out, op);
  }

  /** The loops of bsp_board_leds_on and bsp_board_leds_off are the runs of their single writes. */
  lemma {:induction false} RoundsExec(b: Board, out: set<Pin>, n: nat, lit: bool)
    requires n <= |b.ledPins|
    ensures ExecAll(b, out, Rounds(b, lit)[..n]) == WriteLeds(b, out, n, lit)
  {
    if n > 0 {
      RoundsExec(b, out, n - 1, lit);
      assert Rounds(b, lit)[..n] == Rounds(b, lit)[..n - 1] + [WriteLed(n - 1, lit)];
      ExecAllAppend(b, out, Rounds(b, lit)[..n - 1], [WriteLed(n - 1, lit)]);
      ExecOne(b, WriteLeds(b, out, n - 1, lit), WriteLed(n - 1, lit));
    }
  }

  /** Uninterrupted, an operation is its unrolled writes. */
  lemma UnrollExec(b: Board, out: set<Pin>, op: Op)
    requires ValidOp(b, op)
    ensures ExecAll(b, out, Unroll(b, op)) == Exec(b, out, op)
  {
    if IsSingleCall(op) {
      ExecOne(b, out, op);
    } else {
      RoundsExec(b, out, |b.ledPins|, op.LedsOn?);
      assert Rounds(b, op.LedsOn?)[..|b.ledPins|] == Rounds(b, op.LedsOn?);
    }
  }

  lemma {:induction false} UnrollProgramExec(b: Board, out: set<Pin>, program: seq<Op>)
    requires forall op :: op in program ==> ValidOp(b, op)
    ensures ExecAll(b, out, UnrollProgram(b, program)) == ExecAll(b, out, program)
    decreases |program|
  {
    if program != [] {
      ExecAllAppend(b, out, Unroll(b, program[0]), UnrollProgram(b, program[1..]));
      UnrollExec(b, out, program[0]);
      UnrollProgramExec(b, Exec(b, out, program[0]), program[1..]);
    }
  }

  // ----- Toggles -----

  /** No operation toggles two LEDs, and no LED is toggled by two contexts. */
  predicate OneTogglerPerLed(b: Board, programs: seq<seq<Op>>) {
    && (forall t, op :: 0 <= t < |programs| && op in programs[t] ==> OneLed(Toggled(b, op)))
    && (forall t, u, x, y :: 0 <= t < |programs| && 0 <= u < |programs| && t != u && x in programs[t] && y in programs[u] ==>
         Toggled(b, x) * Toggled(b, y) == {})
  }

  predicate OneLed(leds: set<Index>) {
    forall i, j :: i in leds && j in leds ==> i == j
  }

  lemma UnrolledTogglers(b: Board, programs: seq<seq<Op>>)
    requires ValidOps(b, programs) && OneTogglerPerLed(b, programs)
    ensures OneTogglerPerLed(b, UnrollAll(b, programs))
  {
    var unrolled := UnrollAll(b, programs);
    forall t, u, x, y | 0 <= t < |unrolled| && 0 <= u < |unrolled| && t != u && x in unrolled[t] && y in unrolled[u]
      ensures Toggled(b, x) * Toggled(b, y) == {}
    {
      var x' :| x' in programs[t] && Toggled(b, x) <= Toggled(b, x');
      var y' :| y' in programs[u] && Toggled(b, y) <= Toggled(b, y');
      assert Toggled(b, x) * Toggled(b, y) <= Toggled(b, x') * Toggled(b, y');
    }
  }
}
