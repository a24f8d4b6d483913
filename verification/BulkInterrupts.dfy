/** bsp_board_leds_on and bsp_board_leds_off are loops of single writes, so an interrupt can come
    between two rounds: exactly when the outcome is that of one operation after the other. */
module BulkInterrupts {
  import opened Words
  import opened LedCalls
  import opened Interleaving
  import opened Linearizability
  import opened Uninterrupted
  import opened LitLeds
  import opened OpPrograms

  /** bsp_board_leds_on or bsp_board_leds_off. */
  function Bulk(lit: bool): Op {
    if lit then LedsOn else LedsOff
  }

  function OpCalls(b: Board, op: Op): seq<Call>
    requires ValidOp(b, op)
  {
    CallsOf(b, Unroll(b, op))
  }

  /** The single writes of the bulk function. */
  function BulkCalls(b: Board, lit: bool): (calls: seq<Call>)
    ensures |calls| == |b.ledPins|
  {
    OpCalls(b, Bulk(lit))
  }

  /** Main code runs the bulk function, and an interrupt another operation of either API. */
  function BulkPair(b: Board, lit: bool, op: Op): seq<seq<Call>>
    requires ValidOp(b, op)
  {
    [BulkCalls(b, lit), OpCalls(b, op)]
  }

  /** The interrupt comes after `k` rounds, and its operation runs to the end. */
  function BulkNested(b: Board, op: Op, k: nat): seq<nat>
    requires ValidOp(b, op) && k <= |b.ledPins|
  {
    Repeat(0, k) + (Repeat(1, Length(OpCalls(b, op))) + Repeat(0, |b.ledPins| - k))
  }

  /** What an operation reads of OUT. */
  function OpAnswer(b: Board, op: Op, out: set<Pin>): seq<set<Pin>>
    requires ValidOp(b, op)
  {
    if IsSingleCall(op) then Answer(CallOf(b, op), out) else []
  }

  /** OUT ends, and the interrupt reads, as if one operation had run after the other. */
  predicate EndsAsOneOrder(b: Board, lit: bool, op: Op, out: set<Pin>, k: nat)
    requires ValidOp(b, op) && k <= |b.ledPins|
  {
    var s, schedule := Start(out, BulkPair(b, lit, op)), BulkNested(b, op, k);
    var result, read := Run(b, s, schedule).out, Reads(b, s, schedule, 1);
    || (result == Exec(b, Exec(b, out, Bulk(lit)), op) && read == OpAnswer(b, op, Exec(b, out, Bulk(lit))))
    || (result == Exec(b, Exec(b, out, op), Bulk(lit)) && read == OpAnswer(b, op, out))
  }

  /** Wherever the interrupt comes, from every value of OUT. */
  ghost predicate BulkInterruptAtomic(b: Board, lit: bool, op: Op)
    requires ValidOp(b, op)
  {
    forall out: set<Pin>, k :: 0 <= k <= |b.ledPins| ==> EndsAsOneOrder(b, lit, op, out, k)
  }

  /** The LED pins as the bulk function leaves them. */
  function Written(b: Board, lit: bool): set<Pin> {
    if lit == b.activeState then LedPins(b) else {}
  }

  /** The LED pins that the operation reads, or that it leaves at another value than the bulk function. */
  function BulkContested(b: Board, lit: bool, op: Op): set<Pin>
    requires ValidOp(b, op)
  {
    if IsSingleCall(op) && CallOf(b, op).Read? then
      CallOf(b, op).mask * LedPins(b)
    else
      set p | p in LedPins(b) && (p in Exec(b, Written(b, lit), op) <==> p !in Written(b, lit))
  }

  // ----- The run -----

  /** Single calls executed one after the other are a program run alone. */
  lemma {:induction false} ExecAllIsSerial(b: Board, out: set<Pin>, ops: seq<Op>)
    requires forall op :: op in ops ==> ValidOp(b, op) && IsSingleCall(op)
    ensures SerialProgram(b, out, CallsOf(b, ops)) == ExecAll(b, out, ops)
    decreases |ops|
  {
    if ops != [] {
      assert CallsOf(b, ops)[1..] == CallsOf(b, ops[1..]);
      ExecAllIsSerial(b, Exec(b, out, ops[0]), ops[1..]);
    }
  }

  lemma OpIsSerial(b: Board, out: set<Pin>, op: Op)
    requires ValidOp(b, op)
    ensures SerialProgram(b, out, OpCalls(b, op)) == Exec(b, out, op)
    ensures ProgramReads(b, out, OpCalls(b, op)) == OpAnswer(b, op, out)
  {
    ExecAllIsSerial(b, out, Unroll(b, op));
    UnrollExec(b, out, op);
    if IsSingleCall(op) {
      var none: seq<Call> := [];
      assert OpCalls(b, op)[0] == CallOf(b, op) && OpCalls(b, op)[1..] == none;
      assert ProgramReads(b, Effect(b, CallOf(b, op), out), none) == [];
    } else {
      NoReadsInRounds(b, out, OpCalls(b, op));
    }
  }

  lemma {:induction false} NoReadsInRounds(b: Board, out: set<Pin>, program: seq<Call>)
    requires forall call :: call in program ==> call.PinWrite?
    ensures ProgramReads(b, out, program) == [] && Length(program) == |program|
    decreases |program|
  {
    if program != [] {
      NoReadsInRounds(b, Effect(b, program[0], out), program[1..]);
    }
  }

  lemma BulkCallAt(b: Board, lit: bool, i: nat)
    requires i < |b.ledPins|
    ensures BulkCalls(b, lit)[i] == PinWrite(b.ledPins[i], lit == b.activeState)
  {
  }

  lemma BulkCallsWrite(b: Board, lit: bool)
    ensures forall call :: call in BulkCalls(b, lit) ==> call.PinWrite?
  {
    forall i | 0 <= i < |b.ledPins| ensures BulkCalls(b, lit)[i].PinWrite? {
      BulkCallAt(b, lit, i);
    }
  }

  lemma BulkBeginning(b: Board, lit: bool, k: nat, out: set<Pin>)
    requires k <= |b.ledPins|
    ensures SerialProgram(b, out, BulkCalls(b, lit)[..k]) == WriteLeds(b, out, k, lit)
  {
    RoundsExec(b, out, k, lit);
    ExecAllIsSerial(b, out, Rounds(b, lit)[..k]);
    assert CallsOf(b, Rounds(b, lit)[..k]) == BulkCalls(b, lit)[..k];
  }

  /** OUT after the first `k` register accesses of a bulk function on the machine. */
  lemma BulkLevel(b: Board, lit: bool, k: nat, out: set<Pin>)
    requires k <= |b.ledPins|
    ensures Run(b, Start(out, [BulkCalls(b, lit)]), Repeat(0, k)).out == WriteLeds(b, out, k, lit)
  {
    BulkParts(b, lit, k, out);
    BulkBeginning(b, lit, k, out);
    NextCalls(b, Start(out, [BulkCalls(b, lit)]), 0, BulkCalls(b, lit)[..k], BulkCalls(b, lit)[k..]);
  }

  lemma BulkParts(b: Board, lit: bool, k: nat, out: set<Pin>)
    requires k <= |b.ledPins|
    ensures var first, rest := BulkCalls(b, lit)[..k], BulkCalls(b, lit)[k..];
            && first + rest == BulkCalls(b, lit)
            && Length(first) == k && Length(rest) == |b.ledPins| - k
  {
    BulkCallsWrite(b, lit);
    WritesLength(b, BulkCalls(b, lit), k, out);
  }

  lemma WritesLength(b: Board, program: seq<Call>, k: nat, out: set<Pin>)
    requires k <= |program| && forall call :: call in program ==> call.PinWrite?
    ensures program[..k] + program[k..] == program
    ensures Length(program[..k]) == k && Length(program[k..]) == |program| - k
  {
    NoReadsInRounds(b, out, program[..k]);
    NoReadsInRounds(b, out, program[k..]);
  }

  lemma BulkRun(b: Board, lit: bool, op: Op, k: nat, out: set<Pin>)
    requires ValidOp(b, op) && k <= |b.ledPins|
    ensures var s, schedule := Start(out, BulkPair(b, lit, op)), BulkNested(b, op, k);
            && Finished(Run(b, s, schedule))
            && Run(b, s, schedule).out == SerialProgram(b, Exec(b, WriteLeds(b, out, k, lit), op), BulkCalls(b, lit)[k..])
            && Reads(b, s, schedule, 1) == OpAnswer(b, op, WriteLeds(b, out, k, lit))
  {
    hide Run, Reads, Step, Exec, Repeat, SerialProgram, ProgramReads, Length, WriteLeds, OpCalls, OpAnswer, BulkCalls;
    var first, rest, isr := BulkCalls(b, lit)[..k], BulkCalls(b, lit)[k..], OpCalls(b, op);
    var before, during, after := Repeat(0, k), Repeat(1, Length(isr)), Repeat(0, |b.ledPins| - k);
    var none: seq<Call> := [];
    var s0 := Start(out, BulkPair(b, lit, op));
    var s1 := Run(b, s0, before);
    var s2 := Run(b, s1, during);
    BulkParts(b, lit, k, out);
    BulkBeginning(b, lit, k, out);
    NextCalls(b, s0, 0, first, rest);
    assert isr + none == isr && rest + none == rest;
    NextCalls(b, s1, 1, isr, none);
    OpIsSerial(b, s1.out, op);
    NextCalls(b, s2, 0, rest, none);
    RunAppend(b, s0, before, during + after);
    RunAppend(b, s1, during, after);
    ReadsAppend(b, s0, before, during + after, 1);
    ReadsAppend(b, s1, during, after, 1);
    ReadsOfOthers(b, s0, 0, k, 1);
    ReadsOfOthers(b, s2, 0, |b.ledPins| - k, 1);
  }

  // ----- One pin -----

  lemma ExecOnPin(b: Board, out: set<Pin>, out': set<Pin>, op: Op, p: Pin)
    requires ValidOp(b, op) && (p in out <==> p in out')
    ensures p in Exec(b, out, op) <==> p in Exec(b, out', op)
  {
    if op.LedsOn? || op.LedsOff? {
      WriteLedsOnPin(b, out, |b.ledPins|, op.LedsOn?, p);
      WriteLedsOnPin(b, out', |b.ledPins|, op.LedsOn?, p);
    } else {
      EffectIsLocal(b, CallOf(b, op), out, out', p);
    }
  }

  lemma {:induction false} RoundsOnPin(b: Board, lit: bool, k: nat, out: set<Pin>, p: Pin)
    requires k <= |b.ledPins|
    ensures p in SerialProgram(b, out, BulkCalls(b, lit)[k..]) <==> if p in b.ledPins[k..] then lit == b.activeState else p in out
    decreases |b.ledPins| - k
  {
    if k < |b.ledPins| {
      var call := BulkCalls(b, lit)[k..][0];
      BulkCallAt(b, lit, k);
      assert BulkCalls(b, lit)[k..][1..] == BulkCalls(b, lit)[k + 1..];
      assert b.ledPins[k..] == [b.ledPins[k]] + b.ledPins[k + 1..];
      RoundsOnPin(b, lit, k + 1, Effect(b, call, out), p);
    }
  }

  lemma BulkOnLed(b: Board, lit: bool, out: set<Pin>, p: Pin)
    ensures p in Exec(b, out, Bulk(lit)) <==> if p in LedPins(b) then p in Written(b, lit) else p in out
  {
    BulkOnPin(b, out, lit, p);
  }

  /** A pin after the interrupted bulk function: a listed pin still to be written is as the bulk
      function writes it, another listed pin is what the interrupt made of that value. */
  lemma EndOnPin(b: Board, lit: bool, op: Op, k: nat, out: set<Pin>, p: Pin)
    requires ValidOp(b, op) && k <= |b.ledPins|
    ensures var end := SerialProgram(b, Exec(b, WriteLeds(b, out, k, lit), op), BulkCalls(b, lit)[k..]);
            var opFirst, opLast := Exec(b, Exec(b, out, op), Bulk(lit)), Exec(b, Exec(b, out, Bulk(lit)), op);
            if p in LedPins(b) then
              && (p in opFirst <==> p in Written(b, lit)) && (p in opLast <==> p in Exec(b, Written(b, lit), op))
              && (p in end <==> p in if p in b.ledPins[k..] then opFirst else opLast)
            else
              (p in end <==> p in opFirst) && (p in end <==> p in opLast)
  {
    var middle := WriteLeds(b, out, k, lit);
    RoundsOnPin(b, lit, k, Exec(b, middle, op), p);
    WriteLedsOnPin(b, out, k, lit, p);
    BulkOnLed(b, lit, out, p);
    BulkOnLed(b, lit, Exec(b, out, op), p);
    assert b.ledPins == b.ledPins[..k] + b.ledPins[k..];
    if p in LedPins(b) {
      ExecOnPin(b, Exec(b, out, Bulk(lit)), Written(b, lit), op, p);
      if p !in b.ledPins[k..] {
        ExecOnPin(b, middle, Written(b, lit), op, p);
      }
    } else {
      ExecOnPin(b, middle, out, op, p);
      ExecOnPin(b, Exec(b, out, Bulk(lit)), out, op, p);
    }
  }

  // ----- The condition suffices -----

  lemma WriterSuffices(b: Board, lit: bool, op: Op, k: nat, out: set<Pin>)
    requires ValidOp(b, op) && k <= |b.ledPins| && !(IsSingleCall(op) && CallOf(b, op).Read?)
    requires AtMostOne(BulkContested(b, lit, op))
    ensures EndsAsOneOrder(b, lit, op, out, k)
  {
    BulkRun(b, lit, op, k, out);
    var end := SerialProgram(b, Exec(b, WriteLeds(b, out, k, lit), op), BulkCalls(b, lit)[k..]);
    var opFirst, opLast := Exec(b, Exec(b, out, op), Bulk(lit)), Exec(b, Exec(b, out, Bulk(lit)), op);
    var late := exists q :: q in BulkContested(b, lit, op) && q !in b.ledPins[k..];
    forall p: Pin ensures p in end <==> p in if late then opLast else opFirst {
      EndOnPin(b, lit, op, k, out, p);
      if p !in BulkContested(b, lit, op) {
        assert p in opFirst <==> p in opLast;
      }
    }
    assert end == if late then opLast else opFirst;
  }

  lemma ReaderSuffices(b: Board, lit: bool, op: Op, k: nat, out: set<Pin>)
    requires ValidOp(b, op) && k <= |b.ledPins| && IsSingleCall(op) && CallOf(b, op).Read?
    requires AtMostOne(BulkContested(b, lit, op))
    ensures EndsAsOneOrder(b, lit, op, out, k)
  {
    BulkRun(b, lit, op, k, out);
    var end := SerialProgram(b, WriteLeds(b, out, k, lit), BulkCalls(b, lit)[k..]);
    var bulk, mask := Exec(b, out, Bulk(lit)), CallOf(b, op).mask;
    forall p: Pin ensures p in end <==> p in bulk {
      EndOnPin(b, lit, op, k, out, p);
    }
    assert end == bulk;
    var seen := exists q :: q in BulkContested(b, lit, op) && q in b.ledPins[..k];
    forall p: Pin | p in mask ensures p in WriteLeds(b, out, k, lit) <==> p in if seen then bulk else out {
      WriteLedsOnPin(b, out, k, lit, p);
      BulkOnLed(b, lit, out, p);
      assert b.ledPins == b.ledPins[..k] + b.ledPins[k..];
      if p in LedPins(b) {
        assert p in BulkContested(b, lit, op);
      }
    }
    assert mask * WriteLeds(b, out, k, lit) == mask * if seen then bulk else out;
  }

  // ----- The condition is necessary -----

  lemma LastOccurrence(list: seq<Pin>, p: Pin) returns (i: nat)
    requires p in list
    ensures i < |list| && list[i] == p && p !in list[i + 1..]
  {
    var last := |list| - 1;
    if list[last] == p {
      i := last;
    } else {
      i := LastOccurrence(list[..last], p);
      assert list[i + 1..] == list[..last][i + 1..] + [list[last]];
    }
  }

  lemma FirstOccurrence(list: seq<Pin>, p: Pin) returns (i: nat)
    requires p in list
    ensures i < |list| && list[i] == p && p !in list[..i]
  {
    if list[0] == p {
      i := 0;
    } else {
      assert list == [list[0]] + list[1..];
      var j := FirstOccurrence(list[1..], p);
      i := j + 1;
      assert list[..i] == [list[0]] + list[1..][..j];
    }
  }

  /** An interrupt that comes when `p` is written for the last time, and `q` is not. */
  lemma WriterTears(b: Board, lit: bool, op: Op, k: nat, p: Pin, q: Pin)
    requires ValidOp(b, op) && k <= |b.ledPins| && !(IsSingleCall(op) && CallOf(b, op).Read?)
    requires {p, q} <= BulkContested(b, lit, op)
    requires p !in b.ledPins[k..] && q in b.ledPins[k..]
    ensures !BulkInterruptAtomic(b, lit, op)
  {
    BulkRun(b, lit, op, k, {});
    EndOnPin(b, lit, op, k, {}, p);
    EndOnPin(b, lit, op, k, {}, q);
    assert !EndsAsOneOrder(b, lit, op, {}, k);
  }

  /** A read that comes when `p` is written, and `q` is not. */
  lemma ReaderTears(b: Board, lit: bool, op: Op, k: nat, p: Pin, q: Pin)
    requires ValidOp(b, op) && k <= |b.ledPins| && IsSingleCall(op) && CallOf(b, op).Read?
    requires {p, q} <= BulkContested(b, lit, op)
    requires p in b.ledPins[..k] && q !in b.ledPins[..k]
    ensures !BulkInterruptAtomic(b, lit, op)
  {
    var out := if lit == b.activeState then {} else {p, q};
    BulkRun(b, lit, op, k, out);
    WriteLedsOnPin(b, out, k, lit, p);
    WriteLedsOnPin(b, out, k, lit, q);
    BulkOnLed(b, lit, out, p);
    BulkOnLed(b, lit, out, q);
    var mask, middle, bulk := CallOf(b, op).mask, WriteLeds(b, out, k, lit), Exec(b, out, Bulk(lit));
    assert p in mask * middle <==> p !in mask * out;
    assert q in mask * middle <==> q !in mask * bulk;
    assert !EndsAsOneOrder(b, lit, op, out, k);
  }

  lemma TwoContestedTear(b: Board, lit: bool, op: Op, p: Pin, q: Pin)
    requires ValidOp(b, op)
    requires p != q && {p, q} <= BulkContested(b, lit, op)
    ensures !BulkInterruptAtomic(b, lit, op)
  {
    if IsSingleCall(op) && CallOf(b, op).Read? {
      var i := FirstOccurrence(b.ledPins, p);
      var j := FirstOccurrence(b.ledPins, q);
      if i < j {
        Reached(b.ledPins, i, j);
        ReaderTears(b, lit, op, j, p, q);
      } else {
        Reached(b.ledPins, j, i);
        ReaderTears(b, lit, op, i, q, p);
      }
    } else {
      var i := LastOccurrence(b.ledPins, p);
      var j := LastOccurrence(b.ledPins, q);
      if i < j {
        Reached(b.ledPins, i, j);
        WriterTears(b, lit, op, i + 1, p, q);
      } else {
        Reached(b.ledPins, j, i);
        WriterTears(b, lit, op, j + 1, q, p);
      }
    }
  }

  lemma Reached(list: seq<Pin>, i: nat, j: nat)
    requires i < j < |list|
    ensures list[i] in list[..j] && list[j] in list[i + 1..]
  {
    assert list[..j][i] == list[i] && list[i + 1..][j - i - 1] == list[j];
  }

  // ----- The exact result -----

  /** A bulk function may be interrupted by an operation exactly if that operation reads, or leaves at
      another value, at most one of the listed pins. */
  lemma BulkInterruptExact(b: Board, lit: bool, op: Op)
    requires ValidOp(b, op)
    ensures BulkInterruptAtomic(b, lit, op) <==> AtMostOne(BulkContested(b, lit, op))
  {
    if AtMostOne(BulkContested(b, lit, op)) {
      forall out: set<Pin>, k | 0 <= k <= |b.ledPins| ensures EndsAsOneOrder(b, lit, op, out, k) {
        if IsSingleCall(op) && CallOf(b, op).Read? {
          ReaderSuffices(b, lit, op, k, out);
        } else {
          WriterSuffices(b, lit, op, k, out);
        }
      }
    } else {
      var p, q :| p in BulkContested(b, lit, op) && q in BulkContested(b, lit, op) && p != q;
      TwoContestedTear(b, lit, op, p, q);
    }
  }

  /** So every operation on a single LED may interrupt it. */
  lemma OneLedMayInterruptBulk(b: Board, lit: bool, op: Op)
    requires ValidOp(b, op) && (op.LedOn? || op.LedOff? || op.LedInvert? || op.LedStateGet?)
    ensures BulkInterruptAtomic(b, lit, op)
  {
    BulkInterruptExact(b, lit, op);
    forall p | p in BulkContested(b, lit, op) ensures p == b.ledPins[op.i] {
      EffectIsLocal(b, CallOf(b, op), Written(b, lit), Written(b, lit), p);
    }
  }

  /** A bulk function may be interrupted by itself, and by the opposite one only on a board with at most
      one LED pin. */
  lemma BulkMayInterruptBulkExact(b: Board, lit: bool)
    ensures BulkInterruptAtomic(b, lit, Bulk(lit))
    ensures BulkInterruptAtomic(b, lit, Bulk(!lit)) <==> AtMostOne(LedPins(b))
  {
    BulkInterruptExact(b, lit, Bulk(lit));
    BulkInterruptExact(b, lit, Bulk(!lit));
    forall p: Pin
      ensures p !in BulkContested(b, lit, Bulk(lit))
      ensures p in BulkContested(b, lit, Bulk(!lit)) <==> p in LedPins(b)
    {
      BulkOnLed(b, lit, Written(b, lit), p);
      BulkOnLed(b, !lit, Written(b, lit), p);
    }
  }
}
