/** Runs of LEDS_INVERT that nobody interrupts. */
module InvertRuns {
  import opened Words
  import opened LedCalls
  import opened Interleaving

  predicate AllInverts(program: seq<Call>) {
    forall call :: call in program ==> call.Invert?
  }

  /** How many calls of the program flip `p`. */
  function Flips(program: seq<Call>, p: Pin): nat
    requires AllInverts(program)
  {
    if program == [] then 0
    else (if p in program[0].mask then 1 else 0) + Flips(program[1..], p)
  }

  /** A pin ends flipped iff an odd number of the masks contain it: OUT is its first value,
      exclusive-ored with all the masks. */
  lemma {:induction false} InvertRunFlipsByParity(b: Board, out: set<Pin>, program: seq<Call>, p: Pin)
    requires AllInverts(program)
    ensures p in SerialProgram(b, out, program) <==> (p in out) != (Flips(program, p) % 2 == 1)
    decreases |program|
  {
    if program != [] {
      assert program[0] in program;
      InvertRunFlipsByParity(b, Effect(b, program[0], out), program[1..], p);
    }
  }

  lemma {:induction false} FlipsAppend(first: seq<Call>, second: seq<Call>, p: Pin)
    requires AllInverts(first) && AllInverts(second)
    ensures AllInverts(first + second)
    ensures Flips(first + second, p) == Flips(first, p) + Flips(second, p)
  {
    if first == [] {
      assert first + second == second;
    } else {
      assert (first + second)[0] == first[0] && (first + second)[1..] == first[1..] + second;
      FlipsAppend(first[1..], second, p);
    }
  }

  /** What is left of two permutations when one common element is removed. */
  lemma PermutationTail(one: seq<Call>, other: seq<Call>, i: nat)
    requires one != [] && i < |other| && other[i] == one[0]
    requires multiset(one) == multiset(other)
    ensures multiset(one[1..]) == multiset(other[..i] + other[i + 1..])
  {
    assert one == [one[0]] + one[1..];
    assert other == other[..i] + [other[i]] + other[i + 1..];
    calc {
      multiset(one[1..]);
      multiset(one) - multiset{one[0]};
      multiset(other) - multiset{other[i]};
      multiset(other[..i]) + multiset(other[i + 1..]);
      multiset(other[..i] + other[i + 1..]);
    }
  }

  /** The flips of a program when the call at `i` is taken out. */
  lemma FlipsWithout(program: seq<Call>, i: nat, p: Pin)
    requires AllInverts(program) && i < |program|
    ensures AllInverts(program[..i] + program[i + 1..])
    ensures Flips(program, p) == Flips([program[i]], p) + Flips(program[..i] + program[i + 1..], p)
  {
    var before, after := program[..i], program[i + 1..];
    assert program == before + ([program[i]] + after);
    FlipsAppend(before, [program[i]] + after, p);
    FlipsAppend([program[i]], after, p);
    FlipsAppend(before, after, p);
  }

  lemma {:induction false} FlipsOfPermutation(one: seq<Call>, other: seq<Call>, p: Pin)
    requires AllInverts(one) && multiset(one) == multiset(other)
    ensures AllInverts(other) && Flips(one, p) == Flips(other, p)
    decreases |one|
  {
    forall call | call in other ensures call.Invert? {
      assert call in multiset(one);
    }
    if one == [] {
      assert |multiset(other)| == 0;
    } else {
      assert one[0] in multiset(other);
      var i :| 0 <= i < |other| && other[i] == one[0];
      PermutationTail(one, other, i);
      FlipsWithout(other, i, p);
      FlipsWithout(one, 0, p);
      assert one[..0] + one[1..] == one[1..];
      FlipsOfPermutation(one[1..], other[..i] + other[i + 1..], p);
    }
  }

  /** The order of the calls does not matter. */
  lemma InvertRunCommutes(b: Board, out: set<Pin>, one: seq<Call>, other: seq<Call>)
    requires AllInverts(one) && multiset(one) == multiset(other)
    ensures SerialProgram(b, out, one) == SerialProgram(b, out, other)
  {
    forall p: Pin ensures p in SerialProgram(b, out, one) <==> p in SerialProgram(b, out, other) {
      FlipsOfPermutation(one, other, p);
      InvertRunFlipsByParity(b, out, one, p);
      InvertRunFlipsByParity(b, out, other, p);
    }
  }

  /** Making the same calls twice, in whatever order, restores OUT. */
  lemma InvertRunTwiceRestores(b: Board, out: set<Pin>, one: seq<Call>, other: seq<Call>)
    requires AllInverts(one) && multiset(one) == multiset(other)
    ensures SerialProgram(b, SerialProgram(b, out, one), other) == out
  {
    forall p: Pin ensures p in SerialProgram(b, SerialProgram(b, out, one), other) <==> p in out {
      FlipsOfPermutation(one, other, p);
      InvertRunFlipsByParity(b, out, one, p);
      InvertRunFlipsByParity(b, SerialProgram(b, out, one), other, p);
    }
  }
}
