/** The start-up code of system_nrf51.c: which errata workaround runs, and what it does to the
    hardware, over arbitrary identification registers and arbitrary volatile reads. */
module Startup {
  import opened Words

  /** The words at 0xF0000FE0, 0xF0000FE4, 0xF0000FE8 and 0xF0000FEC. */
  datatype Ids = Ids(fe0: Word, fe4: Word, fe8: Word, fec: Word)

  predicate ManualPeripheralSetupNeeded(ids: Ids) {
    if ids.fe0 & 0x000000FF == 0x1 && ids.fe4 & 0x0000000F == 0x0 then
      if ids.fe8 & 0x000000F0 == 0x00 && ids.fec & 0x000000F0 == 0x0 then true
      else if ids.fe8 & 0x000000F0 == 0x10 && ids.fec & 0x000000F0 == 0x0 then true
      else if ids.fe8 & 0x000000F0 == 0x30 && ids.fec & 0x000000F0 == 0x0 then true
      else false
    else false
  }

  predicate DisabledInDebugNeeded(ids: Ids) {
    if ids.fe0 & 0x000000FF == 0x1 && ids.fe4 & 0x0000000F == 0x0 then
      if ids.fe8 & 0x000000F0 == 0x40 && ids.fec & 0x000000F0 == 0x0 then true
      else false
    else false
  }

  predicate PeripheralDomainSetupNeeded(ids: Ids) {
    if ids.fe0 & 0x000000FF == 0x1 && ids.fe4 & 0x0000000F == 0x0 then
      if ids.fe8 & 0x000000F0 == 0xA0 && ids.fec & 0x000000F0 == 0x0 then true
      else if ids.fe8 & 0x000000F0 == 0xD0 && ids.fec & 0x000000F0 == 0x0 then true
      else false
    else false
  }

  // ----- The workaround as a table -----

  datatype Workaround = NoWorkaround | ManualSetup | DisableInDebug | DomainSetup

  /** The chip family all workarounds are for. */
  predicate KnownPart(ids: Ids) {
    ids.fe0 & 0xFF == 1 && ids.fe4 & 0xF == 0 && ids.fec & 0xF0 == 0
  }

  function ByRevision(revision: Word): Workaround {
    if revision == 0x00 || revision == 0x10 || revision == 0x30 then ManualSetup
    else if revision == 0x40 then DisableInDebug
    else if revision == 0xA0 || revision == 0xD0 then DomainSetup
    else NoWorkaround
  }

  function Chosen(ids: Ids): Workaround {
    if KnownPart(ids) then ByRevision(ids.fe8 & 0xF0) else NoWorkaround
  }

  /** The three predicates are one lookup of the revision, so at most one of them holds. */
  lemma PredicatesAreLookup(ids: Ids)
    ensures ManualPeripheralSetupNeeded(ids) <==> Chosen(ids) == ManualSetup
    ensures DisabledInDebugNeeded(ids) <==> Chosen(ids) == DisableInDebug
    ensures PeripheralDomainSetupNeeded(ids) <==> Chosen(ids) == DomainSetup
  {
  }

  // ----- What the code does to the hardware -----

  datatype Event =
    | Write(address: nat, value: Word)
    | ReadDomain(value: Word)

  /** The write that asks for the peripheral domain, and the write that ends its set-up. */
  const UNLOCK: Event := Write(0x4006EC00, 0x9375)
  const FINISH: Event := Write(0x4006EC14, 0xC0)

  /** The memory bus: what has happened on it, and the values that the coming volatile reads of
      0x4006EC00 will return.  The list is as much of an endless stream as is observed. */
  class Bus {
    var log: seq<Event>
    var coming: seq<Word>

    constructor (coming: seq<Word>)
      ensures log == [] && this.coming == coming
    {
      log, this.coming := [], coming;
    }

    method Store(address: nat, value: Word)
      modifies `log
      ensures log == old(log) + [Write(address, value)]
    {
      log := log + [Write(address, value)];
    }

    /** A volatile read of 0x4006EC00. */
    method Load() returns (value: Word)
      requires coming != []
      modifies this
      ensures value == old(coming)[0] && coming == old(coming)[1..]
      ensures log == old(log) + [ReadDomain(value)]
    {
      value, coming := coming[0], coming[1..];
      log := log + [ReadDomain(value)];
    }
  }

  /** The polling loop and the write after it. */
  function PollTrace(values: seq<Word>): seq<Event> {
    if values == [] then []
    else if values[0] == 1 then [ReadDomain(1), FINISH]
    else [ReadDomain(values[0])] + PollTrace(values[1..])
  }

  function DomainTrace(values: seq<Word>): seq<Event> {
    if values == [] then []
    else if values[0] == 1 then [ReadDomain(1), FINISH]
    else [ReadDomain(values[0]), UNLOCK] + PollTrace(values[1..])
  }

  function WorkaroundTrace(w: Workaround, values: seq<Word>): seq<Event> {
    match w
    case NoWorkaround => []
    case ManualSetup => [Write(0x40000504, 0xC007FFDF), Write(0x40006C18, 0x00008000)]
    case DisableInDebug => [Write(0x40000608, 1)]
    case DomainSetup => DomainTrace(values)
  }

  /** `while (read != 1) {}`.  Left with `done` when a read returns 1, and without when the observed
      reads are used up first. */
  method Poll(bus: Bus) returns (done: bool)
    modifies bus
    ensures done <==> 1 in old(bus.coming)
    ensures done ==> bus.log + [FINISH] == old(bus.log) + PollTrace(old(bus.coming))
    ensures !done ==> bus.log == old(bus.log) + PollTrace(old(bus.coming))
  {
    done := false;
    while bus.coming != []
      invariant 1 in old(bus.coming) <==> 1 in bus.coming
      invariant bus.log + PollTrace(bus.coming) == old(bus.log) + PollTrace(old(bus.coming))
      decreases |bus.coming|
    {
      ghost var coming, log := bus.coming, bus.log;
      var value := bus.Load();
      assert coming == [value] + bus.coming;
      if value == 1 {
        assert bus.log + [FINISH] == log + PollTrace(coming);
        return true;
      }
      assert bus.log + PollTrace(bus.coming) == log + PollTrace(coming);
    }
    assert bus.log + [] == bus.log;
  }

  /** The domain set-up, the last part of SystemInit. */
  method SetUpDomain(bus: Bus) returns (done: bool)
    modifies bus
    ensures bus.log == old(bus.log) + DomainTrace(old(bus.coming))
    ensures done <==> 1 in old(bus.coming)
  {
    if bus.coming == [] {
      return false;
    }
    ghost var before, coming := bus.log, bus.coming;
    var value := bus.Load();
    MemberOfTail(coming, 1);
    if value != 1 {
      bus.Store(0x4006EC00, 0x9375);
      ghost var asked := [ReadDomain(value), UNLOCK];
      assert bus.log == before + asked;
      AppendAssociates(before, asked, PollTrace(bus.coming));
      done := Poll(bus);
      if !done {
        return;
      }
    } else {
      AppendAssociates(before, [ReadDomain(1)], [FINISH]);
    }
    bus.Store(0x4006EC14, 0xC0);
    done := true;
  }

  lemma AppendAssociates(a: seq<Event>, b: seq<Event>, c: seq<Event>)
    ensures (a + b) + c == a + (b + c)
  {
  }

  lemma MemberOfTail(values: seq<Word>, v: Word)
    requires values != []
    ensures v in values <==> v == values[0] || v in values[1..]
  {
    assert values == [values[0]] + values[1..];
  }

  // ----- What every trace of the domain set-up obeys -----

  /** The order that the hardware asks for, anywhere in a trace. */
  predicate WellOrdered(trace: seq<Event>) {
    && (forall k :: 0 <= k < |trace| && trace[k] == UNLOCK ==> k == 1 && trace[0].ReadDomain? && trace[0].value != 1)
    && (forall k :: 0 <= k < |trace| && trace[k] == FINISH ==> k == |trace| - 1 && k > 0 && trace[k - 1] == ReadDomain(1))
    && (forall k :: 0 <= k < |trace| - 1 && trace[k] == ReadDomain(1) ==> trace[k + 1] == FINISH)
  }

  function Reads(vs: seq<Word>): seq<Event> {
    seq(|vs|, i requires 0 <= i < |vs| => ReadDomain(vs[i]))
  }

  lemma {:induction false} PollTraceIsReads(values: seq<Word>, n: nat)
    requires n < |values| && values[n] == 1 && 1 !in values[..n]
    ensures PollTrace(values) == Reads(values[..n + 1]) + [FINISH]
    decreases n
  {
    if n > 0 {
      assert values[0] == values[..n][0];
      assert values[1..][..n - 1] == values[..n][1..];
      PollTraceIsReads(values[1..], n - 1);
      assert Reads(values[..n + 1]) == [ReadDomain(values[0])] + Reads(values[1..][..n]);
    } else {
      assert Reads(values[..1]) == [ReadDomain(1)];
    }
  }

  lemma {:induction false} PollTraceUnfinished(values: seq<Word>)
    requires 1 !in values
    ensures PollTrace(values) == Reads(values)
  {
    if values != [] {
      assert values[0] in values;
      PollTraceUnfinished(values[1..]);
      assert Reads(values) == [ReadDomain(values[0])] + Reads(values[1..]);
    }
  }

  /** If the first 1 is read number `n`, the domain is asked for once, unless `n` is 0, then the loop
      polls exactly `n` times, and the set-up ends. */
  lemma DomainTraceFinished(values: seq<Word>, n: nat)
    requires n < |values| && values[n] == 1 && 1 !in values[..n]
    ensures DomainTrace(values) ==
            if n == 0 then [ReadDomain(1), FINISH]
            else [ReadDomain(values[0]), UNLOCK] + Reads(values[1..n + 1]) + [FINISH]
    ensures |Reads(values[1..n + 1])| == n
  {
    if n > 0 {
      assert values[0] == values[..n][0];
      assert values[1..][..n - 1] == values[..n][1..];
      assert values[1..][..n] == values[1..n + 1];
      PollTraceIsReads(values[1..], n - 1);
    }
  }

  /** If no read is 1, the domain is asked for once and the loop goes on polling. */
  lemma DomainTraceUnfinished(values: seq<Word>)
    requires values != [] && 1 !in values
    ensures DomainTrace(values) == [ReadDomain(values[0]), UNLOCK] + Reads(values[1..])
  {
    assert values[0] in values;
    PollTraceUnfinished(values[1..]);
  }

  lemma FirstOne(values: seq<Word>) returns (n: nat)
    requires 1 in values
    ensures n < |values| && values[n] == 1 && 1 !in values[..n]
  {
    if values[0] == 1 {
      n := 0;
    } else {
      assert values == [values[0]] + values[1..];
      var m := FirstOne(values[1..]);
      n := m + 1;
      assert values[..n] == [values[0]] + values[1..][..m];
    }
  }

  /** The domain set-up event by event. */
  lemma DomainTraceEvents(values: seq<Word>)
    ensures values == [] ==> DomainTrace(values) == []
    ensures values != [] && values[0] == 1 ==> DomainTrace(values) == [ReadDomain(1), Write(0x4006EC14, 0xC0)]
    ensures values != [] && values[0] != 1 ==>
              var trace := DomainTrace(values);
              && 2 <= |trace| <= |values| + (if 1 in values then 2 else 1)
              && trace[0] == ReadDomain(values[0]) && trace[1] == Write(0x4006EC00, 0x9375)
              && (forall k :: 2 <= k < |trace| - (if 1 in values then 1 else 0) ==> trace[k] == ReadDomain(values[k - 1]))
              && (1 in values ==>
                   && 4 <= |trace| && trace[|trace| - 1] == Write(0x4006EC14, 0xC0)
                   && values[|trace| - 3] == 1 && 1 !in values[..|trace| - 3])
              && (1 !in values ==> |trace| == |values| + 1)
  {
    if values != [] && values[0] != 1 {
      if 1 in values {
        var n := FirstOne(values);
        DomainTraceFinished(values, n);
      } else {
        DomainTraceUnfinished(values);
      }
    }
  }

  /** A trace of the finished kind, given by its parts, is well ordered. */
  lemma FinishedIsWellOrdered(first: Word, middle: seq<Word>)
    requires first != 1 && 1 !in middle
    ensures WellOrdered([ReadDomain(first), UNLOCK] + (Reads(middle + [1]) + [FINISH]))
    ensures WellOrdered([ReadDomain(first), UNLOCK] + Reads(middle))
  {
    assert forall k :: 0 <= k < |middle| ==> middle[k] in middle;
  }

  lemma ImmediateIsWellOrdered()
    ensures WellOrdered([ReadDomain(1), FINISH]) && WellOrdered([])
  {
  }

  /** Whatever the hardware answers: the domain is asked for at most once and only after it read as
      something else than 1, and the set-up ends at most once and only right after a 1. */
  lemma DomainTraceWellOrdered(values: seq<Word>)
    ensures WellOrdered(DomainTrace(values))
  {
    ImmediateIsWellOrdered();
    if values != [] && values[0] != 1 {
      var middle := BeforeOne(values[1..]);
      FinishedIsWellOrdered(values[0], middle);
    }
  }

  /** What comes before the first 1. */
  lemma BeforeOne(values: seq<Word>) returns (middle: seq<Word>)
    ensures 1 !in middle
    ensures PollTrace(values) == Reads(middle + [1]) + [FINISH] || PollTrace(values) == Reads(middle)
  {
    if 1 in values {
      var n := FirstOne(values);
      PollTraceIsReads(values, n);
      middle := values[..n];
      assert middle + [1] == values[..n + 1];
    } else {
      PollTraceUnfinished(values);
      middle := values;
    }
  }

  // ----- The whole of it -----

  /** SystemInit.  `done` says that it returns within the observed reads.  What is done on the bus
      depends on the part and its revision:
      - 0x00, 0x10 and 0x30: two writes;
      - 0x40: one write of 1 to DISABLEINDEBUG;
      - 0xA0 and 0xD0: a read of the domain; if that is not 1, a write that asks for the domain, and
        reads up to the first 1; then the write that ends the set-up;
      - any other: nothing. */
  method SystemInit(bus: Bus, ids: Ids) returns (done: bool)
    modifies bus
    ensures bus.log == old(bus.log) + WorkaroundTrace(Chosen(ids), old(bus.coming))
    ensures var added, values := bus.log[|old(bus.log)|..], old(bus.coming);
            var known := ids.fe0 & 0xFF == 1 && ids.fe4 & 0xF == 0 && ids.fec & 0xF0 == 0;
            var revision := ids.fe8 & 0xF0;
            if known && (revision == 0x00 || revision == 0x10 || revision == 0x30) then
              done && added == [Write(0x40000504, 0xC007FFDF), Write(0x40006C18, 0x00008000)]
            else if known && revision == 0x40 then
              done && added == [Write(0x40000608, 1)]
            else if known && (revision == 0xA0 || revision == 0xD0) then
              && (done <==> 1 in values)
              && (values == [] ==> added == [])
              && (values != [] && values[0] == 1 ==> added == [ReadDomain(1), Write(0x4006EC14, 0xC0)])
              && (values != [] && values[0] != 1 ==>
                   && 2 <= |added| <= |values| + (if done then 2 else 1)
                   && added[0] == ReadDomain(values[0]) && added[1] == Write(0x4006EC00, 0x9375)
                   && (forall k :: 2 <= k < |added| - (if done then 1 else 0) ==> added[k] == ReadDomain(values[k - 1]))
                   && (done ==>
                        && 4 <= |added| && added[|added| - 1] == Write(0x4006EC14, 0xC0)
                        && values[|added| - 3] == 1 && 1 !in values[..|added| - 3])
                   && (!done ==> |added| == |values| + 1))
            else
              done && added == []
  {
    PredicatesAreLookup(ids);
    DomainTraceEvents(bus.coming);
    if ManualPeripheralSetupNeeded(ids) {
      bus.Store(0x40000504, 0xC007FFDF);
      bus.Store(0x40006C18, 0x00008000);
    }
    if DisabledInDebugNeeded(ids) {
      bus.Store(0x40000608, 1);
    }
    done := true;
    if PeripheralDomainSetupNeeded(ids) {
      done := SetUpDomain(bus);
    }
    assert bus.log[|old(bus.log)|..] == WorkaroundTrace(Chosen(ids), old(bus.coming));
  }
}
