/** The overlap checks of sdk_validation.h for the serial drivers, against the nRF52 address map. */
module PeripheralSharing {
  import opened Sequences

  datatype Driver =
    | TWIM0 | TWIS0 | SPIM0 | SPIS0 | SPI0 | TWI0
    | TWIM1 | TWIS1 | SPIM1 | SPIS1 | SPI1 | TWI1
    | SPI2 | SPIS2 | SPIM2

  /** The ..._ENABLED macros that are defined, with their values. */
  type Config = map<Driver, int>

  datatype Sharing = Undefined | Defined(value: int)

  /** In a preprocessor condition an undefined macro counts as 0. */
  function Value(c: Config, d: Driver): int {
    if d in c then c[d] else 0
  }

  predicate Enabled(c: Config, d: Driver) {
    Value(c, d) > 0
  }

  /** One #if: it asks whether two macros are defined, and adds up two macros. */
  datatype Check = Check(guard: (Driver, Driver), sum: (Driver, Driver))

  function PairCheck(x: Driver, y: Driver): Check {
    Check((x, y), (x, y))
  }

  predicate Fires(c: Config, k: Check) {
    k.guard.0 in c && k.guard.1 in c && Value(c, k.sum.0) + Value(c, k.sum.1) > 1
  }

  /** The drivers of one instance, in the order in which the file takes them. */
  const INSTANCE_0: seq<Driver> := [TWIM0, TWIS0, SPIM0, SPIS0, SPI0, TWI0]
  const INSTANCE_1: seq<Driver> := [TWIM1, TWIS1, SPIM1, SPIS1, SPI1, TWI1]

  const INSTANCE_2: seq<Driver> := [SPI2, SPIS2, SPIM2]

  const CHECKS_0: seq<Check> :=
    [PairCheck(TWIM0, TWIS0), PairCheck(TWIM0, SPIM0), PairCheck(TWIM0, SPIS0), PairCheck(TWIM0, SPI0), PairCheck(TWIM0, TWI0)]
    + ([PairCheck(TWIS0, SPIM0), PairCheck(TWIS0, SPIS0), PairCheck(TWIS0, SPI0), PairCheck(TWIS0, TWI0)]
    + ([PairCheck(SPIM0, SPIS0), PairCheck(SPIM0, SPI0), PairCheck(SPIM0, TWI0)]
    + ([PairCheck(SPIS0, SPI0), PairCheck(SPIS0, TWI0)]
    + [PairCheck(SPI0, TWI0)])))

  const CHECKS_1: seq<Check> :=
    [PairCheck(TWIM1, TWIS1), PairCheck(TWIM1, SPIM1), PairCheck(TWIM1, SPIS1), PairCheck(TWIM1, SPI1), PairCheck(TWIM1, TWI1)]
    + ([PairCheck(TWIS1, SPIM1), PairCheck(TWIS1, SPIS1), PairCheck(TWIS1, SPI1), PairCheck(TWIS1, TWI1)]
    + ([PairCheck(SPIM1, SPIS1), PairCheck(SPIM1, SPI1), PairCheck(SPIM1, TWI1)]
    + ([PairCheck(SPIS1, SPI1), PairCheck(SPIS1, TWI1)]
    + [PairCheck(SPI1, TWI1)])))

  /** The last two of these add up macros other than the ones they ask about. */
  const CHECKS_2: seq<Check> := [
    PairCheck(SPI2, SPIS2),
    Check((SPIM2, SPIS2), (SPI2, SPIS2)),
    Check((SPIM2, SPI2), (SPI2, SPIS2))]

  predicate Silent(c: Config, checks: seq<Check>) {
    forall k :: k in checks ==> !Fires(c, k)
  }

  /** The file compiles, as far as these checks go; they are skipped unless resource sharing is
      defined as 0. */
  predicate Accepts(sharing: Sharing, c: Config) {
    sharing == Defined(0) ==> Silent(c, CHECKS_0) && Silent(c, CHECKS_1) && Silent(c, CHECKS_2)
  }

  /** The base addresses of the nRF52 map. */
  function BaseAddress(d: Driver): nat {
    match d
    case TWIM0 | TWIS0 | SPIM0 | SPIS0 | SPI0 | TWI0 => 0x40003000
    case TWIM1 | TWIS1 | SPIM1 | SPIS1 | SPI1 | TWI1 => 0x40004000
    case SPI2 | SPIS2 | SPIM2 => 0x40023000
  }

  /** No two enabled drivers use the same hardware. */
  predicate NoSharedBase(c: Config) {
    forall x, y :: x != y && Enabled(c, x) && Enabled(c, y) ==> BaseAddress(x) != BaseAddress(y)
  }

  predicate ZeroOrOne(c: Config) {
    forall d :: d in c ==> 0 <= c[d] <= 1
  }

  predicate NonNegative(c: Config) {
    forall d :: d in c ==> c[d] >= 0
  }

  // ----- Any group of drivers whose every pair is checked -----

  /** The checks of one driver against each of a list. */
  function HeadChecks(d: Driver, rest: seq<Driver>): (checks: seq<Check>)
    ensures |checks| == |rest| && forall j :: 0 <= j < |rest| ==> checks[j] == PairCheck(d, rest[j])
  {
    if rest == [] then [] else [PairCheck(d, rest[0])] + HeadChecks(d, rest[1..])
  }

  /** The checks of every pair of a group. */
  function AllPairChecks(group: seq<Driver>): seq<Check> {
    if group == [] then [] else HeadChecks(group[0], group[1..]) + AllPairChecks(group[1..])
  }

  predicate PairsQuiet(c: Config, group: seq<Driver>) {
    forall i, j :: 0 <= i < j < |group| ==> !Fires(c, PairCheck(group[i], group[j]))
  }

  predicate HeadQuiet(c: Config, d: Driver, rest: seq<Driver>) {
    forall j :: 0 <= j < |rest| ==> !Fires(c, PairCheck(d, rest[j]))
  }

  lemma HeadChecksSilent(c: Config, d: Driver, rest: seq<Driver>)
    ensures Silent(c, HeadChecks(d, rest)) <==> HeadQuiet(c, d, rest)
  {
  }

  lemma SilentAppend(c: Config, first: seq<Check>, second: seq<Check>)
    ensures Silent(c, first + second) <==> Silent(c, first) && Silent(c, second)
  {
  }

  lemma PairsQuietHead(c: Config, group: seq<Driver>)
    requires group != []
    ensures PairsQuiet(c, group) <==> PairsQuiet(c, group[1..]) && HeadQuiet(c, group[0], group[1..])
  {
  }

  lemma {:induction false} AllPairChecksSilent(c: Config, group: seq<Driver>)
    ensures Silent(c, AllPairChecks(group)) <==> PairsQuiet(c, group)
  {
    if group != [] {
      AllPairChecksSilent(c, group[1..]);
      PairsQuietHead(c, group);
      HeadChecksSilent(c, group[0], group[1..]);
      SilentAppend(c, HeadChecks(group[0], group[1..]), AllPairChecks(group[1..]));
    }
  }

  /** At most one of the group is enabled. */
  predicate Exclusive(c: Config, group: seq<Driver>) {
    forall x, y :: x in group && y in group && x != y ==> !(Enabled(c, x) && Enabled(c, y))
  }

  /** Checking every pair of a group keeps all but one of it off, whatever integers the flags are. */
  lemma GroupExclusive(c: Config, group: seq<Driver>)
    requires Silent(c, AllPairChecks(group))
    ensures Exclusive(c, group)
  {
    AllPairChecksSilent(c, group);
    forall x, y | x in group && y in group && x != y ensures !(Enabled(c, x) && Enabled(c, y)) {
      var i :| 0 <= i < |group| && group[i] == x;
      var j :| 0 <= j < |group| && group[j] == y;
      assert !Fires(c, if i < j then PairCheck(x, y) else PairCheck(y, x));
    }
  }

  /** For 0/1 flags that is all they do. */
  lemma GroupExclusiveExact(c: Config, group: seq<Driver>, checks: seq<Check>)
    requires ZeroOrOne(c) && Distinct(group) && checks == AllPairChecks(group)
    ensures Silent(c, checks) <==> Exclusive(c, group)
  {
    if Exclusive(c, group) {
      forall i, j | 0 <= i < j < |group| ensures !Fires(c, PairCheck(group[i], group[j])) {
        var x, y := group[i], group[j];
        assert x in group && y in group && x != y;
      }
      AllPairChecksSilent(c, group);
    } else if Silent(c, AllPairChecks(group)) {
      GroupExclusive(c, group);
    }
  }

  function Total(c: Config, group: seq<Driver>): int {
    if group == [] then 0 else Value(c, group[0]) + Total(c, group[1..])
  }

  function DefinedCount(c: Config, group: seq<Driver>): nat {
    if group == [] then 0 else (if group[0] in c then 1 else 0) + DefinedCount(c, group[1..])
  }

  lemma {:induction false} TotalBounds(c: Config, group: seq<Driver>)
    requires NonNegative(c)
    ensures Total(c, group) >= 0
    ensures forall i :: 0 <= i < |group| ==> Value(c, group[i]) <= Total(c, group)
    ensures (forall i :: 0 <= i < |group| && group[i] in c ==> c[group[i]] == 0) ==> Total(c, group) == 0
    ensures DefinedCount(c, group) == 0 <==> forall i :: 0 <= i < |group| ==> group[i] !in c
  {
    if group != [] {
      var rest := group[1..];
      TotalBounds(c, rest);
      assert forall i :: 0 < i < |group| ==> group[i] == rest[i - 1];
      assert forall i :: 0 <= i < |rest| ==> rest[i] == group[i + 1];
    }
  }

  lemma {:induction false} TotalOfOneDefined(c: Config, group: seq<Driver>, i: nat)
    requires NonNegative(c) && i < |group| && group[i] in c && DefinedCount(c, group) <= 1
    ensures Total(c, group) == c[group[i]]
  {
    var rest := group[1..];
    TotalBounds(c, rest);
    assert forall k :: 0 <= k < |rest| ==> rest[k] == group[k + 1];
    if i == 0 {
      assert DefinedCount(c, rest) == 0;
    } else {
      assert rest[i - 1] in c;
      TotalOfOneDefined(c, rest, i - 1);
    }
  }

  /** For non-negative flags the checks of a group are silent exactly when at most one of its macros
      is defined, or the flags add up to at most 1. */
  lemma {:induction false} GroupSilentExact(c: Config, group: seq<Driver>)
    requires NonNegative(c)
    ensures Silent(c, AllPairChecks(group)) <==> DefinedCount(c, group) <= 1 || Total(c, group) <= 1
  {
    AllPairChecksSilent(c, group);
    if group != [] {
      var d, rest := group[0], group[1..];
      GroupSilentExact(c, rest);
      AllPairChecksSilent(c, rest);
      TotalBounds(c, rest);
      PairsQuietHead(c, group);
      if d in c && DefinedCount(c, rest) > 0 {
        var i :| 0 <= i < |rest| && rest[i] in c;
        if HeadQuiet(c, d, rest) {
          assert !Fires(c, PairCheck(d, rest[i]));
          if DefinedCount(c, rest) == 1 {
            TotalOfOneDefined(c, rest, i);
          }
        } else {
          var j :| 0 <= j < |rest| && Fires(c, PairCheck(d, rest[j]));
          assert Value(c, rest[j]) <= Total(c, rest);
        }
      }
    }
  }

  // ----- The checks of the file -----

  /** The file checks every pair of drivers of instance 0, and nothing else. */
  lemma Checks0AreAllPairs()
    ensures CHECKS_0 == AllPairChecks(INSTANCE_0)
  {
  }

  /** And in the same way for instance 1. */
  lemma Checks1AreAllPairs()
    ensures CHECKS_1 == AllPairChecks(INSTANCE_1)
  {
  }

  /** Each of the three instances is the drivers of one base address. */
  lemma InstanceOfBase(x: Driver)
    ensures x in INSTANCE_0 <==> BaseAddress(x) == 0x40003000
    ensures x in INSTANCE_1 <==> BaseAddress(x) == 0x40004000
    ensures x in INSTANCE_2 <==> BaseAddress(x) == 0x40023000
  {
  }

  /** With resource sharing off, no two enabled drivers of instances 0 and 1 share a base address, for
      all integer flags. */
  lemma InstancesExclusive(c: Config, x: Driver, y: Driver)
    requires Accepts(Defined(0), c)
    requires x !in INSTANCE_2 && y !in INSTANCE_2 && x != y
    requires Enabled(c, x) && Enabled(c, y)
    ensures BaseAddress(x) != BaseAddress(y)
  {
    Checks0AreAllPairs();
    Checks1AreAllPairs();
    GroupExclusive(c, INSTANCE_0);
    GroupExclusive(c, INSTANCE_1);
    InstanceOfBase(x);
    InstanceOfBase(y);
  }

  /** For non-negative flags the checks of instances 0 and 1 are silent exactly when each instance has
      at most one macro defined, or flags of total at most 1. */
  lemma InstanceChecksExact(c: Config)
    requires NonNegative(c)
    ensures Silent(c, CHECKS_0) <==> DefinedCount(c, INSTANCE_0) <= 1 || Total(c, INSTANCE_0) <= 1
    ensures Silent(c, CHECKS_1) <==> DefinedCount(c, INSTANCE_1) <= 1 || Total(c, INSTANCE_1) <= 1
  {
    Checks0AreAllPairs();
    Checks1AreAllPairs();
    GroupSilentExact(c, INSTANCE_0);
    GroupSilentExact(c, INSTANCE_1);
  }

  lemma InstancesAreDistinct()
    ensures Distinct(INSTANCE_0) && Distinct(INSTANCE_1)
  {
  }

  /** The checks are made exactly where resource sharing is defined as 0: with any other setting, or
      none, every configuration is accepted. */
  lemma UncheckedExact(sharing: Sharing)
    ensures (forall c: Config :: Accepts(sharing, c)) <==> sharing != Defined(0)
  {
    var c: Config := map[TWIM0 := 1, TWIS0 := 1];
    assert Fires(c, CHECKS_0[0]) && CHECKS_0[0] in CHECKS_0;
    assert !Accepts(Defined(0), c);
  }

  /** What the checks of instances 0 and 1 do for 0/1 flags. */
  lemma InstanceChecksExclusive(c: Config)
    requires ZeroOrOne(c)
    ensures Silent(c, CHECKS_0) <==> Exclusive(c, INSTANCE_0)
    ensures Silent(c, CHECKS_1) <==> Exclusive(c, INSTANCE_1)
  {
    Checks0AreAllPairs();
    Checks1AreAllPairs();
    InstancesAreDistinct();
    GroupExclusiveExact(c, INSTANCE_0, CHECKS_0);
    GroupExclusiveExact(c, INSTANCE_1, CHECKS_1);
  }

  /** What the instance 2 checks do, for all integer flags: two of the three macros must be defined,
      but the flags that count are those of SPI2 and SPIS2. */
  lemma Instance2ChecksExact(c: Config)
    ensures Silent(c, CHECKS_2) <==> DefinedCount(c, INSTANCE_2) <= 1 || Value(c, SPI2) + Value(c, SPIS2) <= 1
  {
    assert CHECKS_2[0] in CHECKS_2 && CHECKS_2[1] in CHECKS_2 && CHECKS_2[2] in CHECKS_2;
    DefinedCountOfThree(c, SPI2, SPIS2, SPIM2);
  }

  lemma DefinedCountOfThree(c: Config, x: Driver, y: Driver, z: Driver)
    ensures DefinedCount(c, [x, y, z]) == (if x in c then 1 else 0) + (if y in c then 1 else 0) + (if z in c then 1 else 0)
  {
    var none: seq<Driver> := [];
    assert [x, y, z][1..] == [y, z] && [y, z][1..] == [z] && [z][1..] == none;
    assert DefinedCount(c, [x, y, z]) == (if x in c then 1 else 0) + DefinedCount(c, [y, z]);
    assert DefinedCount(c, [z]) == (if z in c then 1 else 0) + DefinedCount(c, none);
  }

  /** For 0/1 flags they only keep SPI2 and SPIS2 apart. */
  lemma Instance2ChecksKeepTwoApart(c: Config)
    requires ZeroOrOne(c)
    ensures Silent(c, CHECKS_2) <==> !(Enabled(c, SPI2) && Enabled(c, SPIS2))
  {
    Instance2ChecksExact(c);
    DefinedCountOfThree(c, SPI2, SPIS2, SPIM2);
  }

  /** What the instance 2 checks miss. */
  predicate Instance2Missed(c: Config) {
    Enabled(c, SPIM2) && (Enabled(c, SPI2) || Enabled(c, SPIS2))
  }

  lemma NoSharedBaseByInstance(c: Config)
    ensures NoSharedBase(c) <==> Exclusive(c, INSTANCE_0) && Exclusive(c, INSTANCE_1) && Exclusive(c, INSTANCE_2)
  {
    forall x: Driver {
      InstanceOfBase(x);
    }
  }

  /** What is wrong with the promise of the file that accepted drivers do not share hardware, for all
      integer flags: an accepted configuration breaks it exactly by enabling SPIM2 next to SPI2 or
      SPIS2. */
  lemma AcceptedSharesExact(c: Config)
    requires Accepts(Defined(0), c)
    ensures NoSharedBase(c) <==> !Instance2Missed(c)
  {
    Checks0AreAllPairs();
    Checks1AreAllPairs();
    GroupExclusive(c, INSTANCE_0);
    GroupExclusive(c, INSTANCE_1);
    assert !Fires(c, CHECKS_2[0]);
    Instance2Exclusive(c);
    NoSharedBaseByInstance(c);
  }

  /** For 0/1 flags the file also accepts all that does not share hardware: no two enabled drivers
      share hardware exactly when it accepts the configuration and SPIM2 is not enabled next to SPI2
      or SPIS2. */
  lemma ValidatorExact(c: Config)
    requires ZeroOrOne(c)
    ensures NoSharedBase(c) <==> Accepts(Defined(0), c) && !Instance2Missed(c)
  {
    if Accepts(Defined(0), c) {
      AcceptedSharesExact(c);
    }
    InstanceChecksExclusive(c);
    Instance2ChecksKeepTwoApart(c);
    NoSharedBaseByInstance(c);
    Instance2Exclusive(c);
  }

  /** For other flags it may not: one enabled driver is rejected if its flag is 2. */
  lemma RejectedWithoutSharing(c: Config)
    requires c == map[TWIM0 := 2, TWIS0 := 0]
    ensures NoSharedBase(c) && !Accepts(Defined(0), c)
  {
    assert Fires(c, CHECKS_0[0]) && CHECKS_0[0] in CHECKS_0;
  }

  lemma Instance2Exclusive(c: Config)
    ensures Exclusive(c, INSTANCE_2) <==> !(Enabled(c, SPI2) && Enabled(c, SPIS2)) && !Instance2Missed(c)
  {
  }

  /** Instance 2 is not protected like the others: SPIM2 and SPIS2 are accepted together. */
  lemma Instance2Overlap(c: Config)
    requires c == map[SPIM2 := 1, SPIS2 := 1]
    ensures Accepts(Defined(0), c) && !NoSharedBase(c)
  {
    assert Enabled(c, SPIM2) && Enabled(c, SPIS2) && BaseAddress(SPIM2) == BaseAddress(SPIS2);
    NothingEnabled(c, INSTANCE_0);
    NothingEnabled(c, INSTANCE_1);
    InstanceChecksExclusive(c);
    Instance2ChecksKeepTwoApart(c);
  }

  lemma NothingEnabled(c: Config, group: seq<Driver>)
    requires forall i :: 0 <= i < |group| ==> !Enabled(c, group[i])
    ensures Exclusive(c, group)
  {
  }
}
