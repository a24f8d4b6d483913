# Verified model of the board support code of the RC car

The repository holds the firmware of a radio-controlled car and its remote control, together with the
vendor code it is built on. Modelled here is the board support layer of that code:

- **LED calls on a shared output register.** `boards.h` offers mask macros (`LEDS_ON`, `LEDS_OFF`,
  `LEDS_INVERT`, `LED_IS_ON`, `LEDS_CONFIGURE`), `boards.c` offers functions by LED index, built on the
  pin functions of `nrf_gpio.h`. All of them use the one register OUT of the GPIO port. Most calls are
  two or three separate register accesses, so main code and interrupt handlers can interleave inside
  them.
- **The peripheral-sharing checks** of `sdk_validation.h`.
- **The start-up workarounds** of `system_nrf51.c`.

The application code of the car and of the remote is not modelled; see the end of this file.

## How the model is built

`Words.dfy` says what a 32-bit register word is: a `bv32`, and at the same time the set of pins whose
bit is set. It proves that C's `|`, `&`, `^` and `& ~` are the set operations, and that words and sets
of pins correspond one to one. All reasoning about calls is then about sets of pins.

`LedCalls.dfy` gives each call twice: as its sequence of register accesses, branch by branch as in the
code, and as its meaning on the lit LEDs. The toggle of `bsp_board_led_invert` makes the same three
accesses as a `LEDS_INVERT` of its pin; `LED_IS_ON` and `bsp_board_led_state_get` read OUT once and
return the bits they select. The bulk functions `bsp_board_leds_on` and `bsp_board_leds_off` are programs
of single writes (`OpPrograms.dfy`).
`Interleaving.dfy` is a machine of any number of contexts, each with any program of calls; a schedule
picks, access by access, who goes next, and what every read returns is part of the outcome. There is
no bound on contexts, calls, masks, schedules or the first value of OUT.

Main results:

1. **Exact atomicity of pairs**, with reads. `Interrupts.InterruptAtomicityExact`: for every board and
   every two calls, a call of main code that is interrupted at any point by a handler making the other
   call ends, from all OUT values, as one of the two sequential orders *if and only if* a condition on
   the masks holds. `LEDS_ON` and `LEDS_OFF` may be interrupted by whatever contests LEDs of one polarity
   only; `LEDS_INVERT` by another one if they share no pin, by any other call if they share at most one;
   calls of one access by everything. A read contests what it selects of the pins that the other call
   writes; so `bsp_board_led_state_get` is atomic against every call
   (`PairAtomicity.OnePinReadAlwaysAtomic`).
   `PairAtomicity.PairAtomicityExact`: contexts that preempt each other freely are atomic exactly if
   either call may interrupt the other, so free preemption breaks nothing that one interrupt does not.
2. **Linearizability** (`SharedToggles.UniformIsLinearizable`, `PairAtomicity.OnOffLinearizableExact`).
   On a board of one polarity any contexts may make `LEDS_ON`, `LEDS_OFF`, one-pin writes, reads and
   toggles of single LEDs with any masks, as long as no two contexts toggle the same LED. Then there is
   one sequential order for the run, and at every point, finished or not, OUT and all values read so far
   are those of the part of it that has taken effect. A toggle writes what its copy of OUT tells it; if
   another call has meanwhile given the pin that value, the toggle takes effect right before that call.
   The order respects real time (`SharedToggles.TakesEffectDuringCall`). One polarity is necessary, and
   two contexts that toggle one LED can lose a toggle (`ConcurrentLeds.LedInvertPairExact`). On a board
   of both polarities the LEDs of one polarity are linearizable by themselves, in the same sense
   (`Views.PolarityIsLinearizable`). A read of several LEDs can see a `LEDS_INVERT` half done
   (`Interrupts.TornRead`); if it runs whole, it takes part without restriction
   (`Linearizability.WholeInvertsAreLinearizable`), and if the pins it flips are private to its context,
   their end is sequential (`Linearizability.LinearizableOnPolarity`).
3. **One linearizable set of LEDs** (`ConcurrentLeds.LinearizableSetExact`). Contexts use both APIs, bulk
   functions included, interleaved in any way; no operation toggles two LEDs, and no LED is toggled by
   two contexts. Every finished run then reports, and its reads have shown, what some sequential order
   of the operations makes of an abstract set of lit LEDs, exactly on boards with distinct LED pins, all
   of them in `LEDS_MASK`, with matching polarity settings. On these boards there is one such order for
   the run, it respects real time, and it holds at every point, finished or not
   (`ConcurrentLeds.LedsAreLinearizableSet`). A bulk function takes part as its single writes, one per
   LED, and not as one operation.
   When it does act as one operation is a result of its own: `BulkInterrupts.BulkInterruptExact` says
   exactly which operations may interrupt it (at most one listed pin is read, or left at another value
   than the bulk function writes), and `InterruptingBulk.InterruptingBulkExact` which calls it may
   interrupt (all but a `LEDS_INVERT` of two LEDs).
4. **Confluence** (`Interleaving.DisjointCallsConfluent`). Contexts with disjoint LEDs end as in every
   sequential order, `LEDS_INVERT` with its possibly outdated copy of OUT included.
5. **Refinement of both APIs to one set of lit LEDs** (`LitLeds.RefinementExact`). Over every run that
   mixes the two APIs the reported LEDs are the abstract set, exactly on boards with distinct LED pins,
   all of them in `LEDS_MASK`, with matching polarity settings. `ShippedBoards.ShippedBoardsExact`
   applies this to all board headers: it fails on `pca10031.h` and `arduino_primo.h`, whose two
   polarity settings contradict each other, and holds on the other twelve.
6. **The validator** (`PeripheralSharing.AcceptedSharesExact`, `PeripheralSharing.ValidatorExact`). For
   all integer flags, a configuration that the file accepts lets two enabled serial drivers share a base
   address exactly when SPIM2 is enabled next to SPI2 or SPIS2. For 0/1 flags, it also accepts every
   configuration that shares none. The messages of `sdk_validation.h:237-245` name SPIM2, but the
   conditions add up SPI2 and SPIS2; the model follows the conditions.
7. **Start-up** (`Startup.SystemInit`, `Startup.DomainTraceWellOrdered`). At most one workaround runs,
   chosen by one table, and for every stream of volatile reads the domain is unlocked at most once and
   only after a read other than 1, and the set-up ends only right after a read of 1.

The code that changes state is imperative here too: `Gpio.Port` is the register block with the pin
functions of `nrf_gpio.h`, the macros and the functions of `boards.c` are methods with the source's
loops, and the start-up code works on a bus with a log. Each method's contract ties the new state to
the functions the lemmas are about.

The ASSERTs on pins and indices are preconditions; the ASSERTs on the size of a mask are the type of
the mask. `NRF_GPIO_PIN_MAP(0, n)` is pin `n` (`nrf_gpio.h:46`).

## Model

| member | source | states |
|---|---|---|
| Words.BitOfPinMask | rc-car/components/boards/boards.h:163 | `1<<pin` has the bit of its pin and no other, for pins 0 to 31 |
| Words.PinsOfAndNot | rc-car/components/boards/boards.h:268 | `& ~` on register words removes the pins of the second word |
| Words.PinsInjective | rc-car/components/device/nrf51.h:1079 | a register value is determined by its set of pins |
| Words.PinsSurjective | rc-car/components/device/nrf51.h:1079 | every set of pins is a register value |
| Words.ShiftedBit | rc-car/components/drivers_nrf/hal/nrf_gpio.h:645 | `(w >> pin) & 1` is 1 if the bit of the pin is set and 0 otherwise |
| Gpio.Port.OutSet | rc-car/components/device/nrf51.h:1080 | writing OUTSET sets the bits that are one and no others |
| Gpio.Port.OutClr | rc-car/components/device/nrf51.h:1081 | writing OUTCLR clears the bits that are one and no others |
| Gpio.Port.PinWrite | rc-car/components/drivers_nrf/hal/nrf_gpio.h:594-630 | one write to OUT, after which the pin has the value and no other pin has changed |
| Gpio.Port.PinToggle | rc-car/components/drivers_nrf/hal/nrf_gpio.h:610-617 | one read and two writes: OUT takes the value with the pin set, then the value with the pin flipped |
| Gpio.Port.PinOutRead | rc-car/components/drivers_nrf/hal/nrf_gpio.h:641-646 | 1 if the pin is set in OUT, 0 if not |
| Gpio.Port.CfgOutput | rc-car/components/drivers_nrf/hal/nrf_gpio.h:476-503 | PIN_CNF of the one pin becomes 0x3, that of the others is as before |
| Gpio.ConfigurationFields | rc-car/components/drivers_nrf/hal/nrf_gpio.h:486-490 | each of the five settings of PIN_CNF is found at its place in the word, and no other bit is set |
| LedMacros.LedsOff | rc-car/components/boards/boards.h:266-268 | the selected LEDs of LEDS_MASK are dark, every other bit is as before, and OUT takes exactly the one stated value in between |
| LedMacros.LedsOn | rc-car/components/boards/boards.h:270-272 | the selected LEDs of LEDS_MASK are lit, every other bit is as before, and OUT takes exactly the one stated value in between |
| LedMacros.LedIsOn | rc-car/components/boards/boards.h:274 | the result is the set of selected pins that are lit, and is true iff there is one |
| LedMacros.LedsInvert | rc-car/components/boards/boards.h:276-279 | the selected pins are flipped, also outside LEDS_MASK, and OUT takes exactly the one stated value in between |
| LedMacros.LedsConfigure | rc-car/components/boards/boards.h:281-285 | exactly the pins of the mask become outputs, in the order of `Ascending`, and the configuration of all others is as before |
| LedMacros.AscendingListsEachOnce | rc-car/components/boards/boards.h:283-285 | that order is strictly increasing and names a pin iff its bit is set |
| LedCalls.AccessesMakeEffect | rc-car/components/boards/boards.h:266-279 | uninterrupted, the register accesses of a call light, darken or flip exactly the selected LEDs |
| LedCalls.AccessMovesTowardEffect | rc-car/components/boards/boards.h:266-272 | at every access, in any interleaving, a pin outside the selection keeps its value and a selected pin keeps its value or takes the one the call wants |
| Interleaving.EveryRunCanFinish | rc-car/components/boards/boards.h:266-279 | from every point of every run all calls can be completed |
| Interleaving.OneToucherConfluent | rc-car/components/boards/boards.h:266-279 | a pin touched by at most one context ends as in every sequential order |
| Interleaving.DisjointCallsConfluent | rc-car/components/boards/boards.h:266-279 | contexts with disjoint LEDs end, in every interleaving, with the OUT of every sequential order; no update is lost |
| Linearizability.CommitOrderIsOrder | rc-car/components/boards/boards.h:266-279 | at every point of a run, the order in which calls have taken effect keeps each program's order; when the run is finished it contains every call once |
| Linearizability.TakesEffectDuringCall | rc-car/components/boards/boards.h:266-279 | at every point of every run, the calls of a context that have taken effect, LEDS_INVERT at its last write with something to do, are those it completed and at most the one under way, so that order respects real time |
| Linearizability.LinearizableOnPolarity | rc-car/components/boards/boards.h:266-279 | for any board and overlapping masks, an LED of one polarity ends as in the sequential order in which the calls took effect, provided no other context touches it if a LEDS_INVERT flips it |
| Linearizability.WholeInvertsAreLinearizable | rc-car/components/boards/boards.h:266-279 | if LEDS_MASK has one polarity, OUT and all reads of every finished run are those of the order in which the calls took effect, with any LEDS_INVERT, shared pins included, if no other context gets a turn inside one |
| Linearizability.UniformEndIsSerial | rc-car/components/boards/boards.h:266-279 | with private LEDS_INVERT of any masks, OUT at the end of every run is that of the order in which the calls took effect |
| SharedToggles.ManageableIsLinearizable | rc-car/components/boards/boards.h:266-279 | the result of the next row for any board, if one of the two writes of every LEDS_ON and LEDS_OFF that is made does all its work |
| SharedToggles.UniformIsLinearizable | rc-car/components/boards/boards.h:266-279 | if LEDS_MASK has one polarity, every run has one sequential order such that at every point OUT and all reads are those of the calls that have taken effect; LEDS_INVERT one pin at a time, and no pin by two contexts, but with any other calls on that pin meanwhile |
| Views.ViewIsLinearizable | rc-car/components/boards/boards.h:266-279 | if the masks, cut down to some pins, meet those conditions, then on these pins every run is linearizable at every point, reads and real time included, whatever happens on the others |
| Views.PolarityIsLinearizable | rc-car/components/boards/boards.h:266-279 | on any board, so it is on the LEDs of each polarity |
| Views.SerialAlike | rc-car/components/boards/boards.h:266-279 | cutting all masks down to some pins changes nothing on these pins, in any sequential order |
| SharedToggles.OthersLeft | rc-car/components/drivers_nrf/hal/nrf_gpio.h:610-617 | when one context makes an access, a call of another context takes effect only if it is a toggle whose write is thereby anticipated |
| SharedToggles.TakesEffectDuringCall | rc-car/components/boards/boards.h:266-279 | in that order too, the calls of a context that have taken effect are at every point those it completed and at most the one under way |
| Interrupts.MixedPolarityTears | rc-car/components/boards/boards.h:266-274 | LEDS_ON or LEDS_OFF, interrupted between its writes by a call that contests LEDs of both polarities, has an outcome that is neither order; a read that selects such LEDs sees neither the old nor the new ones |
| Interrupts.LostInvert | rc-car/components/boards/boards.h:276-279 | a LEDS_INVERT interrupted after its copy by a LEDS_INVERT of a shared pin loses a flip |
| Interrupts.OvertakenInvertTears | rc-car/components/boards/boards.h:266-279 | a LEDS_INVERT interrupted by LEDS_ON or LEDS_OFF on two shared pins has an outcome that is neither order |
| Interrupts.TornRead | rc-car/components/boards/boards.h:274-279 | a read that selects two pins of a LEDS_INVERT it interrupts can return bits that OUT has neither before nor after it |
| Interrupts.InterruptAtomicityExact | rc-car/components/boards/boards.h:266-279 | a call interrupted anywhere by another one, or by a read of any mask, ends as one of the two orders, for every OUT, iff the masks allow that interrupt |
| PairAtomicity.PairAtomicityExact | rc-car/components/boards/boards.h:266-279 | two calls of freely preempting contexts are atomic against each other iff the masks allow either to interrupt the other, which is iff each is atomic as an interrupt of the other |
| PairAtomicity.PinWriteAlwaysAtomic | rc-car/components/boards/boards.c:32-42 | switching one LED by index is atomic against any one other call |
| PairAtomicity.OnePinReadAlwaysAtomic | rc-car/components/boards/boards.c:25-30 | reading the state of one LED is atomic against any one other call |
| PairAtomicity.ToggleAtomicityExact | rc-car/components/drivers_nrf/hal/nrf_gpio.h:610-617 | the toggle of a pin is atomic against every call except a LEDS_INVERT or toggle of that pin, against which it is not atomic even as an interrupt, or interrupted |
| PairAtomicity.OnOffLinearizableExact | rc-car/components/boards/boards.h:266-274 | all runs of LEDS_ON, LEDS_OFF, one-pin writes and reads are linearizable iff the LEDs have one polarity; the same iff with toggles, no pin toggled by two contexts |
| ConcurrentLeds.SerialRefines | rc-car/components/boards/boards.c:25-66 | any sequential order of calls of both APIs reports the abstract set of that order |
| ConcurrentLeds.SerialShows | rc-car/components/boards/boards.c:25-30 | in any sequential order, LED_IS_ON and bsp_board_led_state_get show what the abstract set has when they run |
| OpPrograms.RoundsExec | rc-car/components/boards/boards.c:44-60 | the first n rounds of the bulk functions are n single writes in list order |
| OpPrograms.UnrollProgramExec | rc-car/components/boards/boards.c:25-66 | a program means the same with its bulk functions unrolled into single writes |
| ConcurrentLeds.LedsAreLinearizableSet | rc-car/components/boards/boards.c:25-66 | on a board with matching settings, at every point of every interleaving of both APIs, bulk functions as their single writes, the reported LEDs and all that reads have shown are those of the abstract operations in one order of the run, which respects real time |
| ConcurrentLeds.LinearizableSetExact | rc-car/components/boards/boards.c:25-66 | every finished interleaving reports and has shown the abstract set of some sequential order iff the LED pins are distinct, in LEDS_MASK, and of matching polarity |
| ConcurrentLeds.EndIsLinearizable | rc-car/components/boards/boards.h:266-279 | with private LEDS_INVERT of several LEDs, every finished interleaving reports the abstract set of that order |
| ConcurrentLeds.LedInvertPairExact | rc-car/components/boards/boards.c:62-66 | two bsp_board_led_invert are atomic against each other, freely preempting or one in an interrupt, iff their pins differ; otherwise a toggle can be lost |
| BulkInterrupts.EndOnPin | rc-car/components/boards/boards.c:44-60 | after a bulk function interrupted after k rounds, a listed pin still to come has the written value, any other listed pin what the interrupt makes of it |
| BulkInterrupts.BulkInterruptExact | rc-car/components/boards/boards.c:44-60 | a bulk function interrupted after any round by any operation ends as one of the two orders, for every OUT, iff that operation reads, or leaves at another value, at most one listed pin |
| BulkInterrupts.OneLedMayInterruptBulk | rc-car/components/boards/boards.c:25-66 | every index operation on one LED may interrupt a bulk function |
| BulkInterrupts.BulkMayInterruptBulkExact | rc-car/components/boards/boards.c:44-60 | a bulk function may be interrupted by itself, and by the opposite one iff there is at most one LED pin |
| InterruptingBulk.InterruptingBulkExact | rc-car/components/boards/boards.c:44-60 | a call interrupted anywhere by a bulk function ends as one of the two orders, for every OUT, iff it is not a LEDS_INVERT of two LED pins |
| InvertRuns.InvertRunFlipsByParity | rc-car/components/boards/boards.h:276-279 | after a run of LEDS_INVERT a pin is flipped iff an odd number of the masks contain it |
| InvertRuns.InvertRunCommutes | rc-car/components/boards/boards.h:276-279 | the order of the calls does not matter |
| InvertRuns.InvertRunTwiceRestores | rc-car/components/boards/boards.h:276-279 | making the same calls again, in any order, restores OUT |
| BoardLeds.LedStateGet | rc-car/components/boards/boards.c:25-30 | returns whether the LED is in the reported set |
| BoardLeds.LedOn | rc-car/components/boards/boards.c:32-36 | one write, after which OUT is that of the LedOn operation |
| BoardLeds.LedOff | rc-car/components/boards/boards.c:38-42 | one write, after which OUT is that of the LedOff operation |
| BoardLeds.AllLedsOff | rc-car/components/boards/boards.c:44-51 | OUT takes exactly one value per LED: that after one more access of the bulk function on the machine, with the listed pins up to that LED dark and all others as before; it ends as the operation on all LEDs |
| BoardLeds.AllLedsOn | rc-car/components/boards/boards.c:53-60 | OUT takes exactly one value per LED: that after one more access of the bulk function on the machine, with the listed pins up to that LED lit and all others as before; it ends as the operation on all LEDs |
| BoardLeds.LedInvert | rc-car/components/boards/boards.c:62-66 | the new OUT is that of the LedInvert operation, and OUT takes the same two values as in a LEDS_INVERT of the pin |
| BoardLeds.LedsInit | rc-car/components/boards/boards.c:68-76 | every listed pin is made an output before the first write, then OUT takes exactly the values of bsp_board_leds_off; every LED reports off, none that was dark is lit on the way, and no other pin changes configuration or level |
| BoardLeds.ConfigureAgreesExact | rc-car/components/boards/boards.c:68-76 | LEDS_CONFIGURE(LEDS_MASK) and bsp_board_leds_init leave the same PIN_CNF, whatever it was, iff LEDS_MASK is the pins of LEDS_LIST |
| LitLeds.WriteLedsOnPin | rc-car/components/boards/boards.c:44-60 | after n rounds of the loop the first n listed pins have the active or inactive level and all others their old one |
| LitLeds.ExecAllRefines | rc-car/components/boards/boards.c:25-66 | over every run mixing both APIs the reported LEDs are the abstract set |
| LitLeds.RefinementExact | rc-car/components/boards/boards.c:25-66 | this holds on all runs from all OUT values iff the pins are distinct, in LEDS_MASK, and of matching polarity |
| LitLeds.LedIsOnAgreesExact | rc-car/components/boards/boards.h:274 | LED_IS_ON at an LED pin agrees with the reported state for every OUT iff the polarities match there |
| LitLeds.ShownRefines | rc-car/components/boards/boards.h:274 | on coherent boards, whatever OUT is read, LED_IS_ON of any mask shows exactly the selected LEDs that are reported lit |
| LitLeds.OneLedMacroExact | rc-car/components/boards/boards.c:32-42 | for every OUT, the macro for one LED equals the index call iff the polarities match and the opposite index call iff they do not |
| LitLeds.BulkAgreesExact | rc-car/components/boards/boards.c:44-60 | bsp_board_leds_on/off equal LEDS_ON/OFF(LEDS_MASK) for every OUT iff LEDS_MASK is the pins of LEDS_LIST with matching polarity |
| ShippedBoards.PinsOfMask | rc-car/components/boards/boards.h:160-207 | LEDS_MASK, put together from `1 << BSP_LED_n`, has exactly those pins |
| ShippedBoards.TablesAgree | rc-car/components/boards/pca10040.h:22-40 | in every header LED i of LEDS_LIST is BSP_LED_i, there are LEDS_NUMBER of them, all distinct, and from LED_START to LED_STOP where these are defined |
| ShippedBoards.ShippedIsHeaderBoard | rc-car/components/boards/pca10040.h:31-40 | the word LEDS_MASK has exactly the pins of LEDS_LIST, and the word LEDS_INV_MASK all or none of them, as each header says |
| ShippedBoards.LightingLevels | rc-car/components/boards/pca10031.h:30-32 | for every board, LED and OUT, the level at which the index API, and at which the macros, show the LED as lit |
| ShippedBoards.ShippedBoardsExact | rc-car/components/boards/pca10031.h:30-40 | on every shipped board the on/off calls, reads and toggles (no LED toggled by two contexts) are linearizable; the two APIs agree over all runs, and the LEDs are a linearizable set, on all but the PCA10031 and the Arduino Primo |
| PinLookup.NotFoundIsGreatestWord | rc-car/components/boards/boards.c:86 | the not-found answer is the greatest uint32_t |
| PinLookup.PinToIdx | rc-car/components/boards/boards.c:84-97 | returns the least index that holds the pin, or 0xFFFFFFFF iff there is none; the result fits a uint32_t |
| PinLookup.LookupRoundTripExact | rc-car/components/boards/boards.c:78-97 | pin-of-index undoes every successful lookup; index-of-pin undoes pin-of-index for all indices iff the list has no duplicates |
| PeripheralSharing.Checks0AreAllPairs | rc-car/components/sdk_validation.h:82-155 | the checks of instance 0 are those of all pairs of its six drivers, and no others |
| PeripheralSharing.Checks1AreAllPairs | rc-car/components/sdk_validation.h:157-230 | the same for instance 1 |
| PeripheralSharing.GroupExclusive | rc-car/components/sdk_validation.h:82-155 | checking every pair of any finite group leaves at most one driver enabled, for all integer flags |
| PeripheralSharing.GroupSilentExact | rc-car/components/sdk_validation.h:82-155 | for non-negative flags the checks of any group are silent iff at most one macro is defined or the flags total at most 1 |
| PeripheralSharing.InstancesExclusive | rc-car/components/sdk_validation.h:80-230 | with sharing defined as 0, no two enabled drivers of instances 0 and 1 share a base address, for all integer flags |
| PeripheralSharing.InstanceChecksExact | rc-car/components/sdk_validation.h:82-230 | for non-negative flags the exact condition under which the 30 checks are silent |
| PeripheralSharing.Instance2ChecksExact | rc-car/components/sdk_validation.h:232-245 | for all integer flags the instance 2 checks are silent iff at most one of its macros is defined or SPI2 and SPIS2 total at most 1 |
| PeripheralSharing.Instance2Overlap | rc-car/components/sdk_validation.h:237-245 | a configuration with SPIM2 and SPIS2 both enabled is accepted |
| PeripheralSharing.AcceptedSharesExact | rc-car/components/sdk_validation.h:80-245 | for all integer flags, an accepted configuration has no shared base address iff SPIM2 is not enabled with SPI2 or SPIS2 |
| PeripheralSharing.ValidatorExact | rc-car/components/sdk_validation.h:80-245 | for 0/1 flags, no shared base address iff the file accepts and SPIM2 is not enabled with SPI2 or SPIS2 |
| PeripheralSharing.RejectedWithoutSharing | rc-car/components/sdk_validation.h:82-85 | a configuration with one enabled driver whose flag is 2 is rejected |
| PeripheralSharing.UncheckedExact | rc-car/components/sdk_validation.h:80 | every configuration is accepted iff resource sharing is not defined as 0 |
| Startup.PredicatesAreLookup | rc-car/components/toolchain/system_nrf51.c:100-149 | the three variant predicates are one table lookup of the revision under one identity guard, so at most one holds |
| Startup.Poll | rc-car/components/toolchain/system_nrf51.c:92-93 | the loop ends iff a read returns 1, with the stated trace |
| Startup.SetUpDomain | rc-car/components/toolchain/system_nrf51.c:90-95 | the bus sees exactly the domain trace of the coming reads |
| Startup.SystemInit | rc-car/components/toolchain/system_nrf51.c:62-97 | event by event what is added to the bus log for every identification and all reads: two writes for revisions 0x00, 0x10 and 0x30, one for 0x40, the domain set-up for 0xA0 and 0xD0, nothing otherwise; and it returns iff no polling is needed or a read returns 1 |
| Startup.DomainTraceEvents | rc-car/components/toolchain/system_nrf51.c:89-96 | the domain set-up event by event: a read; unless that is 1, the write of 0x9375 and reads up to the first 1; then the write of 0xC0 |
| Startup.DomainTraceFinished | rc-car/components/toolchain/system_nrf51.c:89-96 | if read number n is the first 1, the domain is unlocked once (never for n = 0), the loop polls exactly n times, and the set-up ends |
| Startup.DomainTraceUnfinished | rc-car/components/toolchain/system_nrf51.c:90-93 | if no read is 1, the domain is unlocked once and everything after that is polling |
| Startup.DomainTraceWellOrdered | rc-car/components/toolchain/system_nrf51.c:89-96 | for all reads, unlocking happens at most once and only after a read other than 1, and the final write only right after a read of 1 |

## Left out

- SharedToggles.UniformIsLinearizable: a LEDS_INVERT of several pins, or of a pin that another context also toggles, is excluded, because by Interrupts.InterruptAtomicityExact reads can then tear and toggles be lost; such calls are covered there in pairs, and by Linearizability.WholeInvertsAreLinearizable and Linearizability.UniformEndIsSerial.
- ConcurrentLeds.LedsAreLinearizableSet: a bulk function takes part as its single writes; as one operation it is treated with one interrupting or interrupted call, by BulkInterrupts.BulkInterruptExact and InterruptingBulk.InterruptingBulkExact, not under free preemption by any number of contexts.
- Startup.SystemInit: works on the observed part of the endless stream of reads, so "returns" means within that part.
- Gpio.Port.CfgOutput: the writes to PIN_CNF take no part in the interleavings; each is one write to a register of its own pin.
- The second GPIO port of the nRF52840: every LED of the board headers is on port 0, so pins are 0 to 31.
- The search loop occurs twice in the source, for LEDs and for buttons; it is written out once, over any list.
- Button state and button set-up: the same one-line shape as for LEDs, on the input register.
- The presence, count and NFC checks and the comparator check of sdk_validation.h: single conditions.
- get_speed and steering_speeds (rc_controller.c, rc_steering.c), rc_filter.c, rc_motor.c and rc_ultrasound.c: not modelled; formulas in double precision, sensor filtering and driver set-up.
- The main programs of the car and the remote, the sampling of the remote, the unit tests and framework/rc_utilities.c: not modelled; calls into radio, timer and PWM drivers, and conversions of message fields.
- bsp.c, the indication states of the SDK on top of the LED functions: not modelled.
- SystemCoreClockUpdate, clock constants, register tables, rename headers and pin tables other than the LED settings: data without an algorithm.
- Electrical behaviour of the pins, memory ordering on the bus beyond the order of the accesses, and time.
