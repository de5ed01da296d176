# Teensy keypad projects: the big red button panel and the meeting-cost calculator

This project models, in Dafny, the firmware of two small AVR (Teensy 2.0)
devices that share one 4x3 matrix keypad scanner:

- **bigred** (`bigred/bigred.c`): an access panel for a big red button. The
  passcode 1-2-3-4 typed on the keypad and confirmed with `#`, then the
  safety switch, then the arm switch enable the button in three stages. The
  flags `keypad`, `safety` and `bigred` record how far the stages have got,
  and three two-colour LEDs show them. `*`, a wrong code, an overfull
  passcode buffer, or a switch thrown out of order run `resetAll`. That
  routine turns every LED off, blinks the reds, and waits at least 61 rounds
  and until both switches read low.
- **meetingcalc** (`meetingcalc/meeting.c`): a five-digit seven-segment
  display, multiplexed one digit at a time. The number of people and the
  hourly rate are typed on the keypad behind a "P." or "H." marker, and the
  display shows the running cost with two decimals.

## How the hardware is represented

- **Registers.** An 8-bit I/O register whose bits are set and cleared one
  at a time (DDRF, PORTF, PORTB, PORTE, PORTD) is the set of its bit
  numbers that are 1. The segment register DDRC is written as a whole
  byte, so it is a `bv8`.
- **Inputs.** What the keypad holds at each scan is a recorded sequence
  `frames` of sets of held (row, column) cells. What PINC reads at each
  switch check is a recorded sequence `polls`. Both are read from a cursor
  onwards. After a record ends, no key is held and both switches read low.
- **The display.** What the display shows is a ghost log, `lit`. It gets
  one `Pulse(position, segments)` each time a digit transistor is switched
  on.
- **Keypad modules.** The scanner (`Keypad`) is proved against a
  specification of scan order: columns pins 2, 0, 4, and rows pins 1, 6,
  5, 3 within each column. `waitKeyPress` is proved against `Debounce`. It
  returns the key of its first scan. When that scan saw a key, it re-scans
  while the same key is reported, at most 96 times (the counter runs from
  50 to 1000 in steps of 10).
- **bigred.** Each stage of the main loop is a pure function (`SafetyStage`,
  `ArmStage`, `KeyStage`, `Status`, `Rounds`). The class `Panel` holds the
  flags, the LED ports and the passcode buffer as an `array<char>`. Its
  methods are proved to perform exactly those functions, and the functions
  carry the policy lemmas.
- **meetingcalc.** The class `Display` holds DDRC, PORTD and the log.
  `getPeople` and `getHourly` are proved against `Entry` (how the entry
  ends) and `Shown` (the numbers displayed on the way). Both return `atoi`
  of the buffer truncated to `uint8_t`, as the source's return type makes
  them: typing 300 for the hourly rate reads 44. The contracts state this
  truncation.

## Behaviour one might expect that the code does not have

The model follows the code in each of these.

- **Switches.** One might expect releasing either switch to reset
  everything. In the code, a switch that reads low changes nothing
  (`bigred/bigred.c:129-131`, `:152-154`). A reset comes from a switch that
  reads high while an earlier stage is missing. The safety switch high
  without `keypad` clears only `safety`. The arm switch high without
  `keypad` and `safety` clears all three flags.
- **What clears `keypad`.** One might expect `*`, a refused `#` and a full
  buffer to drop all three flags. They clear `keypad` and the buffer only. `safety` and `bigred` keep their values
  (`bigred/bigred.c:185-241`).
- **Length of `resetAll`.** One might expect a wait of at least 60 rounds.
  The loop `ticks <= 60` makes at least 61 rounds, and its `uint16_t` counter
  wraps at 65536.
- **The passcode.** One might expect only the four digits of the code to be
  compared. The buffer is compared over all ten slots, so "12345" is
  refused.

## Model

| member | source | states |
|---|---|---|
| Keypad.RowReadsLow | bigred/bigred.c:302-303 | a row pin reads low while a column is driven exactly when the key at that row and column is held |
| Keypad.FirstInColumnSpec | bigred/bigred.c:302-308 | the row loop finds a held row with no held row before it, or finds that no row of the column is held |
| Keypad.FirstHeldSpec | bigred/bigred.c:297-315 | the column loop finds a held key with no held key before it in scan order, or finds that none is held |
| Keypad.ScanReports | bigred/bigred.c:293-316 | a scan reports 0 exactly when no key is held; otherwise a keypad character, that of a held key with no held key before it |
| Keypad.SingleKey | bigred/bigred.c:275-280 | a key held alone is reported as its own character from `charArr` |
| Keypad.NothingHeld | bigred/bigred.c:315 | with nothing held the scan reports 0 |
| Keypad.DrivenColumns | bigred/bigred.c:297-313 | a scan drives between one and three columns |
| Keypad.ScannedPins | bigred/bigred.c:272 | the pins released after `n` columns are exactly `colArr[0..n-1]` |
| Keypad.ReportIs | bigred/bigred.c:293-316 | scan number `i` of a run reports what a scan of the keypad state at that point reports, and 0 after the record |
| Keypad.HoldEndSpec | bigred/bigred.c:286-289 | the hold loop re-scans at least once; every re-scan but the last saw the key, and the last did not or used the final round |
| Keypad.DebounceSpec | bigred/bigred.c:282-291 | `waitKeyPress` returns its first scan's key; with no key it returns after one scan, otherwise after 1 to 96 re-scans of the same key |
| Keypad.HeldThroughout | meetingcalc/meeting.c:250-259 | a key held alone for 97 scans is returned once, after the full 96 re-scans |
| Keypad.ReportsAreKeys | bigred/bigred.c:275-280 | every scan reports 0 or one of the twelve keypad characters |
| Keypad.Port.FindRow | bigred/bigred.c:302-308 | the row loop returns the first row reading low while column `j` is driven, or 4 when none does |
| Keypad.Port.ScanColumn | bigred/bigred.c:298-311 | one column: driven low, rows read, then the pin is made an input with its pull-up on; no other DDRF or PORTF bit changes |
| Keypad.Port.GetKeyPress | meetingcalc/meeting.c:261-279 | `getKeyPress` returns `Scan` of the held keys, and exactly the pins of the columns it drove end as inputs with pull-ups |
| Keypad.Port.ScanAt | bigred/bigred.c:283 | a `getKeyPress` made as scan number `i` returns that scan's report, and releases column pins only |
| Keypad.Port.HoldLoop | meetingcalc/meeting.c:254-257 | the hold loop, with its counter from 50 to 1000 in steps of 10, stops where `HoldEnd` says |
| Keypad.Port.WaitKeyPress | bigred/bigred.c:282-291 | `waitKeyPress` returns the key and the next scan given by `Debounce` over the recorded reports |
| MeetingDigits.NthDigit | meetingcalc/meeting.c:182-187 | `nthdigit(x, n)` is decimal digit `n` of `x` counted from the units, a value 0 to 9 |
| MeetingDigits.DigitShift | meetingcalc/meeting.c:183-185 | one more division by ten moves every digit down one place |
| MeetingDigits.NthDigitExamples | meetingcalc/meeting.c:182-187 | the digits of 54321 read 1, 3 and 5 at places 0, 2 and 4, and 0 beyond |
| MeetingDigits.NumeralBound | meetingcalc/meeting.c:93 | a numeral of `k` digits is below `10^k` |
| MeetingDigits.DigitOfNumeral | meetingcalc/meeting.c:173 | digit `e` of a numeral is its written digit `e` places from the right, and 0 beyond |
| MeetingDigits.Reassemble | meetingcalc/meeting.c:165-174 | the `k` low digits of `x`, written most significant first, read back as `x mod 10^k` |
| MeetingDigits.LeadingDigits | meetingcalc/meeting.c:86 | `atoi` reads at most as many digits as the buffer holds, and only decimal digits |
| MeetingDigits.AtoiPadded | meetingcalc/meeting.c:90 | NULs after the typed digits do not change what `atoi` reads |
| MeetingDigits.AtoiBound | meetingcalc/meeting.c:93 | a buffer of `k` characters reads a number below `10^k` |
| MeetingDigits.AtoiAppend | meetingcalc/meeting.c:95-96 | storing one more digit multiplies the reading by ten and adds the digit |
| MeetingCalc.GuardOffByOne | meetingcalc/meeting.c:202-211 | the guard `num > 18` as written lets 18 read past the 18-entry table, and for every other value it agrees with the corrected guard |
| MeetingCalc.SegmentsInTable | meetingcalc/meeting.c:202-211 | the corrected `displayNum` lights a table entry exactly when `num` is in the table, and clears the display otherwise |
| MeetingCalc.GlyphsRead | meetingcalc/meeting.c:217-236 | the ten digit patterns are distinct and leave the point dark, so each digit is read back from its pattern with or without the point; the "H." and "P." markers light the point |
| MeetingCalc.MultiShowsNumber | meetingcalc/meeting.c:163-180 | one pass of `displayMulti` lights positions 0 to 4 in order and shows `num mod 100000` zero-padded, most significant digit on the left; a marker replaces the leftmost digit |
| MeetingCalc.MultiPosition | meetingcalc/meeting.c:172-174 | each position outside the marker shows digit `4 - i` of `num` |
| MeetingCalc.MarkedFrame | meetingcalc/meeting.c:166-171 | with an "H" or "P" marker the pass does not depend on what DDRC held before |
| MeetingCalc.FixedPosition | meetingcalc/meeting.c:150-159 | position `i` of `displayMultiF` shows digit `4 - i` of the number written out, and lights the point only at position 2 when it is lit |
| MeetingCalc.FixedShowsAmount | meetingcalc/meeting.c:145-159 | below 100000 hundredths the amount is shown zero-padded to five digits with the point after the third and nowhere else |
| MeetingCalc.SplitAtPoint | meetingcalc/meeting.c:150-154 | below 100000 the three digits before the point are the whole units and the two after it the hundredths |
| MeetingCalc.FixedShowsUnits | meetingcalc/meeting.c:146-149 | from 100000 hundredths on the whole units are shown, modulo 100000, with no point lit |
| MeetingCalc.EntryStep | meetingcalc/meeting.c:85-101 | one round of the entry loop either returns with the new buffer or continues the same entry from the next scan |
| MeetingCalc.EntryDigits | meetingcalc/meeting.c:79-103 | the entry buffer only ever holds digits, at most `max` of them; the reading is below `10^max`, and every number displayed while typing is below `10^(max-1)` |
| MeetingCalc.PressDebounced | meetingcalc/meeting.c:250-259 | a key pressed for one scan and then released is returned by exactly one `waitKeyPress`, which stops at the release |
| MeetingCalc.DigitsThenHash | meetingcalc/meeting.c:92-93 | fewer than `max` digits and then `#` end the entry holding exactly those digits |
| MeetingCalc.DigitsUntilFull | meetingcalc/meeting.c:94-99 | `max` digits end the entry at the last of them, without `#` |
| MeetingCalc.DigitsThenStar | meetingcalc/meeting.c:89-91 | `*` discards the digits before it: the entry starts over after the `*` |
| MeetingCalc.StarDiscards | meetingcalc/meeting.c:85-101 | digits, `*`, wanted digits, `#` read only the wanted digits |
| MeetingCalc.HashReads | meetingcalc/meeting.c:81-93 | digits then `#` return `atoi` of those digits truncated to `uint8_t` |
| MeetingCalc.FullReads | meetingcalc/meeting.c:94-98 | `max` digits return `atoi` of those digits truncated to `uint8_t` |
| MeetingCalc.Accept | meetingcalc/meeting.c:89-100 | applying a key to the buffer matches `Step`: `*` empties it, `#` returns, a digit is stored and the last free place returns |
| MeetingCalc.AtoiBuffer | meetingcalc/meeting.c:93 | `atoi` of the buffer is the number of the typed digits, below `10^length` |
| MeetingCalc.TakeKey | meetingcalc/meeting.c:87-101 | waiting for a key and applying it advances the entry as `Entry` and `Shown` say |
| MeetingCalc.Display.DisplayClear | meetingcalc/meeting.c:212-214 | DDRC cleared, nothing else changed |
| MeetingCalc.Display.DisplayNum | meetingcalc/meeting.c:202-211 | DDRC holds table entry `num`, or is cleared past the table (the corrected guard) |
| MeetingCalc.Display.Strobe | meetingcalc/meeting.c:175-178 | one pulse logged at position `i` with the segments then lit; the transistor is off again and the segments cleared |
| MeetingCalc.Display.MultiDigit | meetingcalc/meeting.c:166-174 | DDRC holds the marker or digit `4 - i` of `num` as `MultiGlyph` says |
| MeetingCalc.Display.DisplayMulti | meetingcalc/meeting.c:163-180 | the log grows by exactly `MultiFrame`, DDRC ends cleared and the five transistors off |
| MeetingCalc.Display.SetPoint | meetingcalc/meeting.c:152-154 | the decimal point is lit on top of the current pattern |
| MeetingCalc.Display.FixedDigit | meetingcalc/meeting.c:151-154 | DDRC holds digit `4 - i`, with the point at position 2 when lit, as `FixedGlyph` says |
| MeetingCalc.Display.DisplayMultiF | meetingcalc/meeting.c:141-161 | the log grows by exactly `FixedFrame` of the rounded amount, DDRC ends cleared and the transistors off |
| MeetingCalc.Display.ShowBuffer | meetingcalc/meeting.c:86 | shows `atoi` of the buffer behind the marker, and returns it |
| MeetingCalc.Display.Round | meetingcalc/meeting.c:85-102 | one round of the entry loop keeps the relation between the state so far and how the whole entry ends |
| MeetingCalc.Display.ReadNumber | meetingcalc/meeting.c:81-103 | the entry returns `Reading(Entry(...))`, and the display log is the passes of every number `Shown(...)` lists |
| MeetingCalc.Display.GetPeople | meetingcalc/meeting.c:79-103 | `getPeople` reads up to four digits behind "P." and returns them truncated to `uint8_t` |
| MeetingCalc.Display.GetHourly | meetingcalc/meeting.c:105-129 | `getHourly` reads up to five digits behind "H." and returns them truncated to `uint8_t` |
| MeetingDigits.Nuls | bigred/bigred.c:99-100 | `memset(pass, 0, MAX_CODE)` (and `memset(buf, 0, MAX_PEEPS)` in the meeting calculator) leaves every slot 0 |
| BigRed.FirstFree | bigred/bigred.c:229-233 | the first empty slot: every slot before it holds a key, and it is empty or past the end |
| BigRed.PassStepSpec | bigred/bigred.c:228-241 | a digit goes into the first empty slot with every other slot kept; a full buffer is cleared; the buffer stays a run of digits followed by empty slots |
| BigRed.TypedDigits | bigred/bigred.c:228-241 | up to ten digits typed into an empty buffer are its contents, padded with empty slots |
| BigRed.TypedCode | bigred/bigred.c:193-199 | the buffer equals `code` after digit keys exactly when they are 1, 2, 3, 4 |
| BigRed.TypedOverflow | bigred/bigred.c:233-240 | an eleventh digit clears the buffer and is dropped |
| BigRed.SafetyPolicy | bigred/bigred.c:111-131 | `safety` rises only with the switch high and `keypad` set; high without `keypad` lowers it and resets; low changes nothing; the other flags are never touched |
| BigRed.ArmPolicy | bigred/bigred.c:133-154 | `bigred` rises only with the switch high and both earlier stages passed; high with either missing drops all three flags and resets; low changes nothing |
| BigRed.KeyPolicy | bigred/bigred.c:182-243 | `#` sets `keypad` exactly when the buffer is `code` and clears the buffer; `*`, a refused `#` and a full buffer clear `keypad` and the buffer only; `keypad` rises only by `#` on `code` |
| BigRed.Unlock | bigred/bigred.c:191-213 | typing digits and `#` on an empty buffer sets `keypad` exactly when the digits are 1, 2, 3, 4, and leaves the buffer empty |
| BigRed.StatusPolicy | bigred/bigred.c:158-180 | after the LED block each LED is green exactly when its stage and every earlier one is passed, red otherwise, and no other port bit changes |
| BigRed.StopBound | bigred/bigred.c:258 | the `resetAll` loop cannot run past the end of the record plus 61 rounds |
| BigRed.StopAt | bigred/bigred.c:258-266 | the round count at which the loop stops: both switches low with the 16-bit counter past 60, and it did not stop before |
| BigRed.ResetWaits | bigred/bigred.c:249-267 | `resetAll` runs at least 61 rounds, ends with both switches low, and every earlier check past 60 saw a switch high |
| BigRed.FirstStop | bigred/bigred.c:258 | the first check at which the loop condition fails is the one `resetAll` returns after |
| BigRed.TogglesEveryFifth | bigred/bigred.c:260-264 | before the counter wraps, the reds are inverted in rounds 0, 5, 10, ... |
| BigRed.StagedPolicy | bigred/bigred.c:111-180 | the switch stages never raise `keypad`; `safety` and `bigred` rise only in order; after the LED block the LEDs show the flags; the buffer is untouched |
| BigRed.IterationKeepsShape | bigred/bigred.c:108-246 | the buffer stays a run of digits followed by empty slots from pass to pass, whatever the inputs |
| BigRed.IterationPolicy | bigred/bigred.c:108-246 | across a pass `keypad` rises only by `#` on `code` and `safety` only with its switch high and `keypad` set; an accepted code leaves LED 1 green |
| BigRed.Panel.constructor | bigred/bigred.c:97-106 | power-up: every flag 0, the buffer cleared |
| BigRed.Panel.ClearPass | bigred/bigred.c:187 | every slot of the buffer emptied |
| BigRed.Panel.CheckPass | bigred/bigred.c:193-199 | the match loop answers true exactly when the buffer equals `code` |
| BigRed.Panel.AppendKey | bigred/bigred.c:229-241 | the key goes into the first empty slot and nothing else changes; full exactly when no slot is empty |
| BigRed.Panel.BlinkGreen | bigred/bigred.c:113-122 | the blink ends with the LED green and its red off, no flag or other bit changed |
| BigRed.Panel.ResetAll | bigred/bigred.c:249-267 | `resetAll` makes `Rounds` rounds; the greens end off, the three reds all on or all off by the toggle count, and no flag changes |
| BigRed.Panel.RedRound | bigred/bigred.c:259-265 | one round: the reds inverted when the 16-bit counter is a multiple of 5, and the counter advanced modulo 65536 |
| BigRed.Panel.SafetyCheck | bigred/bigred.c:111-131 | the safety stage updates the flags, LEDs and next PINC read as `SafetyStage` says |
| BigRed.Panel.ArmCheck | bigred/bigred.c:133-154 | the arm stage updates the flags, LEDs and next PINC read as `ArmStage` says |
| BigRed.Panel.ShowStatus | bigred/bigred.c:158-180 | the LED block sets the LEDs to `Status` of the flags |
| BigRed.Panel.HandleKey | bigred/bigred.c:182-243 | the key stage updates the flags, buffer, LEDs and next PINC read as `KeyStage` says |
| BigRed.Panel.Stages | bigred/bigred.c:111-180 | the two switch stages and the LED block together perform `Staged` |
| BigRed.Panel.Iterate | bigred/bigred.c:108-246 | one pass of the main loop performs `Iteration` on the key `waitKeyPress` returns |
| BigRed.Panel.MainLoop | bigred/bigred.c:108-246 | any number of passes keep the passcode buffer a run of digits followed by empty slots |

## Left out

- USB output (`usb_init`, `print`, `usb_debug_putchar`, `printInt`, `printStr`): these are debugging output with no effect on the model's state.
- `displayNum`'s "Illegal Access" message: the model keeps only the cleared display.
- `_delay_ms` and the clock: waits take no time in the model, and a round of a loop stands for its delay.
- The clock prescaler, port set-up and USB set-up at the start of both `main`s: these are fixed register writes before the loops.
- The meeting calculator's `main`: its timer interrupt, the `volatile` tick counter and the endless display of the cost.
- `MeetingCalc.Display.DisplayMultiF` takes the amount already rounded to hundredths as a `uint32`: the float product and the `+ .5` rounding are floating point.
- `getPeople` and `getHourly` are modelled with their buffer cleared to NULs. In the source, `atoi` first reads an uninitialised buffer, and reads past the end of a buffer that holds `MAX_PEEPS` or `MAX_HOURLY` digits with no terminator. What those reads return is undefined.
- `MeetingCalc.Display.ReadNumber` returns None when the record of scans ends: the source would wait for a key forever.
- `nthdigit` with a negative `n` (the loop `while (n--)` then runs for a very long time): every call in the source passes 0 to 4.
- `BigRed.Panel.MainLoop` makes `rounds` passes of a loop that never ends. It states only the buffer invariant across passes; what each pass does is stated by `BigRed.Panel.Iterate`.
- The main loop's trailing `ticks++`: every use of `ticks` resets it first, so it is not observable.
- PINC is read once per if/else-if chain of a stage and once per `resetAll` check. The source reads it again in each condition of a chain (and up to twice per `resetAll` check). A switch that changes between those reads is not modelled.
- The `uint8_t` flags are booleans: they only ever hold 0 or 1.
- The `int8_t j` of the passcode loops: the early exit sets it to 10 and the loop's `j++` then makes it 11, well inside `int8_t`.
- The three inline green blinks are the one method `BigRed.Panel.BlinkGreen`.
- The passcode buffer's "full" case: the source clears the buffer and runs `resetAll` inside the append loop at `j == 9`. The model reports "full" from `BigRed.Panel.AppendKey` and `BigRed.Panel.HandleKey` then does the same. The effect is the same, since the loop ends right after.
- Registers are sets of bit numbers, not bytes: only the named bits are read or written.
- A DDRF or PORTF bit of a keypad column that a scan did not reach keeps its value. `Keypad.Port.WaitKeyPress` states this as "the pins of some first `n` columns were released", not the exact `n`.

## Findings

| source | as written | input that shows it | evidently intended | confidence | as-written member | corrected member |
|---|---|---|---|---|---|---|
| meetingcalc/meeting.c:203 | `if(num > 18)` guards a read of the 18-entry `segment_table`, so `num == 18` reads `segment_table[18]`, one past the end | `displayNum(18)` | `num >= 18` (or `num > 17`): clear the display for every value outside the table | not executed | MeetingCalc.GuardOffByOne | MeetingCalc.SegmentsInTable |
