/**
 * The "big red button" panel (bigred/bigred.c). A passcode typed on the
 * keypad, then the safety switch, then the arm switch enable the button in
 * three stages, recorded in the flags `keypad`, `safety` and `bigred`; three
 * two-colour LEDs show how far the stages have got.
 *
 * PORTB and PORTE are modelled, like the keypad's registers, by the set of
 * their bits that are 1. The switches are PINC bit 0 (safety) and bit 1
 * (arm). What successive reads of PINC return is supplied by the caller as
 * a record `polls`, read from a cursor onwards; after the record ends both
 * switches read low. Each if/else-if chain of a stage samples PINC once.
 */
module BigRed {
  import opened Keypad
  import opened MeetingDigits

  /** Slots of the passcode buffer (`MAX_CODE`). */
  const MaxCode: nat := 10

  /** An empty slot of the passcode buffer. */
  const Nul: char := 0 as char

  /** `code`: the passcode 1, 2, 3, 4 with the remaining slots zero. */
  const Code: seq<char> := ['1', '2', '3', '4', Nul, Nul, Nul, Nul, Nul, Nul]

  // ---------------------------------------------------------------------
  // The passcode buffer
  // ---------------------------------------------------------------------

  /**
   * The buffer invariant: ten slots holding a run of digit keys followed
   * only by empty slots.
   */
  predicate PassShape(p: seq<char>) {
    |p| == MaxCode &&
    (forall i :: 0 <= i < |p| ==> p[i] == Nul || IsDigitChar(p[i])) &&
    (forall i, j :: 0 <= i < j < |p| && p[i] == Nul ==> p[j] == Nul)
  }

  /** The first empty slot of `p`, or `|p|` when every slot is filled. */
  function FirstFree(p: seq<char>): (k: nat)
    ensures k <= |p|
    ensures forall i :: 0 <= i < k ==> p[i] != Nul
    ensures k < |p| ==> p[k] == Nul
  {
    if p == [] || p[0] == Nul then 0 else 1 + FirstFree(p[1..])
  }

  /**
   * The buffer after key `c` is handled: a zero report changes nothing,
   * `*` and `#` clear it, any other key goes into the first empty slot, and
   * a key finding no empty slot clears the buffer and is dropped.
   */
  function PassStep(p: seq<char>, c: char): seq<char> {
    if c == Nul then p
    else if c == '*' || c == '#' then Nuls(|p|)
    else if FirstFree(p) < |p| then p[FirstFree(p) := c]
    else Nuls(|p|)
  }

  /** The buffer after the keys `ks`, typed one after another into an empty buffer. */
  function Typed(ks: seq<char>): (p: seq<char>)
    ensures |p| == MaxCode
  {
    if ks == [] then Nuls(MaxCode) else PassStep(Typed(ks[..|ks| - 1]), ks[|ks| - 1])
  }

  /**
   * A stored key lands in the first empty slot and every other slot keeps
   * its key; a full buffer is cleared instead. The buffer invariant holds
   * afterwards, whatever key the keypad reported.
   */
  lemma PassStepSpec(p: seq<char>, c: char)
    requires PassShape(p) && (c == Nul || IsKey(c))
    ensures PassShape(PassStep(p, c))
    ensures IsDigitChar(c) && FirstFree(p) < MaxCode ==>
      var q := PassStep(p, c);
      q[FirstFree(p)] == c && (forall i :: 0 <= i < MaxCode && i != FirstFree(p) ==> q[i] == p[i]) &&
      FirstFree(q) == FirstFree(p) + 1
    ensures IsDigitChar(c) && FirstFree(p) == MaxCode ==> PassStep(p, c) == Nuls(MaxCode)
  {
    var k := FirstFree(p);
    var q := PassStep(p, c);
    if IsDigitChar(c) && k < MaxCode {
      assert q == p[k := c];
      forall i, j | 0 <= i < j < |q| && q[i] == Nul
        ensures q[j] == Nul
      {
        assert i != k && p[i] == Nul;
      }
      if k + 1 < MaxCode {
        assert q[k + 1] == p[k + 1] == Nul;
      }
    }
  }

  /**
   * Digit keys typed into an empty buffer, at most ten of them, are the
   * buffer's contents, padded with empty slots.
   */
  lemma {:induction false} TypedDigits(ks: seq<char>)
    requires DigitChars(ks) && |ks| <= MaxCode
    ensures Typed(ks) == ks + Nuls(MaxCode - |ks|)
    ensures FirstFree(Typed(ks)) == |ks|
  {
    if ks != [] {
      var init, c := ks[..|ks| - 1], ks[|ks| - 1];
      TypedDigits(init);
      var p := Typed(init);
      assert p == init + Nuls(MaxCode - |init|);
      assert FirstFree(p) == |init|;
      assert Typed(ks) == p[|init| := c];
      assert p[|init| := c] == ks + Nuls(MaxCode - |ks|);
      var q := Typed(ks);
      if |ks| < MaxCode {
        assert q[|ks|] == Nul;
      }
      assert forall i :: 0 <= i < |ks| ==> q[i] != Nul;
    }
  }

  /**
   * The buffer equals `code` after digit keys `ks` exactly when `ks` is
   * the four keys 1, 2, 3, 4.
   */
  lemma TypedCode(ks: seq<char>)
    requires DigitChars(ks) && |ks| <= MaxCode
    ensures Typed(ks) == Code <==> ks == ['1', '2', '3', '4']
  {
    TypedDigits(ks);
    PaddedCode(ks);
  }

  /** Digit keys padded with empty slots spell `code` exactly when they are 1, 2, 3, 4. */
  lemma PaddedCode(ks: seq<char>)
    requires DigitChars(ks) && |ks| <= MaxCode
    ensures ks + Nuls(MaxCode - |ks|) == Code <==> ks == ['1', '2', '3', '4']
  {
    var q := ks + Nuls(MaxCode - |ks|);
    if |ks| < 4 {
      assert q[|ks|] == Nul && Code[|ks|] != Nul;
    } else if |ks| > 4 {
      assert q[4] == ks[4] && IsDigitChar(ks[4]);
    } else {
      if ks == ['1', '2', '3', '4'] {
        assert forall i :: 0 <= i < MaxCode ==> q[i] == Code[i];
      }
      if q == Code {
        assert ks == q[..4];
      }
    }
  }

  /** An eleventh digit key clears the buffer and is dropped. */
  lemma TypedOverflow(ks: seq<char>)
    requires DigitChars(ks) && |ks| == MaxCode + 1
    ensures Typed(ks) == Nuls(MaxCode)
  {
    var init := ks[..MaxCode];
    TypedDigits(init);
    assert FirstFree(Typed(init)) == MaxCode;
  }

  // ---------------------------------------------------------------------
  // The flags and the three stages of one pass of the main loop
  // ---------------------------------------------------------------------

  /** The three stage flags (`uint8_t` variables that only ever hold 0 or 1). */
  datatype Flags = Flags(keypad: bool, safety: bool, bigred: bool)

  /** What a switch stage does besides setting flags: nothing, a green blink of its LED, or `resetAll`. */
  datatype Effect = Quiet | Blink | Reset

  /** The safety-switch stage, given whether PINC bit 0 reads high. */
  function SafetyStage(f: Flags, high: bool): (Flags, Effect) {
    if high && f.keypad && !f.safety then (f.(safety := true), Blink)
    else if high && f.keypad then (f, Quiet)
    else if high then (f.(safety := false), Reset)
    else (f, Quiet)
  }

  /** The arm-switch stage, given whether PINC bit 1 reads high. */
  function ArmStage(f: Flags, high: bool): (Flags, Effect) {
    if high && f.keypad && f.safety && !f.bigred then (f.(bigred := true), Blink)
    else if high && f.safety && f.keypad then (f.(bigred := true), Quiet)
    else if high then (Flags(false, false, false), Reset)
    else (f, Quiet)
  }

  /**
   * `safety` is raised only with the switch high and the passcode accepted;
   * with the switch high and no passcode it is lowered and the panel is
   * reset; with the switch low nothing changes. `keypad` and `bigred` are
   * never changed by this stage.
   */
  lemma SafetyPolicy(f: Flags, high: bool)
    ensures var r := SafetyStage(f, high);
      r.0.keypad == f.keypad && r.0.bigred == f.bigred &&
      (!f.safety && r.0.safety ==> high && f.keypad) &&
      (high && !f.keypad ==> !r.0.safety && r.1 == Reset) &&
      (high && f.keypad ==> r.0.safety && r.1 != Reset) &&
      (!high ==> r == (f, Quiet))
  {
  }

  /**
   * `bigred` is raised only with the arm switch high and both earlier
   * stages passed; with the switch high and either missing, all three flags
   * drop and the panel is reset; with the switch low nothing changes.
   */
  lemma ArmPolicy(f: Flags, high: bool)
    ensures var r := ArmStage(f, high);
      (!f.bigred && r.0.bigred ==> high && f.keypad && f.safety) &&
      (high && f.keypad && f.safety ==> r.0 == f.(bigred := true) && r.1 != Reset) &&
      (high && !(f.keypad && f.safety) ==> r == (Flags(false, false, false), Reset)) &&
      (!high ==> r == (f, Quiet))
  {
  }

  /** What the key stage did: no key, a key stored, the panel reset, or the passcode accepted. */
  datatype KeyEffect = NoKey | Stored | Cleared | Unlocked

  /** The key stage for key `c` (0 when `waitKeyPress` saw none). */
  function KeyStage(f: Flags, p: seq<char>, c: char): (Flags, seq<char>, KeyEffect) {
    if c == Nul then (f, p, NoKey)
    else if c == '*' then (f.(keypad := false), PassStep(p, c), Cleared)
    else if c == '#' then
      if p == Code then (f.(keypad := true), PassStep(p, c), Unlocked)
      else (f.(keypad := false), PassStep(p, c), Cleared)
    else if FirstFree(p) < |p| then (f, PassStep(p, c), Stored)
    else (f.(keypad := false), PassStep(p, c), Cleared)
  }

  /**
   * `#` accepts exactly the buffer `code` and clears the buffer either way;
   * `*`, a refused `#` and a key finding the buffer full clear the buffer
   * and `keypad` and nothing else: `safety` and `bigred` keep their values.
   * A stored key or no key leaves the flags alone.
   */
  lemma KeyPolicy(f: Flags, p: seq<char>, c: char)
    requires |p| == MaxCode
    ensures var r := KeyStage(f, p, c);
      (c == '#' ==> (r.0.keypad <==> p == Code) && r.1 == Nuls(MaxCode)) &&
      (r.2 == Cleared ==> r.0 == f.(keypad := false) && r.1 == Nuls(MaxCode)) &&
      (r.2 == Cleared <==> c == '*' || (c == '#' && p != Code) || (c != Nul && c != '#' && FirstFree(p) == MaxCode)) &&
      (r.2 == NoKey || r.2 == Stored ==> r.0 == f) &&
      (!f.keypad && r.0.keypad ==> c == '#' && p == Code)
  {
  }

  /**
   * Typing the digit keys `ks` and then `#` into an empty buffer raises
   * `keypad` exactly when `ks` is 1, 2, 3, 4, and leaves the buffer empty.
   */
  lemma Unlock(f: Flags, ks: seq<char>)
    requires DigitChars(ks) && |ks| <= MaxCode
    ensures var r := KeyStage(f, Typed(ks), '#');
      (r.0.keypad <==> ks == ['1', '2', '3', '4']) && r.1 == Nuls(MaxCode) &&
      r.0.safety == f.safety && r.0.bigred == f.bigred
  {
    TypedCode(ks);
  }

  // ---------------------------------------------------------------------
  // The LEDs
  // ---------------------------------------------------------------------

  /** The LED bits: LED 1 and LED 3 on PORTB, LED 2 on PORTE. */
  const Led1Green: nat := 0
  const Led1Red: nat := 1
  const Led3Green: nat := 2
  const Led3Red: nat := 3
  const Led2Red: nat := 6
  const Led2Green: nat := 7
  const PortBLamps: set<nat> := {Led1Green, Led1Red, Led3Green, Led3Red}
  const PortELamps: set<nat> := {Led2Red, Led2Green}

  datatype Led = Led1 | Led2 | Led3

  function GreenBit(led: Led): nat {
    match led
    case Led1 => Led1Green
    case Led2 => Led2Green
    case Led3 => Led3Green
  }

  function RedBit(led: Led): nat {
    match led
    case Led1 => Led1Red
    case Led2 => Led2Red
    case Led3 => Led3Red
  }

  /** PORTB and PORTE. */
  datatype Regs = Regs(portb: set<nat>, porte: set<nat>) {
    /** The bits of both ports set in `this` or in `r`. */
    function Plus(r: Regs): Regs {
      Regs(portb + r.portb, porte + r.porte)
    }
  }

  /** One LED lit in one colour: bit `green` when `isGreen`, bit `red` otherwise. */
  function Lamp(isGreen: bool, green: nat, red: nat): set<nat> {
    if isGreen then {green} else {red}
  }

  /** The LED block: LED 1 green on `keypad`, LED 2 on `keypad && safety`, LED 3 on all three; red otherwise. */
  function Status(r: Regs, f: Flags): Regs {
    Regs(r.portb - PortBLamps + Lamp(f.keypad, Led1Green, Led1Red) + Lamp(f.safety && f.keypad && f.bigred, Led3Green, Led3Red),
         r.porte - PortELamps + Lamp(f.safety && f.keypad, Led2Green, Led2Red))
  }

  /**
   * After the LED block every LED shows exactly one colour, green exactly
   * when its stage and every earlier one has been passed; no other bit of
   * PORTB or PORTE changes.
   */
  lemma StatusPolicy(r: Regs, f: Flags)
    ensures var s := Status(r, f);
      (Led1Green in s.portb <==> f.keypad) && (Led1Red in s.portb <==> !f.keypad) &&
      (Led2Green in s.porte <==> f.keypad && f.safety) && (Led2Red in s.porte <==> !(f.keypad && f.safety)) &&
      (Led3Green in s.portb <==> f.keypad && f.safety && f.bigred) &&
      (Led3Red in s.portb <==> !(f.keypad && f.safety && f.bigred)) &&
      s.portb - PortBLamps == r.portb - PortBLamps && s.porte - PortELamps == r.porte - PortELamps
  {
  }

  /** The end of a green blink: the LED's red bit off, its green bit on. */
  function Blinked(led: Led, r: Regs): Regs {
    if led == Led2 then r.(porte := r.porte - {Led2Red} + {Led2Green})
    else r.(portb := r.portb - {RedBit(led)} + {GreenBit(led)})
  }

  /** Bit `b` of `s` inverted. */
  function Flip(s: set<nat>, b: nat): set<nat> {
    if b in s then s - {b} else s + {b}
  }

  // ---------------------------------------------------------------------
  // resetAll
  // ---------------------------------------------------------------------

  /** What successive reads of PINC bits 0 and 1 return. */
  datatype Switches = Switches(safety: bool, arm: bool)

  /** PINC read number `t`; after the record ends both switches read low. */
  function PollAt(polls: seq<Switches>, t: nat): Switches {
    if t < |polls| then polls[t] else Switches(false, false)
  }

  /** `uint16_t` counts modulo this. */
  const TickWrap: nat := 0x1_0000

  /**
   * Whether the `resetAll` loop, started at read `from`, stops at its check
   * after `t` rounds: both switches read low and the 16-bit round counter
   * is past 60.
   */
  predicate Stops(polls: seq<Switches>, from: nat, t: nat) {
    !PollAt(polls, from + t).safety && !PollAt(polls, from + t).arm && t % TickWrap > 60
  }

  /** Whether the loop did not stop at any of its first `t` checks. */
  predicate NoStopBefore(polls: seq<Switches>, from: nat, t: nat) {
    forall u :: 0 <= u < t ==> !Stops(polls, from, u)
  }

  /** A bound on the rounds `resetAll` can run: the record's remainder and 61 more. */
  function Horizon(polls: seq<Switches>, from: nat): nat {
    (if from < |polls| then |polls| - from else 0) + 61
  }

  /**
   * The loop cannot run past the horizon: once the record has ended both
   * switches read low, and among any 62 successive rounds one has a 16-bit
   * count past 60.
   */
  lemma StopBound(polls: seq<Switches>, from: nat, t: nat)
    requires NoStopBefore(polls, from, t)
    ensures t <= Horizon(polls, from)
  {
    QuietWithin(polls, from);
    assert t > LastQuiet(polls, from) ==> !Stops(polls, from, LastQuiet(polls, from));
  }

  /**
   * A check at which the loop certainly stops: the first one, once the
   * record has ended, whose 16-bit count is past 60.
   */
  function LastQuiet(polls: seq<Switches>, from: nat): nat {
    var l := Horizon(polls, from) - 61;
    if l % TickWrap > 60 then l else l + (61 - l % TickWrap)
  }

  lemma QuietWithin(polls: seq<Switches>, from: nat)
    ensures Stops(polls, from, LastQuiet(polls, from)) && LastQuiet(polls, from) <= Horizon(polls, from)
  {
    var l := Horizon(polls, from) - 61;
    var r := l % TickWrap;
    if r <= 60 {
      assert l == l / TickWrap * TickWrap + r;
      assert LastQuiet(polls, from) == l / TickWrap * TickWrap + 61;
    }
  }

  /** The number of rounds `resetAll` runs once its loop has not stopped at any of the first `t` checks. */
  function StopAt(polls: seq<Switches>, from: nat, t: nat): (n: nat)
    requires NoStopBefore(polls, from, t)
    ensures t <= n && Stops(polls, from, n) && NoStopBefore(polls, from, n)
    decreases Horizon(polls, from) - t
  {
    if Stops(polls, from, t) then t
    else
      StopBound(polls, from, t + 1);
      StopAt(polls, from, t + 1)
  }

  /** The rounds `resetAll` runs when its first check is read `from`. */
  function Rounds(polls: seq<Switches>, from: nat): nat {
    StopAt(polls, from, 0)
  }

  /**
   * `resetAll` runs at least 61 rounds; its final check reads both
   * switches low; and every earlier check with the counter past 60 found a
   * switch high.
   */
  lemma ResetWaits(polls: seq<Switches>, from: nat)
    ensures var n := Rounds(polls, from);
      n >= 61 && !PollAt(polls, from + n).safety && !PollAt(polls, from + n).arm &&
      forall u :: 0 <= u < n && u % TickWrap > 60 ==> PollAt(polls, from + u).safety || PollAt(polls, from + u).arm
  {
    var n := Rounds(polls, from);
    assert Stops(polls, from, n);
    assert n >= 61 by {
      if n < TickWrap {
        assert n % TickWrap == n;
      }
    }
    forall u | 0 <= u < n && u % TickWrap > 60
      ensures PollAt(polls, from + u).safety || PollAt(polls, from + u).arm
    {
      assert !Stops(polls, from, u);
    }
  }

  /** The first check at which the loop stops is the one it returns after. */
  lemma FirstStop(polls: seq<Switches>, from: nat, t: nat)
    requires Stops(polls, from, t) && NoStopBefore(polls, from, t)
    ensures Rounds(polls, from) == t
  {
    var n := Rounds(polls, from);
    assert Stops(polls, from, n) && NoStopBefore(polls, from, n);
  }

  /** How often the red LEDs have been inverted after `n` rounds: in each round whose 16-bit count is a multiple of 5. */
  function Toggles(n: nat): nat {
    if n == 0 then 0 else Toggles(n - 1) + (if (n - 1) % TickWrap % 5 == 0 then 1 else 0)
  }

  /** Before the counter wraps, the reds are inverted in rounds 0, 5, 10, ... */
  lemma {:induction false} TogglesEveryFifth(n: nat)
    requires n <= TickWrap
    ensures Toggles(n) == (n + 4) / 5
  {
    if n > 0 {
      TogglesEveryFifth(n - 1);
      assert (n - 1) % TickWrap == n - 1;
    }
  }

  /** Whether the red LEDs are on after `n` rounds of `resetAll`. */
  predicate RedsLit(n: nat) {
    Toggles(n) % 2 == 1
  }

  /** The bits `bits` when `on`, no bits otherwise. */
  function Reds(on: bool, bits: set<nat>): set<nat> {
    if on then bits else {}
  }

  /** The red bits of PORTB and PORTE that are on after `n` rounds of `resetAll`. */
  function RedsAfter(n: nat): Regs {
    Regs(Reds(RedsLit(n), {Led1Red, Led3Red}), Reds(RedsLit(n), {Led2Red}))
  }

  /** The LEDs when `resetAll` returns after `n` rounds: the greens off, the three reds all on or all off. */
  function ResetLamps(r: Regs, n: nat): Regs {
    Regs(r.portb - PortBLamps, r.porte - PortELamps).Plus(RedsAfter(n))
  }

  /** Advancing a 16-bit counter. */
  lemma TickNext(t: nat)
    ensures (t % TickWrap + 1) % TickWrap == (t + 1) % TickWrap
  {
    var q, r := t / TickWrap, t % TickWrap;
    assert t + 1 == q * TickWrap + (r + 1);
    if r + 1 == TickWrap {
      assert t + 1 == (q + 1) * TickWrap;
    }
  }

  /** Inverting the three red bits turns them all from on to off or from off to on. */
  lemma FlipReds(b: set<nat>, e: set<nat>, lit: bool)
    requires Led1Red !in b && Led3Red !in b && Led2Red !in e
    ensures Flip(Flip(b + Reds(lit, {Led1Red, Led3Red}), Led1Red), Led3Red) == b + Reds(!lit, {Led1Red, Led3Red})
    ensures Flip(e + Reds(lit, {Led2Red}), Led2Red) == e + Reds(!lit, {Led2Red})
  {
  }

  /** The LEDs after a stage with effect `e` on LED `led`, with `resetAll` starting at read `from`. */
  function StageLamps(e: Effect, led: Led, r: Regs, polls: seq<Switches>, from: nat): Regs {
    match e
    case Quiet => r
    case Blink => Blinked(led, r)
    case Reset => ResetLamps(r, Rounds(polls, from))
  }

  /** The next PINC read after a stage with effect `e`: `resetAll` makes its checks first. */
  function After(e: Effect, polls: seq<Switches>, from: nat): nat {
    if e == Reset then from + Rounds(polls, from) + 1 else from
  }

  // ---------------------------------------------------------------------
  // One pass of the main loop
  // ---------------------------------------------------------------------

  /** The panel's state between the stages of a pass of the main loop, and the next PINC read. */
  datatype Pass = Pass(flags: Flags, pass: seq<char>, regs: Regs, next: nat)

  /**
   * The two switch stages and the LED block: the safety stage reads PINC
   * at `at`, the arm stage at the read after it (and after any `resetAll`
   * it ran), and the LEDs are set from the flags.
   */
  function Staged(f: Flags, p: seq<char>, r: Regs, polls: seq<Switches>, at: nat): Pass {
    var s := SafetyStage(f, PollAt(polls, at).safety);
    var a1 := After(s.1, polls, at + 1);
    var m := ArmStage(s.0, PollAt(polls, a1).arm);
    var r2 := StageLamps(m.1, Led3, StageLamps(s.1, Led2, r, polls, at + 1), polls, a1 + 1);
    Pass(m.0, p, Status(r2, m.0), After(m.1, polls, a1 + 1))
  }

  /** The LED and `resetAll` effect of a key-stage outcome. */
  function KeyLamps(k: KeyEffect): Effect {
    match k
    case Cleared => Reset
    case Unlocked => Blink
    case _ => Quiet
  }

  /** The key stage for key `c` from state `s`. */
  function Keyed(s: Pass, c: char, polls: seq<Switches>): Pass {
    var k := KeyStage(s.flags, s.pass, c);
    var e := KeyLamps(k.2);
    Pass(k.0, k.1, StageLamps(e, Led1, s.regs, polls, s.next), After(e, polls, s.next))
  }

  /** One pass of the main loop, handling key `c`. */
  function Iteration(f: Flags, p: seq<char>, r: Regs, c: char, polls: seq<Switches>, at: nat): Pass {
    Keyed(Staged(f, p, r, polls, at), c, polls)
  }

  /** Showing the same flags twice is showing them once. */
  lemma StatusTwice(r: Regs, f: Flags)
    ensures Status(Status(r, f), f) == Status(r, f)
  {
  }

  /**
   * The switch stages never raise `keypad`; `safety` rises only with the
   * safety switch high while `keypad` was set; `bigred` rises only when
   * `keypad` and `safety` are set with it; after the LED block the LEDs show
   * the flags; the buffer is untouched.
   */
  lemma StagedPolicy(f: Flags, p: seq<char>, r: Regs, polls: seq<Switches>, at: nat)
    ensures var s := Staged(f, p, r, polls, at);
      s.pass == p && s.regs == Status(s.regs, s.flags) &&
      (s.flags.keypad ==> f.keypad) &&
      (!f.safety && s.flags.safety ==> PollAt(polls, at).safety && f.keypad) &&
      (!f.bigred && s.flags.bigred ==> s.flags.keypad && s.flags.safety)
  {
    var s := SafetyStage(f, PollAt(polls, at).safety);
    var a1 := After(s.1, polls, at + 1);
    var m := ArmStage(s.0, PollAt(polls, a1).arm);
    SafetyPolicy(f, PollAt(polls, at).safety);
    ArmPolicy(s.0, PollAt(polls, a1).arm);
    StatusTwice(StageLamps(m.1, Led3, StageLamps(s.1, Led2, r, polls, at + 1), polls, a1 + 1), m.0);
  }

  /**
   * The buffer invariant holds from one pass of the main loop to the next
   * whatever the switches and the keypad report.
   */
  lemma IterationKeepsShape(f: Flags, p: seq<char>, r: Regs, c: char, polls: seq<Switches>, at: nat)
    requires PassShape(p) && (c == Nul || IsKey(c))
    ensures PassShape(Iteration(f, p, r, c, polls, at).pass)
  {
    StagedPolicy(f, p, r, polls, at);
    PassStepSpec(p, c);
  }

  /**
   * Across a whole pass: `keypad` rises only by `#` on the buffer `code`,
   * and `safety` only with the safety switch high while `keypad` was set.
   * With no key or a stored key the LEDs end showing the flags; after an
   * accepted passcode LED 1 is green.
   */
  lemma IterationPolicy(f: Flags, p: seq<char>, r: Regs, c: char, polls: seq<Switches>, at: nat)
    requires |p| == MaxCode
    ensures var t := Iteration(f, p, r, c, polls, at);
      (!f.keypad && t.flags.keypad ==> c == '#' && p == Code) &&
      (!f.safety && t.flags.safety ==> PollAt(polls, at).safety && f.keypad) &&
      (c == Nul || (c != '*' && c != '#' && FirstFree(p) < MaxCode) ==> t.regs == Status(t.regs, t.flags)) &&
      (c == '#' && p == Code ==> t.flags.keypad && Led1Green in t.regs.portb && Led1Red !in t.regs.portb)
  {
    var s := Staged(f, p, r, polls, at);
    StagedPolicy(f, p, r, polls, at);
    KeyPolicy(s.flags, p, c);
  }

  // ---------------------------------------------------------------------
  // The panel
  // ---------------------------------------------------------------------

  /** The variables of `main` that outlive one pass of its loop, and the LED ports. */
  class Panel {
    var keypad: bool
    var safety: bool
    var bigred: bool
    var portb: set<nat>
    var porte: set<nat>
    const pass: array<char>

    function State(): Flags
      reads this
    {
      Flags(keypad, safety, bigred)
    }

    function Registers(): Regs
      reads this
    {
      Regs(portb, porte)
    }

    /** Power-up: the ports low, the buffer cleared, every flag 0. */
    constructor ()
      ensures fresh(pass) && pass.Length == MaxCode && pass[..] == Nuls(MaxCode)
      ensures State() == Flags(false, false, false) && Registers() == Regs({}, {})
    {
      keypad, safety, bigred := false, false, false;
      portb, porte := {}, {};
      pass := new char[MaxCode](_ => Nul);
    }

    /** `memset(pass, 0, MAX_CODE)`. */
    method ClearPass()
      modifies pass
      ensures pass[..] == Nuls(pass.Length)
    {
      forall i | 0 <= i < pass.Length {
        pass[i] := Nul;
      }
    }

    /**
     * The match loop of `#`: compare the buffer with `code` slot by slot,
     * stopping at the first difference.
     */
    method CheckPass() returns (matched: bool)
      requires pass.Length == MaxCode
      ensures matched <==> pass[..] == Code
    {
      matched := true;
      var j := 0;
      while j < MaxCode
        invariant 0 <= j <= MaxCode + 1
        invariant matched ==> j <= MaxCode && forall i :: 0 <= i < j ==> pass[i] == Code[i]
        invariant !matched ==> pass[..] != Code
      {
        if Code[j] != pass[j] {
          matched := false;
          assert pass[..][j] != Code[j];
          j := MaxCode;
        }
        j := j + 1;
      }
      if matched {
        assert pass[..] == Code;
      }
    }

    /**
     * The append loop: put `c` into the first empty slot, or report that
     * every slot is filled (the buffer is then left as it was).
     */
    method AppendKey(c: char) returns (full: bool)
      requires pass.Length == MaxCode
      modifies pass
      ensures full <==> FirstFree(old(pass[..])) == MaxCode
      ensures full ==> pass[..] == old(pass[..])
      ensures !full ==> pass[..] == old(pass[..])[FirstFree(old(pass[..])) := c]
    {
      ghost var p := pass[..];
      full := false;
      var j := 0;
      while j < MaxCode
        invariant 0 <= j <= MaxCode + 1
        invariant j <= MaxCode ==> pass[..] == p && (forall i :: 0 <= i < j ==> p[i] != Nul) && (full <==> j == MaxCode)
        invariant j == MaxCode + 1 ==> !full && FirstFree(p) < MaxCode && pass[..] == p[FirstFree(p) := c]
      {
        if pass[j] == Nul {
          assert FirstFree(p) == j by {
            assert p[j] == Nul;
          }
          pass[j] := c;
          j := MaxCode;
        } else if j == MaxCode - 1 {
          full := true;
        }
        j := j + 1;
      }
      if full {
        assert FirstFree(p) == MaxCode by {
          assert forall i :: 0 <= i < MaxCode ==> p[i] != Nul;
        }
      }
    }

    /**
     * The blink that marks a stage passed: the LED's red and green turned
     * off, then its green inverted in rounds 0, 5 and 10 of an 11-round
     * loop, so that it ends green.
     */
    method BlinkGreen(led: Led)
      modifies this
      ensures State() == old(State()) && Registers() == Blinked(led, old(Registers()))
    {
      var red, green := RedBit(led), GreenBit(led);
      if led == Led2 {
        porte := porte - {red};
        porte := porte - {green};
      } else {
        portb := portb - {red};
        portb := portb - {green};
      }
      ghost var r0 := Registers();
      var ticks := 0;
      while ticks <= 10
        invariant ticks <= 11 && State() == old(State())
        invariant led == Led2 ==> portb == r0.portb && porte == r0.porte + (if (ticks + 4) / 5 % 2 == 1 then {green} else {})
        invariant led != Led2 ==> porte == r0.porte && portb == r0.portb + (if (ticks + 4) / 5 % 2 == 1 then {green} else {})
      {
        if ticks % 5 == 0 {
          if led == Led2 {
            porte := Flip(porte, green);
          } else {
            portb := Flip(portb, green);
          }
        }
        ticks := ticks + 1;
      }
    }

    /**
     * `resetAll`: all six LED bits off, then wait, inverting the reds every
     * fifth round, until both switches read low after at least 61 rounds.
     * The checks read PINC at `from` onwards; `next` is the read after the
     * last check.
     */
    method ResetAll(polls: seq<Switches>, from: nat) returns (next: nat)
      modifies this
      ensures next == from + Rounds(polls, from) + 1
      ensures State() == old(State()) && Registers() == ResetLamps(old(Registers()), Rounds(polls, from))
    {
      portb := portb - {Led1Green};
      porte := porte - {Led2Green};
      portb := portb - {Led3Green};
      portb := portb - {Led1Red};
      porte := porte - {Led2Red};
      portb := portb - {Led3Red};
      ghost var b0, e0 := portb, porte;
      assert b0 == old(portb) - PortBLamps && e0 == old(porte) - PortELamps;
      var ticks := 0;
      var at := from;
      while PollAt(polls, at).safety || PollAt(polls, at).arm || ticks <= 60
        invariant from <= at <= from + Horizon(polls, from)
        invariant ticks == (at - from) % TickWrap
        invariant NoStopBefore(polls, from, at - from)
        invariant State() == old(State()) && Registers() == Regs(b0, e0).Plus(RedsAfter(at - from))
        decreases from + Horizon(polls, from) - at
      {
        ticks := RedRound(ticks, at - from, b0, e0);
        at := at + 1;
        StopBound(polls, from, at - from);
      }
      FirstStop(polls, from, at - from);
      next := at + 1;
    }

    /**
     * One round of the `resetAll` loop: the reds inverted when the 16-bit
     * count `ticks` of the rounds made so far, `t`, is a multiple of 5; the
     * count advanced.
     */
    method RedRound(ticks: nat, ghost t: nat, ghost b0: set<nat>, ghost e0: set<nat>) returns (ticks': nat)
      requires ticks == t % TickWrap && Led1Red !in b0 && Led3Red !in b0 && Led2Red !in e0
      requires Registers() == Regs(b0, e0).Plus(RedsAfter(t))
      modifies this
      ensures ticks' == (t + 1) % TickWrap
      ensures State() == old(State()) && Registers() == Regs(b0, e0).Plus(RedsAfter(t + 1))
    {
      if ticks % 5 == 0 {
        FlipReds(b0, e0, RedsLit(t));
        portb := Flip(portb, Led1Red);
        porte := Flip(porte, Led2Red);
        portb := Flip(portb, Led3Red);
      }
      ticks' := (ticks + 1) % TickWrap;
      assert ticks' == (t + 1) % TickWrap by {
        TickNext(t);
      }
    }

    /** The safety-switch stage, reading PINC at `at`; `next` is the next read. */
    method SafetyCheck(polls: seq<Switches>, at: nat) returns (next: nat)
      modifies this
      ensures var s := SafetyStage(old(State()), PollAt(polls, at).safety);
        State() == s.0 && Registers() == StageLamps(s.1, Led2, old(Registers()), polls, at + 1) &&
        next == After(s.1, polls, at + 1)
    {
      var high := PollAt(polls, at).safety;
      next := at + 1;
      if high && keypad && !safety {
        safety := true;
        BlinkGreen(Led2);
      } else if high && keypad {
      } else if high {
        safety := false;
        next := ResetAll(polls, next);
      }
    }

    /** The arm-switch stage, reading PINC at `at`; `next` is the next read. */
    method ArmCheck(polls: seq<Switches>, at: nat) returns (next: nat)
      modifies this
      ensures var m := ArmStage(old(State()), PollAt(polls, at).arm);
        State() == m.0 && Registers() == StageLamps(m.1, Led3, old(Registers()), polls, at + 1) &&
        next == After(m.1, polls, at + 1)
    {
      var high := PollAt(polls, at).arm;
      next := at + 1;
      if high && keypad && safety && !bigred {
        bigred := true;
        BlinkGreen(Led3);
      } else if high && safety && keypad {
        bigred := true;
      } else if high {
        bigred := false;
        safety := false;
        keypad := false;
        next := ResetAll(polls, next);
      }
    }

    /** The LED block: each LED green or red according to the flags. */
    method ShowStatus()
      modifies this
      ensures State() == old(State()) && Registers() == Status(old(Registers()), State())
    {
      if safety && keypad && bigred {
        portb := portb + {Led3Green};
        portb := portb - {Led3Red};
      } else {
        portb := portb - {Led3Green};
        portb := portb + {Led3Red};
      }
      if safety && keypad {
        porte := porte + {Led2Green};
        porte := porte - {Led2Red};
      } else {
        porte := porte - {Led2Green};
        porte := porte + {Led2Red};
      }
      if keypad {
        portb := portb + {Led1Green};
        portb := portb - {Led1Red};
      } else {
        portb := portb - {Led1Green};
        portb := portb + {Led1Red};
      }
    }

    /** The key stage for key `c`; any `resetAll` reads PINC from `at` on. */
    method HandleKey(c: char, polls: seq<Switches>, at: nat) returns (next: nat)
      requires pass.Length == MaxCode
      modifies this, pass
      ensures var s := Keyed(Pass(old(State()), old(pass[..]), old(Registers()), at), c, polls);
        State() == s.flags && pass[..] == s.pass && Registers() == s.regs && next == s.next
    {
      next := at;
      if c != Nul {
        if c == '*' {
          ClearPass();
          keypad := false;
          next := ResetAll(polls, at);
        } else if c == '#' {
          var matched := CheckPass();
          if matched {
            keypad := true;
            ClearPass();
            BlinkGreen(Led1);
          } else {
            keypad := false;
            ClearPass();
            keypad := false;
            next := ResetAll(polls, at);
          }
        } else {
          var full := AppendKey(c);
          if full {
            ClearPass();
            keypad := false;
            next := ResetAll(polls, at);
          }
        }
      }
    }

    /** The two switch stages and the LED block, reading PINC from `at` on. */
    method Stages(polls: seq<Switches>, at: nat) returns (next: nat)
      modifies this
      ensures var s := Staged(old(State()), pass[..], old(Registers()), polls, at);
        State() == s.flags && Registers() == s.regs && next == s.next
    {
      next := SafetyCheck(polls, at);
      next := ArmCheck(polls, next);
      ShowStatus();
    }

    /**
     * One pass of the main loop. The key comes from `waitKeyPress` making
     * scans `from` onwards; `from'` is the next scan and `at'` the next PINC
     * read.
     */
    method Iterate(keys: Port, frames: seq<Held>, from: nat, polls: seq<Switches>, at: nat) returns (from': nat, at': nat)
      requires pass.Length == MaxCode
      modifies this, pass, keys
      ensures var d := Debounce(Reports(frames), from);
        var t := Iteration(old(State()), old(pass[..]), old(Registers()), d.0, polls, at);
        State() == t.flags && pass[..] == t.pass && Registers() == t.regs && at' == t.next && from' == d.1
      ensures exists n :: 1 <= n <= Columns && keys.ddrf == Released(old(keys.ddrf), n) && keys.portf == PulledUp(old(keys.portf), n)
    {
      var a := Stages(polls, at);
      var c;
      c, from' := keys.WaitKeyPress(frames, from);
      at' := HandleKey(c, polls, a);
    }

    /**
     * `rounds` passes of the main loop (which runs forever) over the
     * recorded keypad and switch inputs; the buffer invariant holds
     * throughout.
     */
    method MainLoop(keys: Port, frames: seq<Held>, polls: seq<Switches>, rounds: nat)
      requires pass.Length == MaxCode && PassShape(pass[..])
      modifies this, pass, keys
      ensures PassShape(pass[..])
    {
      var from, at := 0, 0;
      ReportsAreKeys(frames);
      for i := 0 to rounds
        invariant PassShape(pass[..])
      {
        ghost var f, p, r, a := State(), pass[..], Registers(), at;
        ghost var c := Debounce(Reports(frames), from).0;
        assert c == Nul || IsKey(c) by {
          DebounceSpec(Reports(frames), from);
        }
        from, at := Iterate(keys, frames, from, polls, at);
        IterationKeepsShape(f, p, r, c, polls, a);
      }
    }
  }
}
