/**
 * The meeting-cost calculator: a five-digit seven-segment display driven
 * one digit at a time, and the two keypad entries that read the number of
 * people and the hourly rate.
 *
 * The segment lines are DDRC: a segment is lit while its DDRC bit is 1, and
 * the whole byte is written at once, so DDRC is a `bv8`. The digit
 * transistors are PORTD bits 0 to 4 (position 0 is the leftmost digit);
 * PORTD is modelled, as in the keypad, by the set of its bits that are 1.
 * What the eye sees is recorded in a ghost log: one `Pulse` each time a
 * transistor is switched on, with the segments lit at that moment.
 */
module MeetingCalc {
  import opened Wrappers
  import opened Keypad
  import opened MeetingDigits

  /** The segment patterns for 0-9, A-F, "H." and "P."; bit 7 is the decimal point. */
  const SegmentTable: seq<bv8> := [
    0x7E, 0x48, 0x3D, 0x6D, 0x4B, 0x67, 0x77, 0x4C, 0x7F, 0x6F,
    0x5F, 0x73, 0x31, 0x79, 0x37, 0x17,
    0xDB, 0x9F]

  /** Table entries of the two markers shown in front of an entry. */
  const HourlyGlyph: nat := 16
  const PeopleGlyph: nat := 17

  /** The decimal-point segment. */
  const Point: bv8 := 0x80

  /** Number of digit positions; position `i` is switched by PORTD bit `i`. */
  const Width: nat := 5

  /** Longest entries of `getPeople` and `getHourly`. */
  const MaxPeople: nat := 4
  const MaxHourly: nat := 5

  /** Digit position `position` lit with the segment pattern `segments`. */
  datatype Pulse = Pulse(position: nat, segments: bv8)

  /** The PORTD bits of positions `0` to `i - 1`. */
  function Below(i: nat): set<nat> {
    if i == 0 then {} else Below(i - 1) + {i - 1}
  }

  /** The five digit-transistor bits. */
  function Positions(): set<nat> {
    Below(Width)
  }

  /**
   * What `displayNum` puts on DDRC, with the range check corrected to the
   * table's 18 entries: the pattern of entry `num`, or nothing lit.
   */
  function Segments(num: nat): bv8 {
    if num < |SegmentTable| then SegmentTable[num] else 0
  }

  /**
   * What `displayNum` does as written: its guard `num > 18` clears the
   * display for 19 and above but lets 18 through to `segment_table[18]`,
   * one entry past the end (None: an out-of-bounds read).
   */
  function DisplayNumAsWritten(num: nat): Option<bv8> {
    if num > 18 then Some(0)
    else if num < |SegmentTable| then Some(SegmentTable[num])
    else None
  }

  /** The as-written guard reads past the table for 18, and only for 18; everywhere else it agrees with the corrected one. */
  lemma GuardOffByOne()
    ensures DisplayNumAsWritten(18).None?
    ensures forall num :: num != 18 ==> DisplayNumAsWritten(num) == Some(Segments(num))
  {
  }

  /** The corrected guard never reads outside the table, and shows entry `num` exactly when there is one. */
  lemma SegmentsInTable(num: nat)
    ensures Segments(num) != 0 <==> num < |SegmentTable|
    ensures num < |SegmentTable| ==> Segments(num) == SegmentTable[num]
  {
  }

  /** The digit whose pattern is `g` without its decimal point, or None when `g` shows no digit. */
  function ShownDigit(g: bv8): Option<nat> {
    DigitFrom(g & 0x7F, 0)
  }

  /** The first digit from `d` on whose pattern is `g`. */
  function DigitFrom(g: bv8, d: nat): (r: Option<nat>)
    decreases 10 - d
  {
    if d >= 10 then None else if SegmentTable[d] == g then Some(d) else DigitFrom(g, d + 1)
  }

  /**
   * The ten digit patterns can be told apart and none lights the decimal
   * point, so a digit is read back from its pattern with or without the
   * point; the two markers light the point ("H." and "P.").
   */
  lemma GlyphsRead(d: nat)
    requires d < 10
    ensures SegmentTable[d] & Point == 0
    ensures ShownDigit(SegmentTable[d]) == Some(d)
    ensures ShownDigit(SegmentTable[d] | Point) == Some(d)
    ensures SegmentTable[HourlyGlyph] & Point != 0 && SegmentTable[PeopleGlyph] & Point != 0
  {
    var g := SegmentTable[d];
    DigitPatterns();
    assert g < 0x80;
    PointMasked(g);
    DigitFromFinds(g, 0, d);
  }

  /** The ten digit patterns are distinct and leave the point dark. */
  lemma DigitPatterns()
    ensures forall i, j :: 0 <= i < j < 10 ==> SegmentTable[i] != SegmentTable[j]
    ensures forall i :: 0 <= i < 10 ==> SegmentTable[i] < 0x80
  {
  }

  /** Masking off the point gives back a pattern that does not light it, with or without the point. */
  lemma PointMasked(g: bv8)
    requires g < 0x80
    ensures g & Point == 0 && g & 0x7F == g && (g | Point) & 0x7F == g
  {
  }

  /** Searching from `e` finds the pattern of digit `d` when no digit between `e` and `d` has it. */
  lemma {:induction false} DigitFromFinds(g: bv8, e: nat, d: nat)
    requires e <= d < 10 && SegmentTable[d] == g
    requires forall k :: e <= k < d ==> SegmentTable[k] != SegmentTable[d]
    ensures DigitFrom(g, e) == Some(d)
    decreases d - e
  {
    if e < d {
      DigitFromFinds(g, e + 1, d);
    }
  }

  /**
   * The pattern `displayMulti(num, special)` shows at position `i` when DDRC
   * held `d0` on entry: a nonzero `special` takes position 0 ("H." for 'H',
   * "P." for 'P', and otherwise DDRC is left as it was); every other
   * position shows decimal digit `4 - i` of `num`.
   */
  function MultiGlyph(num: nat, special: char, d0: bv8, i: nat): bv8
    requires i < Width
  {
    if i == 0 && special != 0 as char then
      (if special == 'H' then SegmentTable[HourlyGlyph] else if special == 'P' then SegmentTable[PeopleGlyph] else d0)
    else Segments(Digit(num, 4 - i))
  }

  /** The five pulses of one pass of `displayMulti`. */
  function MultiFrame(num: nat, special: char, d0: bv8): (f: seq<Pulse>)
    ensures |f| == Width
  {
    seq(Width, i requires 0 <= i < Width => Pulse(i, MultiGlyph(num, special, d0, i)))
  }

  /**
   * One pass of `displayMulti` shows `num` zero-padded to five places, most
   * significant digit on the left, each position once and in order; a
   * marker replaces the leftmost digit, which leaves the four low digits.
   */
  lemma MultiShowsNumber(num: nat, special: char, d0: bv8)
    ensures var f, ds := MultiFrame(num, special, d0), DigitsMsb(num, Width);
      (forall i :: 0 <= i < Width ==> f[i].position == i) &&
      (forall i :: (if special == 0 as char then 0 else 1) <= i < Width ==> ShownDigit(f[i].segments) == Some(ds[i])) &&
      Numeral(ds) == num % 100000 &&
      (special == 'H' ==> f[0].segments == SegmentTable[HourlyGlyph]) &&
      (special == 'P' ==> f[0].segments == SegmentTable[PeopleGlyph])
  {
    var f, ds := MultiFrame(num, special, d0), DigitsMsb(num, Width);
    forall i | (if special == 0 as char then 0 else 1) <= i < Width
      ensures ShownDigit(f[i].segments) == Some(ds[i])
    {
      MultiPosition(num, special, d0, i);
    }
    Reassemble(num, Width);
    assert Pow10(Width) == 100000;
  }

  /** Outside the marker, position `i` of a `displayMulti` pass reads digit `4 - i` of `num`. */
  lemma MultiPosition(num: nat, special: char, d0: bv8, i: nat)
    requires (if special == 0 as char then 0 else 1) <= i < Width
    ensures ShownDigit(MultiFrame(num, special, d0)[i].segments) == Some(DigitsMsb(num, Width)[i])
  {
    GlyphsRead(Digit(num, 4 - i));
  }

  /** With a marker in front, the pass does not depend on what DDRC held before. */
  lemma MarkedFrame(num: nat, marker: char, d0: bv8)
    requires marker == 'H' || marker == 'P'
    ensures MultiFrame(num, marker, d0) == MultiFrame(num, marker, 0)
  {
    assert forall i :: 0 <= i < Width ==> MultiGlyph(num, marker, d0, i) == MultiGlyph(num, marker, 0, i);
  }

  /**
   * The number `displayMultiF` writes out for an amount of `num`
   * hundredths (the float already rounded), and whether it lights the
   * point: from 100000 on it drops to whole units and no point.
   */
  function Fixed(num: nat): (nat, bool) {
    if num >= 100000 then (num / 100, false) else (num, true)
  }

  /** The pattern `displayMultiF` shows at position `i`: a digit, with the point after the third when lit. */
  function FixedGlyph(num: nat, i: nat): bv8
    requires i < Width
  {
    var g := Segments(Digit(Fixed(num).0, 4 - i));
    if Fixed(num).1 && i == 2 then g | Point else g
  }

  /** The five pulses of one pass of `displayMultiF`. */
  function FixedFrame(num: nat): (f: seq<Pulse>)
    ensures |f| == Width
  {
    seq(Width, i requires 0 <= i < Width => Pulse(i, FixedGlyph(num, i)))
  }

  /** Position `i` of a `displayMultiF` pass reads digit `4 - i` of the number written out, and lights the point only at position 2 when it is lit. */
  lemma FixedPosition(num: nat, i: nat)
    requires i < Width
    ensures FixedFrame(num)[i].position == i
    ensures ShownDigit(FixedFrame(num)[i].segments) == Some(Digit(Fixed(num).0, 4 - i))
    ensures FixedFrame(num)[i].segments & Point != 0 <==> Fixed(num).1 && i == 2
  {
    GlyphsRead(Digit(Fixed(num).0, 4 - i));
  }

  /**
   * Below 100000 hundredths the display reads the amount zero-padded to
   * five digits, most significant on the left, with the point lit after
   * the third digit and nowhere else.
   */
  lemma FixedShowsAmount(num: nat)
    requires num < 100000
    ensures forall i :: 0 <= i < Width ==>
      FixedFrame(num)[i].position == i &&
      ShownDigit(FixedFrame(num)[i].segments) == Some(DigitsMsb(num, Width)[i]) &&
      (FixedFrame(num)[i].segments & Point != 0 <==> i == 2)
  {
    forall i | 0 <= i < Width
      ensures FixedFrame(num)[i].position == i
      ensures ShownDigit(FixedFrame(num)[i].segments) == Some(DigitsMsb(num, Width)[i])
      ensures FixedFrame(num)[i].segments & Point != 0 <==> i == 2
    {
      FixedPosition(num, i);
    }
  }

  /** The three digits before the point are the whole units, the two after it the hundredths. */
  lemma SplitAtPoint(num: nat)
    requires num < 100000
    ensures Numeral(DigitsMsb(num, Width)[..3]) == num / 100
    ensures Numeral(DigitsMsb(num, Width)[3..]) == num % 100
  {
    var ds := DigitsMsb(num, Width);
    assert ds[..3] == DigitsMsb(num / 100, 3) by {
      forall k | 0 <= k < 3
        ensures Digit(num, k + 2) == Digit(num / 100, k)
      {
        DigitShift(num, k + 1);
        DigitShift(num / 10, k);
        DivTen(num, 1);
      }
    }
    assert ds[3..] == DigitsMsb(num, 2);
    Reassemble(num / 100, 3);
    Reassemble(num, 2);
    assert Pow10(3) == 1000 && Pow10(2) == 100;
    assert num / 100 < 1000 by {
      DivUnique(num, 100, num / 100, num % 100);
    }
    ModUnique(num / 100, 1000, 0, num / 100);
  }

  /** From 100000 hundredths on the display reads the whole units, modulo 100000, with no point. */
  lemma FixedShowsUnits(num: nat)
    requires num >= 100000
    ensures forall i :: 0 <= i < Width ==>
      FixedFrame(num)[i].position == i &&
      ShownDigit(FixedFrame(num)[i].segments) == Some(DigitsMsb(num / 100, Width)[i]) &&
      FixedFrame(num)[i].segments & Point == 0
    ensures Numeral(DigitsMsb(num / 100, Width)) == num / 100 % 100000
  {
    forall i | 0 <= i < Width
      ensures FixedFrame(num)[i].position == i
      ensures ShownDigit(FixedFrame(num)[i].segments) == Some(DigitsMsb(num / 100, Width)[i])
      ensures FixedFrame(num)[i].segments & Point == 0
    {
      FixedPosition(num, i);
    }
    Reassemble(num / 100, Width);
    assert Pow10(Width) == 100000;
  }

  /** The passes of `displayMulti` with marker `marker` for each number in `ns`, in order. */
  function Frames(ns: seq<nat>, marker: char): seq<Pulse> {
    if ns == [] then [] else Frames(ns[..|ns| - 1], marker) + MultiFrame(ns[|ns| - 1], marker, 0)
  }

  /** One more number displayed adds one pass at the end. */
  lemma FramesSnoc(ns: seq<nat>, n: nat, marker: char)
    ensures Frames(ns + [n], marker) == Frames(ns, marker) + MultiFrame(n, marker, 0)
  {
    assert (ns + [n])[..|ns|] == ns;
  }

  /** Concatenation is associative (stated once, so that the solver need not rediscover it). */
  lemma Assoc<T>(a: seq<T>, b: seq<T>, c: seq<T>)
    ensures a + b + c == a + (b + c)
  {
  }

  /** The prefix one longer is the prefix with the next element appended. */
  lemma PrefixSnoc<T>(s: seq<T>, i: nat)
    requires i < |s|
    ensures s[..i + 1] == s[..i] + [s[i]]
  {
  }

  /** Switching the same transistors off twice is switching them off once. */
  lemma ClearTwice(p: set<nat>, q: set<nat>)
    ensures p - q - q == p - q
  {
  }

  /** An entry's buffer when the entry returns, and the number of the first scan after the last `waitKeyPress`. */
  datatype Entered = Entered(typed: seq<char>, next: nat)

  /**
   * What the entry loop of `getPeople` and `getHourly` does with key `c`
   * (0: no key) when `typed` is in the buffer: the buffer afterwards, and
   * whether the entry returns. `*` empties the buffer, `#` returns, and any
   * other key is stored; storing the last free place also returns.
   */
  function Step(c: char, typed: seq<char>, max: nat): (seq<char>, bool) {
    if c == 0 as char then (typed, false)
    else if c == '*' then ([], false)
    else if c == '#' then (typed, true)
    else (typed + [c], |typed| + 1 == max)
  }

  /**
   * How the entry ends when `typed` is in the buffer and the next
   * `waitKeyPress` starts at scan `from` of the reports `rs`; None when the
   * record of scans runs out first.
   */
  function Entry(rs: seq<char>, from: nat, max: nat, typed: seq<char>): Option<Entered>
    requires |typed| < max
    decreases |rs| - from
  {
    if from >= |rs| then None
    else
      var (c, next) := Debounce(rs, from);
      var (typed', done) := Step(c, typed, max);
      if done then Some(Entered(typed', next)) else Entry(rs, next, max, typed')
  }

  /** The numbers the entry displays, one before each `waitKeyPress` and one more when the record runs out. */
  function Shown(rs: seq<char>, from: nat, max: nat, typed: seq<char>): seq<nat>
    requires |typed| < max
    decreases |rs| - from
  {
    [Atoi(typed)] + (
      if from >= |rs| then []
      else
        var (c, next) := Debounce(rs, from);
        var (typed', done) := Step(c, typed, max);
        if done then [] else Shown(rs, next, max, typed'))
  }

  /** One round of the entry loop: `waitKeyPress` returned `c`, and `Step` gives the new buffer and whether the entry returns. */
  lemma EntryStep(rs: seq<char>, from: nat, max: nat, typed: seq<char>, c: char, next: nat, typed': seq<char>, done: bool)
    requires |typed| < max && from < |rs|
    requires (c, next) == Debounce(rs, from) && (typed', done) == Step(c, typed, max)
    ensures done ==>
      Entry(rs, from, max, typed) == Some(Entered(typed', next)) &&
      Shown(rs, from, max, typed) == [Atoi(typed)]
    ensures !done ==>
      |typed'| < max && Entry(rs, from, max, typed) == Entry(rs, next, max, typed') &&
      Shown(rs, from, max, typed) == [Atoi(typed)] + Shown(rs, next, max, typed')
  {
  }

  /** How a round of the entry loop ends: waiting for the next key, the record of scans ended, or the entry returned. */
  datatype Outcome = Going | Ended | Returned

  /**
   * An entry in progress: the buffer of `len` characters holds `typed` and
   * then NULs, and from scan `cursor` on the entry ends as `goal` and
   * displays the numbers of `all` after the ones in `shown`.
   */
  predicate InProgress(rs: seq<char>, goal: Option<Entered>, all: seq<nat>, len: nat, cursor: nat,
                       typed: seq<char>, shown: seq<nat>, contents: seq<char>, count: nat)
  {
    count == |typed| < len == |contents| && contents == typed + Nuls(len - count) &&
    goal == Entry(rs, cursor, len, typed) && all == shown + Shown(rs, cursor, len, typed)
  }

  /** What the entry functions return: `atoi` of the buffer truncated to `uint8_t`, and the next scan. */
  function Reading(e: Option<Entered>): Option<(nat, nat)> {
    match e
    case None => None
    case Some(Entered(typed, next)) => Some((Atoi(typed) % 256, next))
  }

  /**
   * On the keypad the buffer only ever holds digits, at most `max` of them,
   * so the entry reads a number below `10^max`; every number displayed
   * while typing has fewer than `max` digits.
   */
  lemma {:induction false} EntryDigits(rs: seq<char>, from: nat, max: nat, typed: seq<char>)
    requires KeyReports(rs) && |typed| < max && DigitChars(typed)
    decreases |rs| - from
    ensures var e := Entry(rs, from, max, typed);
      e.Some? ==> DigitChars(e.value.typed) && |e.value.typed| <= max && Atoi(e.value.typed) < Pow10(max)
    ensures var ns := Shown(rs, from, max, typed);
      forall i :: 0 <= i < |ns| ==> ns[i] < Pow10(max - 1)
  {
    AtoiBound(typed);
    Pow10Mono(|typed|, max - 1);
    if from < |rs| {
      var c, next := Debounce(rs, from).0, Debounce(rs, from).1;
      var typed', done := Step(c, typed, max).0, Step(c, typed, max).1;
      EntryStep(rs, from, max, typed, c, next, typed', done);
      if c != 0 as char && c != '*' && c != '#' {
        assert IsKey(rs[from]) && IsDigitChar(c);
        assert typed' == typed + [c];
        forall i | 0 <= i < |typed'|
          ensures IsDigitChar(typed'[i])
        {
          if i < |typed| {
            assert typed'[i] == typed[i];
          }
        }
      }
      if done {
        AtoiBound(typed');
        Pow10Mono(|typed'|, max);
      } else {
        EntryDigits(rs, next, max, typed');
      }
    }
  }

  /** The reports of pressing and releasing each key of `ks` in turn, one scan each. */
  function Presses(ks: seq<char>): (rs: seq<char>)
    ensures |rs| == 2 * |ks|
  {
    if ks == [] then [] else [ks[0], 0 as char] + Presses(ks[1..])
  }

  /** Scan `2i` of `Presses(ks)` sees key `i` and scan `2i + 1` its release. */
  lemma {:induction false} PressAt(ks: seq<char>, i: nat)
    requires i < |ks|
    ensures Presses(ks)[2 * i] == ks[i] && Presses(ks)[2 * i + 1] == 0 as char
  {
    if i > 0 {
      PressAt(ks[1..], i - 1);
    }
  }

  /** Each press is returned by one `waitKeyPress`, which stops at the release. */
  lemma PressDebounced(ks: seq<char>, i: nat)
    requires i < |ks| && ks[i] != 0 as char
    ensures Debounce(Presses(ks), 2 * i) == (ks[i], 2 * i + 2)
  {
    PressAt(ks, i);
  }

  /**
   * Fewer than `max` digits and then `#`, from `start` on, make the entry
   * read exactly those digits; `i` is the key reached so far.
   */
  lemma {:induction false} DigitsThenHash(ks: seq<char>, start: nat, i: nat, max: nat)
    requires start <= i < |ks| && ks[|ks| - 1] == '#'
    requires DigitChars(ks[start..|ks| - 1]) && |ks| - 1 - start < max
    decreases |ks| - i
    ensures Entry(Presses(ks), 2 * i, max, ks[start..i]) == Some(Entered(ks[start..|ks| - 1], 2 * |ks|))
  {
    PressDebounced(ks, i);
    if i < |ks| - 1 {
      assert ks[i] == ks[start..|ks| - 1][i - start];
      assert ks[start..i] + [ks[i]] == ks[start..i + 1];
      DigitsThenHash(ks, start, i + 1, max);
    }
  }

  /** `max` digits from `start` on end the entry at the last of them, without `#`. */
  lemma {:induction false} DigitsUntilFull(ks: seq<char>, start: nat, i: nat, max: nat)
    requires start <= i < |ks| && DigitChars(ks[start..]) && |ks| - start == max
    decreases |ks| - i
    ensures Entry(Presses(ks), 2 * i, max, ks[start..i]) == Some(Entered(ks[start..], 2 * |ks|))
  {
    PressDebounced(ks, i);
    assert ks[i] == ks[start..][i - start];
    assert ks[start..i] + [ks[i]] == ks[start..i + 1];
    if i < |ks| - 1 {
      DigitsUntilFull(ks, start, i + 1, max);
    } else {
      assert ks[start..i + 1] == ks[start..];
    }
  }

  /** Fewer than `max` digits and then `*` throw the digits away: the entry starts over after the `*`. */
  lemma {:induction false} DigitsThenStar(ks: seq<char>, star: nat, i: nat, max: nat)
    requires i <= star < |ks| && ks[star] == '*' && DigitChars(ks[..star]) && star < max
    decreases star - i
    ensures Entry(Presses(ks), 2 * i, max, ks[..i]) == Entry(Presses(ks), 2 * star + 2, max, [])
  {
    PressDebounced(ks, i);
    if i < star {
      assert ks[i] == ks[..star][i];
      assert ks[..i] + [ks[i]] == ks[..i + 1];
      DigitsThenStar(ks, star, i + 1, max);
    }
  }

  /**
   * Typing some digits, `*`, then the wanted digits and `#`: the entry
   * reads only the wanted digits, and ends at the release of `#`.
   */
  lemma StarDiscards(junk: seq<char>, wanted: seq<char>, max: nat)
    requires DigitChars(junk) && |junk| < max && DigitChars(wanted) && |wanted| < max
    ensures var ks := junk + ['*'] + wanted + ['#'];
      Entry(Presses(ks), 0, max, []) == Some(Entered(wanted, 2 * |ks|))
  {
    var ks := junk + ['*'] + wanted + ['#'];
    var star := |junk|;
    assert ks[..star] == junk && ks[star] == '*' && ks[..0] == [];
    DigitsThenStar(ks, star, 0, max);
    assert ks[star + 1..|ks| - 1] == wanted && ks[star + 1..star + 1] == [];
    DigitsThenHash(ks, star + 1, star + 1, max);
  }

  /** Fewer than `max` digits and then `#` read the number those digits write, truncated to `uint8_t`. */
  lemma HashReads(digits: seq<char>, max: nat)
    requires DigitChars(digits) && |digits| < max
    ensures Reading(Entry(Presses(digits + ['#']), 0, max, [])) == Some((Atoi(digits) % 256, 2 * |digits| + 2))
  {
    var ks := digits + ['#'];
    assert ks[0..|ks| - 1] == digits && ks[0..0] == [];
    DigitsThenHash(ks, 0, 0, max);
  }

  /** `max` digits read the number they write, truncated to `uint8_t`, without waiting for `#`. */
  lemma FullReads(digits: seq<char>, max: nat)
    requires DigitChars(digits) && |digits| == max >= 1
    ensures Reading(Entry(Presses(digits), 0, max, [])) == Some((Atoi(digits) % 256, 2 * |digits|))
  {
    assert digits[0..] == digits && digits[0..0] == [];
    DigitsUntilFull(digits, 0, 0, max);
  }

  /** Key `c` (not 0) applied to the buffer `buf`, which holds `typed` and then NULs. */
  method Accept(buf: array<char>, count: nat, c: char, ghost typed: seq<char>) returns (count': nat, done: bool)
    requires c != 0 as char && count == |typed| < buf.Length && buf[..] == typed + Nuls(buf.Length - count)
    modifies buf
    ensures done == Step(c, typed, buf.Length).1 && count' == |Step(c, typed, buf.Length).0|
    ensures buf[..] == Step(c, typed, buf.Length).0 + Nuls(buf.Length - count')
  {
    count', done := count, false;
    if c == '*' {
      forall i | 0 <= i < buf.Length {
        buf[i] := 0 as char;
      }
      count' := 0;
      assert buf[..] == [] + Nuls(buf.Length);
    } else if c == '#' {
      done := true;
    } else {
      buf[count] := c;
      count' := count + 1;
      assert buf[..] == typed + [c] + Nuls(buf.Length - count');
      done := count' == buf.Length;
    }
  }

  /** `atoi(buf)` on a buffer holding `typed` and then NULs. */
  method AtoiBuffer(buf: array<char>, ghost typed: seq<char>) returns (v: nat)
    requires |typed| <= buf.Length && buf[..] == typed + Nuls(buf.Length - |typed|)
    ensures v == Atoi(typed) && v < Pow10(buf.Length)
  {
    v := Atoi(buf[..]);
    AtoiPadded(typed, buf.Length - |typed|);
    AtoiBound(buf[..]);
  }

  /**
   * One round of the entry loop after the display: wait for a key at scan
   * `cursor` and apply it to the buffer `buf`, which holds `typed` and then
   * NULs. The keypad's column pins are counted from the registers `kd` and
   * `kp` as in `WaitKeyPress`.
   */
  method TakeKey(keys: Port, frames: seq<Held>, buf: array<char>, count: nat, cursor: nat, ghost rs: seq<char>, ghost typed: seq<char>,
                 ghost kd: set<nat>, ghost kp: set<nat>, ghost kn: nat)
    returns (count': nat, next: nat, done: bool, ghost typed': seq<char>, ghost kn': nat)
    requires rs == Reports(frames)
    requires count == |typed| < buf.Length && buf[..] == typed + Nuls(buf.Length - count) && cursor < |frames|
    requires kn <= Columns && keys.ddrf == Released(kd, kn) && keys.portf == PulledUp(kp, kn)
    modifies keys, buf
    ensures cursor < next
    ensures count' == |typed'| <= buf.Length && buf[..] == typed' + Nuls(buf.Length - count')
    ensures kn' <= Columns && keys.ddrf == Released(kd, kn') && keys.portf == PulledUp(kp, kn')
    ensures done ==>
        Entry(rs, cursor, buf.Length, typed) == Some(Entered(typed', next)) &&
        Shown(rs, cursor, buf.Length, typed) == [Atoi(typed)]
    ensures !done ==>
        count' < buf.Length && Entry(rs, cursor, buf.Length, typed) == Entry(rs, next, buf.Length, typed') &&
        Shown(rs, cursor, buf.Length, typed) == [Atoi(typed)] + Shown(rs, next, buf.Length, typed')
  {
    ghost var d1, p1 := keys.ddrf, keys.portf;
    var c;
    c, next := keys.WaitKeyPress(frames, cursor);
    ghost var m :| 1 <= m <= Columns && keys.ddrf == Released(d1, m) && keys.portf == PulledUp(p1, m);
    ReleasedAgain(kd, kp, kn, m);
    kn' := if kn < m then m else kn;
    typed' := Step(c, typed, buf.Length).0;
    EntryStep(rs, cursor, buf.Length, typed, c, next, typed', Step(c, typed, buf.Length).1);
    count', done := count, false;
    if c != 0 as char {
      count', done := Accept(buf, count, c, typed);
    }
  }

  /** The display: segment lines, digit transistors, and the log of what was lit. */
  class Display {
    var ddrc: bv8
    var portd: set<nat>
    ghost var lit: seq<Pulse>

    /** The start-up state: DDRC and PORTD cleared, nothing shown yet. */
    constructor ()
      ensures ddrc == 0 && portd == {} && lit == []
    {
      ddrc := 0;
      portd := {};
      lit := [];
    }

    /** `displayClear`: no segment lit. */
    method DisplayClear()
      modifies this
      ensures ddrc == 0 && portd == old(portd) && lit == old(lit)
    {
      ddrc := 0;
    }

    /** `displayNum` with the range check corrected: the pattern of entry `num`, or a cleared display past the table. */
    method DisplayNum(num: nat)
      modifies this
      ensures ddrc == Segments(num) && portd == old(portd) && lit == old(lit)
    {
      if num >= |SegmentTable| {
        DisplayClear();
      } else {
        ddrc := SegmentTable[num];
      }
    }

    /** Switch position `i` on for a moment with the current segments, then switch it off and clear the segments. */
    method Strobe(i: nat)
      modifies this
      ensures lit == old(lit) + [Pulse(i, old(ddrc))]
      ensures portd == old(portd) - {i} && ddrc == 0
    {
      portd := portd + {i};
      lit := lit + [Pulse(i, ddrc)];
      portd := portd - {i};
      DisplayClear();
    }

    /**
     * The body of the `displayMulti` loop before the strobe: the marker at
     * position 0 when there is one, and digit `4 - i` of `num` otherwise;
     * `d0` is what DDRC held when the pass started.
     */
    method MultiDigit(num: uint32, special: char, ghost d0: bv8, i: nat)
      requires i < Width && (i == 0 ==> ddrc == d0)
      modifies this
      ensures ddrc == MultiGlyph(num, special, d0, i) && portd == old(portd) && lit == old(lit)
    {
      if i == 0 && special != 0 as char {
        if special == 'H' {
          DisplayNum(HourlyGlyph);
        } else if special == 'P' {
          DisplayNum(PeopleGlyph);
        }
      } else {
        var d := NthDigit(num, 4 - i);
        DisplayNum(d);
      }
    }

    /** `displayMulti`: one pass over the five positions, showing `num` with an optional marker in front. */
    method DisplayMulti(num: uint32, special: char)
      modifies this
      ensures lit == old(lit) + MultiFrame(num, special, old(ddrc))
      ensures ddrc == 0 && portd == old(portd) - Positions()
    {
      ghost var d0 := ddrc;
      for i := 0 to Width
        invariant lit == old(lit) + MultiFrame(num, special, d0)[..i]
        invariant ddrc == (if i == 0 then d0 else 0)
        invariant portd == old(portd) - Below(i)
      {
        MultiDigit(num, special, d0, i);
        Strobe(i);
        PrefixSnoc(MultiFrame(num, special, d0), i);
        Assoc(old(lit), MultiFrame(num, special, d0)[..i], [MultiFrame(num, special, d0)[i]]);
      }
    }

    /** Light the decimal point on top of the current pattern. */
    method SetPoint()
      modifies this
      ensures ddrc == old(ddrc) | Point && portd == old(portd) && lit == old(lit)
    {
      ddrc := ddrc | Point;
    }

    /** The body of the `displayMultiF` loop before the strobe: digit `4 - i` of `n`, with the point after the third digit when `decimal`. */
    method FixedDigit(n: uint32, decimal: bool, ghost num: nat, i: nat)
      requires i < Width && n == Fixed(num).0 && decimal == Fixed(num).1
      modifies this
      ensures ddrc == FixedGlyph(num, i) && portd == old(portd) && lit == old(lit)
    {
      var d := NthDigit(n, 4 - i);
      DisplayNum(d);
      if i == 2 && decimal {
        SetPoint();
      }
    }

    /**
     * The integer stage of `displayMultiF` for an amount of `num`
     * hundredths: from 100000 on it drops to whole units and no point,
     * otherwise the point is lit after the third digit.
     */
    method DisplayMultiF(num: uint32)
      modifies this
      ensures lit == old(lit) + FixedFrame(num)
      ensures ddrc == 0 && portd == old(portd) - Positions()
    {
      var n := num;
      var decimal := true;
      if n >= 100000 {
        n := n / 100;
        decimal := false;
      }
      assert n == Fixed(num).0 && decimal == Fixed(num).1;
      for i := 0 to Width
        invariant lit == old(lit) + FixedFrame(num)[..i]
        invariant portd == old(portd) - Below(i)
        invariant i > 0 ==> ddrc == 0
      {
        FixedDigit(n, decimal, num, i);
        Strobe(i);
        PrefixSnoc(FixedFrame(num), i);
        Assoc(old(lit), FixedFrame(num)[..i], [FixedFrame(num)[i]]);
      }
    }

    /** Show, behind the marker, what the buffer reads; the buffer holds `typed` and then NULs. */
    method ShowBuffer(buf: array<char>, ghost typed: seq<char>, marker: char) returns (value: nat)
      requires buf.Length <= Width && |typed| <= buf.Length && buf[..] == typed + Nuls(buf.Length - |typed|)
      requires marker == 'H' || marker == 'P'
      modifies this
      ensures value == Atoi(typed)
      ensures lit == old(lit) + MultiFrame(value, marker, 0) && ddrc == 0 && portd == old(portd) - Positions()
    {
      value := AtoiBuffer(buf, typed);
      Pow10Mono(buf.Length, Width);
      assert Pow10(Width) == 100000;
      DisplayMulti(value, marker);
      MarkedFrame(value, marker, old(ddrc));
    }

    /**
     * One round of the entry loop of `getPeople` and `getHourly`: show what
     * the buffer reads behind the marker, then (unless the record of scans
     * has ended) wait for a key at scan `cursor` and apply it. The entry
     * runs over the reports `rs`; `typed` is in the buffer,
     * `shown` lists the numbers displayed so far and `lit0` is the display
     * log when the entry started. The round keeps the relation between the
     * state so far and what the whole entry does: `goal` is how the entry
     * ends and `all` the numbers it displays.
     */
    method Round(keys: Port, frames: seq<Held>, buf: array<char>, count: nat, cursor: nat, marker: char,
                 ghost rs: seq<char>, ghost goal: Option<Entered>, ghost all: seq<nat>, ghost lit0: seq<Pulse>, ghost portd0: set<nat>,
                 ghost typed: seq<char>, ghost shown: seq<nat>, ghost kd: set<nat>, ghost kp: set<nat>, ghost kn: nat)
      returns (count': nat, cursor': nat, outcome: Outcome, ghost typed': seq<char>, ghost shown': seq<nat>, ghost kn': nat)
      requires rs == Reports(frames) && buf.Length <= Width && (marker == 'H' || marker == 'P')
      requires InProgress(rs, goal, all, buf.Length, cursor, typed, shown, buf[..], count)
      requires lit == lit0 + Frames(shown, marker) && (portd == portd0 || portd == portd0 - Positions())
      requires kn <= Columns && keys.ddrf == Released(kd, kn) && keys.portf == PulledUp(kp, kn)
      modifies this, keys, buf
      ensures count' == |typed'| <= buf.Length && buf[..] == typed' + Nuls(buf.Length - count')
      ensures lit == lit0 + Frames(shown', marker) && ddrc == 0 && portd == portd0 - Positions()
      ensures kn' <= Columns && keys.ddrf == Released(kd, kn') && keys.portf == PulledUp(kp, kn')
      ensures outcome == Going ==>
        cursor < |rs| && cursor < cursor' && InProgress(rs, goal, all, buf.Length, cursor', typed', shown', buf[..], count')
      ensures outcome == Ended ==> goal == None && all == shown'
      ensures outcome == Returned ==> goal == Some(Entered(typed', cursor')) && all == shown'
    {
      var value := ShowBuffer(buf, typed, marker);
      FramesSnoc(shown, value, marker);
      shown' := shown + [value];
      Assoc(lit0, Frames(shown, marker), MultiFrame(value, marker, 0));
      ClearTwice(portd0, Positions());
      if cursor >= |frames| {
        count', cursor', outcome, typed', kn' := count, cursor, Ended, typed, kn;
        assert Shown(rs, cursor, buf.Length, typed) == [value];
        return;
      }
      var done;
      count', cursor', done, typed', kn' := TakeKey(keys, frames, buf, count, cursor, rs, typed, kd, kp, kn);
      outcome := if done then Returned else Going;
      if !done {
        Assoc(shown, [value], Shown(rs, cursor', buf.Length, typed'));
      }
    }

    /**
     * The entry loop shared by `getPeople` and `getHourly`, over the keypad
     * `keys` whose state at scan `i` is `HeldAt(frames, i)`, starting at
     * scan `from`. The buffer of `max` characters starts out as NULs.
     * Returns the truncated reading and the next scan, or None when the
     * record of scans ends before the entry does.
     */
    method ReadNumber(keys: Port, frames: seq<Held>, from: nat, max: nat, marker: char) returns (r: Option<(nat, nat)>)
      requires 1 <= max <= Width && (marker == 'H' || marker == 'P')
      modifies this, keys
      ensures r == Reading(Entry(Reports(frames), from, max, []))
      ensures lit == old(lit) + Frames(Shown(Reports(frames), from, max, []), marker)
      ensures ddrc == 0 && portd == old(portd) - Positions()
      ensures exists n :: 0 <= n <= Columns && keys.ddrf == Released(old(keys.ddrf), n) && keys.portf == PulledUp(old(keys.portf), n)
    {
      var buf := new char[max](_ => 0 as char);
      var count := 0;
      var cursor := from;
      ghost var rs := Reports(frames);
      ghost var typed: seq<char> := [];
      ghost var shown: seq<nat> := [];
      ghost var kd, kp, kn: nat := keys.ddrf, keys.portf, 0;
      ghost var goal, all := Entry(rs, from, max, []), Shown(rs, from, max, []);
      assert buf[..] == typed + Nuls(max);
      while true
        invariant buf.Length == max && InProgress(rs, goal, all, max, cursor, typed, shown, buf[..], count)
        invariant lit == old(lit) + Frames(shown, marker)
        invariant portd == old(portd) || portd == old(portd) - Positions()
        invariant kd == old(keys.ddrf) && kp == old(keys.portf)
        invariant kn <= Columns && keys.ddrf == Released(kd, kn) && keys.portf == PulledUp(kp, kn)
        decreases |rs| - cursor
      {
        var outcome;
        count, cursor, outcome, typed, shown, kn := Round(keys, frames, buf, count, cursor, marker, rs, goal, all, old(lit), old(portd), typed, shown, kd, kp, kn);
        assert keys.ddrf == Released(old(keys.ddrf), kn) && keys.portf == PulledUp(old(keys.portf), kn);
        if outcome == Ended {
          assert all == shown;
          return None;
        } else if outcome == Returned {
          var v := AtoiBuffer(buf, typed);
          assert goal == Some(Entered(typed, cursor)) && all == shown;
          return Some((v % 256, cursor));
        }
      }
    }

    /** `getPeople`: an entry of up to four digits behind the "P." marker. */
    method GetPeople(keys: Port, frames: seq<Held>, from: nat) returns (r: Option<(nat, nat)>)
      modifies this, keys
      ensures r == Reading(Entry(Reports(frames), from, MaxPeople, []))
      ensures lit == old(lit) + Frames(Shown(Reports(frames), from, MaxPeople, []), 'P')
      ensures ddrc == 0 && portd == old(portd) - Positions()
      ensures exists n :: 0 <= n <= Columns && keys.ddrf == Released(old(keys.ddrf), n) && keys.portf == PulledUp(old(keys.portf), n)
    {
      r := ReadNumber(keys, frames, from, MaxPeople, 'P');
    }

    /** `getHourly`: an entry of up to five digits behind the "H." marker. */
    method GetHourly(keys: Port, frames: seq<Held>, from: nat) returns (r: Option<(nat, nat)>)
      modifies this, keys
      ensures r == Reading(Entry(Reports(frames), from, MaxHourly, []))
      ensures lit == old(lit) + Frames(Shown(Reports(frames), from, MaxHourly, []), 'H')
      ensures ddrc == 0 && portd == old(portd) - Positions()
      ensures exists n :: 0 <= n <= Columns && keys.ddrf == Released(old(keys.ddrf), n) && keys.portf == PulledUp(old(keys.portf), n)
    {
      r := ReadNumber(keys, frames, from, MaxHourly, 'H');
    }
  }
}
