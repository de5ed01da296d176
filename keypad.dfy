/**
 * The 4x3 matrix keypad scanner shared by both firmware images
 * (bigred/bigred.c and meetingcalc/meeting.c carry identical copies).
 *
 * The three column lines are PORTF/DDRF pins; a column is driven by making
 * its pin an output at level low, and released by making it an input with
 * its pull-up on. The four row lines are PINF inputs with pull-ups, so a row
 * reads low exactly when a held key connects it to the driven column.
 *
 * An 8-bit I/O register is modelled by the set of its bit numbers that are 1.
 */
module Keypad {
  import opened Wrappers

  const Columns: nat := 3
  const Rows: nat := 4
  /** The column and the row the scan starts from. */
  const FirstColumn: nat := 0
  const FirstRow: nat := 0

  /** The PORTF pin of each column, in scan order (`colArr`). */
  const ColPins: seq<nat> := [2, 0, 4]
  /** The PINF pin of each row, in scan order (`rowArr`). */
  const RowPins: seq<nat> := [1, 6, 5, 3]
  /** The character of each key, indexed [row][column] (`charArr`). */
  const Layout: seq<seq<char>> := [['1', '2', '3'], ['4', '5', '6'], ['7', '8', '9'], ['*', '0', '#']]

  /** The characters the keypad can produce: the ten digits, `*` and `#`. */
  predicate IsKey(c: char) {
    '0' <= c <= '9' || c == '*' || c == '#'
  }

  /** The keypad as one scan sees it: the (row, column) cells held down. */
  type Held = set<(int, int)>

  /** The keypad state seen by scan number `i` of a recorded run; after the record ends no key is held. */
  function HeldAt(frames: seq<Held>, i: nat): Held {
    if i < |frames| then frames[i] else {}
  }

  /**
   * The row pins of PINF that read high while column `j` is driven: a row
   * pin reads low exactly when the key at that row of column `j` is held.
   */
  function RowLevels(held: Held, j: int): set<nat> {
    (if (0, j) in held then {} else {1}) +
    (if (1, j) in held then {} else {6}) +
    (if (2, j) in held then {} else {5}) +
    (if (3, j) in held then {} else {3})
  }

  /** Row `k` reads low while column `j` is driven exactly when the key at (`k`, `j`) is held. */
  lemma RowReadsLow(held: Held, j: int, k: nat)
    requires k < Rows
    ensures RowPins[k] !in RowLevels(held, j) <==> (k, j) in held
  {
  }

  /** Whether cell (`k`, `j`) comes before cell (`k'`, `j'`) in scan order: columns outer, rows inner. */
  predicate Before(k: int, j: int, k': int, j': int) {
    j < j' || (j == j' && k < k')
  }

  /** The first row at or after `k` whose key in column `j` is held, if any. */
  function FirstInColumn(held: Held, j: int, k: nat): (r: Option<nat>)
    decreases Rows - k
    ensures r.Some? ==> k <= r.value < Rows
  {
    if k >= Rows then None
    else if (k, j) in held then Some(k)
    else FirstInColumn(held, j, k + 1)
  }

  /** The first held cell (row, column) in scan order among columns `j` and later, if any. */
  function FirstHeld(held: Held, j: nat): (r: Option<(nat, nat)>)
    decreases Columns - j
    ensures r.Some? ==> r.value.0 < Rows && j <= r.value.1 < Columns
  {
    if j >= Columns then None
    else match FirstInColumn(held, j, FirstRow)
      case Some(k) => Some((k, j))
      case None => FirstHeld(held, j + 1)
  }

  /** The row found is held and no row from `k` up to it is; with none found, no row from `k` on is. */
  lemma {:induction false} FirstInColumnSpec(held: Held, j: int, k: nat)
    decreases Rows - k
    ensures var r := FirstInColumn(held, j, k);
      (r.Some? ==> (r.value, j) in held) &&
      forall q :: k <= q < Rows && (r.None? || q < r.value) ==> (q, j) !in held
  {
    if k < Rows && (k, j) !in held {
      FirstInColumnSpec(held, j, k + 1);
    }
  }

  /**
   * The cell found is held and no cell of columns `j` on before it in scan
   * order is; with none found, no cell of columns `j` on is held.
   */
  lemma {:induction false} FirstHeldSpec(held: Held, j: nat)
    decreases Columns - j
    ensures var r := FirstHeld(held, j);
      (r.Some? ==> (r.value.0, r.value.1) in held) &&
      forall k, i :: 0 <= k < Rows && j <= i < Columns && (r.None? || Before(k, i, r.value.0, r.value.1)) ==>
        (k, i) !in held
  {
    if j < Columns {
      FirstInColumnSpec(held, j, FirstRow);
      if FirstInColumn(held, j, FirstRow).None? {
        FirstHeldSpec(held, j + 1);
      }
    }
  }

  /**
   * What one scan reports: the character of the first held key in scan
   * order, or 0 when no key of the matrix is held.
   */
  function Scan(held: Held): char {
    match FirstHeld(held, FirstColumn)
    case None => 0 as char
    case Some((k, j)) => Layout[k][j]
  }

  /**
   * A scan reports 0 exactly when no key of the matrix is held; otherwise
   * it reports a keypad character, that of a held key with no held key
   * before it in scan order.
   */
  lemma ScanReports(held: Held)
    ensures Scan(held) == 0 as char <==> forall k, j :: 0 <= k < Rows && 0 <= j < Columns ==> (k, j) !in held
    ensures Scan(held) != 0 as char ==>
      IsKey(Scan(held)) &&
      exists k, j :: 0 <= k < Rows && 0 <= j < Columns && (k, j) in held && Scan(held) == Layout[k][j] &&
        forall k', j' :: 0 <= k' < Rows && 0 <= j' < Columns && Before(k', j', k, j) ==> (k', j') !in held
  {
    FirstHeldSpec(held, FirstColumn);
    var r := FirstHeld(held, FirstColumn);
    if r.Some? {
      var k, j := r.value.0, r.value.1;
      assert (k, j) in held;
      assert k in {0, 1, 2, 3} && j in {0, 1, 2};
    }
  }

  /** How many columns one scan drives before it returns. */
  function DrivenColumns(held: Held): (n: nat)
    ensures 1 <= n <= Columns
  {
    match FirstHeld(held, FirstColumn)
    case None => Columns
    case Some((_, j)) => j + 1
  }

  /** The pins of the first `n` columns in scan order. */
  function ScannedSet(n: nat): set<nat>
    requires n <= Columns
  {
    if n == 0 then {} else ScannedSet(n - 1) + {ColPins[n - 1]}
  }

  /** The pins of the first `n` columns are exactly `colArr[0]` to `colArr[n - 1]`. */
  lemma {:induction false} ScannedPins(n: nat, m: nat)
    requires n <= Columns
    ensures m in ScannedSet(n) <==> exists j :: 0 <= j < n && ColPins[j] == m
  {
    if n > 0 {
      ScannedPins(n - 1, m);
      if m in ScannedSet(n) && m != ColPins[n - 1] {
        var j :| 0 <= j < n - 1 && ColPins[j] == m;
        assert 0 <= j < n && ColPins[j] == m;
      }
    }
  }

  /** DDRF after the first `n` columns in scan order were driven and released: their pins are inputs. */
  function Released(ddr: set<nat>, n: nat): set<nat>
    requires n <= Columns
  {
    ddr - ScannedSet(n)
  }

  /** PORTF after the first `n` columns in scan order were driven and released: their pull-ups are on. */
  function PulledUp(port: set<nat>, n: nat): set<nat>
    requires n <= Columns
  {
    port + ScannedSet(n)
  }

  /** A single held key is reported as exactly its own character. */
  lemma SingleKey(k: nat, j: nat)
    requires k < Rows && j < Columns
    ensures Scan({(k, j)}) == Layout[k][j]
  {
    FirstHeldSpec({(k, j)}, FirstColumn);
  }

  /** What the row loop of column `j` found, given that nothing is held before column `j`. */
  lemma ColumnScanned(held: Held, j: nat, k: nat)
    requires j < Columns && k <= Rows
    requires FirstHeld(held, FirstColumn) == FirstHeld(held, j)
    requires k < Rows ==> (k, j) in held
    requires forall r :: 0 <= r < k ==> (r, j) !in held
    ensures k < Rows ==> FirstHeld(held, FirstColumn) == Some((k, j)) && Layout[k][j] != 0 as char
    ensures k == Rows ==> FirstHeld(held, FirstColumn) == FirstHeld(held, j + 1)
  {
    FirstInColumnSpec(held, j, FirstRow);
    assert k < Rows ==> FirstInColumn(held, j, FirstRow) == Some(k);
    assert k in {0, 1, 2, 3, 4} && j in {0, 1, 2};
  }

  /** Driving a pin low as an output and then releasing it leaves it an input with its pull-up on. */
  lemma DriveThenRelease(ddr: set<nat>, port: set<nat>, b: nat)
    ensures (ddr + {b}) - {b} == ddr - {b}
    ensures (port - {b}) + {b} == port + {b}
  {
  }

  /** Scanning column `j` after the first `j` columns releases the first `j + 1`. */
  lemma ReleaseNext(ddr: set<nat>, port: set<nat>, j: nat)
    requires j < Columns
    ensures Released(ddr, j + 1) == Released(ddr, j) - {ColPins[j]}
    ensures PulledUp(port, j + 1) == PulledUp(port, j) + {ColPins[j]}
  {
    assert ScannedSet(j + 1) == ScannedSet(j) + {ColPins[j]};
  }

  /** Scanning the first `a` columns and then the first `b` leaves the pins of the first `max(a, b)` released. */
  lemma ReleasedAgain(ddr: set<nat>, port: set<nat>, a: nat, b: nat)
    requires a <= Columns && b <= Columns
    ensures Released(Released(ddr, a), b) == Released(ddr, if a < b then b else a)
    ensures PulledUp(PulledUp(port, a), b) == PulledUp(port, if a < b then b else a)
  {
    assert ScannedSet(a) + ScannedSet(b) == ScannedSet(if a < b then b else a);
  }

  /** Nothing held, nothing reported. */
  lemma NothingHeld()
    ensures Scan({}) == 0 as char
  {
    FirstHeldSpec({}, FirstColumn);
  }

  /** What each scan of a recorded run reports. */
  function Reports(frames: seq<Held>): (rs: seq<char>)
    ensures |rs| == |frames|
  {
    if frames == [] then [] else [Scan(frames[0])] + Reports(frames[1..])
  }

  /** The report of scan number `i`; once the record has ended, scans report 0. */
  function ReportAt(reports: seq<char>, i: nat): char {
    if i < |reports| then reports[i] else 0 as char
  }

  /** Scan number `i` reports what a scan of the keypad state at that point reports. */
  lemma {:induction false} ReportIs(frames: seq<Held>, i: nat)
    ensures ReportAt(Reports(frames), i) == Scan(HeldAt(frames, i))
  {
    if i >= |frames| {
      NothingHeld();
    } else if i > 0 {
      ReportIs(frames[1..], i - 1);
    }
  }

  /**
   * Where the hold loop of `waitKeyPress` stops once the first scan saw key
   * `c`: re-scan number `i` is made, and the loop goes on to re-scan `i + 1`
   * only when it reported `c` again and `left` more rounds of the hold
   * counter remain. The result is the number of the first scan after the loop.
   */
  function HoldEnd(reports: seq<char>, c: char, i: nat, left: nat): (e: nat)
    decreases left
    ensures i < e
  {
    if ReportAt(reports, i) != c || left == 0 then i + 1 else HoldEnd(reports, c, i + 1, left - 1)
  }

  /**
   * What `waitKeyPress` returns when its first scan is scan number `from`:
   * the key of that scan, and the number of the first scan after it returns.
   * The counter starts at 50 and the loop runs while it is below 1000 in
   * steps of 10, so 95 rounds of the hold counter are available.
   */
  function Debounce(reports: seq<char>, from: nat): (r: (char, nat))
    ensures from < r.1
  {
    var c := ReportAt(reports, from);
    (c, if c == 0 as char then from + 1 else HoldEnd(reports, c, from + 1, 95))
  }

  /** The hold loop re-scans at least once, each re-scan but the last reports `c`, and the last one does not or was the final round. */
  lemma {:induction false} HoldEndSpec(reports: seq<char>, c: char, i: nat, left: nat)
    decreases left
    ensures var e := HoldEnd(reports, c, i, left);
      i + 1 <= e <= i + 1 + left &&
      (forall u :: i <= u < e - 1 ==> ReportAt(reports, u) == c) &&
      (ReportAt(reports, e - 1) != c || e == i + 1 + left)
  {
    if ReportAt(reports, i) == c && left > 0 {
      HoldEndSpec(reports, c, i + 1, left - 1);
    }
  }

  /**
   * `waitKeyPress` returns the key of its first scan. When that scan saw no
   * key it returns at once; otherwise it re-scans between 1 and 96 times,
   * every re-scan but the last reported the same key, and the last one
   * reported another or was the 96th.
   */
  lemma DebounceSpec(reports: seq<char>, from: nat)
    ensures var (c, next) := Debounce(reports, from);
      c == ReportAt(reports, from) &&
      (c == 0 as char ==> next == from + 1) &&
      (c != 0 as char ==> from + 2 <= next <= from + 97) &&
      (forall i :: from < i < next - 1 ==> ReportAt(reports, i) == c) &&
      (c != 0 as char ==> ReportAt(reports, next - 1) != c || next == from + 97)
  {
    var c := ReportAt(reports, from);
    if c != 0 as char {
      HoldEndSpec(reports, c, from + 1, 95);
    }
  }

  /** A key held alone through 97 scans is returned after the longest hold: 96 re-scans. */
  lemma HeldThroughout(frames: seq<Held>, from: nat, k: nat, j: nat)
    requires k < Rows && j < Columns
    requires forall i :: from <= i <= from + 96 ==> HeldAt(frames, i) == {(k, j)}
    ensures Debounce(Reports(frames), from) == (Layout[k][j], from + 97)
  {
    var rs, c := Reports(frames), Layout[k][j];
    SingleKey(k, j);
    assert c != 0 as char by {
      assert k in {0, 1, 2, 3} && j in {0, 1, 2};
    }
    forall i | from <= i <= from + 96
      ensures ReportAt(rs, i) == c
    {
      ReportIs(frames, i);
    }
    HoldEndSpec(rs, c, from + 1, 95);
  }

  /** Whether every report is a key of the keypad or 0 (no key). */
  predicate KeyReports(rs: seq<char>) {
    forall i :: 0 <= i < |rs| ==> rs[i] == 0 as char || IsKey(rs[i])
  }

  /** Every scan of a recorded run reports a key or nothing. */
  lemma ReportsAreKeys(frames: seq<Held>)
    ensures KeyReports(Reports(frames))
  {
    var rs := Reports(frames);
    forall i | 0 <= i < |rs|
      ensures rs[i] == 0 as char || IsKey(rs[i])
    {
      ReportIs(frames, i);
      ScanReports(HeldAt(frames, i));
    }
  }

  /** The register state of the keypad port: data direction and output level of PORTF. */
  class Port {
    var ddrf: set<nat>
    var portf: set<nat>

    constructor (ddrf0: set<nat>, portf0: set<nat>)
      ensures ddrf == ddrf0 && portf == portf0
    {
      ddrf, portf := ddrf0, portf0;
    }

    /**
     * The row loop of one column: the first row that reads low on PINF
     * while column `j` is driven, or `Rows` when none does.
     */
    method FindRow(held: Held, j: nat) returns (k: nat)
      ensures k <= Rows
      ensures k < Rows ==> (k, j) in held
      ensures forall r :: 0 <= r < k ==> (r, j) !in held
    {
      k := 0;
      while k < Rows
        invariant k <= Rows
        invariant forall r :: 0 <= r < k ==> (r, j) !in held
      {
        RowReadsLow(held, j, k);
        if RowPins[k] !in RowLevels(held, j) {
          return;
        }
        k := k + 1;
      }
    }

    /**
     * One pass of the column loop: drive column `j` low, run the row loop,
     * and release the column again.
     */
    method ScanColumn(held: Held, j: nat) returns (k: nat)
      requires j < Columns
      modifies this
      ensures k <= Rows
      ensures k < Rows ==> (k, j) in held
      ensures forall r :: 0 <= r < k ==> (r, j) !in held
      ensures ddrf == old(ddrf) - {ColPins[j]} && portf == old(portf) + {ColPins[j]}
    {
      var pin := ColPins[j];
      DriveThenRelease(ddrf, portf, pin);
      portf := portf - {pin};
      ddrf := ddrf + {pin};
      k := FindRow(held, j);
      ddrf := ddrf - {pin};
      portf := portf + {pin};
    }

    /**
     * One scan (`getKeyPress`): drive each column in turn, read the rows,
     * report the first held key. Each driven column pin is returned to an
     * input with its pull-up on; no other DDRF or PORTF bit changes.
     */
    method GetKeyPress(held: Held) returns (c: char)
      modifies this
      ensures c == Scan(held)
      ensures ddrf == Released(old(ddrf), DrivenColumns(held))
      ensures portf == PulledUp(old(portf), DrivenColumns(held))
    {
      c := 0 as char;
      ghost var found: Option<(nat, nat)> := None;
      ghost var d0, p0 := ddrf, portf;
      var j := FirstColumn;
      while j < Columns && c == 0 as char
        invariant 0 <= j <= Columns
        invariant found.None? ==> c == 0 as char && FirstHeld(held, FirstColumn) == FirstHeld(held, j)
        invariant found.Some? ==>
          FirstHeld(held, FirstColumn) == found && found.value.1 + 1 == j &&
          c == Layout[found.value.0][found.value.1] && c != 0 as char
        invariant ddrf == Released(d0, j)
        invariant portf == PulledUp(p0, j)
      {
        ReleaseNext(d0, p0, j);
        var k := ScanColumn(held, j);
        ColumnScanned(held, j, k);
        if k < Rows {
          c := Layout[k][j];
          found := Some((k, j));
        }
        j := j + 1;
      }
    }

    /**
     * A call of `getKeyPress` made as scan number `i` of a recorded run,
     * after earlier scans released the pins of the first `n` columns; the
     * pins of the first `n'` columns are released afterwards.
     */
    method ScanAt(frames: seq<Held>, i: nat, ghost d0: set<nat>, ghost p0: set<nat>, ghost n: nat)
      returns (c: char, ghost n': nat)
      requires n <= Columns && ddrf == Released(d0, n) && portf == PulledUp(p0, n)
      modifies this
      ensures c == ReportAt(Reports(frames), i)
      ensures 1 <= n' <= Columns && n <= n' && ddrf == Released(d0, n') && portf == PulledUp(p0, n')
    {
      ghost var m := DrivenColumns(HeldAt(frames, i));
      c := GetKeyPress(HeldAt(frames, i));
      ReportIs(frames, i);
      ReleasedAgain(d0, p0, n, m);
      n' := if n < m then m else n;
    }

    /**
     * The hold loop of `waitKeyPress` once its first scan saw key `c`:
     * re-scan from scan number `from + 1` on while the same key is reported
     * and the hold counter, starting at 50 and advancing by 10, is below
     * 1000. (The loop condition's `c != 0` test cannot change from one round
     * to the next, so it is made once, by the caller.)
     */
    method HoldLoop(frames: seq<Held>, c: char, from: nat, ghost d0: set<nat>, ghost p0: set<nat>, ghost n: nat)
      returns (next: nat, ghost n': nat)
      requires n <= Columns && ddrf == Released(d0, n) && portf == PulledUp(p0, n)
      modifies this
      ensures next == HoldEnd(Reports(frames), c, from + 1, 95)
      ensures n <= n' <= Columns && ddrf == Released(d0, n') && portf == PulledUp(p0, n')
    {
      ghost var rs := Reports(frames);
      next := from + 1;
      n' := n;
      var counter := 50;
      while true
        invariant from + 1 <= next <= from + 96 && counter == 50 + 10 * (next - from - 1)
        invariant HoldEnd(rs, c, from + 1, 95) == HoldEnd(rs, c, next, 96 + from - next)
        invariant n <= n' <= Columns && ddrf == Released(d0, n') && portf == PulledUp(p0, n')
        decreases 1000 - counter
      {
        var again;
        again, n' := ScanAt(frames, next, d0, p0, n');
        next := next + 1;
        if again != c || counter >= 1000 {
          break;
        }
        counter := counter + 10;
      }
    }

    /**
     * Debounced read (`waitKeyPress`): scan once, and when that scan saw a
     * key, hold while the same key is reported. Scan number `i` of the run
     * sees `HeldAt(frames, i)`, and the scans made are numbers `from` up to
     * `next - 1`. Every scan returns its column pins to inputs with pull-ups
     * and leaves the other DDRF and PORTF bits alone.
     */
    method WaitKeyPress(frames: seq<Held>, from: nat) returns (c: char, next: nat)
      modifies this
      ensures (c, next) == Debounce(Reports(frames), from)
      ensures exists n :: 1 <= n <= Columns && ddrf == Released(old(ddrf), n) && portf == PulledUp(old(portf), n)
    {
      ghost var d0, p0 := ddrf, portf;
      ghost var n;
      c, n := ScanAt(frames, from, d0, p0, 0);
      if c == 0 as char {
        next := from + 1;
      } else {
        next, n := HoldLoop(frames, c, from, d0, p0, n);
      }
    }
  }
}
