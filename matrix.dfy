/**
 * The key matrix scan (matrix.c): one row per call is read, debounced and
 * compared with the state already reported, and every changed key becomes
 * a key event.
 */
module Matrix {
  import Config

  /** `keymap_event(r, c, pressed)`, the call the edge detection makes for a changed key. */
  datatype KeyEvent = KeyEvent(row: nat, col: nat, pressed: bool)

  /**
   * The debounce state of one row: `matrix_debounce.row[r]`, `update[r]`,
   * `debounce[r]` (the deadline the timer module handed out) and
   * `matrix.row[r]`.
   */
  datatype RowScan = RowScan(debounced: bv16, update: bool, deadline: nat, row: bv16)

  /** A row whose update flag is clear has committed its debounced reading. */
  predicate Settled(s: RowScan)
  {
    !s.update ==> s.row == s.debounced
  }

  /**
   * `matrix_row_scan` for one row, given the decoded column reading, the
   * deadline `timer_set` returns and whether `timer_passed` reports the
   * row's deadline as passed.
   */
  function ScanRow(s: RowScan, col: bv16, deadline: nat, passed: bool): (r: RowScan)
    ensures r.debounced == col
    ensures Settled(s) ==> Settled(r)
  {
    var s := if s.debounced != col then RowScan(col, true, deadline, s.row) else s;
    if s.update && passed then s.(update := false, row := s.debounced) else s
  }

  /**
   * A reading that differs from the snapshot becomes the snapshot, with the
   * flag set and the timer restarted; the row is committed only once the
   * timer has passed, and only ever to the snapshot, which clears the flag.
   * A settled row stays settled.
   */
  lemma ScanRowDebounces(s: RowScan, col: bv16, deadline: nat, passed: bool)
    ensures var r := ScanRow(s, col, deadline, passed);
      r.debounced == col &&
      (s.debounced != col ==> r.deadline == deadline && r.update == !passed) &&
      (s.debounced == col ==> r.deadline == s.deadline) &&
      (r.row != s.row ==> passed && r.row == col && !r.update) &&
      (!passed ==> r.row == s.row && (s.debounced == col ==> r == s)) &&
      (Settled(s) ==> Settled(r))
  {
  }

  /**
   * A bounce that returns to the settled reading before the timer passes
   * leaves the committed row as it was: nothing is reported for it.
   */
  lemma BounceIgnored(s: RowScan, glitch: bv16, d1: nat, d2: nat, passed: bool)
    requires Settled(s) && !s.update && glitch != s.debounced
    ensures var bounced := ScanRow(s, glitch, d1, false);
      var back := ScanRow(bounced, s.debounced, d2, passed);
      back.row == s.row && back.debounced == s.debounced
  {
  }

  /** The rows scanned in turn: row r is followed by row (r + 1) % ROWS_NUM. */
  function NextRow(r: nat): (n: nat)
    requires r < Config.ROWS_NUM
    ensures n < Config.ROWS_NUM && (r + 1 < Config.ROWS_NUM ==> n == r + 1) && (r + 1 == Config.ROWS_NUM ==> n == 0)
  {
    (r + 1) % Config.ROWS_NUM
  }

  /** `colbit`, the mask `1 << c` of column c, as a literal. */
  function ColBit(c: nat): bv16
    requires c < Config.COLS_NUM
  {
    if c == 0 then 1 else if c == 1 then 2 else if c == 2 then 4 else if c == 3 then 8 else 16
  }

  /** The literal masks are the shifts of the source. */
  lemma ColBitIsShift(c: nat)
    requires c < Config.COLS_NUM
    ensures ColBit(c) == 1 << c
  {
  }

  /** Column c of a row is set: the test `x & colbit`. */
  predicate Down(x: bv16, c: nat)
    requires c < Config.COLS_NUM
  {
    x & ColBit(c) != 0
  }

  /** The test is bit c of the row. */
  lemma DownIsBit(x: bv16, c: nat)
    requires c < Config.COLS_NUM
    ensures Down(x, c) <==> Config.Bit(x, c) == 1
  {
    if c == 0 {
      assert Config.Bit(x, 0) == x & 1;
    } else if c == 1 {
      assert Config.Bit(x, 1) == (x >> 1) & 1;
    } else if c == 2 {
      assert Config.Bit(x, 2) == (x >> 2) & 1;
    } else if c == 3 {
      assert Config.Bit(x, 3) == (x >> 3) & 1;
    } else {
      assert Config.Bit(x, 4) == (x >> 4) & 1;
    }
  }

  /** Column c of `now ^ before` is set exactly when the two rows differ there. */
  lemma DownXor(now: bv16, before: bv16, c: nat)
    requires c < Config.COLS_NUM
    ensures Down(now ^ before, c) <==> Down(now, c) != Down(before, c)
  {
    var m := ColBit(c);
    assert (now ^ before) & m == (now & m) ^ (before & m);
    assert m == 1 || m == 2 || m == 4 || m == 8 || m == 16;
  }

  /**
   * The key events for the first n columns of row r: one per column set
   * in `now ^ before`, in increasing column order, with the key's new state.
   */
  function EventsUpTo(r: nat, now: bv16, before: bv16, n: nat): seq<KeyEvent>
    requires n <= Config.COLS_NUM
  {
    if n == 0 then []
    else
      EventsUpTo(r, now, before, n - 1) +
        if Down(now ^ before, n - 1) then [KeyEvent(r, n - 1, Down(now, n - 1))] else []
  }

  /** One more column: its event, if it changed, comes after those of the columns before it. */
  lemma EventsStep(r: nat, now: bv16, before: bv16, c: nat)
    requires c < Config.COLS_NUM
    ensures EventsUpTo(r, now, before, c + 1) ==
      EventsUpTo(r, now, before, c) + if Down(now ^ before, c) then [KeyEvent(r, c, Down(now, c))] else []
  {
  }

  /** The key events for row r when it changes from before to now. */
  function RowEvents(r: nat, now: bv16, before: bv16): (es: seq<KeyEvent>)
    ensures forall e :: e in es ==> e.row == r && e.col < Config.COLS_NUM
  {
    EventsOrdered(r, now, before, Config.COLS_NUM);
    EventsUpTo(r, now, before, Config.COLS_NUM)
  }

  /** Every event is for row r and a column below n, in strictly increasing column order. */
  lemma {:induction false} EventsOrdered(r: nat, now: bv16, before: bv16, n: nat)
    requires n <= Config.COLS_NUM
    ensures forall e :: e in EventsUpTo(r, now, before, n) ==> e.row == r && e.col < n
    ensures forall i, j :: 0 <= i < j < |EventsUpTo(r, now, before, n)| ==>
      EventsUpTo(r, now, before, n)[i].col < EventsUpTo(r, now, before, n)[j].col
  {
    if n > 0 {
      EventsOrdered(r, now, before, n - 1);
      var prefix := EventsUpTo(r, now, before, n - 1);
      var tail := if Down(now ^ before, n - 1) then [KeyEvent(r, n - 1, Down(now, n - 1))] else [];
      var es := EventsUpTo(r, now, before, n);
      assert es == prefix + tail;
      forall i, j | 0 <= i < j < |es|
        ensures es[i].col < es[j].col
      {
        assert es[i] in prefix;
      }
    }
  }

  /** No event of the first n columns is for a column at or past n. */
  lemma {:induction false} NoEventsFrom(r: nat, now: bv16, before: bv16, n: nat, c: nat)
    requires n <= Config.COLS_NUM && c >= n
    ensures KeyEvent(r, c, true) !in EventsUpTo(r, now, before, n)
    ensures KeyEvent(r, c, false) !in EventsUpTo(r, now, before, n)
  {
    if n > 0 {
      NoEventsFrom(r, now, before, n - 1, c);
    }
  }

  /**
   * There is an event for column c exactly when the key changed, and it
   * reports the new state of the key: no event for that column reports
   * the other state.
   */
  lemma {:induction false} EventsExactlyChanged(r: nat, now: bv16, before: bv16, n: nat, c: nat)
    requires n <= Config.COLS_NUM && c < n
    ensures Down(now ^ before, c) <==> KeyEvent(r, c, Down(now, c)) in EventsUpTo(r, now, before, n)
    ensures KeyEvent(r, c, !Down(now, c)) !in EventsUpTo(r, now, before, n)
  {
    var prefix := EventsUpTo(r, now, before, n - 1);
    var tail := if Down(now ^ before, n - 1) then [KeyEvent(r, n - 1, Down(now, n - 1))] else [];
    var es := EventsUpTo(r, now, before, n);
    assert es == prefix + tail;
    var hit, miss := KeyEvent(r, c, Down(now, c)), KeyEvent(r, c, !Down(now, c));
    if c < n - 1 {
      EventsExactlyChanged(r, now, before, n - 1, c);
      assert hit !in tail && miss !in tail;
      assert (hit in es <==> hit in prefix) && (miss in es <==> miss in prefix);
    } else {
      assert c == n - 1;
      NoEventsFrom(r, now, before, c, c);
      assert (hit in es <==> hit in tail) && (miss in es <==> miss in tail);
    }
  }

  /** For a whole row: an event for column c exactly when bit c changed, carrying the new bit. */
  lemma RowEventsExact(r: nat, now: bv16, before: bv16, c: nat)
    requires c < Config.COLS_NUM
    ensures Config.Bit(now, c) != Config.Bit(before, c) <==> KeyEvent(r, c, Config.Bit(now, c) == 1) in RowEvents(r, now, before)
    ensures KeyEvent(r, c, Config.Bit(now, c) != 1) !in RowEvents(r, now, before)
  {
    DownIsBit(now, c);
    DownIsBit(before, c);
    DownXor(now, before, c);
    EventsExactlyChanged(r, now, before, Config.COLS_NUM, c);
  }

  /** Number of columns below n set in x. */
  function Ones(x: bv16, n: nat): (k: nat)
    requires n <= Config.COLS_NUM
    ensures k <= n
  {
    if n == 0 then 0 else Ones(x, n - 1) + if Down(x, n - 1) then 1 else 0
  }

  /** As many events as changed keys. */
  lemma {:induction false} EventsCountChanges(r: nat, now: bv16, before: bv16, n: nat)
    requires n <= Config.COLS_NUM
    ensures |EventsUpTo(r, now, before, n)| == Ones(now ^ before, n)
  {
    if n > 0 {
      EventsCountChanges(r, now, before, n - 1);
    }
  }

  /** An unchanged row emits nothing. */
  lemma {:induction false} UnchangedRowSilent(r: nat, x: bv16, n: nat)
    requires n <= Config.COLS_NUM
    ensures EventsUpTo(r, x, x, n) == []
  {
    if n > 0 {
      UnchangedRowSilent(r, x, n - 1);
      assert x ^ x == 0;
    }
  }

  /** `matrix_previous.row[r]` after the masks of the changed keys below column n have been flipped one by one. */
  function Flipped(before: bv16, now: bv16, n: nat): bv16
    requires n <= Config.COLS_NUM
  {
    if n == 0 then before
    else if Down(now ^ before, n - 1) then Flipped(before, now, n - 1) ^ ColBit(n - 1)
    else Flipped(before, now, n - 1)
  }

  /** One more column: it is flipped exactly when it changed. */
  lemma FlippedStep(before: bv16, now: bv16, c: nat)
    requires c < Config.COLS_NUM
    ensures Flipped(before, now, c + 1) ==
      if Down(now ^ before, c) then Flipped(before, now, c) ^ ColBit(c) else Flipped(before, now, c)
  {
  }

  /** The mask of the columns below n. */
  function LowColumns(n: nat): bv16
    requires n <= Config.COLS_NUM
  {
    if n == 0 then 0 else if n == 1 then 0x1 else if n == 2 then 0x3 else if n == 3 then 0x7 else if n == 4 then 0xf else 0x1f
  }

  /** After n columns, exactly the changed bits below column n have been flipped. */
  lemma {:induction false} FlippedPrefix(before: bv16, now: bv16, n: nat)
    requires n <= Config.COLS_NUM
    ensures Flipped(before, now, n) == before ^ ((now ^ before) & LowColumns(n))
  {
    if n > 0 {
      FlippedPrefix(before, now, n - 1);
      var d := now ^ before;
      var m := ColBit(n - 1);
      var low := LowColumns(n - 1);
      assert LowColumns(n) == low | m && low & m == 0;
      if d & m != 0 {
        assert d & m == m by {
          assert m == 1 || m == 2 || m == 4 || m == 8 || m == 16;
        }
        assert d & (low | m) == (d & low) | (d & m);
      } else {
        assert d & (low | m) == d & low;
      }
    }
  }

  /** Flipping the changed keys of a five-column row turns the reported state into the committed one. */
  lemma FlippedReachesRow(before: bv16, now: bv16)
    requires before < 32 && now < 32
    ensures Flipped(before, now, Config.COLS_NUM) == now
  {
    FlippedPrefix(before, now, Config.COLS_NUM);
    assert (now ^ before) & 0x1f == now ^ before;
  }

  /** `matrix`, `matrix_debounce`, `matrix_previous`, `update`, `debounce` and `current`. */
  class KeyMatrix {
    const row: array<bv16>
    const debounced: array<bv16>
    const previous: array<bv16>
    const update: array<bool>
    const debounce: array<nat>
    var current: nat

    /** The five tables are separate arrays. */
    ghost predicate Distinct()
      reads this
    {
      row != debounced && row != previous && debounced != previous &&
      update as object != row && update as object != debounced && update as object != previous &&
      debounce as object != row && debounce as object != debounced && debounce as object != previous &&
      debounce as object != update
    }

    ghost predicate Valid()
      reads this, row, debounced, previous, update
    {
      row.Length == Config.ROWS_NUM && debounced.Length == Config.ROWS_NUM && previous.Length == Config.ROWS_NUM &&
      update.Length == Config.ROWS_NUM && debounce.Length == Config.ROWS_NUM &&
      Distinct() &&
      current < Config.ROWS_NUM &&
      (forall i :: 0 <= i < Config.ROWS_NUM ==> row[i] < 32 && debounced[i] < 32 && previous[i] < 32) &&
      (forall i :: 0 <= i < Config.ROWS_NUM ==> !update[i] ==> row[i] == debounced[i])
    }

    /** Row i's debounce state. */
    function RowAt(i: nat): RowScan
      requires i < row.Length == debounced.Length == update.Length == debounce.Length
      reads this, row, debounced, update, debounce
    {
      RowScan(debounced[i], update[i], debounce[i], row[i])
    }

    /** The static initial state: every row, snapshot and timer zero, no update pending. */
    constructor ()
      ensures Valid() && current == 0
      ensures row[..] == debounced[..] == previous[..] == [0, 0, 0, 0, 0]
      ensures update[..] == [false, false, false, false, false] && debounce[..] == [0, 0, 0, 0, 0]
    {
      row := new bv16[Config.ROWS_NUM](_ => 0);
      debounced := new bv16[Config.ROWS_NUM](_ => 0);
      previous := new bv16[Config.ROWS_NUM](_ => 0);
      update := new bool[Config.ROWS_NUM](_ => false);
      debounce := new nat[Config.ROWS_NUM](_ => 0);
      current := 0;
      new;
      assert row[..] == [0, 0, 0, 0, 0] == debounced[..] == previous[..];
      assert debounce[..] == [0, 0, 0, 0, 0];
      assert update[..] == [false, false, false, false, false];
    }

    /** `matrix_init`: the three matrices, the timers and `current` are zeroed; the update flags are left alone. */
    method Init()
      requires Valid()
      modifies this, row, debounced, previous, debounce
      ensures Valid() && current == 0
      ensures row[..] == debounced[..] == previous[..] == [0, 0, 0, 0, 0] && debounce[..] == [0, 0, 0, 0, 0]
      ensures update[..] == old(update[..])
    {
      for i := 0 to Config.ROWS_NUM
        invariant forall k :: 0 <= k < i ==> row[k] == 0 && debounced[k] == 0 && previous[k] == 0 && debounce[k] == 0
        invariant forall k :: i <= k < Config.ROWS_NUM ==> row[k] == old(row[k]) && debounced[k] == old(debounced[k]) && previous[k] == old(previous[k])
        invariant Distinct()
        invariant forall k :: 0 <= k < Config.ROWS_NUM ==> !update[k] ==> row[k] == debounced[k]
      {
        row[i] := 0;
        debounced[i] := 0;
        previous[i] := 0;
        debounce[i] := 0;
      }
      current := 0;
      assert row[..] == [0, 0, 0, 0, 0] == debounced[..] == previous[..];
      assert debounce[..] == [0, 0, 0, 0, 0];
    }

    /**
     * `matrix_row_scan` on the port reading, the deadline `timer_set`
     * would return and the answer `timer_passed` would give: only the
     * current row's debounce state changes, as ScanRow says, and the scan
     * moves to the next row.
     */
    method Scan(port: bv16, deadline: nat, passed: bool)
      requires Valid()
      modifies this, row, debounced, update, debounce
      ensures Valid() && current == NextRow(old(current))
      ensures RowAt(old(current)) == ScanRow(old(RowAt(current)), Config.ColsDecode(port & Config.COLS_BV), deadline, passed)
      ensures forall i :: 0 <= i < Config.ROWS_NUM && i != old(current) ==> RowAt(i) == old(RowAt(i))
      ensures previous[..] == old(previous[..])
    {
      var col := Config.ColsDecode(port & Config.COLS_BV);
      if debounced[current] != col {
        debounced[current] := col;
        update[current] := true;
        debounce[current] := deadline;
      }
      if update[current] && passed {
        update[current] := false;
        row[current] := debounced[current];
      }
      current := NextRow(current);
    }

    /**
     * `matrix_row_process`: scan, then report row r, the row current named
     * before the scan: one event per column whose committed bit differs
     * from the reported one, in increasing column order, after which the
     * reported row equals the committed row.
     */
    method Process(port: bv16, deadline: nat, passed: bool) returns (events: seq<KeyEvent>)
      requires Valid()
      modifies this, row, debounced, update, debounce, previous
      ensures Valid() && current == NextRow(old(current))
      ensures RowAt(old(current)) == ScanRow(old(RowAt(current)), Config.ColsDecode(port & Config.COLS_BV), deadline, passed)
      ensures forall i :: 0 <= i < Config.ROWS_NUM && i != old(current) ==> RowAt(i) == old(RowAt(i))
      ensures events == RowEvents(old(current), row[old(current)], old(previous[current]))
      ensures previous[..] == old(previous[..])[old(current) := row[old(current)]]
    {
      var r := current;
      Scan(port, deadline, passed);
      events := Report(r);
      assert previous[r] == row[r];
    }

    /**
     * The edge detection of `matrix_row_process` for row r: the changed
     * columns, lowest first, each reported with the key's committed state,
     * after which the reported row equals the committed row.
     */
    method Report(r: nat) returns (events: seq<KeyEvent>)
      requires r < row.Length == previous.Length && row != previous && row[r] < 32 && previous[r] < 32
      modifies previous
      ensures events == RowEvents(r, row[r], old(previous[r]))
      ensures previous[..] == old(previous[..])[r := row[r]]
    {
      var now := row[r];
      var before := previous[r];
      if now ^ before != 0 {
        var flipped;
        events, flipped := ColumnLoop(r, now, before);
        FlippedReachesRow(before, now);
        previous[r] := flipped;
      } else {
        events := [];
        UnchangedRowSilent(r, now, Config.COLS_NUM);
      }
    }
  }

  /**
   * The column loop of `matrix_row_process` on the committed row now and
   * the reported row before: an event for every changed column, and the
   * reported row with those columns flipped one by one.
   */
  method ColumnLoop(r: nat, now: bv16, before: bv16) returns (events: seq<KeyEvent>, flipped: bv16)
    ensures events == RowEvents(r, now, before) && flipped == Flipped(before, now, Config.COLS_NUM)
  {
    var col := now ^ before;
    events, flipped := [], before;
    for c := 0 to Config.COLS_NUM
      invariant events == EventsUpTo(r, now, before, c) && flipped == Flipped(before, now, c)
    {
      EventsStep(r, now, before, c);
      FlippedStep(before, now, c);
      if Down(col, c) {
        events := events + [KeyEvent(r, c, Down(now, c))];
        flipped := flipped ^ ColBit(c);
      }
    }
  }
}
