/** The transaction ledger: the history table with columns STT, Time,
    Mon1..Mon6, Thanhtien and Total, held in memory as a sequence of rows.
    Every append rereads the table, adds one row and recomputes the whole
    Total column as the running sum of Thanhtien. */
module History {
  import opened Options

  /** The fixed number of label columns (Mon1..Mon6). */
  const SlotCount: nat := 6

  /** One ledger row. `time` is the formatted clock reading, opaque here;
      `mon` holds the Mon1..Mon6 columns; `thanhtien` is the amount billed
      and `total` the running total. */
  datatype Row = Row(stt: int, time: string, mon: seq<string>, thanhtien: int, total: int)

  type Ledger = seq<Row>

  /** The ledger at start-up. With `clean` set, as the kiosk always starts,
      the table is truncated to its header; otherwise an existing table is
      kept and a missing one created empty. */
  function Initialize(clean: bool, existing: Option<Ledger>): Ledger {
    if clean || existing.None? then [] else existing.value
  }

  /** The table an append starts from: a missing file reads as an empty
      table, anything else is taken as stored. */
  function Read(file: Option<Ledger>): Ledger {
    file.GetOr([])
  }

  /** `n` empty label columns. */
  function Blanks(n: nat): (r: seq<string>)
    ensures |r| == n
    ensures forall i :: 0 <= i < n ==> r[i] == ""
  {
    if n == 0 then [] else Blanks(n - 1) + [""]
  }

  /** The Mon1..Mon6 columns of a new row: the first six items, padded with
      empty strings when there are fewer. */
  function Slots(items: seq<string>): (r: seq<string>)
    ensures |r| == SlotCount
    ensures forall i :: 0 <= i < SlotCount ==> r[i] == if i < |items| then items[i] else ""
  {
    if |items| >= SlotCount then items[..SlotCount] else items + Blanks(SlotCount - |items|)
  }

  /** The labels a row records: its label columns up to the first empty one. */
  function Recorded(slots: seq<string>): (r: seq<string>)
    ensures |r| <= |slots|
  {
    if |slots| == 0 || slots[0] == "" then [] else [slots[0]] + Recorded(slots[1..])
  }

  /** Reading a row's label columns back gives the first six items, when no
      item is the empty string (true of every label the classifier emits). */
  lemma {:induction false} SlotsRoundTrip(items: seq<string>)
    requires forall i :: 0 <= i < |items| ==> items[i] != ""
    ensures Recorded(Slots(items)) == if |items| <= SlotCount then items else items[..SlotCount]
  {
    var k := if |items| <= SlotCount then |items| else SlotCount;
    RecordedPrefix(Slots(items), k);
    assert Slots(items)[..k] == items[..k];
    assert items[..|items|] == items;
  }

  lemma {:induction false} RecordedPrefix(slots: seq<string>, k: nat)
    requires k <= |slots|
    requires forall i :: 0 <= i < k ==> slots[i] != ""
    requires k == |slots| || slots[k] == ""
    ensures Recorded(slots) == slots[..k]
    decreases k
  {
    if k > 0 {
      RecordedPrefix(slots[1..], k - 1);
      assert slots[..k] == [slots[0]] + slots[1..][..k - 1];
    }
  }

  /** Sum of the Thanhtien column. */
  function Paid(rows: seq<Row>): int {
    if |rows| == 0 then 0 else Paid(rows[..|rows| - 1]) + rows[|rows| - 1].thanhtien
  }

  /** Every row's Total is the sum of Thanhtien over it and all rows before. */
  ghost predicate RunningTotals(rows: seq<Row>) {
    forall i :: 0 <= i < |rows| ==> TotalIsRunning(rows, i)
  }

  /** Row `i`'s Total is the sum of Thanhtien over rows 0..i. */
  ghost predicate TotalIsRunning(rows: seq<Row>, i: int)
    requires 0 <= i < |rows|
  {
    rows[i].total == Paid(rows[..i + 1])
  }

  /** Two rows agree on every column except Total. */
  predicate SameEntry(a: Row, b: Row) {
    a.stt == b.stt && a.time == b.time && a.mon == b.mon && a.thanhtien == b.thanhtien
  }

  /** The Total column the append writes back (pandas' cumsum of
      Thanhtien): each row's total is the previous row's total plus its own
      amount, starting from zero. */
  function Cumulate(rows: seq<Row>): (r: seq<Row>)
    ensures |r| == |rows|
    ensures forall i :: 0 <= i < |rows| ==> SameEntry(r[i], rows[i])
    ensures RunningTotals(r)
  {
    if |rows| == 0 then []
    else
      var n := |rows|;
      var p := Cumulate(rows[..n - 1]);
      var before := if n > 1 then p[n - 2].total else 0;
      var r := p + [rows[n - 1].(total := before + rows[n - 1].thanhtien)];
      assert forall i :: 0 <= i < n - 1 ==> r[i] == p[i];
      assert r[..n - 1] == p;
      forall i | 0 <= i < n
        ensures TotalIsRunning(r, i)
      {
        if i < n - 1 {
          assert r[..i + 1] == p[..i + 1];
          assert TotalIsRunning(p, i);
        } else {
          assert r[..i + 1] == r;
          if n > 1 {
            assert p[..n - 1] == p;
            assert TotalIsRunning(p, n - 2);
          }
        }
      }
      r
  }

  /** Appending a capture: one new row numbered one past the current row
      count, stamped with `time`, recording the first six items and the
      amount; every earlier row keeps its other columns, and the whole Total
      column is the running sum of Thanhtien. */
  function Append(l: Ledger, items: seq<string>, amount: int, time: string): (r: Ledger)
    ensures |r| == |l| + 1
    ensures forall i :: 0 <= i < |l| ==> SameEntry(r[i], l[i])
    ensures r[|l|].stt == |l| + 1 && r[|l|].time == time
    ensures r[|l|].mon == Slots(items) && r[|l|].thanhtien == amount
    ensures RunningTotals(r)
  {
    Cumulate(l + [Row(|l| + 1, time, Slots(items), amount, 0)])
  }

  /** A well-kept ledger: rows numbered 1, 2, 3, ... in order, six label
      columns each, and running totals. */
  ghost predicate Valid(l: Ledger) {
    && (forall i :: 0 <= i < |l| ==> l[i].stt == i + 1 && |l[i].mon| == SlotCount)
    && RunningTotals(l)
  }

  lemma AppendKeepsValid(l: Ledger, items: seq<string>, amount: int, time: string)
    requires Valid(l)
    ensures Valid(Append(l, items, amount, time))
  {
  }

  /** An append to a ledger file that has gone missing starts again from
      row 1, whose total is its own amount. */
  lemma AppendToMissingFile(items: seq<string>, amount: int, time: string)
    ensures var l := Append(Read(None), items, amount, time);
            |l| == 1 && l[0].stt == 1 && l[0].thanhtien == amount && l[0].total == amount
  {
    var l := Append(Read(None), items, amount, time);
    assert TotalIsRunning(l, 0);
    assert l[..1] == l;
  }

  /** One capture's contribution to the ledger. */
  datatype Sale = Sale(items: seq<string>, amount: int, time: string)

  /** The ledger after appending `sales` in order. */
  function AppendAll(l: Ledger, sales: seq<Sale>): (r: Ledger)
    ensures |r| == |l| + |sales|
  {
    if |sales| == 0 then l
    else
      var s := sales[|sales| - 1];
      Append(AppendAll(l, sales[..|sales| - 1]), s.items, s.amount, s.time)
  }

  /** Sum of the sales' amounts. */
  function Amounts(sales: seq<Sale>): int {
    if |sales| == 0 then 0 else Amounts(sales[..|sales| - 1]) + sales[|sales| - 1].amount
  }

  /** Appending keeps a ledger well kept, however many sales are appended. */
  lemma {:induction false} AppendAllKeepsValid(l: Ledger, sales: seq<Sale>)
    requires Valid(l)
    ensures Valid(AppendAll(l, sales))
    decreases |sales|
  {
    if |sales| > 0 {
      var s := sales[|sales| - 1];
      AppendAllKeepsValid(l, sales[..|sales| - 1]);
      AppendKeepsValid(AppendAll(l, sales[..|sales| - 1]), s.items, s.amount, s.time);
    }
  }

  /** Row `r` is the record of sale `s` as the k-th append (counting from
      1): numbered k, stamped with the sale's time, holding its first six
      items and its amount. */
  predicate Records(r: Row, k: int, s: Sale) {
    r.stt == k && r.time == s.time && r.mon == Slots(s.items) && r.thanhtien == s.amount
  }

  /** From the truncated ledger of a fresh start, the k-th sale (counting
      from 1) is recorded in row k. */
  lemma {:induction false} LedgerFromFreshStart(sales: seq<Sale>)
    ensures var l := AppendAll(Initialize(true, None), sales);
            forall k :: 0 <= k < |sales| ==> Records(l[k], k + 1, sales[k])
    decreases |sales|
  {
    if |sales| > 0 {
      var front, s := sales[..|sales| - 1], sales[|sales| - 1];
      LedgerFromFreshStart(front);
      var l0 := AppendAll([], front);
      var l := AppendAll([], sales);
      AppendAllLast([], sales);
      forall k | 0 <= k < |sales|
        ensures Records(l[k], k + 1, sales[k])
      {
        if k < |front| {
          assert SameEntry(l[k], l0[k]);
          assert sales[k] == front[k];
        }
      }
    }
  }

  /** The last of several appends adds its sale's record and keeps the
      earlier rows' entries. */
  lemma AppendAllLast(l: Ledger, sales: seq<Sale>)
    requires |sales| > 0
    ensures var r, r0 := AppendAll(l, sales), AppendAll(l, sales[..|sales| - 1]);
            && (forall k :: 0 <= k < |r0| ==> SameEntry(r[k], r0[k]))
            && Records(r[|r0|], |r0| + 1, sales[|sales| - 1])
  {
  }

  /** ... and row k's Total is the sum of the first k amounts. */
  lemma FreshTotalsAreAmounts(sales: seq<Sale>)
    ensures var l := AppendAll(Initialize(true, None), sales);
            forall k :: 0 <= k < |sales| ==> l[k].total == Amounts(sales[..k + 1])
  {
    forall k | 0 <= k < |sales|
      ensures AppendAll([], sales)[k].total == Amounts(sales[..k + 1])
    {
      FreshTotalAt(sales, k);
    }
  }

  lemma FreshTotalAt(sales: seq<Sale>, k: nat)
    requires k < |sales|
    ensures AppendAll([], sales)[k].total == Amounts(sales[..k + 1])
  {
    var l := AppendAll([], sales);
    LedgerFromFreshStart(sales);
    AppendAllKeepsValid([], sales);
    assert TotalIsRunning(l, k);
    var rows, done := l[..k + 1], sales[..k + 1];
    forall i | 0 <= i < |rows|
      ensures rows[i].thanhtien == done[i].amount
    {
      assert rows[i] == l[i] && done[i] == sales[i];
      assert Records(l[i], i + 1, sales[i]);
    }
    PaidIsAmounts(rows, done);
  }

  lemma {:induction false} PaidIsAmounts(rows: seq<Row>, sales: seq<Sale>)
    requires |rows| == |sales|
    requires forall i :: 0 <= i < |rows| ==> rows[i].thanhtien == sales[i].amount
    ensures Paid(rows) == Amounts(sales)
    decreases |rows|
  {
    if |rows| > 0 {
      PaidIsAmounts(rows[..|rows| - 1], sales[..|sales| - 1]);
    }
  }

  /** Three captures billed 10000, 0 and 5000 on a fresh ledger are rows
      1, 2, 3 with running totals 10000, 10000, 15000. */
  lemma ScenarioThreeCaptures(t1: string, t2: string, t3: string)
    ensures var l := AppendAll([], [Sale(["COM"], 10000, t1), Sale([], 0, t2), Sale(["CANHCAI"], 5000, t3)]);
            && |l| == 3
            && l[0].stt == 1 && l[1].stt == 2 && l[2].stt == 3
            && l[0].total == 10000 && l[1].total == 10000 && l[2].total == 15000
  {
    var sales := [Sale(["COM"], 10000, t1), Sale([], 0, t2), Sale(["CANHCAI"], 5000, t3)];
    FreshTotalsAreAmounts(sales);
    LedgerFromFreshStart(sales);
    AppendAllKeepsValid([], sales);
    var l := AppendAll([], sales);
    assert sales[..1][..0] == [];
    assert Amounts(sales[..1]) == 10000;
    assert sales[..2][..1] == sales[..1];
    assert Amounts(sales[..2]) == 10000;
    assert sales[..3][..2] == sales[..2];
    assert Amounts(sales[..3]) == 15000;
    assert l[0].total == 10000 && l[1].total == 10000 && l[2].total == 15000;
  }
}
