/**
 The result store: a row and a byte budget, the oldest rows evicted first, and row indexes that
 eviction never changes. Whatever way a result is cut into batches, the store holds the longest
 end of it that fits both budgets.
 */
module Store {
  import opened Prelude
  import opened Values

  datatype StoreState = Streaming | Completed(total: nat) | Failed | Cancelled(received: nat)

  datatype StoreConfig = StoreConfig(rowBudget: nat, byteBudget: nat)

  type Cells = seq<CellValue>

  // ---- what the store is meant to hold ----------------------------------------------------

  function RowsBytes(rows: seq<Row>): nat {
    if rows == [] then 0 else RowBytes(rows[0]) + RowsBytes(rows[1..])
  }

  lemma {:induction false} RowsBytesAppend(a: seq<Row>, b: seq<Row>)
    ensures RowsBytes(a + b) == RowsBytes(a) + RowsBytes(b)
  {
    if a == [] {
      assert a + b == b;
    } else {
      assert (a + b)[0] == a[0] && (a + b)[1..] == a[1..] + b;
      RowsBytesAppend(a[1..], b);
    }
  }

  function OctetsIn(rows: seq<Row>): nat {
    if rows == [] then 0 else Octets(rows[0].cells) + OctetsIn(rows[1..])
  }

  function ScalarsIn(rows: seq<Row>): nat {
    if rows == [] then 0 else Scalars(rows[0].cells) + ScalarsIn(rows[1..])
  }

  /** What rows count as, from what they bring along. */
  lemma {:induction false} RowsBytesAre(rows: seq<Row>)
    ensures RowsBytes(rows) == OctetsIn(rows) + 8 * ScalarsIn(rows) + 32 * |rows|
  {
    hide RowBytes, Octets, Scalars;
    if rows != [] {
      RowsBytesAre(rows[1..]);
      RowBytesAre(rows[0]);
    }
  }

  predicate Fits(rows: seq<Row>, config: StoreConfig) {
    |rows| <= config.rowBudget && RowsBytes(rows) <= config.byteBudget
  }

  /** A whole result with every row numbered in the order it came. */
  function Numbered(pushed: seq<Cells>): (rows: seq<Row>)
    ensures |rows| == |pushed|
    ensures forall i :: 0 <= i < |pushed| ==> rows[i] == Row(Some(i), pushed[i])
  {
    seq(|pushed|, i requires 0 <= i < |pushed| => Row(Some(i), pushed[i]))
  }

  /** Where the longest end of `rows` that fits begins, looking from `i` on. */
  function Cut(rows: seq<Row>, config: StoreConfig, i: nat): (k: nat)
    requires i <= |rows|
    ensures i <= k <= |rows| && Fits(rows[k..], config)
    ensures forall j :: i <= j < k ==> !Fits(rows[j..], config)
    decreases |rows| - i
  {
    if i == |rows| || Fits(rows[i..], config) then i else Cut(rows, config, i + 1)
  }

  /** The longest end of the whole result that fits. */
  function Kept(pushed: seq<Cells>, config: StoreConfig): (rows: seq<Row>)
    ensures |rows| <= |pushed|
  {
    Numbered(pushed)[Cut(Numbered(pushed), config, 0)..]
  }

  lemma ShorterFits(rows: seq<Row>, more: seq<Row>, config: StoreConfig)
    requires Fits(rows + more, config)
    ensures Fits(rows, config) && Fits(more, config)
  {
    RowsBytesAppend(rows, more);
  }

  /** No more rows than the budget has, and no more octets, counted with eight for other values and 32 for a row. */
  predicate WithinBudgets(rows: seq<Row>, config: StoreConfig) {
    && |rows| <= config.rowBudget
    && OctetsIn(rows) + 8 * ScalarsIn(rows) + 32 * |rows| <= config.byteBudget
  }

  /** `Kept` is the one end of the result within both budgets whose next longer end is not. */
  lemma KeptIsLongest(pushed: seq<Cells>, config: StoreConfig, k: nat)
    requires k <= |pushed|
    ensures Numbered(pushed)[k..] == Kept(pushed, config) <==>
      WithinBudgets(Numbered(pushed)[k..], config) && (k > 0 ==> !WithinBudgets(Numbered(pushed)[k - 1..], config))
  {
    var rows := Numbered(pushed);
    RowsBytesAre(rows[k..]);
    if k > 0 { RowsBytesAre(rows[k - 1..]); }
    hide RowsBytes, OctetsIn, ScalarsIn;
    var c := Cut(rows, config, 0);
    if c < k {
      assert rows[c..] == rows[c..k - 1] + rows[k - 1..];
      ShorterFits(rows[c..k - 1], rows[k - 1..], config);
      assert |rows[k..]| != |rows[c..]|;
    } else if k < c {
      assert !Fits(rows[k..], config);
      assert |rows[k..]| != |rows[c..]|;
    }
  }

  /** Row `j` of the store carries its place in the whole result. */
  lemma KeptIndexes(pushed: seq<Cells>, config: StoreConfig, j: nat)
    requires j < |Kept(pushed, config)|
    ensures
      var rows := Kept(pushed, config);
      var i := |pushed| - |rows| + j;
      rows[j] == Row(Some(i), pushed[i])
  {
  }

  // ---- what a push does -------------------------------------------------------------------

  /** Evict from the front until the rest fits. */
  function Trim(rows: seq<Row>, config: StoreConfig): seq<Row> {
    rows[Cut(rows, config, 0)..]
  }

  lemma NumberedAppend(pushed: seq<Cells>, cells: Cells)
    ensures Numbered(pushed + [cells]) == Numbered(pushed) + [Row(Some(|pushed|), cells)]
  {
  }

  /** What was evicted before cannot be wanted again. */
  lemma {:induction false} CutAhead(rows: seq<Row>, config: StoreConfig, i: nat, c: nat)
    requires i <= c <= |rows|
    requires forall j :: i <= j < c ==> !Fits(rows[j..], config)
    ensures Cut(rows, config, i) == Cut(rows, config, c)
    decreases c - i
  {
    if i < c {
      CutAhead(rows, config, i + 1, c);
    }
  }

  lemma {:induction false} CutOfEnd(rows: seq<Row>, config: StoreConfig, c: nat, i: nat)
    requires c <= i <= |rows|
    ensures Cut(rows, config, i) == c + Cut(rows[c..], config, i - c)
    decreases |rows| - i
  {
    assert rows[c..][i - c..] == rows[i..];
    if !(i == |rows| || Fits(rows[i..], config)) {
      CutOfEnd(rows, config, c, i + 1);
    }
  }

  lemma LongerMisfits(rows: seq<Row>, last: seq<Row>, config: StoreConfig, j: nat)
    requires j <= |rows| && !Fits(rows[j..], config)
    ensures !Fits((rows + last)[j..], config)
  {
    hide Fits;
    assert (rows + last)[j..] == rows[j..] + last;
    if Fits(rows[j..] + last, config) {
      ShorterFits(rows[j..], last, config);
    }
  }

  /** Pushing one row onto what was kept and trimming keeps the longest end of the longer result. */
  lemma PushKeeps(pushed: seq<Cells>, config: StoreConfig, cells: Cells)
    ensures Kept(pushed + [cells], config) == Trim(Kept(pushed, config) + [Row(Some(|pushed|), cells)], config)
  {
    hide Fits, RowsBytes, Cut;
    var rows, last := Numbered(pushed), [Row(Some(|pushed|), cells)];
    var c := Cut(rows, config, 0);
    NumberedAppend(pushed, cells);
    forall j | 0 <= j < c ensures !Fits((rows + last)[j..], config) {
      LongerMisfits(rows, last, config, j);
    }
    CutAhead(rows + last, config, 0, c);
    CutOfEnd(rows + last, config, c, c);
    assert (rows + last)[c..] == rows[c..] + last;
  }

  lemma {:induction false} CutStep(rows: seq<Row>, config: StoreConfig)
    requires !Fits(rows, config)
    ensures |rows| > 0 && Trim(rows, config) == Trim(rows[1..], config)
  {
    assert rows[0..] == rows;
    CutOfEnd(rows, config, 1, 1);
    assert rows[1..][Cut(rows[1..], config, 0)..] == rows[Cut(rows, config, 0)..];
  }

  function CellsOf(batch: seq<Row>): (cells: seq<Cells>)
    ensures |cells| == |batch| && forall i :: 0 <= i < |batch| ==> cells[i] == batch[i].cells
  {
    seq(|batch|, i requires 0 <= i < |batch| => batch[i].cells)
  }

  /** `rows[offset..offset + len]`, cut at the end. */
  function Slice(rows: seq<Row>, offset: nat, len: nat): (s: seq<Row>)
    ensures |s| == (if offset >= |rows| then 0 else if offset + len < |rows| then len else |rows| - offset)
    ensures forall j :: 0 <= j < |s| ==> s[j] == rows[offset + j]
  {
    var end := if offset + len < |rows| then offset + len else |rows|;
    if offset >= end then [] else rows[offset..end]
  }

  // ---- the store --------------------------------------------------------------------------

  class ResultStore {
    var rows: seq<Row>
    var byteUsed: nat
    var totalPushed: nat
    var state: StoreState
    var columns: seq<string>
    const config: StoreConfig
    /** Every row pushed since the last `Clear`. */
    ghost var pushed: seq<Cells>

    ghost predicate Valid()
      reads this
    {
      && totalPushed == |pushed|
      && rows == Kept(pushed, config)
      && byteUsed == RowsBytes(rows)
    }

    constructor (config: StoreConfig)
      ensures Valid() && pushed == [] && state == Streaming && columns == [] && this.config == config
    {
      this.config := config;
      rows, byteUsed, totalPushed, state, columns := [], 0, 0, Streaming, [];
      pushed := [];
    }

    /** Every row is numbered and appended; whenever a budget is exceeded the oldest rows go. */
    method PushBatch(batch: seq<Row>)
      requires Valid()
      modifies this
      ensures Valid() && pushed == old(pushed) + CellsOf(batch)
      ensures state == old(state) && columns == old(columns)
    {
      for i := 0 to |batch|
        invariant Valid() && pushed == old(pushed) + CellsOf(batch)[..i]
        invariant state == old(state) && columns == old(columns)
      {
        PushRow(batch[i]);
      }
      assert CellsOf(batch)[..|batch|] == CellsOf(batch);
    }

    /** The body of the batch loop. */
    method PushRow(pushedRow: Row)
      requires Valid()
      modifies this`rows, this`byteUsed, this`totalPushed, this`pushed
      ensures Valid() && pushed == old(pushed) + [pushedRow.cells]
    {
      hide Kept, CellsBytes;
      var row := pushedRow.(index := Some(totalPushed));
      PushKeeps(pushed, config, row.cells);
      RowsBytesAppend(rows, [row]);
      assert RowsBytes([row]) == RowBytes(row);
      pushed := pushed + [row.cells];
      totalPushed := totalPushed + 1;
      byteUsed := byteUsed + RowBytes(row);
      rows := rows + [row];
      EvictOldest();
    }

    /** The eviction loop. The subtraction saturates at zero in the source, and never needs to. */
    method EvictOldest()
      requires byteUsed == RowsBytes(rows)
      modifies this`rows, this`byteUsed
      ensures rows == Trim(old(rows), config) && byteUsed == RowsBytes(rows)
    {
      while |rows| > config.rowBudget || byteUsed > config.byteBudget
        invariant byteUsed == RowsBytes(rows)
        invariant Trim(rows, config) == Trim(old(rows), config)
        decreases |rows|
      {
        CutStep(rows, config);
        var front := rows[0];
        rows := rows[1..];
        byteUsed := SaturatingSub(byteUsed, RowBytes(front));
      }
      assert rows[0..] == rows;
    }

    method SetComplete()
      requires Valid()
      modifies this`state
      ensures Valid() && state == Completed(|pushed|)
    {
      state := Completed(totalPushed);
    }

    method Cancel()
      requires Valid()
      modifies this`state
      ensures Valid() && state == Cancelled(|pushed|)
    {
      state := Cancelled(totalPushed);
    }

    method Fail()
      requires Valid()
      modifies this`state
      ensures Valid() && state == Failed
    {
      state := Failed;
    }

    method SetColumns(names: seq<string>)
      requires Valid()
      modifies this`columns
      ensures Valid() && columns == names
    {
      columns := names;
    }

    method Clear()
      modifies this
      ensures Valid() && pushed == [] && rows == [] && state == Streaming && columns == []
    {
      rows, columns, byteUsed, totalPushed, state := [], [], 0, 0, Streaming;
      pushed := [];
    }

    /** A window of the kept rows; each carries its place in the whole result. */
    method SnapshotRange(offset: nat, len: nat) returns (s: seq<Row>)
      requires Valid()
      ensures s == Slice(rows, offset, len)
      ensures forall j :: 0 <= j < |s| ==>
        var i := totalPushed - |rows| + offset + j;
        i < |pushed| && s[j] == Row(Some(i), pushed[i])
    {
      forall j | 0 <= j < |rows|
        ensures rows[j] == Row(Some(totalPushed - |rows| + j), pushed[totalPushed - |rows| + j])
      {
        KeptIndexes(pushed, config, j);
      }
      var end := if offset + len < |rows| then offset + len else |rows|;
      if offset >= end {
        return [];
      }
      return rows[offset..end];
    }
  }

  lemma CellsOfAppend(a: seq<Row>, b: seq<Row>)
    ensures CellsOf(a + b) == CellsOf(a) + CellsOf(b)
  {
  }

  lemma NoBatchYet(pushed: seq<Cells>)
    ensures pushed + CellsOf(Flatten([])) == pushed
  {
  }

  lemma BatchStep(pushed: seq<Cells>, batches: seq<seq<Row>>, i: nat)
    requires i < |batches|
    ensures pushed + CellsOf(Flatten(batches[..i])) + CellsOf(batches[i]) == pushed + CellsOf(Flatten(batches[..i + 1]))
  {
    assert batches[..i + 1] == batches[..i] + [batches[i]];
    FlattenAppend(batches[..i], [batches[i]]);
    assert Flatten([batches[i]]) == batches[i] + [];
    CellsOfAppend(Flatten(batches[..i]), batches[i]);
  }

  /** However a result is cut into batches, the store ends up the same. */
  method PushAll(store: ResultStore, batches: seq<seq<Row>>)
    requires store.Valid()
    modifies store
    ensures store.Valid() && store.pushed == old(store.pushed) + CellsOf(Flatten(batches))
    ensures store.rows == Kept(old(store.pushed) + CellsOf(Flatten(batches)), store.config)
    ensures store.byteUsed == RowsBytes(store.rows)
    ensures store.totalPushed == old(store.totalPushed) + |Flatten(batches)|
    ensures store.state == old(store.state) && store.columns == old(store.columns)
  {
    hide Kept, RowsBytes, CellsOf, Flatten;
    NoBatchYet(store.pushed);
    for i := 0 to |batches|
      invariant store.Valid() && store.pushed == old(store.pushed) + CellsOf(Flatten(batches[..i]))
      invariant store.state == old(store.state) && store.columns == old(store.columns)
    {
      store.PushBatch(batches[i]);
      BatchStep(old(store.pushed), batches, i);
    }
    assert batches[..|batches|] == batches;
  }
}
