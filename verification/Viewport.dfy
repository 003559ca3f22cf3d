/**
 The results grid: a window over the store that is sized before each frame and moved by the
 frame before it. Scroll positions are reals; heights and positions are not rounded here.
 */
module Viewport {
  import opened Prelude
  import opened Values
  import opened Store

  datatype Range = Range(start: nat, end: nat)

  predicate InRange(r: Range, idx: nat) {
    r.start <= idx < r.end
  }

  datatype Snapshot = Snapshot(rows: seq<Row>, total: nat, offset: nat)

  function FloorNat(x: real): nat {
    if x <= 0.0 then 0 else x.Floor
  }

  function CeilNat(x: real): nat {
    if x <= 0.0 then 0 else if x.Floor as real == x then x.Floor else x.Floor + 1
  }

  /** The offset a snapshot of `len` rows starts at in a store of `total` rows. */
  function ClampedOffset(offset: nat, len: nat, total: nat): (r: nat)
    ensures r <= offset && r + len <= (if total <= len then len else total)
  {
    if total == 0 || len >= total then 0 else Min(offset, total - len)
  }

  /** What a grid shows at store position `idx`, or None for the placeholder. */
  function Drawn(snap: Snapshot, idx: nat): Option<Row> {
    if idx < snap.offset || idx - snap.offset >= |snap.rows| then None else Some(snap.rows[idx - snap.offset])
  }

  function SnapshotOf(rows: seq<Row>, offset: nat, len: nat): Snapshot {
    var at := ClampedOffset(offset, len, |rows|);
    Snapshot(Slice(rows, at, len), |rows|, at)
  }

  class ViewportState {
    var offset: nat
    var len: nat
    const overscan: nat
    const rowHeight: real

    constructor ()
      ensures offset == 0 && len == 25 && overscan == 10 && rowHeight == 22.0
    {
      offset, len, overscan, rowHeight := 0, 25, 10, 22.0;
    }

    /** Rows in view and `overscan` more on each side; not clamped to the store. */
    function VisibleRange(scrollY: real, viewportH: real): (r: Range)
      requires scrollY >= 0.0 && viewportH >= 0.0
      ensures r.start <= r.end
    {
      if rowHeight <= 0.0 then Range(0, overscan)
      else
        var first, visible := FloorNat(scrollY / rowHeight), CeilNat(viewportH / rowHeight);
        Range(SaturatingSub(first, overscan), first + visible + overscan)
    }

    function FetchRange(scrollY: real, viewportH: real, total: nat): (r: Range)
      requires scrollY >= 0.0 && viewportH >= 0.0
      ensures r.start <= r.end <= total
      ensures forall idx: nat :: idx < total ==>
        (InRange(r, idx) <==> InRange(VisibleRange(scrollY, viewportH), idx))
    {
      var v := VisibleRange(scrollY, viewportH);
      var end := Min(v.end, total);
      Range(Min(v.start, end), end)
    }

    /**
     Every row that has a pixel in view is in the range, because of the overscan: the count of
     rows in view is rounded up, but not for the part of a row scrolled off above.
     */
    lemma RowsInViewAreInRange(scrollY: real, viewportH: real, idx: nat)
      requires scrollY >= 0.0 && viewportH >= 0.0 && rowHeight > 0.0 && overscan > 0
      requires idx as real * rowHeight < scrollY + viewportH && scrollY < (idx + 1) as real * rowHeight
      ensures InRange(VisibleRange(scrollY, viewportH), idx)
    {
      var q, p := scrollY / rowHeight, viewportH / rowHeight;
      assert q >= 0.0 && p >= 0.0;
      Divided(scrollY + viewportH, idx as real, rowHeight);
      Divided(scrollY, (idx + 1) as real, rowHeight);
      assert (scrollY + viewportH) / rowHeight == q + p;
      FloorBounds(q);
      CeilBound(p);
    }

    /**
     The range reaches one overscan beyond the view and no further: a row of it that is moved by
     the overscan towards the view has a pixel in it, and a row that then lies in it is of the range.
     */
    lemma RangeIsNear(scrollY: real, viewportH: real, idx: nat)
      requires scrollY >= 0.0 && viewportH >= 0.0 && rowHeight > 0.0
      ensures
        var near, r := overscan as real, VisibleRange(scrollY, viewportH);
        var first, last := idx as real - near, idx as real + near;
        && (InRange(r, idx) ==>
              Before(scrollY, last + 1.0, rowHeight) && After(scrollY + viewportH, first, rowHeight))
        && (Before(scrollY, last + 1.0, rowHeight) && !Before(scrollY + viewportH, first + 1.0, rowHeight) ==>
              InRange(r, idx))
    {
      hide Before, After, InRange;
      var q, p, near := scrollY / rowHeight, viewportH / rowHeight, overscan as real;
      NonNegative(scrollY, rowHeight);
      NonNegative(viewportH, rowHeight);
      Compared(scrollY, idx as real + near + 1.0, rowHeight);
      Compared(scrollY + viewportH, idx as real - near, rowHeight);
      Compared(scrollY + viewportH, idx as real - near + 1.0, rowHeight);
      QuotientOfSum(scrollY, viewportH, rowHeight);
      FloorBounds(q);
      CeilBounds(p);
      Near(q, p, FloorNat(q), CeilNat(p), overscan, idx);
    }

    method TakeSnapshot(store: ResultStore) returns (snap: Snapshot)
      requires store.Valid()
      ensures snap == SnapshotOf(store.rows, offset, len)
    {
      var at := ClampedOffset(offset, len, |store.rows|);
      var rows := store.SnapshotRange(at, len);
      snap := Snapshot(rows, |store.rows|, at);
    }

    method SetOffsetFromScroll(scrollY: real)
      requires scrollY >= 0.0
      modifies this`offset
      ensures rowHeight <= 0.0 ==> offset == 0
      ensures rowHeight > 0.0 ==> offset as real * rowHeight <= scrollY < (offset + 1) as real * rowHeight
    {
      offset := if rowHeight <= 0.0 then 0 else FloorNat(scrollY / rowHeight);
      if rowHeight > 0.0 {
        QuotientBounds(scrollY, rowHeight);
      }
    }

    /** The body of the grid: the rows of `range`, and where the next snapshot starts. */
    method ShowResults(snap: Snapshot, range: Range) returns (drawn: seq<Option<Row>>)
      modifies this`offset
      ensures |drawn| == SaturatingSub(Min(range.end, snap.total), range.start)
      ensures forall k :: 0 <= k < |drawn| ==> drawn[k] == Drawn(snap, range.start + k)
      ensures offset == SaturatingSub(range.start, overscan)
    {
      var end := Min(range.end, snap.total);
      drawn := [];
      var idx := range.start;
      while idx < end
        invariant range.start <= idx
        invariant |drawn| == idx - range.start && (idx <= end || idx == range.start)
        invariant forall k :: 0 <= k < |drawn| ==> drawn[k] == Drawn(snap, range.start + k)
      {
        var row :=
          if snap.offset <= idx && idx - snap.offset < |snap.rows| then Some(snap.rows[idx - snap.offset]) else None;
        drawn := drawn + [row];
        idx := idx + 1;
      }
      offset := SaturatingSub(range.start, overscan);
    }

    /** One frame: size the window, take a snapshot, draw what is scrolled to. */
    method Frame(store: ResultStore, visible: nat, range: Range) returns (drawn: seq<Option<Row>>)
      requires store.Valid()
      modifies this`offset, this`len
      ensures len == visible + 2 * overscan && offset == SaturatingSub(range.start, overscan)
      ensures
        var snap := SnapshotOf(store.rows, old(offset), visible + 2 * overscan);
        && |drawn| == SaturatingSub(Min(range.end, |store.rows|), range.start)
        && forall k :: 0 <= k < |drawn| ==> drawn[k] == Drawn(snap, range.start + k)
    {
      len := visible + 2 * overscan;
      var snap := TakeSnapshot(store);
      drawn := ShowResults(snap, range);
    }

    /**
     At rest: the frame after one that drew from the same scroll position draws every row of a
     range no longer than the view and one overscan, and draws the stored row at each place,
     however many rows the store has by then.
     */
    method SecondFrame(store: ResultStore, visible: nat, range: Range) returns (drawn: seq<Option<Row>>)
      requires store.Valid()
      requires offset == SaturatingSub(range.start, overscan)
      requires range.start <= range.end <= range.start + visible + overscan
      modifies this`offset, this`len
      ensures |drawn| == SaturatingSub(Min(range.end, |store.rows|), range.start)
      ensures forall k :: 0 <= k < |drawn| ==> drawn[k] == Some(store.rows[range.start + k])
      ensures offset == old(offset)
    {
      ghost var o := offset;
      drawn := Frame(store, visible, range);
      forall k | 0 <= k < |drawn| ensures drawn[k] == Some(store.rows[range.start + k]) {
        AtRestIff(store.rows, visible, overscan, range.start, range.start + k);
      }
    }
  }

  lemma QuotientBounds(y: real, h: real)
    requires y >= 0.0 && h > 0.0
    ensures FloorNat(y / h) as real * h <= y < (FloorNat(y / h) + 1) as real * h
  {
    var q := y / h;
    DivideBack(y, h);
    assert q >= 0.0;
    FloorBounds(q);
    TimesLess(FloorNat(q) as real, q, (FloorNat(q) + 1) as real, h, y);
  }

  lemma Divided(y: real, a: real, h: real)
    requires h > 0.0
    ensures y < a * h ==> y / h < a
    ensures a * h < y ==> a < y / h
  {
    DivideBack(y, h);
    if y / h >= a { TimesOrder(a, y / h, h); }
    if y / h <= a { TimesOrder(y / h, a, h); }
  }

  lemma TimesOrder(a: real, b: real, h: real)
    requires h > 0.0 && a <= b
    ensures a * h <= b * h
  {
    assert b * h == a * h + (b - a) * h;
  }

  lemma CeilBound(p: real)
    requires p >= 0.0
    ensures p <= CeilNat(p) as real
  {
  }

  /** A place before the end of so many rows. */
  predicate Before(y: real, rows: real, h: real) { y < rows * h }

  predicate After(y: real, rows: real, h: real) { rows * h < y }

  lemma CeilBounds(p: real)
    requires p >= 0.0
    ensures p <= CeilNat(p) as real < p + 1.0
  {
  }

  lemma Compared(y: real, a: real, h: real)
    requires h > 0.0
    ensures Before(y, a, h) <==> y / h < a
    ensures After(y, a, h) <==> a < y / h
  {
    DivideBack(y, h);
    if y / h <= a { TimesOrder(y / h, a, h); }
    if a <= y / h { TimesOrder(a, y / h, h); }
    if y / h < a { PositiveTimes(a - y / h, h); assert a * h == y + (a - y / h) * h; }
    if a < y / h { PositiveTimes(y / h - a, h); assert y == a * h + (y / h - a) * h; }
  }

  lemma NonNegative(y: real, h: real)
    requires y >= 0.0 && h > 0.0
    ensures y / h >= 0.0
  {
  }

  lemma QuotientOfSum(y: real, z: real, h: real)
    requires h > 0.0
    ensures (y + z) / h == y / h + z / h
  {
  }

  /** The same, measured in rows. */
  lemma Near(q: real, p: real, first: nat, visible: nat, overscan: nat, idx: nat)
    requires first as real <= q < (first + 1) as real && p <= visible as real < p + 1.0
    ensures
      var r, i, near :=
        Range(SaturatingSub(first, overscan), first + visible + overscan), idx as real, overscan as real;
      && (InRange(r, idx) ==> q < i + near + 1.0 && i - near < q + p)
      && (q < i + near + 1.0 && i - near + 1.0 <= q + p ==> InRange(r, idx))
  {
  }

  lemma FloorBounds(q: real)
    requires q >= 0.0
    ensures FloorNat(q) as real <= q < (FloorNat(q) + 1) as real
  {
  }

  lemma TimesLess(a: real, q: real, b: real, h: real, y: real)
    requires h > 0.0 && a <= q < b && q * h == y
    ensures a * h <= y < b * h
  {
    PositiveTimes(b - q, h);
    assert b * h == q * h + (b - q) * h;
  }

  lemma PositiveTimes(d: real, h: real)
    requires d > 0.0 && h > 0.0
    ensures d * h > 0.0
  {
  }

  lemma DivideBack(y: real, h: real)
    requires h != 0.0
    ensures (y / h) * h == y
  {
  }

  /**
   With the window where the frame before left it, position `idx` is drawn from the store exactly
   when it is inside the window or the window reaches the end of the store; else it is the
   placeholder. In particular every row is drawn that is at most one overscan below the view.
   */
  lemma AtRestIff(rows: seq<Row>, visible: nat, overscan: nat, start: nat, idx: nat)
    requires start <= idx < |rows|
    ensures
      var reach := SaturatingSub(start, overscan) + visible + 2 * overscan;
      Drawn(SnapshotOf(rows, SaturatingSub(start, overscan), visible + 2 * overscan), idx) ==
        if idx < reach || |rows| <= reach then Some(rows[idx]) else None
    ensures idx < start + visible + overscan ==>
      Drawn(SnapshotOf(rows, SaturatingSub(start, overscan), visible + 2 * overscan), idx) == Some(rows[idx])
  {
  }
}
