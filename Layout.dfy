/** A vertical layout of label/bar widgets, as the CPU and Memory tabs use
    one: a flat list of items in which item `2i` is the label and item
    `2i + 1` the progress bar of row `i`. The layout only ever grows. */
module Layout {
  import opened Basics
  import opened Display

  /** A label shows a resource name and, once written, the percentage it
      reports (`Label(n, None)` is the caption "n:" a fresh label starts
      with); a bar holds its integer value once one has been set. */
  datatype Widget = Label(name: string, shown: Option<real>) | Bar(value: Option<int>)

  /** The view of one label/bar pair. */
  datatype Row = Row(name: string, percent: Option<real>, bar: Option<int>)

  /** The row `update_resource` leaves for `value` under `name`: the label
      reports the value and the bar its truncation toward zero. */
  function Written(name: string, value: real): Row
  {
    Row(name, Some(value), Some(Truncate(value)))
  }

  /** Items alternate label, bar, label, bar, ..., ending on a bar. */
  ghost predicate Alternating(items: seq<Widget>)
  {
    |items| % 2 == 0 &&
    forall k :: 0 <= k < |items| ==> (items[k].Label? <==> k % 2 == 0)
  }

  ghost function RowsOf(items: seq<Widget>): (rows: seq<Row>)
    requires Alternating(items)
    ensures |rows| == |items| / 2
  {
    seq(|items| / 2, i requires 0 <= i < |items| / 2 =>
      Row(items[2 * i].name, items[2 * i].shown, items[2 * i + 1].value))
  }

  /** Row `i` carries the name of resource `i`. */
  ghost predicate Named(rows: seq<Row>, prefix: string)
  {
    forall i :: 0 <= i < |rows| ==> rows[i].name == ResourceName(prefix, i)
  }

  /** Every row has been written by `update_resource`: its bar holds the
      truncation of the percentage its label reports. */
  ghost predicate AllWritten(rows: seq<Row>)
  {
    forall i :: 0 <= i < |rows| ==>
      rows[i].percent.Some? && rows[i].bar == Some(Truncate(rows[i].percent.value))
  }

  lemma RowsOfAppendPair(items: seq<Widget>, name: string)
    requires Alternating(items)
    ensures Alternating(items + [Label(name, None), Bar(None)])
    ensures RowsOf(items + [Label(name, None), Bar(None)])
            == RowsOf(items) + [Row(name, None, None)]
  {
    var longer := items + [Label(name, None), Bar(None)];
    assert forall k :: 0 <= k < |items| ==> longer[k] == items[k];
    assert RowsOf(longer)[|items| / 2] == Row(name, None, None);
  }

  lemma RowsOfWrite(items: seq<Widget>, i: nat, name: string, value: real)
    requires Alternating(items) && i < |items| / 2
    ensures var after := items[2 * i + 1 := Bar(Some(Truncate(value)))]
                              [2 * i := Label(name, Some(value))];
            Alternating(after) && RowsOf(after) == RowsOf(items)[i := Written(name, value)]
  {
    var after := items[2 * i + 1 := Bar(Some(Truncate(value)))]
                      [2 * i := Label(name, Some(value))];
    forall j | 0 <= j < |items| / 2 && j != i
      ensures after[2 * j] == items[2 * j] && after[2 * j + 1] == items[2 * j + 1]
    {
    }
  }

  /** One pass of the reconciling loop at index `i`: a new row is appended
      when `i` is past the last existing row, otherwise row `i` is
      rewritten in place. Either way the written row is the only change. */
  function Step(rows: seq<Row>, name: string, i: nat, value: real): (r: seq<Row>)
    ensures |r| == if i < |rows| then |rows| else |rows| + 1
    ensures r[Min(i, |rows|)] == Written(name, value)
    ensures forall j :: 0 <= j < |rows| && j != i ==> r[j] == rows[j]
  {
    if i >= |rows| then rows + [Written(name, value)] else rows[i := Written(name, value)]
  }

  /** Appending a row past the end and writing it in place give the same
      row `i`; a step at most one past the last row keeps every row named
      for its index. */
  lemma StepShape(rows: seq<Row>, prefix: string, i: nat, value: real)
    requires i <= |rows|
    ensures var name := ResourceName(prefix, i);
            i == |rows| ==>
              (rows + [Row(name, None, None)])[i := Written(name, value)]
                == Step(rows, name, i, value)
    ensures var name := ResourceName(prefix, i);
            i < |rows| ==> rows[i := Written(name, value)] == Step(rows, name, i, value)
    ensures |Step(rows, ResourceName(prefix, i), i, value)| == Max(|rows|, i + 1)
    ensures Named(rows, prefix) ==> Named(Step(rows, ResourceName(prefix, i), i, value), prefix)
  {
  }

  /** The rows after the loop has run over every index of `values`, in
      order, starting from `rows`. */
  function Reconciled(rows: seq<Row>, prefix: string, values: seq<real>): seq<Row>
    decreases |values|
  {
    if values == [] then rows
    else
      var n := |values| - 1;
      Step(Reconciled(rows, prefix, values[..n]), ResourceName(prefix, n), n, values[n])
  }

  /** One more pass of the loop extends the reconciled prefix by one value. */
  lemma ReconciledNext(rows: seq<Row>, prefix: string, values: seq<real>, i: nat)
    requires i < |values|
    ensures Reconciled(rows, prefix, values[..i + 1])
            == Step(Reconciled(rows, prefix, values[..i]), ResourceName(prefix, i), i, values[i])
  {
    assert values[..i + 1][..i] == values[..i];
  }

  /** After reconciling `n` values the table has `max(old, n)` rows; row `i`
      for `i < n` shows the `i`-th value under resource name `i`, and every
      row at or past `n` is exactly as it was. */
  lemma {:induction false} ReconciledShape(rows: seq<Row>, prefix: string, values: seq<real>)
    ensures |Reconciled(rows, prefix, values)| == Max(|rows|, |values|)
    ensures forall i :: 0 <= i < |values| ==>
              Reconciled(rows, prefix, values)[i] == Written(ResourceName(prefix, i), values[i])
    ensures forall i :: |values| <= i < |rows| ==> Reconciled(rows, prefix, values)[i] == rows[i]
    decreases |values|
  {
    if values != [] {
      var n := |values| - 1;
      var init := values[..n];
      ReconciledShape(rows, prefix, init);
      assert forall i :: 0 <= i < n ==> init[i] == values[i];
    }
  }

  /** Rows never shrink, and a row keeps its position. */
  lemma ReconciledGrows(rows: seq<Row>, prefix: string, values: seq<real>)
    ensures |rows| <= |Reconciled(rows, prefix, values)|
    ensures |values| <= |Reconciled(rows, prefix, values)|
    ensures Named(rows, prefix) ==> Named(Reconciled(rows, prefix, values), prefix)
    ensures AllWritten(rows) ==> AllWritten(Reconciled(rows, prefix, values))
  {
    ReconciledShape(rows, prefix, values);
  }

  /** Reconciling the same values a second time changes nothing. */
  lemma ReconciledIdempotent(rows: seq<Row>, prefix: string, values: seq<real>)
    ensures Reconciled(Reconciled(rows, prefix, values), prefix, values)
            == Reconciled(rows, prefix, values)
  {
    var once := Reconciled(rows, prefix, values);
    ReconciledShape(rows, prefix, values);
    ReconciledShape(once, prefix, values);
  }

  /** The rows after one tick per element of `ticks`, each tick reconciling
      that tick's values. */
  function AfterTicks(rows: seq<Row>, prefix: string, ticks: seq<seq<real>>): seq<Row>
    decreases |ticks|
  {
    if ticks == [] then rows
    else Reconciled(AfterTicks(rows, prefix, ticks[..|ticks| - 1]), prefix, ticks[|ticks| - 1])
  }

  /** The largest number of values any tick delivered. */
  function LongestTick(ticks: seq<seq<real>>): nat
    decreases |ticks|
  {
    if ticks == [] then 0
    else Max(LongestTick(ticks[..|ticks| - 1]), |ticks[|ticks| - 1]|)
  }

  /** Across any run of ticks the table holds as many rows as the start or
      the longest tick, whichever is more: rows are made on demand and are
      never removed. */
  lemma {:induction false} AfterTicksRowCount(rows: seq<Row>, prefix: string, ticks: seq<seq<real>>)
    ensures |AfterTicks(rows, prefix, ticks)| == Max(|rows|, LongestTick(ticks))
    decreases |ticks|
  {
    if ticks != [] {
      var init := ticks[..|ticks| - 1];
      AfterTicksRowCount(rows, prefix, init);
      ReconciledShape(AfterTicks(rows, prefix, init), prefix, ticks[|ticks| - 1]);
    }
  }

  /** The layout itself: `count()`, `addWidget()`, and the in-place writes
      `update_resource` makes to the label and bar of one row. */
  class RowLayout {
    var items: seq<Widget>

    constructor ()
      ensures items == []
    {
      items := [];
    }

    /** Qt's `count()`: the number of widgets in the layout. */
    function Count(): nat
      reads this
    {
      |items|
    }

    ghost predicate WellFormed()
      reads this
    {
      Alternating(items)
    }

    /** The layout holds label/bar pairs, and pair `i` is named for index `i`. */
    ghost predicate Paired(prefix: string)
      reads this
    {
      WellFormed() && Named(Rows(), prefix)
    }

    ghost function Rows(): (rows: seq<Row>)
      reads this
      requires WellFormed()
      ensures |rows| == Count() / 2
    {
      RowsOf(items)
    }

    /** Qt's `addWidget()`: the widget goes at the end. */
    method AddWidget(w: Widget)
      modifies this
      ensures items == old(items) + [w]
    {
      items := items + [w];
    }

    /** `update_resource(label, bar, value, name)` on the pair of row `i`:
        the bar is set to `int(value)`, the label to the name and value. The
        value is a percentage, so the bar, whose range is 0..100, takes it. */
    method UpdateResource(i: nat, value: real, name: string)
      requires WellFormed() && i < Count() / 2
      requires IsPercent(value)
      modifies this
      ensures WellFormed() && Count() == old(Count())
      ensures items == old(items)[2 * i + 1 := Bar(Some(Truncate(value)))]
                                 [2 * i := Label(name, Some(value))]
      ensures Rows() == old(Rows())[i := Written(name, value)]
    {
      RowsOfWrite(items, i, name, value);
      items := items[2 * i + 1 := Bar(Some(Truncate(value)))];
      items := items[2 * i := Label(name, Some(value))];
    }
  }
}
