/**
 * `bargraph`: renders an ordered label -> count mapping as one text line
 * per entry, `label [ count ] ****`, with the labels and counts in aligned
 * columns and each bar scaled against the largest count so that the widest
 * bar fills what is left of the terminal width.
 */
module BarGraph {
  import opened Wrappers
  import Text
  import Grouping
  import Arith

  /** Columns kept free at the right edge of the terminal (`MARGIN`). */
  const Margin: int := 3

  /** The character a bar is drawn with (`TICK`). */
  const Tick: char := '*'

  /** The label width `bargraph` uses unless told otherwise. */
  const DefaultMaxKeyWidth: nat := 30

  /** One entry of the ordered mapping handed to `bargraph`. */
  datatype Entry = Entry(key: string, value: nat)

  /**
   * The column layout shared by all lines: label width, width of the grouped
   * count column, the largest count, and the room left for bars (possibly negative).
   */
  datatype Layout = Layout(keyWidth: nat, valWidth: nat, maxVal: nat, barBudget: int)

  /** Python's `max` over a non-empty sequence of naturals. */
  function Largest(xs: seq<nat>): (m: nat)
    requires |xs| > 0
    ensures forall i :: 0 <= i < |xs| ==> xs[i] <= m
    ensures m in xs
    decreases |xs|
  {
    if |xs| == 1 then xs[0]
    else
      var rest := Largest(xs[1..]);
      if xs[0] >= rest then xs[0] else rest
  }

  function KeyLengths(data: seq<Entry>): (ls: seq<nat>)
    ensures |ls| == |data|
  {
    seq(|data|, i requires 0 <= i < |data| => |data[i].key|)
  }

  function Values(data: seq<Entry>): (vs: seq<nat>)
    ensures |vs| == |data|
  {
    seq(|data|, i requires 0 <= i < |data| => data[i].value)
  }

  function GroupedWidths(data: seq<Entry>): (ws: seq<nat>)
    ensures |ws| == |data|
  {
    seq(|data|, i requires 0 <= i < |data| => |Grouping.Group(data[i].value)|)
  }

  /** `min(max(len(key) for key in data), max_key_width)`. */
  function KeyWidth(data: seq<Entry>, maxKeyWidth: nat): (w: nat)
    requires |data| > 0
    ensures w <= maxKeyWidth
    ensures forall i :: 0 <= i < |data| ==> Min(|data[i].key|, maxKeyWidth) <= w
    ensures exists i :: 0 <= i < |data| && w == Min(|data[i].key|, maxKeyWidth)
  {
    var longest := Largest(KeyLengths(data));
    assert forall i :: 0 <= i < |data| ==> |data[i].key| == KeyLengths(data)[i];
    ghost var j :| 0 <= j < |data| && KeyLengths(data)[j] == longest;
    Min(longest, maxKeyWidth)
  }

  /** `max(data.values())`. */
  function MaxValue(data: seq<Entry>): (m: nat)
    requires |data| > 0
    ensures forall i :: 0 <= i < |data| ==> data[i].value <= m
    ensures exists i :: 0 <= i < |data| && data[i].value == m
  {
    var m := Largest(Values(data));
    assert forall i :: 0 <= i < |data| ==> data[i].value == Values(data)[i];
    m
  }

  /** `max(len('{:,}'.format(val)) for val in data.values())`: the width of the largest value. */
  function ValueWidth(data: seq<Entry>): (w: nat)
    requires |data| > 0
    ensures forall i :: 0 <= i < |data| ==> |Grouping.Group(data[i].value)| <= w
    ensures w == |Grouping.Group(MaxValue(data))|
  {
    var w := Largest(GroupedWidths(data));
    var maxVal := MaxValue(data);
    assert forall i :: 0 <= i < |data| ==> |Grouping.Group(data[i].value)| == GroupedWidths(data)[i];
    assert w == |Grouping.Group(maxVal)| by {
      var i :| 0 <= i < |data| && data[i].value == maxVal;
      var j :| 0 <= j < |data| && GroupedWidths(data)[j] == w;
      Grouping.GroupWidthMonotone(data[j].value, maxVal);
    }
    w
  }

  /**
   * The layout computed at the top of `bargraph`. `bargraph` on an empty
   * mapping fails in `max()`, so at least one entry is required.
   */
  function LayoutOf(data: seq<Entry>, termWidth: int, maxKeyWidth: nat): (l: Layout)
    requires |data| > 0
  {
    var keyWidth := KeyWidth(data, maxKeyWidth);
    var valWidth := ValueWidth(data);
    Layout(keyWidth, valWidth, MaxValue(data), termWidth - Margin - (keyWidth + 3 + valWidth + 3))
  }

  function Min(a: nat, b: nat): nat
  {
    if a <= b then a else b
  }

  /** `math.ceil(a / b)` for a positive divisor, computed exactly. */
  function CeilDiv(a: int, b: int): int
    requires b > 0
  {
    -((-a) / b)
  }

  /** CeilDiv(a, b) is the least q with a <= q * b. */
  lemma CeilDivBounds(a: int, b: int)
    requires b > 0
    ensures var q := CeilDiv(a, b); (q - 1) * b < a <= q * b
  {
    var f := (-a) / b;
    assert -a == f * b + (-a) % b;
  }

  /**
   * The number of ticks for one value: `int(math.ceil(budget * value / maxVal)) * TICK`.
   * A non-positive quotient repeats the tick zero times, and an all-zero
   * mapping raises `ZeroDivisionError`, which `bargraph` turns into an empty bar.
   */
  function BarLength(budget: int, value: nat, maxVal: nat): (n: nat)
    ensures maxVal == 0 ==> n == 0
  {
    if maxVal == 0 then 0
    else
      var q := CeilDiv(budget * value, maxVal);
      if q <= 0 then 0 else q
  }

  /**
   * The bar is the ceiling of budget * value / maxVal: the least n with
   * budget * value <= n * maxVal, or no ticks at all when that product is
   * not positive.
   */
  lemma BarLengthCeiling(budget: int, value: nat, maxVal: nat)
    requires maxVal > 0
    ensures var n := BarLength(budget, value, maxVal);
      && (budget * value <= 0 ==> n == 0)
      && (budget * value > 0 ==> (n - 1) * maxVal < budget * value <= n * maxVal)
  {
    CeilDivBounds(budget * value, maxVal);
  }

  /** One line of the graph: `"{key:{kw}} [ {value:{vw},d} ] {bar}"` with the key cut to kw characters. */
  function Line(e: Entry, l: Layout): string
  {
    Row(KeyColumn(e, l), ValueColumn(e, l), Bar(e, l))
  }

  /** The row template `"{key} [ {value} ] {bar}"` around three filled-in columns. */
  function Row(keyCol: string, valCol: string, bar: string): string
  {
    keyCol + " [ " + valCol + " ] " + bar
  }

  /** The key cut to the key width and left-aligned in it. */
  function KeyColumn(e: Entry, l: Layout): (c: string)
    ensures |c| == l.keyWidth
    ensures Text.Take(e.key, l.keyWidth) <= c
    ensures forall p :: |Text.Take(e.key, l.keyWidth)| <= p < |c| ==> c[p] == ' '
  {
    Text.PadRight(Text.Take(e.key, l.keyWidth), l.keyWidth)
  }

  /** The grouped value right-aligned in the value width. */
  function ValueColumn(e: Entry, l: Layout): (c: string)
    ensures |Grouping.Group(e.value)| <= l.valWidth ==> |c| == l.valWidth
  {
    Text.PadLeft(Grouping.Group(e.value), l.valWidth)
  }

  /** The row's ticks. */
  function Bar(e: Entry, l: Layout): (c: string)
    ensures |c| == BarLength(l.barBudget, e.value, l.maxVal)
    ensures forall p :: 0 <= p < |c| ==> c[p] == Tick
  {
    Text.Repeat(Tick, BarLength(l.barBudget, e.value, l.maxVal))
  }

  /** The lines of the graph, one per entry, in the mapping's order. */
  function Lines(data: seq<Entry>, l: Layout): (ls: seq<string>)
    ensures |ls| == |data|
  {
    seq(|data|, i requires 0 <= i < |data| => Line(data[i], l))
  }

  /** `bargraph(data, max_key_width)` for a terminal `termWidth` columns wide. */
  function Render(data: seq<Entry>, termWidth: int, maxKeyWidth: nat): string
    requires |data| > 0
  {
    Text.Join(Lines(data, LayoutOf(data, termWidth, maxKeyWidth)))
  }

  /** `bargraph(data)`: the default cap on the label width. */
  function RenderDefault(data: seq<Entry>, termWidth: int): string
    requires |data| > 0
  {
    Render(data, termWidth, DefaultMaxKeyWidth)
  }

  /** The bar budget clamped at zero: the most ticks any bar can have. */
  function Room(budget: int): nat
  {
    if budget > 0 then budget else 0
  }

  /** No bar of a value up to the largest is longer than the room left for bars. */
  lemma BarWithinRoom(budget: int, value: nat, maxVal: nat)
    requires value <= maxVal
    ensures BarLength(budget, value, maxVal) <= Room(budget)
  {
    var n := BarLength(budget, value, maxVal);
    if maxVal > 0 {
      BarLengthCeiling(budget, value, maxVal);
      if budget * value > 0 {
        assert budget > 0;
        Arith.MulMonotone(value, maxVal, budget);
        assert budget * value <= budget * maxVal;
        Arith.MulCancel(n - 1, budget, maxVal);
      }
    }
  }

  /** A row holding the largest (non-zero) value fills the room exactly. */
  lemma BarOfLargest(budget: int, maxVal: nat)
    requires maxVal > 0
    ensures BarLength(budget, maxVal, maxVal) == Room(budget)
  {
    var n := BarLength(budget, maxVal, maxVal);
    BarLengthCeiling(budget, maxVal, maxVal);
    if budget > 0 {
      assert budget * maxVal > 0;
      Arith.MulCancel(n - 1, budget, maxVal);
      if n > budget {
        Arith.MulMonotone(budget + 1, n, maxVal);
      }
    } else {
      Arith.MulMonotone(budget, 0, maxVal);
    }
  }

  /** Bars grow with the value: a larger count never gets a shorter bar. */
  lemma BarMonotone(budget: int, v1: nat, v2: nat, maxVal: nat)
    requires v1 <= v2
    ensures BarLength(budget, v1, maxVal) <= BarLength(budget, v2, maxVal)
  {
    var n1, n2 := BarLength(budget, v1, maxVal), BarLength(budget, v2, maxVal);
    if maxVal > 0 {
      BarLengthCeiling(budget, v1, maxVal);
      BarLengthCeiling(budget, v2, maxVal);
      if budget * v1 > 0 {
        assert budget > 0;
        Arith.MulMonotone(v1, v2, budget);
        assert budget * v1 <= budget * v2;
        Arith.MulCancel(n1 - 1, n2, maxVal);
      }
    }
  }

  /** Where the columns and the fixed separators of a row sit. */
  lemma RowPieces(keyCol: string, valCol: string, bar: string, kw: nat, vw: nat)
    requires |keyCol| == kw && |valCol| == vw
    ensures var r := Row(keyCol, valCol, bar);
      && |r| == kw + vw + 6 + |bar|
      && r[..kw] == keyCol
      && r[kw..kw + 3] == " [ "
      && r[kw + 3..kw + 3 + vw] == valCol
      && r[kw + 3 + vw..kw + 6 + vw] == " ] "
      && r[kw + 6 + vw..] == bar
  {
    var r := Row(keyCol, valCol, bar);
    assert r == (((keyCol + " [ ") + valCol) + " ] ") + bar;
  }

  /** A key column holds the cut key, then spaces up to the key width. */
  lemma RowKey(keyCol: string, valCol: string, bar: string, cut: string, kw: nat)
    requires |keyCol| == kw && cut <= keyCol
    requires forall p :: |cut| <= p < kw ==> keyCol[p] == ' '
    ensures var r := Row(keyCol, valCol, bar);
      && r[..|cut|] == cut
      && (forall p :: |cut| <= p < kw ==> r[p] == ' ')
  {
    var r := Row(keyCol, valCol, bar);
    assert r == keyCol + (" [ " + valCol + " ] " + bar);
    assert forall p :: 0 <= p < kw ==> r[p] == keyCol[p];
  }

  /** Everything after the closing bracket is the bar. */
  lemma RowBar(keyCol: string, valCol: string, bar: string, kw: nat, vw: nat)
    requires |keyCol| == kw && |valCol| == vw
    requires forall p :: 0 <= p < |bar| ==> bar[p] == Tick
    ensures var r := Row(keyCol, valCol, bar);
      forall p :: kw + 6 + vw <= p < |r| ==> r[p] == Tick
  {
    var r := Row(keyCol, valCol, bar);
    assert r == (keyCol + " [ " + valCol + " ] ") + bar;
    assert forall p :: kw + 6 + vw <= p < |r| ==> r[p] == bar[p - (kw + 6 + vw)];
  }

  /** A row of newline-free columns holds no newline. */
  lemma RowNoNewline(keyCol: string, valCol: string, bar: string)
    requires Text.NoNewline(keyCol) && Text.NoNewline(valCol) && Text.NoNewline(bar)
    ensures Text.NoNewline(Row(keyCol, valCol, bar))
  {
    Text.NoNewlineConcat(keyCol, " [ ");
    Text.NoNewlineConcat(keyCol + " [ ", valCol);
    Text.NoNewlineConcat(keyCol + " [ " + valCol, " ] ");
    Text.NoNewlineConcat(keyCol + " [ " + valCol + " ] ", bar);
  }

  /** The value column reads back as the value once its padding is trimmed. */
  lemma ValueColumnReads(e: Entry, l: Layout)
    requires |Grouping.Group(e.value)| <= l.valWidth
    ensures Text.TrimLeft(ValueColumn(e, l)) == Grouping.Group(e.value)
    ensures Grouping.ParseGrouped(Text.TrimLeft(ValueColumn(e, l))) == Some(e.value)
  {
    var g := Grouping.Group(e.value);
    Grouping.GroupRoundTrip(e.value);
    assert Grouping.IsDigit(g[0]);
    Text.TrimPadLeft(g, l.valWidth);
  }

  lemma LineValue(e: Entry, l: Layout)
    requires |Grouping.Group(e.value)| <= l.valWidth
    ensures var line, kw, vw := Line(e, l), l.keyWidth, l.valWidth;
      && Text.TrimLeft(line[kw + 3..kw + 3 + vw]) == Grouping.Group(e.value)
      && Grouping.ParseGrouped(Text.TrimLeft(line[kw + 3..kw + 3 + vw])) == Some(e.value)
  {
    RowPieces(KeyColumn(e, l), ValueColumn(e, l), Bar(e, l), l.keyWidth, l.valWidth);
    ValueColumnReads(e, l);
  }

  lemma LineKey(e: Entry, l: Layout)
    requires |Grouping.Group(e.value)| <= l.valWidth
    ensures var line, kw := Line(e, l), l.keyWidth;
      var cut := Text.Take(e.key, kw);
      && line[..|cut|] == cut
      && (forall p :: |cut| <= p < kw ==> line[p] == ' ')
  {
    RowKey(KeyColumn(e, l), ValueColumn(e, l), Bar(e, l), Text.Take(e.key, l.keyWidth), l.keyWidth);
  }

  lemma LineShape(e: Entry, l: Layout)
    requires |Grouping.Group(e.value)| <= l.valWidth
    ensures var line, kw, vw := Line(e, l), l.keyWidth, l.valWidth;
      && |line| == kw + vw + 6 + BarLength(l.barBudget, e.value, l.maxVal)
      && line[kw..kw + 3] == " [ "
      && line[kw + 3 + vw..kw + 6 + vw] == " ] "
  {
    RowPieces(KeyColumn(e, l), ValueColumn(e, l), Bar(e, l), l.keyWidth, l.valWidth);
  }

  lemma LineBar(e: Entry, l: Layout)
    requires |Grouping.Group(e.value)| <= l.valWidth
    ensures var line, kw, vw := Line(e, l), l.keyWidth, l.valWidth;
      forall p :: kw + 6 + vw <= p < |line| ==> line[p] == Tick
  {
    RowBar(KeyColumn(e, l), ValueColumn(e, l), Bar(e, l), l.keyWidth, l.valWidth);
  }

  /**
   * Every line is laid out in the same columns: the cut key left-aligned
   * and padded to the key width, `" [ "`, the grouped value right-aligned in
   * the value width (its `'{:,}'` form, reading back as the value), `" ] "`, then the bar's ticks.
   */
  lemma LineColumns(e: Entry, l: Layout)
    requires |Grouping.Group(e.value)| <= l.valWidth
    ensures var line, kw, vw := Line(e, l), l.keyWidth, l.valWidth;
      var cut := Text.Take(e.key, kw);
      && |line| == kw + vw + 6 + BarLength(l.barBudget, e.value, l.maxVal)
      && line[..|cut|] == cut
      && (forall p :: |cut| <= p < kw ==> line[p] == ' ')
      && line[kw..kw + 3] == " [ "
      && Text.TrimLeft(line[kw + 3..kw + 3 + vw]) == Grouping.Group(e.value)
      && Grouping.ParseGrouped(Text.TrimLeft(line[kw + 3..kw + 3 + vw])) == Some(e.value)
      && line[kw + 3 + vw..kw + 6 + vw] == " ] "
      && (forall p :: kw + 6 + vw <= p < |line| ==> line[p] == Tick)
  {
    LineShape(e, l);
    LineKey(e, l);
    LineValue(e, l);
    LineBar(e, l);
  }

  lemma LineNoNewline(e: Entry, l: Layout)
    requires Text.NoNewline(e.key)
    ensures Text.NoNewline(Line(e, l))
  {
    var keyCol, valCol := KeyColumn(e, l), ValueColumn(e, l);
    var cut, g := Text.Take(e.key, l.keyWidth), Grouping.Group(e.value);
    assert Text.NoNewline(keyCol) by {
      forall p | 0 <= p < |keyCol|
        ensures keyCol[p] != '\n'
      {
        if p < |cut| {
          assert keyCol[p] == cut[p] == e.key[p];
        }
      }
    }
    assert Text.NoNewline(valCol) by {
      forall p | 0 <= p < |valCol|
        ensures valCol[p] != '\n'
      {
        if p >= |valCol| - |g| {
          assert valCol[p] == valCol[|valCol| - |g|..][p - (|valCol| - |g|)];
          assert g[p - (|valCol| - |g|)] == ',' || Grouping.IsDigit(g[p - (|valCol| - |g|)]);
        }
      }
    }
    RowNoNewline(keyCol, valCol, Bar(e, l));
  }

  /**
   * The graph is exactly one line per entry, in the mapping's order, joined
   * by newlines with none after the last: splitting it on newlines gives the
   * lines back, provided no key itself holds a newline.
   */
  lemma RenderLines(data: seq<Entry>, termWidth: int, maxKeyWidth: nat)
    requires |data| > 0
    requires forall i :: 0 <= i < |data| ==> Text.NoNewline(data[i].key)
    ensures var l := LayoutOf(data, termWidth, maxKeyWidth);
      && Text.Split(Render(data, termWidth, maxKeyWidth)) == Lines(data, l)
      && |Lines(data, l)| == |data|
      && forall i :: 0 <= i < |data| ==> Lines(data, l)[i] == Line(data[i], l)
  {
    var l := LayoutOf(data, termWidth, maxKeyWidth);
    var ls := Lines(data, l);
    forall i | 0 <= i < |ls|
      ensures Text.NoNewline(ls[i])
    {
      LineNoNewline(data[i], l);
    }
    Text.SplitJoin(ls);
  }

  /**
   * A line has its value column in place: `" [ "` right after the key
   * column, then a field of width vw holding the value in thousands-grouped
   * form, right-aligned (so it reads back as the value), then `" ] "`.
   */
  predicate InColumns(line: string, value: nat, kw: nat, vw: nat)
  {
    && |line| >= kw + vw + 6
    && line[kw..kw + 3] == " [ "
    && Text.TrimLeft(line[kw + 3..kw + 3 + vw]) == Grouping.Group(value)
    && Grouping.ParseGrouped(Text.TrimLeft(line[kw + 3..kw + 3 + vw])) == Some(value)
    && line[kw + 3 + vw..kw + 6 + vw] == " ] "
  }

  /** All lines share their columns, and each line's value column is its entry's value, grouped. */
  lemma RenderColumns(data: seq<Entry>, termWidth: int, maxKeyWidth: nat)
    requires |data| > 0
    ensures var l := LayoutOf(data, termWidth, maxKeyWidth);
      forall i :: 0 <= i < |data| ==> InColumns(Lines(data, l)[i], data[i].value, l.keyWidth, l.valWidth)
  {
    var l := LayoutOf(data, termWidth, maxKeyWidth);
    forall i | 0 <= i < |data|
      ensures InColumns(Lines(data, l)[i], data[i].value, l.keyWidth, l.valWidth)
    {
      LineColumns(data[i], l);
    }
  }

  /**
   * One line's width: its fixed columns plus a bar no longer than the room,
   * the full room for the largest value, and nothing for a zero count or
   * when no room is left.
   */
  lemma LineWidth(e: Entry, l: Layout)
    requires |Grouping.Group(e.value)| <= l.valWidth
    requires e.value <= l.maxVal
    ensures var n, cols := |Line(e, l)|, l.keyWidth + l.valWidth + 6;
      && cols <= n <= cols + Room(l.barBudget)
      && (e.value == l.maxVal > 0 ==> n == cols + Room(l.barBudget))
      && (e.value == 0 || l.barBudget <= 0 ==> n == cols)
  {
    LineShape(e, l);
    BarWithinRoom(l.barBudget, e.value, l.maxVal);
    if e.value == l.maxVal > 0 {
      BarOfLargest(l.barBudget, l.maxVal);
    }
    if e.value == 0 {
      assert l.barBudget * e.value == 0;
    }
  }

  /** The widths of LineWidth for every line drawn with a layout that fits all the entries. */
  lemma LinesWidths(data: seq<Entry>, l: Layout)
    requires forall i :: 0 <= i < |data| ==> |Grouping.Group(data[i].value)| <= l.valWidth
    requires forall i :: 0 <= i < |data| ==> data[i].value <= l.maxVal
    ensures var ls, cols := Lines(data, l), l.keyWidth + l.valWidth + 6;
      forall i :: 0 <= i < |data| ==>
        && cols <= |ls[i]| <= cols + Room(l.barBudget)
        && (data[i].value == l.maxVal > 0 ==> |ls[i]| == cols + Room(l.barBudget))
        && (data[i].value == 0 || l.barBudget <= 0 ==> |ls[i]| == cols)
  {
    forall i | 0 <= i < |data|
      ensures var n, cols := |Lines(data, l)[i]|, l.keyWidth + l.valWidth + 6;
        && cols <= n <= cols + Room(l.barBudget)
        && (data[i].value == l.maxVal > 0 ==> n == cols + Room(l.barBudget))
        && (data[i].value == 0 || l.barBudget <= 0 ==> n == cols)
    {
      LineWidth(data[i], l);
    }
  }

  /**
   * The widths of the rendered lines: each holds its columns plus at most the
   * room left for bars, so with room left no line is wider than the terminal
   * less the margin; a row with the largest non-zero value fills the room; an
   * all-zero mapping or a terminal too narrow for bars draws no ticks.
   */
  lemma RenderWidths(data: seq<Entry>, termWidth: int, maxKeyWidth: nat)
    requires |data| > 0
    ensures var l := LayoutOf(data, termWidth, maxKeyWidth);
      var ls, cols := Lines(data, l), l.keyWidth + l.valWidth + 6;
      && (forall i :: 0 <= i < |data| ==> cols <= |ls[i]| <= cols + Room(l.barBudget))
      && (l.barBudget >= 0 ==> forall i :: 0 <= i < |data| ==> |ls[i]| <= termWidth - Margin)
      && (forall i :: 0 <= i < |data| && data[i].value == l.maxVal > 0 ==> |ls[i]| == cols + Room(l.barBudget))
      && ((forall i :: 0 <= i < |data| ==> data[i].value == 0) ==> forall i :: 0 <= i < |data| ==> |ls[i]| == cols)
      && (l.barBudget <= 0 ==> forall i :: 0 <= i < |data| ==> |ls[i]| == cols)
  {
    var l := LayoutOf(data, termWidth, maxKeyWidth);
    var cols := l.keyWidth + l.valWidth + 6;
    assert l.barBudget == termWidth - Margin - cols;
    LinesWidths(data, l);
  }
}
