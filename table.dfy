/**
 * The table component's layout decisions: its class list, which modes are
 * expandable, the cells of a data row, and the column spans of an expanded
 * entry's detail row.
 *
 * A rendered `<td>` is abstracted to its column span and what it holds; a class
 * list to a sequence of class names.
 */
module TableNext {
  import opened Wrappers

  datatype TableMode = Default | Compact | CompactNoBorders | CompactExpandable | Expandable

  /** A header column: its column index and its optional label. */
  datatype Column = Column(index: nat, caption: Option<string>)

  /** The table header: whether it is sticky, and its columns in order. */
  datatype Header = Header(sticky: bool, columns: seq<Column>)

  /** What a rendered cell holds. */
  datatype CellKind =
    | Data(column: nat, dataLabel: string)  // a column's value, with its `data-label`
    | ActionCell                        // the kebab dropdown of the row's actions
    | Toggle                            // the expand/collapse button
    | Spacer                            // the empty cell under the toggle column
    | Detail                            // one of the entry's detail cells
    | Filler                            // the empty cell spanning the leftover columns

  /** A rendered `<td>`: its `colspan` (1 when it has none) and its content. */
  datatype Td = Td(span: nat, kind: CellKind)

  /** The header's columns; none without a header. */
  function Columns(header: Option<Header>): seq<Column> {
    match header
    case None => []
    case Some(h) => h.columns
  }

  /** `is_expandable`. */
  predicate IsExpandable(mode: TableMode) {
    mode == Expandable || mode == CompactExpandable
  }

  /** Only the two expandable modes are expandable. */
  lemma ExpandableModes(mode: TableMode)
    ensures IsExpandable(mode) <==> mode in {Expandable, CompactExpandable}
    ensures !IsExpandable(mode) <==> mode in {Default, Compact, CompactNoBorders}
  {
  }

  /** The class name a mode contributes to the table besides "pf-m-no-border-rows". */
  predicate IsCompact(mode: TableMode) {
    mode == Compact || mode == CompactNoBorders || mode == CompactExpandable
  }

  /** Whether the table's header is sticky; no header is not sticky. */
  function Sticky(header: Option<Header>): bool {
    header.Some? && header.value.sticky
  }

  /** The classes `table` adds for each mode. */
  function ModeClasses(mode: TableMode): seq<string> {
    match mode
    case Compact => ["pf-m-compact"]
    case CompactNoBorders => ["pf-m-compact", "pf-m-no-border-rows"]
    case CompactExpandable => ["pf-m-compact"]
    case Expandable => ["pf-m-expandable"]
    case Default => []
  }

  /**
   * The class list of a table, in the order `table` pushes the classes. `grid`
   * stands for the classes the grid mode contributes.
   */
  function TableClassList(sticky: bool, grid: seq<string>, mode: TableMode, borders: bool): seq<string> {
    ["pf-c-table"] + (if sticky then ["pf-m-sticky-header"] else []) + grid
      + ModeClasses(mode) + (if borders then [] else ["pf-m-no-border-rows"])
  }

  /** The class list of `table`, built by pushing onto "pf-c-table". */
  method TableClass(header: Option<Header>, grid: seq<string>, mode: TableMode, borders: bool)
    returns (classes: seq<string>)
    ensures classes == TableClassList(Sticky(header), grid, mode, borders)
  {
    classes := ["pf-c-table"];
    if header.Some? && header.value.sticky {
      classes := classes + ["pf-m-sticky-header"];
    }
    classes := classes + grid;
    match mode {
      case Compact =>
        classes := classes + ["pf-m-compact"];
      case CompactNoBorders =>
        classes := classes + ["pf-m-compact", "pf-m-no-border-rows"];
      case CompactExpandable =>
        classes := classes + ["pf-m-compact"];
      case Expandable =>
        classes := classes + ["pf-m-expandable"];
      case Default =>
    }
    if !borders {
      classes := classes + ["pf-m-no-border-rows"];
    }
  }

  /** The list starts with "pf-c-table", and the grid's classes come in one piece after the sticky class. */
  lemma TableClassLayout(sticky: bool, grid: seq<string>, mode: TableMode, borders: bool)
    ensures var classes := TableClassList(sticky, grid, mode, borders);
      var start := if sticky then 2 else 1;
      && classes[0] == "pf-c-table"
      && start + |grid| <= |classes| && classes[start..start + |grid|] == grid
      && (sticky ==> classes[1] == "pf-m-sticky-header")
  {
    var head := ["pf-c-table"] + (if sticky then ["pf-m-sticky-header"] else []);
    var tail := ModeClasses(mode) + (if borders then [] else ["pf-m-no-border-rows"]);
    var classes := TableClassList(sticky, grid, mode, borders);
    assert classes == head + grid + tail;
    assert (head + grid + tail)[|head|..|head| + |grid|] == grid;
  }

  /**
   * Each of the table's own class names is in the list exactly when its rule
   * asks for it (or the grid contributes it), and nothing else is added.
   */
  lemma TableClassNames(sticky: bool, grid: seq<string>, mode: TableMode, borders: bool)
    ensures var classes := TableClassList(sticky, grid, mode, borders);
      && ("pf-m-sticky-header" in classes <==> sticky || "pf-m-sticky-header" in grid)
      && ("pf-m-compact" in classes <==> IsCompact(mode) || "pf-m-compact" in grid)
      && ("pf-m-expandable" in classes <==> mode == Expandable || "pf-m-expandable" in grid)
      && ("pf-m-no-border-rows" in classes <==> mode == CompactNoBorders || !borders || "pf-m-no-border-rows" in grid)
      && (forall c :: c in classes ==>
            c in grid || c in {"pf-c-table", "pf-m-sticky-header", "pf-m-compact", "pf-m-expandable", "pf-m-no-border-rows"})
  {
    var head := ["pf-c-table"] + (if sticky then ["pf-m-sticky-header"] else []);
    var tail := ModeClasses(mode) + (if borders then [] else ["pf-m-no-border-rows"]);
    assert TableClassList(sticky, grid, mode, borders) == head + grid + tail;
    forall c ensures c in head + grid + tail <==> c in head || c in grid || c in tail {
      InConcat(c, head, grid, tail);
    }
    HeadClassNames(sticky);
    TailClassNames(mode, borders);
  }

  /** The classes before the grid's: "pf-c-table", then the sticky class when asked for. */
  lemma HeadClassNames(sticky: bool)
    ensures var head := ["pf-c-table"] + (if sticky then ["pf-m-sticky-header"] else []);
      && ("pf-m-sticky-header" in head <==> sticky)
      && "pf-m-compact" !in head && "pf-m-expandable" !in head && "pf-m-no-border-rows" !in head
      && (forall c :: c in head ==> c == "pf-c-table" || c == "pf-m-sticky-header")
  {
  }

  /** The classes after the grid's: the mode's, then "pf-m-no-border-rows" without borders. */
  lemma TailClassNames(mode: TableMode, borders: bool)
    ensures var tail := ModeClasses(mode) + (if borders then [] else ["pf-m-no-border-rows"]);
      && ("pf-m-compact" in tail <==> IsCompact(mode))
      && ("pf-m-expandable" in tail <==> mode == Expandable)
      && ("pf-m-no-border-rows" in tail <==> mode == CompactNoBorders || !borders)
      && "pf-m-sticky-header" !in tail
      && (forall c :: c in tail ==> c in {"pf-m-compact", "pf-m-expandable", "pf-m-no-border-rows"})
  {
    ModeClassNames(mode);
  }

  /** Which of the table's class names each mode adds. */
  lemma ModeClassNames(mode: TableMode)
    ensures "pf-m-compact" in ModeClasses(mode) <==> IsCompact(mode)
    ensures "pf-m-expandable" in ModeClasses(mode) <==> mode == Expandable
    ensures "pf-m-no-border-rows" in ModeClasses(mode) <==> mode == CompactNoBorders
    ensures "pf-m-sticky-header" !in ModeClasses(mode) && "pf-c-table" !in ModeClasses(mode)
    ensures forall c :: c in ModeClasses(mode) ==> c in {"pf-m-compact", "pf-m-expandable", "pf-m-no-border-rows"}
  {
  }

  lemma InConcat(c: string, a: seq<string>, b: seq<string>, d: seq<string>)
    ensures c in a + b + d <==> c in a || c in b || c in d
  {
  }

  /** The sum of the column spans of a row. */
  function TotalSpan(cells: seq<Td>): nat {
    if cells == [] then 0 else cells[0].span + TotalSpan(cells[1..])
  }

  lemma {:induction false} TotalSpanConcat(a: seq<Td>, b: seq<Td>)
    ensures TotalSpan(a + b) == TotalSpan(a) + TotalSpan(b)
  {
    if a != [] {
      assert (a + b)[1..] == a[1..] + b;
      TotalSpanConcat(a[1..], b);
    } else {
      assert a + b == b;
    }
  }

  /** The value cell `render_row` emits for a header column. */
  function DataCell(column: Column): Td {
    Td(1, Data(column.index, column.caption.GetOr("")))
  }

  /**
   * `render_row`: one cell per header column, in header order, then one action
   * cell when the entry has actions.
   */
  method RenderRow(header: Option<Header>, actions: nat) returns (cells: seq<Td>)
    ensures |cells| == |Columns(header)| + (if actions > 0 then 1 else 0)
    ensures forall i :: 0 <= i < |Columns(header)| ==> cells[i] == DataCell(Columns(header)[i])
    ensures actions > 0 ==> cells[|cells| - 1] == Td(1, ActionCell)
    ensures TotalSpan(cells) == |cells|
  {
    var columns := Columns(header);
    cells := [];
    for i := 0 to |columns|
      invariant |cells| == i
      invariant forall k :: 0 <= k < i ==> cells[k] == DataCell(columns[k])
      invariant TotalSpan(cells) == i
    {
      TotalSpanConcat(cells, [DataCell(columns[i])]);
      cells := cells + [DataCell(columns[i])];
    }
    if actions > 0 {
      TotalSpanConcat(cells, [Td(1, ActionCell)]);
      cells := cells + [Td(1, ActionCell)];
    }
  }

  /** The sum of a sequence of spans. */
  function SpanSum(spans: seq<nat>): nat {
    if spans == [] then 0 else spans[0] + SpanSum(spans[1..])
  }

  lemma {:induction false} SpanSumSnoc(spans: seq<nat>, x: nat)
    ensures SpanSum(spans + [x]) == SpanSum(spans) + x
  {
    if spans != [] {
      assert (spans + [x])[1..] == spans[1..] + [x];
      SpanSumSnoc(spans[1..], x);
    } else {
      assert spans + [x] == [x];
    }
  }

  /**
   * How many detail cells `render_expandable_entry` emits with `budget` columns
   * left: every cell is emitted before the budget is checked, and emission stops
   * after the first cell that uses the budget up.
   */
  function Emitted(budget: nat, spans: seq<nat>): (n: nat)
    ensures n <= |spans| && (spans != [] ==> 1 <= n)
  {
    if spans == [] then 0
    else if budget <= spans[0] then 1
    else 1 + Emitted(budget - spans[0], spans[1..])
  }

  /**
   * Every cell before the last emitted one leaves some budget, and emission ends
   * early only once the emitted cells have used the budget up.
   */
  lemma {:induction false} EmittedStops(budget: nat, spans: seq<nat>)
    ensures var n := Emitted(budget, spans);
      && (forall j :: 1 <= j < n ==> SpanSum(spans[..j]) < budget)
      && (n < |spans| ==> budget <= SpanSum(spans[..n]))
  {
    if spans != [] {
      if budget <= spans[0] {
        assert spans[..1][1..] == [];
      } else {
        EmittedStops(budget - spans[0], spans[1..]);
        assert forall j :: 1 <= j <= |spans| ==> spans[..j][1..] == spans[1..][..j - 1];
      }
    }
  }

  /** Prefix sums of spans only grow. */
  lemma {:induction false} SpanSumPrefixMono(spans: seq<nat>, j: nat, i: nat)
    requires j <= i <= |spans|
    ensures SpanSum(spans[..j]) <= SpanSum(spans[..i])
  {
    if j < i {
      SpanSumPrefixMono(spans, j, i - 1);
      assert spans[..i] == spans[..i - 1] + [spans[i - 1]];
      SpanSumSnoc(spans[..i - 1], spans[i - 1]);
    }
  }

  /**
   * `Emitted` is the only count that stops at the end of the spans or at the first
   * prefix that uses the budget up.
   */
  lemma EmittedUnique(budget: nat, spans: seq<nat>, i: nat)
    requires i <= |spans| && (spans != [] ==> 1 <= i)
    requires 1 < i ==> SpanSum(spans[..i - 1]) < budget
    requires i == |spans| || budget <= SpanSum(spans[..i])
    ensures Emitted(budget, spans) == i
  {
    var n := Emitted(budget, spans);
    EmittedStops(budget, spans);
    if n < i {
      assert budget <= SpanSum(spans[..n]);
      SpanSumPrefixMono(spans, n, i - 1);
    }
  }

  /** The detail cells for the given spans, in order. */
  function DetailCells(spans: seq<nat>): (r: seq<Td>)
    ensures |r| == |spans|
    ensures forall i :: 0 <= i < |spans| ==> r[i] == Td(spans[i], Detail)
    ensures TotalSpan(r) == SpanSum(spans)
  {
    if spans == [] then [] else [Td(spans[0], Detail)] + DetailCells(spans[1..])
  }

  /**
   * The detail row of an expanded entry with `columns` header columns: an empty
   * spacer unless the details are full width, the detail cells that fit the
   * budget (the first always emitted), and a filler cell for any budget left.
   */
  function DetailRow(columns: nat, fullWidth: bool, spans: seq<nat>): seq<Td> {
    var lead := if fullWidth then [] else [Td(1, Spacer)];
    lead + Fit(columns + 1 - |lead|, spans)
  }

  /** The detail cells emitted within `budget` columns, and the filler for what is left. */
  function Fit(budget: nat, spans: seq<nat>): seq<Td> {
    var n := Emitted(budget, spans);
    var used := SpanSum(spans[..n]);
    DetailCells(spans[..n]) + (if used < budget then [Td(budget - used, Filler)] else [])
  }

  /**
   * The detail row spans at least the toggle column and every header column, and
   * exactly that many unless an emitted detail cell overran the budget.
   */
  lemma DetailRowSpan(columns: nat, fullWidth: bool, spans: seq<nat>)
    ensures var lead := if fullWidth then 0 else 1;
      var n := Emitted(columns + 1 - lead, spans);
      TotalSpan(DetailRow(columns, fullWidth, spans)) == if lead + SpanSum(spans[..n]) <= columns + 1
        then columns + 1 else lead + SpanSum(spans[..n])
    ensures TotalSpan(DetailRow(columns, fullWidth, spans)) >= columns + 1
  {
    var lead := if fullWidth then [] else [Td(1, Spacer)];
    var budget := columns + 1 - |lead|;
    TotalSpanConcat(lead, Fit(budget, spans));
    assert TotalSpan(lead) == |lead| by {
      if lead != [] { assert lead[1..] == []; }
    }
    FitSpan(budget, spans);
  }

  /** Within a budget the emitted cells and the filler span the budget, or more after an overrun. */
  lemma FitSpan(budget: nat, spans: seq<nat>)
    ensures var used := SpanSum(spans[..Emitted(budget, spans)]);
      TotalSpan(Fit(budget, spans)) == if used <= budget then budget else used
  {
    var n := Emitted(budget, spans);
    var used := SpanSum(spans[..n]);
    var fill := if used < budget then [Td(budget - used, Filler)] else [];
    TotalSpanConcat(DetailCells(spans[..n]), fill);
    assert TotalSpan(fill) == if used < budget then budget - used else 0 by {
      if fill != [] { assert fill[1..] == []; }
    }
  }

  /** The spacer is there exactly when the details are not full width; a first detail is always there. */
  lemma DetailRowShape(columns: nat, fullWidth: bool, spans: seq<nat>)
    ensures var row := DetailRow(columns, fullWidth, spans);
      && (!fullWidth <==> |row| > 0 && row[0] == Td(1, Spacer))
      && (spans != [] ==> |row| > 0 && row[if fullWidth then 0 else 1] == Td(spans[0], Detail))
      && (forall i :: 0 <= i < |row| ==> row[i].kind in {Spacer, Detail, Filler})
  {
    var lead := if fullWidth then [] else [Td(1, Spacer)];
    var fit := Fit(columns + 1 - |lead|, spans);
    FitShape(columns + 1 - |lead|, spans);
    var row := lead + fit;
    forall i | 0 <= i < |row| ensures row[i].kind in {Spacer, Detail, Filler} {
      if i >= |lead| {
        assert row[i] == fit[i - |lead|];
      }
    }
    if fullWidth && row != [] {
      assert row[0] == fit[0];
    }
    if spans != [] {
      assert row[|lead|] == fit[0];
    }
  }

  /** The cells that fit a budget are detail cells, then at most a filler; the first span always gets a cell. */
  lemma FitShape(budget: nat, spans: seq<nat>)
    ensures forall i :: 0 <= i < |Fit(budget, spans)| ==> Fit(budget, spans)[i].kind in {Detail, Filler}
    ensures spans != [] ==> |Fit(budget, spans)| > 0 && Fit(budget, spans)[0] == Td(spans[0], Detail)
  {
    var n := Emitted(budget, spans);
    var cells := DetailCells(spans[..n]);
    var used := SpanSum(spans[..n]);
    var fill := if used < budget then [Td(budget - used, Filler)] else [];
    var fit := cells + fill;
    forall i | 0 <= i < |fit| ensures fit[i].kind in {Detail, Filler} {
      if i < |cells| {
        assert fit[i] == cells[i];
      } else {
        assert fit[i] == fill[i - |cells|];
      }
    }
    if spans != [] {
      assert fit[0] == cells[0];
    }
  }

  /**
   * The detail-row part of `render_expandable_entry`. `fullWidth` is the entry's
   * own `is_full_width_details()`, `defaultFullWidth` the table's
   * `full_width_details`, `spans` the `cols` of the entry's detail cells.
   */
  method RenderDetails(header: Option<Header>, fullWidth: Option<bool>, defaultFullWidth: bool, spans: seq<nat>)
    returns (cells: seq<Td>)
    ensures cells == DetailRow(|Columns(header)|, fullWidth.GetOr(defaultFullWidth), spans)
  {
    var cols: nat := |Columns(header)| + 1;
    cells := [];
    if !fullWidth.GetOr(defaultFullWidth) {
      cells := cells + [Td(1, Spacer)];
      cols := cols - 1;
    }
    assert cols == |Columns(header)| + 1 - |cells|;
    ghost var lead := cells;
    cells := PushDetails(cells, cols, spans);
    assert DetailRow(|Columns(header)|, fullWidth.GetOr(defaultFullWidth), spans) == lead + Fit(cols, spans);
  }

  /**
   * The loop over the detail cells of `render_expandable_entry` and the filler
   * after it: each cell is pushed, its span taken from the budget `cols` (down to
   * zero at most), and the loop stops once the budget is used up.
   */
  method PushDetails(lead: seq<Td>, budget: nat, spans: seq<nat>) returns (cells: seq<Td>)
    ensures cells == lead + Fit(budget, spans)
  {
    cells := lead;
    var cols := budget;
    var i := 0;
    while i < |spans|
      invariant 0 <= i <= |spans|
      invariant cells == lead + DetailCells(spans[..i])
      invariant cols == budget - SpanSum(spans[..i])
      invariant 0 < i ==> cols > 0
    {
      ghost var before := cols;
      cells := cells + [Td(spans[i], Detail)];
      PrefixStep(spans, i);
      if cols > spans[i] {
        cols := cols - spans[i];
      } else {
        cols := 0;
      }
      i := i + 1;
      if cols == 0 {
        assert 1 < i ==> SpanSum(spans[..i - 1]) < budget by {
          if 1 < i { assert before > 0; }
        }
        FitAt(budget, spans, i);
        break;
      }
    }
    if cols > 0 {
      if 0 < i { SpanSumPrefixMono(spans, i - 1, i); }
      FitAt(budget, spans, i);
    }
    if cols > 0 {
      cells := cells + [Td(cols, Filler)];
    }
  }

  /** One more span: one more detail cell, and that much more span. */
  lemma PrefixStep(spans: seq<nat>, i: nat)
    requires i < |spans|
    ensures DetailCells(spans[..i + 1]) == DetailCells(spans[..i]) + [Td(spans[i], Detail)]
    ensures SpanSum(spans[..i + 1]) == SpanSum(spans[..i]) + spans[i]
  {
    assert spans[..i + 1] == spans[..i] + [spans[i]];
    SpanSumSnoc(spans[..i], spans[i]);
  }

  /** `Fit` once the number of emitted cells is known. */
  lemma FitAt(budget: nat, spans: seq<nat>, i: nat)
    requires i <= |spans| && (spans != [] ==> 1 <= i)
    requires 1 < i ==> SpanSum(spans[..i - 1]) < budget
    requires i == |spans| || budget <= SpanSum(spans[..i])
    ensures var used := SpanSum(spans[..i]);
      Fit(budget, spans) == DetailCells(spans[..i]) + (if used < budget then [Td(budget - used, Filler)] else [])
  {
    EmittedUnique(budget, spans, i);
  }

  /** The `aria-expanded` value of the toggle button. */
  function AriaExpanded(expanded: bool): (s: string)
    ensures s == "true" <==> expanded
    ensures s == "false" <==> !expanded
  {
    if expanded then "true" else "false"
  }

  /** What the toggle's `onexpand` callback sends: the entry's key and the flipped state. */
  function ToggleMessage(key: nat, expanded: bool): (nat, bool) {
    (key, !expanded)
  }

  /** Acting on the toggle's message twice returns to the original state. */
  lemma ToggleFlips(key: nat, expanded: bool)
    ensures ToggleMessage(key, expanded).0 == key
    ensures ToggleMessage(key, expanded).1 != expanded
    ensures ToggleMessage(key, ToggleMessage(key, expanded).1) == (key, expanded)
  {
  }

  /** The two rows of an expandable entry and the state of its toggle. */
  datatype ExpandableEntry = ExpandableEntry(
    bodyClass: seq<string>,
    buttonClass: seq<string>,
    ariaExpanded: string,
    onToggle: (nat, bool),
    top: seq<Td>,
    detailClass: seq<string>,
    details: seq<Td>)

  /** `render_expandable_entry`. */
  method RenderExpandableEntry(
    header: Option<Header>, key: nat, expanded: bool, actions: nat,
    fullWidth: Option<bool>, defaultFullWidth: bool, spans: seq<nat>)
    returns (entry: ExpandableEntry)
    ensures entry.ariaExpanded == AriaExpanded(expanded)
    ensures entry.onToggle == ToggleMessage(key, expanded)
    ensures "pf-m-expanded" in entry.buttonClass <==> expanded
    ensures entry.buttonClass == ["pf-c-button", "pf-m-plain"] + entry.bodyClass
    ensures entry.bodyClass == (if expanded then ["pf-m-expanded"] else [])
    ensures entry.detailClass == ["pf-c-table__expandable-row"] + entry.bodyClass
    ensures |entry.top| == 1 + |Columns(header)| + (if actions > 0 then 1 else 0)
    ensures entry.top[0] == Td(1, Toggle)
    ensures forall i :: 0 <= i < |Columns(header)| ==> entry.top[i + 1] == DataCell(Columns(header)[i])
    ensures actions > 0 ==> entry.top[|entry.top| - 1] == Td(1, ActionCell)
    ensures TotalSpan(entry.top) == |entry.top|
    ensures entry.details == DetailRow(|Columns(header)|, fullWidth.GetOr(defaultFullWidth), spans)
    ensures var lead := if fullWidth.GetOr(defaultFullWidth) then 0 else 1;
      actions == 0 && lead + SpanSum(spans[..Emitted(|Columns(header)| + 1 - lead, spans)]) <= |Columns(header)| + 1
      ==> TotalSpan(entry.details) == TotalSpan(entry.top)
  {
    var classes := ["pf-c-button"];
    classes := classes + ["pf-m-plain"];
    if expanded {
      classes := classes + ["pf-m-expanded"];
    }
    var aria := AriaExpanded(expanded);
    var expandedClass := [];
    if expanded {
      expandedClass := expandedClass + ["pf-m-expanded"];
    }
    var details := RenderDetails(header, fullWidth, defaultFullWidth, spans);
    var trClasses := ["pf-c-table__expandable-row"] + expandedClass;
    var onToggle := ToggleMessage(key, expanded);
    var top := RenderTopRow(header, actions);
    ButtonClassExpanded(expanded);
    ghost var full := fullWidth.GetOr(defaultFullWidth);
    ghost var lead := if full then 0 else 1;
    if actions == 0 && lead + SpanSum(spans[..Emitted(|Columns(header)| + 1 - lead, spans)]) <= |Columns(header)| + 1 {
      DetailRowAlignsWithTop(|Columns(header)|, full, spans);
    }
    entry := ExpandableEntry(expandedClass, classes, aria, onToggle, top, trClasses, details);
  }

  /** The toggle button carries "pf-m-expanded" exactly when the entry is expanded. */
  lemma ButtonClassExpanded(expanded: bool)
    ensures "pf-m-expanded" in ["pf-c-button", "pf-m-plain"] + (if expanded then ["pf-m-expanded"] else []) <==> expanded
  {
    assert "pf-c-button"[3] != "pf-m-expanded"[3];
    assert "pf-m-plain"[5] != "pf-m-expanded"[5];
  }

  /** The top row of an expandable entry: the toggle cell, then `render_row`'s cells. */
  method RenderTopRow(header: Option<Header>, actions: nat) returns (top: seq<Td>)
    ensures |top| == 1 + |Columns(header)| + (if actions > 0 then 1 else 0)
    ensures top[0] == Td(1, Toggle)
    ensures forall i :: 0 <= i < |Columns(header)| ==> top[i + 1] == DataCell(Columns(header)[i])
    ensures actions > 0 ==> top[|top| - 1] == Td(1, ActionCell)
    ensures TotalSpan(top) == |top|
  {
    var row := RenderRow(header, actions);
    top := [Td(1, Toggle)] + row;
    assert top[1..] == row;
    TotalSpanConcat([Td(1, Toggle)], row);
    assert TotalSpan([Td(1, Toggle)]) == 1 by { assert [Td(1, Toggle)][1..] == []; }
  }

  /**
   * Without an overrunning detail cell, the detail row spans exactly the toggle
   * column plus the header columns (the top row without its action cell).
   */
  lemma DetailRowAlignsWithTop(columns: nat, fullWidth: bool, spans: seq<nat>)
    requires var lead := if fullWidth then 0 else 1;
      lead + SpanSum(spans[..Emitted(columns + 1 - lead, spans)]) <= columns + 1
    ensures TotalSpan(DetailRow(columns, fullWidth, spans)) == 1 + columns
  {
    DetailRowSpan(columns, fullWidth, spans);
  }
}
