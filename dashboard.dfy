/** The decisions the dashboard screen takes from the same configuration: the
    widget of each search field (index.tsx:166-177), the table header and the
    cells of a table row (index.tsx:244-266), the label of the action button
    and whether the delete button is shown (index.tsx:269-271), the displayed
    row number (index.tsx:228, 258) and the two state cells of `App` with the
    tab-switch handler (index.tsx:226-236). */
module Dashboard {
  import opened Text
  import opened Registry
  import opened MockRows
  import MockRowsProperties

  // ---------------------------------------------------------------------------
  // Search panel
  // ---------------------------------------------------------------------------

  /** The three widgets a search field can be rendered as. */
  datatype Widget = DateRange | Select | TextInput

  /** `renderField`'s choice (index.tsx:166-177): two date inputs for a time or
      date label, a drop-down for a status, source, platform or yes/no label
      and for the exact label 评论等级, a text input otherwise. */
  function WidgetFor(field: string): Widget
  {
    if Contains(field, "时间") || Contains(field, "日期") then DateRange
    else if Contains(field, "状态") || Contains(field, "来源") || Contains(field, "平台") || Contains(field, "是否")
      || field == "评论等级" then Select
    else TextInput
  }

  /** The search panel shows a date range exactly for the labels to which the
      row generator gives a timestamp: both use the same first test. */
  lemma DateRangeExactlyForTimeColumns(field: string)
    ensures WidgetFor(field) == DateRange <==> Classify(field) == Time
  {
  }

  /** A label that the row generator fills with 完成/待处理, 是/否 or a platform
      name is searched with a drop-down. */
  lemma ChoiceColumnsHaveDropDowns(field: string)
    requires Classify(field) == Status || Classify(field) == Flag || Classify(field) == Platform
    ensures WidgetFor(field) == Select
  {
  }

  /** The review-grade search field (a label of the review-management tab) gets a
      drop-down through the exact-match test, since it contains none of the
      substring markers. */
  lemma ReviewGradeFieldIsSelect()
    ensures WidgetFor("评论等级") == Select
  {
    var f := "评论等级";
    MissingCharacter(f, "时间", 0); MissingCharacter(f, "日期", 0); MissingCharacter(f, "状态", 0);
    MissingCharacter(f, "来源", 0); MissingCharacter(f, "平台", 0); MissingCharacter(f, "是否", 0);
  }

  /** The widgets of a tab's search fields, in the panel's order. */
  function SearchWidgets(t: Tab): (w: seq<Widget>)
    ensures |w| == |Lookup(t).search|
    ensures forall k :: 0 <= k < |w| ==> w[k] == WidgetFor(Lookup(t).search[k])
  {
    var fields := Lookup(t).search;
    seq(|fields|, k requires 0 <= k < |fields| => WidgetFor(fields[k]))
  }

  // ---------------------------------------------------------------------------
  // Row actions
  // ---------------------------------------------------------------------------

  /** The label of the first action button (index.tsx:269). */
  function ActionLabel(t: Tab): string
  {
    if TabName(t) == "客服管理" then "绑定系统用户"
    else if Contains(TabName(t), "管理") then "修改"
    else "详情"
  }

  /** Whether a row shows the delete button (index.tsx:271). */
  predicate ShowsDelete(t: Tab)
  {
    TabName(t) != "评价统计" && TabName(t) != "客服管理"
  }

  /** Which tabs get which action label: 修改 for the four other tabs whose name
      contains 管理, 详情 for the tabs without it. */
  lemma ActionLabels(t: Tab)
    ensures ActionLabel(t) == "绑定系统用户" <==> t == CustomerServiceManagement
    ensures ActionLabel(t) == "修改" <==>
      t in {StoreManagement, ReviewManagement, ProductManagement, OrderSyncManagement}
    ensures ActionLabel(t) == "详情" <==> t in {ReviewStatistics, JdOrders}
  {
    TabNameInjective(t, CustomerServiceManagement);
    var name := TabName(t);
    match t
    case StoreManagement => OccurrenceAt(name, "管理", 5);
    case ReviewManagement => OccurrenceAt(name, "管理", 2);
    case ReviewStatistics => MissingCharacter(name, "管理", 0);
    case ProductManagement => OccurrenceAt(name, "管理", 2);
    case CustomerServiceManagement =>
    case JdOrders => MissingCharacter(name, "管理", 0);
    case OrderSyncManagement => OccurrenceAt(name, "管理", 7);
  }

  /** Delete is offered on every tab except the statistics and customer-service
      tabs, and wherever it is offered the first button reads 修改 or 详情. */
  lemma DeleteButtons(t: Tab)
    ensures ShowsDelete(t) <==> t != ReviewStatistics && t != CustomerServiceManagement
    ensures ShowsDelete(t) ==> ActionLabel(t) == "修改" || ActionLabel(t) == "详情"
  {
    TabNameInjective(t, ReviewStatistics);
    TabNameInjective(t, CustomerServiceManagement);
    ActionLabels(t);
  }

  // ---------------------------------------------------------------------------
  // Table
  // ---------------------------------------------------------------------------

  /** Rows per page (index.tsx:228). */
  const PageSize: nat := 20

  /** The number in the first column of the row at position idx of page `page`
      (index.tsx:258). */
  function RowNumber(page: nat, idx: nat): nat
    requires page >= 1
  {
    (page - 1) * PageSize + idx + 1
  }

  /** On page 1 the numbers are the positions counted from 1. */
  lemma FirstPageNumbers(idx: nat)
    ensures RowNumber(1, idx) == idx + 1
  {
  }

  /** The rows of page p are numbered (p - 1) * 20 + 1 up to p * 20. */
  lemma PageNumberRange(page: nat, idx: nat)
    requires page >= 1 && idx < PageSize
    ensures (page - 1) * PageSize < RowNumber(page, idx) <= page * PageSize
  {
  }

  /** A row number tells its page and position back: numbers never repeat
      across pages. */
  lemma RowNumberRoundTrip(page: nat, idx: nat)
    requires page >= 1 && idx < PageSize
    ensures (RowNumber(page, idx) - 1) / PageSize + 1 == page
    ensures (RowNumber(page, idx) - 1) % PageSize == idx
  {
    var q, r := page - 1, idx;
    assert RowNumber(page, idx) - 1 == q * PageSize + r;
    DivModUnique(q * PageSize + r, q, r);
  }

  lemma DivModUnique(n: nat, q: nat, r: nat)
    requires r < PageSize && n == q * PageSize + r
    ensures n / PageSize == q && n % PageSize == r
  {
  }

  /** The header row over the tab's column labels `headers`: 序号, the labels
      in order, then 操作 (index.tsx:244-248). */
  function TableHeader(headers: seq<string>): (hs: seq<string>)
    ensures |hs| == |headers| + 2
    ensures hs[0] == "序号" && hs[|hs| - 1] == "操作"
    ensures hs[1..|hs| - 1] == headers
  {
    ["序号"] + headers + ["操作"]
  }

  /** What a data cell shows (index.tsx:259-263): the green 好评 badge for the
      review-grade column, the row's value otherwise; a missing key renders as
      nothing. */
  function DisplayCell(row: Row, h: string): string
  {
    if h == "评价等级" then "好评"
    else if h in row.cells then row.cells[h]
    else ""
  }

  /** The text cells of the table row at position idx of page `page`: its number,
      then one cell per column label in order (index.tsx:258-264). The action
      cell that follows holds buttons, given by `ActionLabel` and `ShowsDelete`. */
  function TableRow(headers: seq<string>, page: nat, idx: nat, row: Row): (cells: seq<string>)
    requires page >= 1
    ensures |cells| == |TableHeader(headers)| - 1
    ensures cells[0] == NatToString(RowNumber(page, idx))
    ensures forall k :: 1 <= k < |cells| ==> cells[k] == DisplayCell(row, TableHeader(headers)[k])
  {
    [NatToString(RowNumber(page, idx))]
      + seq(|headers|, k requires 0 <= k < |headers| => DisplayCell(row, headers[k]))
  }

  /** For a generated row the table shows exactly the stored values: the
      review-grade badge says what the generator put there anyway. */
  lemma DisplayShowsStoredValue(row: Row, h: string, i: nat, amount: Cents)
    requires h in row.cells && row.cells[h] == CellValue(h, i, amount)
    ensures DisplayCell(row, h) == row.cells[h]
  {
    if h == "评价等级" {
      MockRowsProperties.NoSubstringTestPasses(h);
    }
  }

  /** Hence every data cell of a generated row shows the value the cascade
      picked for its column. */
  lemma DisplayShowsGeneratedValue(row: Row, headers: seq<string>, i: nat, draw: AmountSource, h: string)
    requires IsRow(row, headers, i, draw) && h in headers
    ensures DisplayCell(row, h) == CellValue(h, i, draw(i, h))
  {
    DisplayShowsStoredValue(row, h, i, draw(i, h));
  }

  // ---------------------------------------------------------------------------
  // Screen state
  // ---------------------------------------------------------------------------

  /** The two state cells of `App` (index.tsx:226-227). */
  class App {
    var activeTab: Tab
    var currentPage: nat

    /** The row-number formula needs a page of at least 1. */
    ghost predicate Valid()
      reads this
    {
      currentPage >= 1
    }

    /** The initial state: the store-management tab, page 1. */
    constructor ()
      ensures Valid()
      ensures activeTab == StoreManagement && currentPage == 1
    {
      activeTab := StoreManagement;
      currentPage := 1;
    }

    /** The tab selector's `onSelect` (index.tsx:236): switch to t and go back to
        page 1. The source never writes a page other than 1. */
    method SelectTab(t: Tab)
      modifies this
      ensures Valid()
      ensures activeTab == t && currentPage == 1
    {
      activeTab := t;
      currentPage := 1;
    }

    /** The rows the table shows (index.tsx:231): those generated for the
        active tab. */
    method Data(draw: AmountSource) returns (rows: seq<Row>)
      ensures |rows| == RowCount
      ensures forall i :: 0 <= i < |rows| ==> IsRow(rows[i], Lookup(activeTab).headers, i, draw)
    {
      rows := GenerateRows(activeTab, draw);
    }

    /** The numbers in the first column, in row order. */
    function RowNumbers(): (ns: seq<nat>)
      reads this
      requires Valid()
      ensures |ns| == RowCount
      ensures forall idx :: 0 <= idx < RowCount ==> ns[idx] == RowNumber(currentPage, idx)
      ensures currentPage == 1 ==> forall idx :: 0 <= idx < RowCount ==> ns[idx] == idx + 1
    {
      var page := currentPage;
      seq(RowCount, idx requires 0 <= idx < RowCount => RowNumber(page, idx))
    }
  }
}
