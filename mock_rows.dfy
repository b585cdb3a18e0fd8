/** The mock row generator `generateRows` (index.tsx:66-99): for a tab it builds
    20 rows, and gives each row an `id` and one display string per configured
    column. The value of a column is chosen by the first rule of a fixed cascade
    of tests on the column label that matches, and depends on the row index i.

    The amount rule draws from `Math.random()`; here the draw is a parameter,
    `draw(i, h)`, the amount in hundredths picked for column h of row i. */
module MockRows {
  import opened Text
  import opened Registry

  /** Rows generated per tab (index.tsx:68). */
  const RowCount: nat := 20

  /** Base of the incrementing identifier values (index.tsx:86). */
  const IdentifierBase: nat := 13444998

  /** The three names of the person rule, in the order they cycle (index.tsx:77). */
  const PersonNames: seq<string> := ["管理员", "廖林峰", "何旺1"]

  /** The four shop names of the shop-name rule (index.tsx:79). */
  const ShopNames: seq<string> := ["鲸佳家家庭服务官方旗舰店", "极修辣家庭维修旗舰店", "帮帮佳BSKA旗舰店", "今帮手旗舰店"]

  /** The rule of the cascade that picks a column's value. The second test of
      the cascade covers two rules: `Status` when the label contains 状态 and
      `Flag` (a yes/no column) otherwise. */
  datatype Rule =
    | Time | Flag | Status | Person | ShopName | Platform | Amount | Identifier
    | StarRating | ReviewGrade | Region | Placeholder

  /** The first test of the cascade (index.tsx:71-94) that the label passes. */
  function Classify(h: string): Rule
  {
    if Contains(h, "时间") || Contains(h, "日期") then Time
    else if Contains(h, "状态") || Contains(h, "是否") then
      (if Contains(h, "状态") then Status else Flag)
    else if Contains(h, "负责人") || Contains(h, "人") || Contains(h, "业务员") then Person
    else if Contains(h, "店铺名称") then ShopName
    else if Contains(h, "平台") || Contains(h, "来源") then Platform
    else if Contains(h, "金额") || Contains(h, "原价") then Amount
    else if Contains(h, "ID") || Contains(h, "单号") || Contains(h, "skuid") then Identifier
    else if h == "星级" then StarRating
    else if h == "评价等级" then ReviewGrade
    else if h == "区域" || h == "区域名称" then Region
    else Placeholder
  }

  /** An amount in hundredths that `(Math.random() * 500).toFixed(2)` can print:
      0.00 up to 500.00 (a draw just below 500 rounds up to 500.00). */
  type Cents = c: nat | c <= 50000

  /** The random source: the amount drawn for column h of row i. */
  type AmountSource = (nat, string) -> Cents

  /** The synthetic timestamp of row i (index.tsx:72). */
  function Timestamp(i: nat): string
  {
    "2025-11-" + Pad2(17 - i % 10) + " 17:" + Pad2(10 + i) + ":" + Pad2(i % 60)
  }

  /** The person rule's choice for row i (index.tsx:77). */
  function PersonName(i: nat): string
  {
    if i % 3 == 0 then "管理员" else if i % 3 == 1 then "廖林峰" else "何旺1"
  }

  /** The final value that column h gets in row i, given the amount drawn. */
  function CellValue(h: string, i: nat, amount: Cents): string
  {
    match Classify(h)
    case Time => Timestamp(i)
    case Flag => if i % 2 == 0 then "是" else "否"
    case Status => if i % 2 == 0 then "完成" else "待处理"
    case Person => PersonName(i)
    case ShopName => ShopNames[i % |ShopNames|]
    case Platform => if i % 2 == 0 then "京东" else "拼多多"
    case Amount => FixedTwo(amount)
    case Identifier => NatToString(IdentifierBase + i)
    case StarRating => "5"
    case ReviewGrade => "好评"
    case Region => "赣州市"
    case Placeholder => "--"
  }

  /** A generated row: the numeric `id` and the map from column label to value. */
  datatype Row = Row(id: nat, cells: map<string, string>)

  /** The labels of a tab's columns, as a set. */
  function HeaderSet(t: Tab): set<string>
  {
    set h | h in Lookup(t).headers
  }

  /** `row` is row i over the columns `headers`: its `id` is i + 1, it has a
      value for exactly the labels in `headers`, and each value is the one the
      cascade picks. */
  ghost predicate IsRow(row: Row, headers: seq<string>, i: nat, draw: AmountSource)
  {
    && row.id == i + 1
    && row.cells.Keys == (set h | h in headers)
    && forall h :: h in row.cells ==> row.cells[h] == CellValue(h, i, draw(i, h))
  }

  /** The body of the `config.headers.forEach` callback (index.tsx:70-95):
      assign to `row[h]` the value of the first rule whose test the label h
      passes. The status/flag branch first writes 是/否 and then, when the label
      contains 状态, overwrites it. */
  method AssignColumn(row: map<string, string>, h: string, i: nat, amount: Cents)
    returns (row': map<string, string>)
    ensures row'.Keys == row.Keys + {h}
    ensures row'[h] == CellValue(h, i, amount)
    ensures forall k :: k in row && k != h ==> row'[k] == row[k]
  {
    row' := row;
    if Contains(h, "时间") || Contains(h, "日期") {
      row' := row'[h := "2025-11-" + Pad2(17 - i % 10) + " 17:" + Pad2(10 + i) + ":" + Pad2(i % 60)];
      assert Classify(h) == Time;
    } else if Contains(h, "状态") || Contains(h, "是否") {
      row' := row'[h := if i % 2 == 0 then "是" else "否"];
      if Contains(h, "状态") {
        row' := row'[h := if i % 2 == 0 then "完成" else "待处理"];
        assert Classify(h) == Status;
      }
    } else if Contains(h, "负责人") || Contains(h, "人") || Contains(h, "业务员") {
      row' := row'[h := if i % 3 == 0 then "管理员" else if i % 3 == 1 then "廖林峰" else "何旺1"];
      assert Classify(h) == Person;
    } else if Contains(h, "店铺名称") {
      row' := row'[h := ShopNames[i % |ShopNames|]];
      assert Classify(h) == ShopName;
    } else if Contains(h, "平台") || Contains(h, "来源") {
      row' := row'[h := if i % 2 == 0 then "京东" else "拼多多"];
      assert Classify(h) == Platform;
    } else if Contains(h, "金额") || Contains(h, "原价") {
      row' := row'[h := FixedTwo(amount)];
      assert Classify(h) == Amount;
    } else if Contains(h, "ID") || Contains(h, "单号") || Contains(h, "skuid") {
      row' := row'[h := NatToString(IdentifierBase + i)];
      assert Classify(h) == Identifier;
    } else if h == "星级" {
      row' := row'[h := "5"];
      assert Classify(h) == StarRating;
    } else if h == "评价等级" {
      row' := row'[h := "好评"];
      assert Classify(h) == ReviewGrade;
    } else if h == "区域" || h == "区域名称" {
      row' := row'[h := "赣州市"];
      assert Classify(h) == Region;
    } else {
      row' := row'[h := "--"];
      assert Classify(h) == Placeholder;
    }
  }

  /** The callback of `Array.from(...).map` (index.tsx:68-98): start the row
      with its `id`, then assign every column in order. */
  method BuildRow(headers: seq<string>, i: nat, draw: AmountSource) returns (row: Row)
    ensures row.id == i + 1
    ensures row.cells.Keys == set h | h in headers
    ensures forall h :: h in row.cells ==> row.cells[h] == CellValue(h, i, draw(i, h))
  {
    var cells: map<string, string> := map[];
    var k := 0;
    while k < |headers|
      invariant k <= |headers|
      invariant cells.Keys == set h | h in headers[..k]
      invariant forall h :: h in cells ==> cells[h] == CellValue(h, i, draw(i, h))
    {
      var h := headers[k];
      cells := AssignColumn(cells, h, i, draw(i, h));
      assert headers[..k + 1] == headers[..k] + [h];
      k := k + 1;
    }
    assert headers[..k] == headers;
    row := Row(i + 1, cells);
  }

  /** The `Array.from({ length: 20 }, ...)` loop of `generateRows` over the
      column labels `headers`: exactly `RowCount` rows, row i built by `BuildRow`. */
  method BuildRows(headers: seq<string>, draw: AmountSource) returns (rows: seq<Row>)
    ensures |rows| == RowCount
    ensures forall i :: 0 <= i < |rows| ==> IsRow(rows[i], headers, i, draw)
  {
    rows := [];
    var i := 0;
    while i < RowCount
      invariant i <= RowCount && |rows| == i
      invariant forall j :: 0 <= j < i ==> IsRow(rows[j], headers, j, draw)
    {
      var row := BuildRow(headers, i, draw);
      rows := rows + [row];
      i := i + 1;
    }
  }

  /** `generateRows(tab)`: exactly `RowCount` rows, row i with `id` i + 1 and
      one value for every configured column of the tab and no other. */
  method GenerateRows(t: Tab, draw: AmountSource) returns (rows: seq<Row>)
    ensures |rows| == RowCount
    ensures forall i :: 0 <= i < |rows| ==> rows[i].id == i + 1 && rows[i].cells.Keys == HeaderSet(t)
    ensures forall i :: 0 <= i < |rows| ==> IsRow(rows[i], Lookup(t).headers, i, draw)
  {
    rows := BuildRows(Lookup(t).headers, draw);
  }
}
