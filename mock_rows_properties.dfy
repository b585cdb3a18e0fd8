/** What the cascade of `generateRows` (index.tsx:71-95) decides: its priority
    order, the rule some telling labels fall into, the shape of the values each
    rule produces, and that only the amount rule depends on the random draw. */
module MockRowsProperties {
  import opened Text
  import opened MockRows

  // ---------------------------------------------------------------------------
  // Priority order of the cascade
  // ---------------------------------------------------------------------------

  /** A label with a date/time marker always gets the timestamp, whatever else
      it contains. */
  lemma TimeRuleComesFirst(h: string, i: nat, amount: Cents)
    requires Contains(h, "时间") || Contains(h, "日期")
    ensures Classify(h) == Time && CellValue(h, i, amount) == Timestamp(i)
  {
  }

  /** A label with 状态 (and no time marker) ends with 完成 / 待处理: the 是 / 否
      written first by the same branch is overwritten. */
  lemma StatusOverridesFlag(h: string, i: nat, amount: Cents)
    requires !Contains(h, "时间") && !Contains(h, "日期") && Contains(h, "状态")
    ensures CellValue(h, i, amount) == if i % 2 == 0 then "完成" else "待处理"
    ensures CellValue(h, i, amount) != "是" && CellValue(h, i, amount) != "否"
  {
  }

  /** A label with 是否 but neither 状态 nor a time marker gets 是 on even rows
      and 否 on odd rows. */
  lemma FlagAlternates(h: string, i: nat, amount: Cents)
    requires !Contains(h, "时间") && !Contains(h, "日期") && !Contains(h, "状态") && Contains(h, "是否")
    ensures CellValue(h, i, amount) == if i % 2 == 0 then "是" else "否"
  {
  }

  /** The 负责人 test of the person rule is subsumed by its 人 test: a label
      passes the rule's tests exactly when it contains 人 or 业务员. */
  lemma PersonTestSimplifies(h: string)
    ensures (Contains(h, "负责人") || Contains(h, "人") || Contains(h, "业务员"))
        <==> (Contains(h, "人") || Contains(h, "业务员"))
  {
    if Contains(h, "负责人") {
      assert Contains("负责人", "人");
      ContainsTransitive(h, "负责人", "人");
    }
  }

  /** A label that lacks the characters below passes none of the substring
      tests of the cascade, so only the exact-match rules can still apply. */
  lemma NoSubstringTestPasses(h: string)
    requires '时' !in h && '日' !in h && '状' !in h && '是' !in h && '负' !in h && '人' !in h
    requires '业' !in h && '店' !in h && '平' !in h && '来' !in h && '金' !in h && '原' !in h
    requires 'I' !in h && ('单' !in h || '号' !in h) && 's' !in h
    ensures Classify(h) == if h == "星级" then StarRating
      else if h == "评价等级" then ReviewGrade
      else if h == "区域" || h == "区域名称" then Region
      else Placeholder
  {
    MissingCharacter(h, "时间", 0); MissingCharacter(h, "日期", 0); MissingCharacter(h, "状态", 0);
    MissingCharacter(h, "是否", 0); MissingCharacter(h, "负责人", 0); MissingCharacter(h, "人", 0);
    MissingCharacter(h, "业务员", 0); MissingCharacter(h, "店铺名称", 0); MissingCharacter(h, "平台", 0);
    MissingCharacter(h, "来源", 0); MissingCharacter(h, "金额", 0); MissingCharacter(h, "原价", 0);
    MissingCharacter(h, "ID", 0); MissingCharacter(h, "skuid", 0);
    if '单' !in h {
      MissingCharacter(h, "单号", 0);
    } else {
      MissingCharacter(h, "单号", 1);
    }
  }

  // Each lemma below settles the cascade for one concrete label; the value the
  // column then gets is the one `CellValue` gives for that rule.

  lemma StarRatingLabel()
    ensures Classify("星级") == StarRating
  {
    NoSubstringTestPasses("星级");
  }

  lemma ReviewGradeLabel()
    ensures Classify("评价等级") == ReviewGrade
  {
    NoSubstringTestPasses("评价等级");
  }

  lemma RegionLabel()
    ensures Classify("区域") == Region
  {
    NoSubstringTestPasses("区域");
  }

  lemma RegionNameLabel()
    ensures Classify("区域名称") == Region
  {
    NoSubstringTestPasses("区域名称");
  }

  /** The exact-match rules fire for their labels and for no other label. */
  lemma ExactMatchRules(h: string)
    ensures Classify(h) == StarRating <==> h == "星级"
    ensures Classify(h) == ReviewGrade <==> h == "评价等级"
    ensures Classify(h) == Region <==> h == "区域" || h == "区域名称"
  {
    if h == "星级" {
      StarRatingLabel();
    } else if h == "评价等级" {
      ReviewGradeLabel();
    } else if h == "区域" {
      RegionLabel();
    } else if h == "区域名称" {
      RegionNameLabel();
    }
  }

  /** The identifier test is case-sensitive: 京东订单id falls through to the
      placeholder. */
  lemma LowerCaseIdLabel()
    ensures Classify("京东订单id") == Placeholder
  {
    NoSubstringTestPasses("京东订单id");
  }

  /** 客服编号 is a number but contains neither ID nor 单号: placeholder. */
  lemma CustomerServiceNumberLabel()
    ensures Classify("客服编号") == Placeholder
  {
    NoSubstringTestPasses("客服编号");
  }

  /** 纳税人识别号 is a person column because it contains 人. */
  lemma TaxpayerNumberLabel()
    ensures Classify("纳税人识别号") == Person
  {
    var h := "纳税人识别号";
    MissingCharacter(h, "时间", 0); MissingCharacter(h, "日期", 0); MissingCharacter(h, "状态", 0);
    MissingCharacter(h, "是否", 0);
    OccurrenceAt(h, "人", 2);
  }

  /** 录单失败处理状态 contains 状态 (and no time marker): a status column, so it
      shows 完成 / 待处理 and never 是 / 否. */
  lemma FailureHandlingStatusLabel()
    ensures Classify("录单失败处理状态") == Status
  {
    var h := "录单失败处理状态";
    MissingCharacter(h, "时间", 0); MissingCharacter(h, "日期", 0);
    OccurrenceAt(h, "状态", 6);
  }

  /** 业务员选择状态 names 业务员, but the status test comes first. */
  lemma OperatorChoiceStatusLabel()
    ensures Classify("业务员选择状态") == Status
  {
    var h := "业务员选择状态";
    MissingCharacter(h, "时间", 0); MissingCharacter(h, "日期", 0);
    OccurrenceAt(h, "状态", 5);
  }

  /** 业务员操作时间 names 业务员, but the time test comes first. */
  lemma OperatorTimeLabel()
    ensures Classify("业务员操作时间") == Time
  {
    OccurrenceAt("业务员操作时间", "时间", 5);
  }

  // ---------------------------------------------------------------------------
  // The values each rule produces
  // ---------------------------------------------------------------------------

  /** For every generated row (i < 20) the timestamp is `2025-11-DD 17:MM:SS`,
      19 characters long, with day 17 - i % 10 (between 08 and 17), minute
      10 + i (between 10 and 29) and second i. */
  lemma TimestampFormat(i: nat)
    requires i < RowCount
    ensures var ts := Timestamp(i);
      && |ts| == 19
      && ts[..8] == "2025-11-" && ts[10..14] == " 17:" && ts[16] == ':'
      && AllDigits(ts[8..10]) && AllDigits(ts[14..16]) && AllDigits(ts[17..19])
      && DigitsValue(ts[8..10]) == 17 - i % 10 && 8 <= DigitsValue(ts[8..10]) <= 17
      && DigitsValue(ts[14..16]) == 10 + i && 10 <= DigitsValue(ts[14..16]) <= 29
      && DigitsValue(ts[17..19]) == i
  {
    assert i % 60 == i;
    TimestampFields(17 - i % 10, 10 + i, i % 60);
  }

  /** The layout of `2025-11-DD 17:MM:SS` for two-digit day, minute and second. */
  lemma TimestampFields(day: nat, minute: nat, second: nat)
    requires day < 100 && minute < 100 && second < 100
    ensures var ts := "2025-11-" + Pad2(day) + " 17:" + Pad2(minute) + ":" + Pad2(second);
      && |ts| == 19 && ts[..8] == "2025-11-" && ts[10..14] == " 17:" && ts[16] == ':'
      && AllDigits(ts[8..10]) && DigitsValue(ts[8..10]) == day
      && AllDigits(ts[14..16]) && DigitsValue(ts[14..16]) == minute
      && AllDigits(ts[17..19]) && DigitsValue(ts[17..19]) == second
  {
    Pad2Digits(day);
    Pad2Digits(minute);
    Pad2Digits(second);
    TimestampLayout(Pad2(day), Pad2(minute), Pad2(second));
  }

  /** Where the pieces of `2025-11-DD 17:MM:SS` sit, for any two-character
      fields. */
  lemma TimestampLayout(d: string, m: string, s: string)
    requires |d| == 2 && |m| == 2 && |s| == 2
    ensures var ts := "2025-11-" + d + " 17:" + m + ":" + s;
      && |ts| == 19 && ts[..8] == "2025-11-" && ts[10..14] == " 17:" && ts[16] == ':'
      && ts[8..10] == d && ts[14..16] == m && ts[17..19] == s
  {
    var ts := "2025-11-" + d + " 17:" + m + ":" + s;
    assert ts[..8] == "2025-11-";
    assert ts[8..10] == d;
    assert ts[10..14] == " 17:";
    assert ts[14..16] == m;
    assert ts[17..19] == s;
  }

  /** No two generated rows share a timestamp (their minutes differ). */
  lemma TimestampsDistinct(i: nat, j: nat)
    requires i < RowCount && j < RowCount && i != j
    ensures Timestamp(i) != Timestamp(j)
  {
    TimestampFormat(i);
    TimestampFormat(j);
  }

  /** A person column cycles through the three names with period 3. */
  lemma PersonCycles(h: string, i: nat, a: Cents, b: Cents)
    requires Classify(h) == Person
    ensures CellValue(h, i, a) == PersonNames[i % 3]
    ensures CellValue(h, i + 3, b) == CellValue(h, i, a)
  {
    assert (i + 3) % 3 == i % 3;
  }

  /** A shop-name column cycles through the four shop names with period 4. */
  lemma ShopNameCycles(h: string, i: nat, a: Cents, b: Cents)
    requires Classify(h) == ShopName
    ensures CellValue(h, i, a) == ShopNames[i % 4]
    ensures CellValue(h, i + 4, b) == CellValue(h, i, a)
  {
    assert (i + 4) % 4 == i % 4;
  }

  /** Platform/source columns, like flag and status columns, alternate with
      period 2, starting with 京东 on row 0. */
  lemma PlatformAlternates(h: string, i: nat, a: Cents, b: Cents)
    requires Classify(h) == Platform
    ensures CellValue(h, i, a) == if i % 2 == 0 then "京东" else "拼多多"
    ensures CellValue(h, i + 2, b) == CellValue(h, i, a)
  {
    assert (i + 2) % 2 == i % 2;
  }

  /** An identifier column holds the decimal digits of 13444998 + i: eight
      digits for every generated row, one more than the row before. */
  lemma IdentifierIncrements(h: string, i: nat, amount: Cents)
    requires Classify(h) == Identifier
    ensures AllDigits(CellValue(h, i, amount))
    ensures DigitsValue(CellValue(h, i, amount)) == IdentifierBase + i
    ensures i < RowCount ==> |CellValue(h, i, amount)| == 8
  {
    NatToStringRoundTrip(IdentifierBase + i);
    if i < RowCount {
      assert Pow10(7) == 10000000 && Pow10(8) == 100000000;
      NatToStringLength(IdentifierBase + i, 8);
    }
  }

  /** An amount column prints its draw with two decimals: the digits before
      the point read back as the whole part of the amount, at most 500, and
      the two after it as its hundredths. */
  lemma AmountFormat(h: string, i: nat, amount: Cents)
    requires Classify(h) == Amount
    ensures var v := CellValue(h, i, amount);
      && |v| >= 4 && v[|v| - 3] == '.'
      && AllDigits(v[..|v| - 3]) && DigitsValue(v[..|v| - 3]) == amount / 100 <= 500
      && AllDigits(v[|v| - 2..]) && DigitsValue(v[|v| - 2..]) == amount % 100
  {
    FixedTwoRoundTrip(amount);
  }

  /** Every rule except the amount rule gives a value fixed by the label and
      the row index alone. */
  lemma OnlyAmountIsRandom(h: string, i: nat, a: Cents, b: Cents)
    ensures Classify(h) != Amount ==> CellValue(h, i, a) == CellValue(h, i, b)
    ensures Classify(h) == Amount ==> (CellValue(h, i, a) == CellValue(h, i, b) <==> a == b)
  {
    if Classify(h) == Amount {
      FixedTwoInjective(a, b);
    }
  }

  /** Two generations of row i over the same columns, whatever amounts they
      draw, agree on the `id`, on the set of keys and on every value that is not
      an amount. */
  lemma RowsAgreeExceptAmounts(r1: Row, r2: Row, headers: seq<string>, i: nat, d1: AmountSource, d2: AmountSource)
    requires IsRow(r1, headers, i, d1) && IsRow(r2, headers, i, d2)
    ensures r1.id == r2.id && r1.cells.Keys == r2.cells.Keys
    ensures forall h :: h in r1.cells && Classify(h) != Amount ==> r1.cells[h] == r2.cells[h]
  {
    forall h | h in r1.cells && Classify(h) != Amount
      ensures r1.cells[h] == r2.cells[h]
    {
      OnlyAmountIsRandom(h, i, d1(i, h), d2(i, h));
    }
  }
}
