# E-commerce back-office dashboard: tab registry and mock row generator

This project models the one piece of logic in the single-page back-office
dashboard of `index.tsx`, and proves properties of the model. The dashboard has
seven tabs: store management, review management, review statistics, product
management, customer-service management, JD orders and third-party order sync.

- **Registry.** `TAB_CONFIGS` gives each tab three ordered label lists: search
  fields, table columns and toolbar buttons. Module `Registry` holds the tabs as
  a datatype and the lists exactly as written.
- **Text.** Module `Text` holds the string operations the dashboard uses:
  - `includes`, proved equal, in both directions, to "occurs at some position";
  - `String(n)` for a non-negative integer, proved a bijection onto digit
    strings without leading zeros;
  - `padStart` with a one-character fill;
  - `toFixed(2)` of an amount given in hundredths.
- **Row generator.** `generateRows(tab)` builds 20 rows. Each row gets an `id`
  and one value per column, chosen by the first rule of an ordered cascade of
  substring and equality tests on the column label. Module `MockRows` models it
  imperatively, as in the source:
  - `AssignColumn` is the body of the `forEach` callback. It writes 是/否 and then
    overwrites it with 完成/待处理 for a status label.
  - `BuildRow` is the loop over the columns that grows the row's map.
  - `BuildRows` and `GenerateRows` are the loop over the 20 row indices.

  Each method is proved against the cascade function `Classify` and the value
  function `CellValue`. Module `MockRowsProperties` proves what the cascade
  decides: its priority order, the rule of the labels where the outcome is not
  obvious, the shape of every rule's values, and that only the amount rule
  depends on the random draw.
- **Screen.** Module `Dashboard` models the rest of the screen that reads the
  same configuration:
  - the widget of each search field;
  - the header row and the text cells of a table row;
  - the action-button label and whether delete is shown;
  - the displayed row number;
  - class `App`, the two state cells `activeTab` and `currentPage`, with the
    tab-switch handler that resets the page to 1.

Inputs from outside become parameters. The amount rule calls `Math.random()`.
Here the draw is a function `draw(i, h)`, which gives the amount in hundredths
for column h of row i. The code prints `(Math.random() * 500).toFixed(2)`, which
is 500.00 when the draw rounds up, so an amount is any whole number of
hundredths from 0 to 50000.

Strings are sequences of Unicode scalar values. JavaScript works on UTF-16 code
units, but every label and value here lies in the Basic Multilingual Plane,
where the two coincide.

The only UI state in `index.tsx` is `activeTab` and `currentPage`. There is no
state for showing or hiding the search panel, so the model has none.

## Model

| member | source | states |
|---|---|---|
| Text.ContainsIff | index.tsx:71-94 | `includes` holds exactly when the substring occurs at some position (both directions) |
| Text.ContainsTransitive | index.tsx:76 | if s contains t and t contains u, then s contains u |
| Text.MissingCharacter | index.tsx:71-94 | a string lacking one character of `sub` does not contain `sub` |
| Text.OccurrenceAt | index.tsx:71-94 | a character-by-character match at position k makes `includes` true |
| Text.NatToStringRoundTrip | index.tsx:86 | reading back the digits of `String(n)` gives n |
| Text.DigitsRoundTrip | index.tsx:86 | every digit string without a leading zero is `String` of its value, so `String` is onto such strings |
| Text.NatToStringLength | index.tsx:86 | if 10^(k-1) <= n < 10^k, then `String(n)` has k digits |
| Text.NatToStringLengthRange | index.tsx:86 | conversely, if `String(n)` has k digits, then 10^(k-1) <= n < 10^k (10^0 <= n is not claimed for k = 1, so n = 0 is included) |
| Text.PadStartShape | index.tsx:72 | `padStart` keeps the string as the suffix and fills everything before it with the fill character |
| Text.Pad2Digits | index.tsx:72 | below 100, `String(n).padStart(2,'0')` is two digits that read back as n |
| Text.FixedTwoRoundTrip | index.tsx:84 | `toFixed(2)` is digits, a point and two digits, which read back as the whole part and the hundredths |
| Text.FixedTwoInjective | index.tsx:84 | two amounts print the same exactly when they are equal |
| Registry.TabNameInjective | index.tsx:22 | different tabs have different names, so the name identifies the tab |
| Registry.LabelsDistinct | index.tsx:26-62 | in `TAB_CONFIGS` (modelled by `Registry.Lookup` with the lists as written), no tab lists the same search field, column or button twice, as the React keys at index.tsx:164, 200, 247 and 260 require |
| Registry.SelectorListsEveryTabOnce | index.tsx:119 | the tab selector lists all seven tabs, each once |
| MockRows.AssignColumn | index.tsx:70-95 | the callback adds exactly key h, gives it the value of the first matching rule, and leaves every other key unchanged |
| MockRows.BuildRow | index.tsx:68-97 | row i has id i + 1, a key for exactly the labels in `headers`, and at each key the cascade's value |
| MockRows.BuildRows | index.tsx:68-98 | exactly 20 rows, row i as `BuildRow` gives it |
| MockRows.GenerateRows | index.tsx:66-99 | `generateRows(tab)` returns 20 rows; row i has id i + 1, keys exactly the tab's column labels, and the cascade's values |
| MockRowsProperties.TimeRuleComesFirst | index.tsx:71-72 | a label containing 时间 or 日期 gets the timestamp, whatever else it contains |
| MockRowsProperties.StatusOverridesFlag | index.tsx:73-75 | a label with 状态 and no time marker ends up with 完成/待处理, never 是/否 |
| MockRowsProperties.FlagAlternates | index.tsx:73-74 | a label with 是否, without 状态 or a time marker, gets 是 on even rows and 否 on odd rows |
| MockRowsProperties.PersonTestSimplifies | index.tsx:76 | the person rule's 负责人 test is subsumed by its 人 test |
| MockRowsProperties.NoSubstringTestPasses | index.tsx:71-94 | a label without the cascade's marker characters fails every substring test, so only the exact-match rules or the fallback apply |
| MockRowsProperties.StarRatingLabel | index.tsx:87-88 | 星级 falls into the star-rating rule |
| MockRowsProperties.ReviewGradeLabel | index.tsx:89-90 | 评价等级 falls into the review-grade rule |
| MockRowsProperties.RegionLabel | index.tsx:91-92 | 区域 falls into the region rule |
| MockRowsProperties.RegionNameLabel | index.tsx:91-92 | 区域名称 falls into the region rule |
| MockRowsProperties.ExactMatchRules | index.tsx:87-92 | the star-rating, review-grade and region rules fire for their exact labels and no other (both directions) |
| MockRowsProperties.LowerCaseIdLabel | index.tsx:85-94 | 京东订单id falls through to the placeholder, because the ID test is case-sensitive |
| MockRowsProperties.CustomerServiceNumberLabel | index.tsx:85-94 | 客服编号 falls through to the placeholder |
| MockRowsProperties.TaxpayerNumberLabel | index.tsx:76-77 | 纳税人识别号 is a person column, because it contains 人 |
| MockRowsProperties.FailureHandlingStatusLabel | index.tsx:73-75 | 录单失败处理状态 is a status column |
| MockRowsProperties.OperatorChoiceStatusLabel | index.tsx:73-76 | 业务员选择状态 is a status column, although it names 业务员 |
| MockRowsProperties.OperatorTimeLabel | index.tsx:71-76 | 业务员操作时间 is a time column, although it names 业务员 |
| MockRowsProperties.TimestampFormat | index.tsx:72 | for i < 20 the timestamp is `2025-11-DD 17:MM:SS`, 19 long, day 17 - i%10 in 8..17, minute 10 + i in 10..29, second i |
| MockRowsProperties.TimestampFields | index.tsx:72 | where the day, minute and second fields sit in the timestamp, and their values |
| MockRowsProperties.TimestampsDistinct | index.tsx:72 | no two of the 20 rows share a timestamp |
| MockRowsProperties.PersonCycles | index.tsx:77 | person columns run through 管理员, 廖林峰, 何旺1 with period 3 |
| MockRowsProperties.ShopNameCycles | index.tsx:78-80 | shop-name columns run through the four names with period 4 |
| MockRowsProperties.PlatformAlternates | index.tsx:81-82 | platform/source columns alternate 京东 and 拼多多 with period 2 |
| MockRowsProperties.IdentifierIncrements | index.tsx:85-86 | an identifier column holds the digits of 13444998 + i, eight digits for every generated row |
| MockRowsProperties.AmountFormat | index.tsx:83-84 | an amount column prints its draw with two decimals; the whole part is at most 500 |
| MockRowsProperties.OnlyAmountIsRandom | index.tsx:71-95 | every non-amount value is fixed by label and row index; an amount value differs exactly when the draw differs |
| MockRowsProperties.RowsAgreeExceptAmounts | index.tsx:68-96 | two generations of a row agree on id, keys and every non-amount value |
| Dashboard.DateRangeExactlyForTimeColumns | index.tsx:166 | a search field is a date range exactly when the generator gives that label a timestamp |
| Dashboard.ChoiceColumnsHaveDropDowns | index.tsx:172 | labels the generator fills with status, yes/no or platform values get a drop-down |
| Dashboard.ReviewGradeFieldIsSelect | index.tsx:172 | the 评论等级 search field is a drop-down, through the exact-match test |
| Dashboard.SearchWidgets | index.tsx:187 | one widget per search field of the tab, in order, each chosen by `renderField` |
| Dashboard.ActionLabels | index.tsx:269 | 绑定系统用户 exactly for 客服管理; 修改 exactly for the four other tabs whose name contains 管理; 详情 exactly for 评价统计 and 京东订单 |
| Dashboard.DeleteButtons | index.tsx:271 | delete is shown exactly on the tabs other than 评价统计 and 客服管理; where shown, the first button is 修改 or 详情 |
| Dashboard.FirstPageNumbers | index.tsx:258 | on page 1, row idx is numbered idx + 1 |
| Dashboard.PageNumberRange | index.tsx:258 | page p numbers its rows from (p-1)*20 + 1 to p*20 |
| Dashboard.RowNumberRoundTrip | index.tsx:258 | page and position can be read back from the row number, so numbers never repeat |
| Dashboard.TableHeader | index.tsx:245-249 | the header row is 序号, the tab's column labels in order, then 操作 |
| Dashboard.TableRow | index.tsx:258-265 | a table row's text cells line up with the header: the number first, then each column's displayed cell |
| Dashboard.DisplayShowsStoredValue | index.tsx:261-263 | for a generated value, the review-grade badge shows the stored text |
| Dashboard.DisplayShowsGeneratedValue | index.tsx:259-265 | every data cell of a generated row shows the value the cascade picked |
| Dashboard.App.constructor | index.tsx:226-227 | the screen starts on 第三方店铺管理, page 1 |
| Dashboard.App.SelectTab | index.tsx:236 | selecting a tab sets `activeTab` to it and resets `currentPage` to 1 |
| Dashboard.App.Data | index.tsx:231 | the table's rows are the rows generated for the active tab |
| Dashboard.App.RowNumbers | index.tsx:253-258 | the first column shows `(currentPage-1)*20 + idx + 1`, which is 1..20 on page 1 |

## Left out

- Rendering and styling are not modelled: JSX, Tailwind classes, icons, the marquee, the notification bar, and the hard-coded KPI figures of `DataOverview` (index.tsx:103-158). They are presentation only.
- DOM mounting through `createRoot` (index.tsx:307-308) is not modelled. It is I/O.
- `Math.random()` and floating point (index.tsx:84) are replaced by the `draw` parameter, a whole number of hundredths from 0 to 50000. Because of this, the rounding of `toFixed` on binary floating-point values is not modelled.
- The pagination widget (index.tsx:285-301) is not modelled. Its buttons have no handlers and nothing in the code changes `currentPage` except the reset to 1.
- `useMemo` (index.tsx:231) is not modelled. Its caching is not observable in the model; `App.Data` generates afresh.
- The toolbar button colours and icons (index.tsx:201-209) and the 待出库订单 badge of the JD-orders tab (index.tsx:213-218) are not modelled. They are styling.
- The column-width and alignment classes chosen from a label's length or content (index.tsx:247, 260) are not modelled. They are styling.
- There is no table giving the rule of every configured column of every tab. Only the telling labels above are settled one by one.
- MockRowsProperties.AmountFormat: states the whole part is at most 500 and the hundredths below 100. It does not say which amounts `Math.random() * 500` can actually produce.
