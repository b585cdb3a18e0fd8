/** The tab-configuration registry: the seven back-office tabs and, for each,
    its ordered search-field labels, table-column labels and toolbar-button
    labels (index.tsx:22-62). The registry is a constant; nothing updates it. */
module Registry {

  /** The seven tabs of `TabType` (index.tsx:22). */
  datatype Tab =
    | StoreManagement            // 第三方店铺管理
    | ReviewManagement           // 评论管理
    | ReviewStatistics           // 评价统计
    | ProductManagement          // 商品管理
    | CustomerServiceManagement  // 客服管理
    | JdOrders                   // 京东订单
    | OrderSyncManagement        // 第三方订单同步管理

  /** The label a tab has in the source; it is also the key of its configuration. */
  function TabName(t: Tab): string
  {
    match t
    case StoreManagement => "第三方店铺管理"
    case ReviewManagement => "评论管理"
    case ReviewStatistics => "评价统计"
    case ProductManagement => "商品管理"
    case CustomerServiceManagement => "客服管理"
    case JdOrders => "京东订单"
    case OrderSyncManagement => "第三方订单同步管理"
  }

  /** The order in which the tab selector shows the tabs (index.tsx:119). */
  const SelectorOrder: seq<Tab> := [
    StoreManagement, ReviewManagement, ReviewStatistics, ProductManagement,
    CustomerServiceManagement, JdOrders, OrderSyncManagement
  ]

  /** One entry of `TAB_CONFIGS`. */
  datatype TabDefinition = TabDefinition(search: seq<string>, headers: seq<string>, buttons: seq<string>)

  /** `TAB_CONFIGS[t]`: total over the closed set of tabs. */
  function Lookup(t: Tab): TabDefinition
  {
    match t
    case StoreManagement => TabDefinition(
      ["店铺名称", "店铺负责人", "区域名称", "店铺所属平台", "是否自动录单", "是否新店"],
      ["店铺名称", "店铺ID", "店铺负责人", "区域名称", "店铺所属平台", "店铺对应的订单来源", "是否自动录单", "是否新店"],
      ["新增", "更新负责人"])
    case ReviewManagement => TabDefinition(
      ["负责人", "店铺名称", "第三方订单号/券码", "评论等级", "评论来源", "评论时间"],
      ["店铺名称", "负责人", "评论来源", "第三方订单号", "评论用户昵称", "评价等级", "星级", "区域", "券码", "评价内容", "评论时间"],
      ["导出"])
    case ReviewStatistics => TabDefinition(
      ["负责人", "店铺名称", "评论来源", "评论时间"],
      ["店铺名称", "负责人", "评论来源", "好评数量", "中评数量", "差评数量"],
      ["导出"])
    case ProductManagement => TabDefinition(
      ["商品名称", "店铺名称", "SKU名称", "项目名称", "skuid", "店铺来源"],
      ["店铺名称", "商品名称", "skuid", "sku规格名称", "项目名称", "店铺来源"],
      ["同步店铺SKU", "自动匹配项目"])
    case CustomerServiceManagement => TabDefinition(
      ["系统用户名称", "客服名称", "店铺名称"],
      ["客服名称", "客服编号", "系统用户名称", "店铺名称", "客服等级"],
      ["同步"])
    case JdOrders => TabDefinition(
      ["订单来源", "客户名称", "京东订单id"],
      ["店铺名称", "下单时间", "客户名称", "订单状态", "顾客申请退款", "京东订单id", "订单原价(元)", "结算金额(元)",
       "业务员操作时间", "业务员", "业务员选择状态", "业务员处理详情", "运营处理时间", "运营", "运营操作状态", "运营处理详情"],
      ["导出"])
    case OrderSyncManagement => TabDefinition(
      ["录单状态", "录单失败处理状态", "处理用户名称", "用户名", "店铺名称", "订单来源", "系统订单号", "商家订单号",
       "是否多SKU订单", "失败原因", "创建时间", "是否补单"],
      ["订单来源", "重复订单来源", "系统订单号", "用户名", "商家订单号", "下单数量", "录单人", "录单状态", "录单失败原因",
       "录单失败处理人", "录单失败处理状态", "录单失败处理结果", "订单创建时间", "店铺名称", "虚拟号", "商家备注", "买家备注",
       "商品名称", "地址", "发票抬头", "纳税人识别号", "电子邮箱", "是否补单"],
      ["补录"])
  }

  /** Different tabs have different labels, so the label identifies the tab. */
  lemma TabNameInjective(t1: Tab, t2: Tab)
    ensures TabName(t1) == TabName(t2) <==> t1 == t2
  {
    if t1 != t2 {
      var a, b := TabName(t1), TabName(t2);
      assert |a| != |b| || a[0] != b[0] || a[1] != b[1];
    }
  }

  /** The selector lists every tab exactly once. */
  lemma SelectorListsEveryTabOnce()
    ensures |SelectorOrder| == 7
    ensures forall t: Tab :: t in SelectorOrder
    ensures forall j, k :: 0 <= j < k < |SelectorOrder| ==> SelectorOrder[j] != SelectorOrder[k]
  {
    forall t: Tab
      ensures t in SelectorOrder
    {
      var k := match t
        case StoreManagement => 0
        case ReviewManagement => 1
        case ReviewStatistics => 2
        case ProductManagement => 3
        case CustomerServiceManagement => 4
        case JdOrders => 5
        case OrderSyncManagement => 6;
      assert SelectorOrder[k] == t;
    }
  }


  /** No label occurs twice in the list. */
  ghost predicate NoRepeats(s: seq<string>)
  {
    forall a, b :: 0 <= a < b < |s| ==> s[a] != s[b]
  }

  /** Every label of a tab is a React key among its siblings (index.tsx:164,
      200, 247, 260), so none of a tab's three lists names a label twice. Each
      tab is settled by its own lemma below. */
  lemma LabelsDistinct(t: Tab)
    ensures NoRepeats(Lookup(t).search) && NoRepeats(Lookup(t).headers) && NoRepeats(Lookup(t).buttons)
  {
    match t
    case StoreManagement => StoreLabelsDistinct();
    case ReviewManagement => ReviewManagementLabelsDistinct();
    case ReviewStatistics => ReviewStatisticsLabelsDistinct();
    case ProductManagement => ProductManagementLabelsDistinct();
    case CustomerServiceManagement => CustomerServiceManagementLabelsDistinct();
    case JdOrders => JdOrdersLabelsDistinct();
    case OrderSyncManagement => OrderSyncLabelsDistinct();
  }

  // The per-tab facts. Only the store and product tabs have more than one
  // button; a single button cannot repeat.

  lemma StoreLabelsDistinct()
    ensures var d := Lookup(StoreManagement);
      && (forall a, b :: 0 <= a < b < |d.search| ==> d.search[a] != d.search[b])
      && (forall a, b :: 0 <= a < b < |d.headers| ==> d.headers[a] != d.headers[b])
      && (forall a, b :: 0 <= a < b < |d.buttons| ==> d.buttons[a] != d.buttons[b])
  {
  }

  lemma ReviewManagementLabelsDistinct()
    ensures var d := Lookup(ReviewManagement);
      && (forall a, b :: 0 <= a < b < |d.search| ==> d.search[a] != d.search[b])
      && (forall a, b :: 0 <= a < b < |d.headers| ==> d.headers[a] != d.headers[b])
  {
  }

  lemma ReviewStatisticsLabelsDistinct()
    ensures var d := Lookup(ReviewStatistics);
      && (forall a, b :: 0 <= a < b < |d.search| ==> d.search[a] != d.search[b])
      && (forall a, b :: 0 <= a < b < |d.headers| ==> d.headers[a] != d.headers[b])
  {
  }

  lemma ProductManagementLabelsDistinct()
    ensures var d := Lookup(ProductManagement);
      && (forall a, b :: 0 <= a < b < |d.search| ==> d.search[a] != d.search[b])
      && (forall a, b :: 0 <= a < b < |d.headers| ==> d.headers[a] != d.headers[b])
      && (forall a, b :: 0 <= a < b < |d.buttons| ==> d.buttons[a] != d.buttons[b])
  {
  }

  lemma CustomerServiceManagementLabelsDistinct()
    ensures var d := Lookup(CustomerServiceManagement);
      && (forall a, b :: 0 <= a < b < |d.search| ==> d.search[a] != d.search[b])
      && (forall a, b :: 0 <= a < b < |d.headers| ==> d.headers[a] != d.headers[b])
  {
  }

  lemma JdOrdersLabelsDistinct()
    ensures var d := Lookup(JdOrders);
      && (forall a, b :: 0 <= a < b < |d.search| ==> d.search[a] != d.search[b])
      && (forall a, b :: 0 <= a < b < |d.headers| ==> d.headers[a] != d.headers[b])
  {
  }

  lemma OrderSyncLabelsDistinct()
    ensures var d := Lookup(OrderSyncManagement);
      && (forall a, b :: 0 <= a < b < |d.search| ==> d.search[a] != d.search[b])
      && (forall a, b :: 0 <= a < b < |d.headers| ==> d.headers[a] != d.headers[b])
  {
  }
}
