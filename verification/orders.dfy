/** The orders table of src/components/admin/OrdersManager.tsx: a fixed list
    of orders, a search over order number and customer name, a status filter,
    and a detail dialog. The list has no setter and "Update Status" has no
    handler, so nothing the admin does changes an order. The clock that
    stamps the mock orders is a parameter: `now` in milliseconds. */
module Orders {
  import opened Values
  import Seqs
  import Text

  datatype Item = Item(name: string, quantity: int, price: int)

  datatype Order = Order(
    id: int,
    orderNumber: string,
    customerName: string,
    email: string,
    phone: string,
    address: string,
    total: int,
    paymentMethod: string,
    status: string,
    createdAt: int,
    items: seq<Item>)

  const DayMillis := 86400000

  /** The two mock orders, the second stamped one day before the first. */
  function MockOrders(now: int): (r: seq<Order>)
    ensures |r| == 2 && r[0].id == 1 && r[1].id == 2
    ensures r[0].createdAt - r[1].createdAt == DayMillis
  {
    [ Order(1, "ORD-001", "Ahmed Ali", "ahmed@example.com", "+92 300 1234567",
            "Street 123, Lahore", 5000, "Cash on Delivery", "pending", now,
            [Item("Premium Face Cream", 2, 2500)]),
      Order(2, "ORD-002", "Fatima Khan", "fatima@example.com", "+92 301 9876543",
            "Block A, Karachi", 3500, "Bank Transfer", "completed", now - DayMillis,
            [Item("Designer Kurta", 1, 3500)]) ]
  }

  /** The items' prices times quantities, added up. */
  function ItemsTotal(items: seq<Item>): int
    decreases |items|
  {
    if |items| == 0 then 0 else items[0].quantity * items[0].price + ItemsTotal(items[1..])
  }

  /** Each mock order's total is what its items add up to. */
  lemma MockTotalsMatchItems(now: int)
    ensures forall i :: 0 <= i < |MockOrders(now)| ==>
      MockOrders(now)[i].total == ItemsTotal(MockOrders(now)[i].items)
  {
    var os := MockOrders(now);
    assert os[0].items[1..] == [] && os[1].items[1..] == [];
  }

  // ---------------------------------------------------------------------------
  // Status badges

  const Pending := "pending"
  const Processing := "processing"
  const Completed := "completed"
  const Cancelled := "cancelled"

  const GrayClass := "bg-gray-100 text-gray-800"

  /** `getStatusColor`. */
  function StatusColor(status: string): (r: string)
    ensures r == GrayClass <==> !IsKnownStatus(status)
  {
    if status == Pending then "bg-yellow-100 text-yellow-800"
    else if status == Processing then "bg-blue-100 text-blue-800"
    else if status == Completed then "bg-green-100 text-green-800"
    else if status == Cancelled then "bg-red-100 text-red-800"
    else GrayClass
  }

  predicate IsKnownStatus(status: string) {
    status == Pending || status == Processing || status == Completed || status == Cancelled
  }

  /** The four known statuses get four different colours, none of them gray;
      every other status is gray. */
  lemma StatusColorsDistinct(a: string, b: string)
    ensures StatusColor(a) == GrayClass <==> !IsKnownStatus(a)
    ensures IsKnownStatus(a) && IsKnownStatus(b) ==> (StatusColor(a) == StatusColor(b) <==> a == b)
  {
  }

  // ---------------------------------------------------------------------------
  // Filtering

  /** The search looks at the order number and the customer name. */
  predicate SearchMatches(o: Order, query: string) {
    Text.Matches(o.orderNumber, query) || Text.Matches(o.customerName, query)
  }

  predicate StatusMatches(o: Order, statusFilter: string) {
    statusFilter == "all" || o.status == statusFilter
  }

  predicate Shows(o: Order, query: string, statusFilter: string) {
    SearchMatches(o, query) && StatusMatches(o, statusFilter)
  }

  function ShowsFn(query: string, statusFilter: string): Order -> bool {
    (o: Order) => Shows(o, query, statusFilter)
  }

  /** `filteredOrders`. */
  function Filtered(os: seq<Order>, query: string, statusFilter: string): (r: seq<Order>)
    ensures forall o :: o in r <==> o in os && Shows(o, query, statusFilter)
    ensures Seqs.IsSubsequence(r, os)
    ensures statusFilter != "all" ==> forall o :: o in r ==> o.status == statusFilter
  {
    Seqs.Filter(os, ShowsFn(query, statusFilter))
  }

  /** An empty search with "all" lists every order. */
  lemma {:induction false} EmptySearchShowsAll(os: seq<Order>)
    ensures Filtered(os, "", "all") == os
  {
    forall o | o in os
      ensures Shows(o, "", "all")
    {
      Text.EmptyQueryMatches(Text.Lower(o.orderNumber));
    }
  }

  /** The e-mail address plays no part: two orders that differ only in it are
      shown or hidden together. */
  lemma EmailNotSearched(o: Order, email: string, query: string, statusFilter: string)
    ensures Shows(o.(email := email), query, statusFilter) <==> Shows(o, query, statusFilter)
  {
  }

  /** A query holding an '@' misses every order whose number and customer
      name hold none. */
  lemma AtQueryMisses(o: Order, q: string)
    requires '@' in q && '@' !in o.orderNumber && '@' !in o.customerName
    ensures !SearchMatches(o, q)
  {
    LowerKeepsAt(q);
    LowerKeepsAt(o.orderNumber);
    LowerKeepsAt(o.customerName);
    NoAtSign(Text.Lower(o.orderNumber), Text.Lower(q));
    NoAtSign(Text.Lower(o.customerName), Text.Lower(q));
  }

  /** A search for an e-mail address (anything with an '@') lists nothing
      when no order number or customer name holds an '@', whatever the
      orders' e-mail addresses are. */
  lemma EmailQueryListsNothing(os: seq<Order>, q: string, statusFilter: string)
    requires '@' in q
    requires forall i :: 0 <= i < |os| ==> '@' !in os[i].orderNumber && '@' !in os[i].customerName
    ensures Filtered(os, q, statusFilter) == []
  {
    forall i | 0 <= i < |os|
      ensures !ShowsFn(q, statusFilter)(os[i])
    {
      AtQueryMisses(os[i], q);
    }
  }

  /** Lower-casing neither adds nor removes an '@'. */
  lemma LowerKeepsAt(s: string)
    ensures '@' in Text.Lower(s) <==> '@' in s
  {
    var l := Text.Lower(s);
    if '@' in s {
      var k :| 0 <= k < |s| && s[k] == '@';
      assert l[k] == '@';
    }
    if '@' in l {
      var k :| 0 <= k < |l| && l[k] == '@';
      assert s[k] == '@';
    }
  }

  /** A query holding an '@' is found in no text without one. */
  lemma {:induction false} NoAtSign(s: string, q: string)
    requires '@' in q && '@' !in s
    ensures !Text.Includes(s, q)
    decreases |s|
  {
    if |s| > 0 {
      NoAtSign(s[1..], q);
    }
  }

  // ---------------------------------------------------------------------------
  // The page's state

  datatype View = View(
    orders: seq<Order>,
    searchTerm: string,
    statusFilter: string,
    selected: Option<Order>,
    detailOpen: bool)

  function Initial(now: int): (v: View)
    ensures v.orders == MockOrders(now) && v.searchTerm == "" && v.statusFilter == "all"
    ensures v.selected.None? && !v.detailOpen
  {
    View(MockOrders(now), "", "all", None, false)
  }

  /** What the admin can do on the page. */
  datatype Event =
    | Search(term: string)
    | FilterStatus(status: string)
    | ViewOrder(order: Order)
    | SetDetailOpen(open: bool)
    | PickStatus(status: string)  // the dialog's uncontrolled select
    | UpdateStatus                // the button without a handler

  function Step(v: View, e: Event): (r: View)
    ensures r.orders == v.orders
  {
    match e
    case Search(t) => v.(searchTerm := t)
    case FilterStatus(s) => v.(statusFilter := s)
    case ViewOrder(o) => v.(selected := Some(o), detailOpen := true)
    case SetDetailOpen(b) => v.(detailOpen := b)
    case PickStatus(_) => v
    case UpdateStatus => v
  }

  function Run(v: View, es: seq<Event>): View
    decreases |es|
  {
    if |es| == 0 then v else Run(Step(v, es[0]), es[1..])
  }

  /** No sequence of events changes any order. */
  lemma {:induction false} RunKeepsOrders(v: View, es: seq<Event>)
    ensures Run(v, es).orders == v.orders
    decreases |es|
  {
    if |es| > 0 {
      RunKeepsOrders(Step(v, es[0]), es[1..]);
    }
  }

  /** Viewing an order opens the dialog on exactly that order, and the
      "Update Status" button afterwards leaves it as it was. */
  lemma ViewThenUpdateChangesNothing(v: View, o: Order, s: string)
    ensures var w := Step(v, ViewOrder(o));
      w.selected == Some(o) && w.detailOpen
      && Run(w, [PickStatus(s), UpdateStatus]) == w
  {
    var w := Step(v, ViewOrder(o));
    var es := [PickStatus(s), UpdateStatus];
    assert es[1..] == [UpdateStatus] && es[1..][1..] == [];
    assert Run(w, es) == Run(w, es[1..]) == Run(w, []);
  }
}
