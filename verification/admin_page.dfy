/** The admin page of src/pages/Admin.tsx: a gate that compares the typed
    password with a fixed one and remembers a successful login in browser
    storage, and the dashboard's three figures over the catalog. Browser
    storage is a value passed in and out: the stored `adminPassword` entry,
    or None when there is none. */
module AdminPage {
  import opened Values
  import Price
  import Catalog

  type Product = Catalog.Product

  const AdminPassword := "admin123"

  datatype Gate = Gate(authenticated: bool, stored: Option<string>)

  /** The gate when the page loads: authenticated exactly when storage holds
      the admin password. */
  function Load(stored: Option<string>): (g: Gate)
    ensures g.authenticated <==> stored == Some(AdminPassword)
    ensures g.stored == stored
  {
    Gate(stored == Some(AdminPassword), stored)
  }

  /** `handleLogin` with the typed password. */
  function Login(g: Gate, input: string): (r: Gate)
    ensures input == AdminPassword ==> r.authenticated && r.stored == Some(AdminPassword)
    ensures input != AdminPassword ==> r == g
  {
    if input == AdminPassword then Gate(true, Some(AdminPassword)) else g
  }

  /** `handleLogout`: the sign-out removes the stored password, then the page
      drops its authenticated flag. */
  function Logout(g: Gate): (r: Gate)
    ensures !r.authenticated && r.stored.None?
  {
    Gate(false, None)
  }

  /** A successful login survives a reload; a logout does too. */
  lemma LoginSurvivesReload(g: Gate, input: string)
    ensures input == AdminPassword ==> Load(Login(g, input).stored).authenticated
    ensures !Load(Logout(g).stored).authenticated
  {
  }

  /** Only the admin password opens a gate that was closed. */
  lemma OnlyPasswordOpens(g: Gate, input: string)
    requires !g.authenticated
    ensures Login(g, input).authenticated <==> input == AdminPassword
  {
  }

  // ---------------------------------------------------------------------------
  // Dashboard figures

  /** `p.stock || 0`. */
  function StockOf(p: Product): int {
    NumberOrZero(p.info.stock)
  }

  /** One product's contribution to the inventory value. */
  function ValueOf(p: Product): Number {
    Times(Price.ParsePrice(p.info.price), Finite(StockOf(p)))
  }

  /** `products.reduce((sum, p) => sum + (p.stock || 0), acc)`. */
  function StockFrom(acc: int, ps: seq<Product>): int
    decreases |ps|
  {
    if |ps| == 0 then acc else StockFrom(acc + StockOf(ps[0]), ps[1..])
  }

  /** `products.reduce((sum, p) => sum + price * (p.stock || 0), acc)`. */
  function ValueFrom(acc: Number, ps: seq<Product>): Number
    decreases |ps|
  {
    if |ps| == 0 then acc else ValueFrom(Plus(acc, ValueOf(ps[0])), ps[1..])
  }

  /** The plain sum of stocks, added from the right. */
  function SumStock(ps: seq<Product>): int
    decreases |ps|
  {
    if |ps| == 0 then 0 else StockOf(ps[0]) + SumStock(ps[1..])
  }

  /** The plain sum of the products' values, added from the right. */
  function SumValue(ps: seq<Product>): Number
    decreases |ps|
  {
    if |ps| == 0 then Finite(0) else Plus(ValueOf(ps[0]), SumValue(ps[1..]))
  }

  /** The "Total Stock" figure: every product's stock, a missing one as 0. */
  function TotalStock(ps: seq<Product>): (r: int)
    ensures r == SumStock(ps)
  {
    StockFromIsSum(0, ps);
    StockFrom(0, ps)
  }

  /** The "Inventory Value" figure: every product's price times its stock. */
  function TotalValue(ps: seq<Product>): (r: Number)
    ensures r == SumValue(ps)
    ensures r.Finite? <==> AllPricesParse(ps)
  {
    ValueFromIsSum(Finite(0), ps);
    ValueFromFinite(Finite(0), ps);
    ValueFrom(Finite(0), ps)
  }

  /** Every price reads as a number. */
  predicate AllPricesParse(ps: seq<Product>) {
    forall i :: 0 <= i < |ps| ==> Price.ParsePrice(ps[i].info.price).Finite?
  }

  /** The running sum is the start value plus the plain sum. */
  lemma {:induction false} StockFromIsSum(acc: int, ps: seq<Product>)
    ensures StockFrom(acc, ps) == acc + SumStock(ps)
    decreases |ps|
  {
    if |ps| > 0 {
      StockFromIsSum(acc + StockOf(ps[0]), ps[1..]);
    }
  }

  /** The running value is the start value plus the plain sum of values. */
  lemma {:induction false} ValueFromIsSum(acc: Number, ps: seq<Product>)
    ensures ValueFrom(acc, ps) == Plus(acc, SumValue(ps))
    decreases |ps|
  {
    if |ps| > 0 {
      ValueFromIsSum(Plus(acc, ValueOf(ps[0])), ps[1..]);
    }
  }

  /** A NaN anywhere makes the running value NaN; otherwise it stays finite. */
  lemma {:induction false} ValueFromFinite(acc: Number, ps: seq<Product>)
    ensures ValueFrom(acc, ps).Finite? <==> acc.Finite? && AllPricesParse(ps)
    decreases |ps|
  {
    if |ps| > 0 {
      ValueFromFinite(Plus(acc, ValueOf(ps[0])), ps[1..]);
      assert AllPricesParse(ps) <==>
        Price.ParsePrice(ps[0].info.price).Finite? && AllPricesParse(ps[1..]) by {
        assert forall i :: 1 <= i < |ps| ==> ps[i] == ps[1..][i - 1];
      }
    }
  }

  /** The running value over a concatenation continues from the first part. */
  lemma {:induction false} ValueFromAppend(acc: Number, a: seq<Product>, b: seq<Product>)
    ensures ValueFrom(acc, a + b) == ValueFrom(ValueFrom(acc, a), b)
    decreases |a|
  {
    if |a| > 0 {
      assert (a + b)[1..] == a[1..] + b;
      ValueFromAppend(Plus(acc, ValueOf(a[0])), a[1..], b);
    } else {
      assert a + b == b;
    }
  }

  datatype Stats = Stats(totalProducts: nat, totalStock: int, totalValue: Number)

  /** The figures are computed only behind the gate. */
  function Dashboard(g: Gate, ps: seq<Product>): (r: Option<Stats>)
    ensures r.Some? <==> g.authenticated
    ensures r.Some? ==> r.value.totalProducts == |ps|
    ensures r.Some? ==> r.value.totalStock == SumStock(ps)
    ensures r.Some? ==> r.value.totalValue == SumValue(ps)
    ensures r.Some? ==> (r.value.totalValue.Finite? <==> AllPricesParse(ps))
  {
    if g.authenticated then Some(Stats(|ps|, TotalStock(ps), TotalValue(ps))) else None
  }

  /** With no negative stock, every product's value and so the inventory
      value is `NaN` or not negative. */
  lemma {:induction false} SumValueReadsBack(ps: seq<Product>)
    ensures (forall i :: 0 <= i < |ps| ==> StockOf(ps[i]) >= 0) ==> Price.ReadsBack(SumValue(ps))
    decreases |ps|
  {
    if |ps| > 0 {
      assert forall i :: 1 <= i < |ps| ==> ps[i] == ps[1..][i - 1];
      SumValueReadsBack(ps[1..]);
    }
  }

  /** The "Inventory Value" card, `totalValue.toLocaleString()`: with no
      negative stock its text reads back as the inventory value. */
  function ValueShown(ps: seq<Product>): (r: string)
    ensures (forall i :: 0 <= i < |ps| ==> StockOf(ps[i]) >= 0) ==> Price.ParsePrice(r) == TotalValue(ps)
  {
    SumValueReadsBack(ps);
    Price.Show(TotalValue(ps))
  }

  /** Adding a product counts it once and adds its stock and value. */
  lemma {:induction false} DashboardAfterAdd(ps: seq<Product>, info: Catalog.Info)
    ensures var r := Catalog.Add(ps, info);
      && |r| == |ps| + 1
      && TotalStock(r) == TotalStock(ps) + NumberOrZero(info.stock)
      && TotalValue(r) == Plus(TotalValue(ps), Times(Price.ParsePrice(info.price), Finite(NumberOrZero(info.stock))))
  {
    var r := Catalog.Add(ps, info);
    var np := r[|ps|];
    assert r == ps + [np];
    StockFromIsSum(0, r);
    StockFromIsSum(0, ps);
    SumStockAppend(ps, [np]);
    ValueFromAppend(Finite(0), ps, [np]);
  }

  lemma {:induction false} SumStockAppend(a: seq<Product>, b: seq<Product>)
    ensures SumStock(a + b) == SumStock(a) + SumStock(b)
    decreases |a|
  {
    if |a| > 0 {
      assert (a + b)[1..] == a[1..] + b;
      SumStockAppend(a[1..], b);
    } else {
      assert a + b == b;
    }
  }

  /** The stock figure of the starting catalog: 240 items. */
  lemma InitialStock()
    ensures TotalStock(Catalog.InitialProducts) == 240
  {
    var ps := Catalog.InitialProducts;
    var t1, t2, t3, t4, t5 := ps[1..], ps[2..], ps[3..], ps[4..], ps[5..];
    assert t1[1..] == t2 && t2[1..] == t3 && t3[1..] == t4 && t4[1..] == t5 && t5[1..] == [];
    calc {
      TotalStock(ps);
      StockFrom(50, t1);
      StockFrom(80, t2);
      StockFrom(100, t3);
      StockFrom(200, t4);
      StockFrom(215, t5);
      StockFrom(240, []);
    }
  }
}
