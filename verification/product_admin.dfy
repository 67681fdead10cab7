/** The admin product table and its add/edit dialog, from
    src/components/admin/ModernProductManager.tsx: the category list, the
    search and category filter, and the dialog's state machine over the
    catalog store. */
module ProductAdmin {
  import opened Values
  import Seqs
  import Catalog

  type Product = Catalog.Product

  // ---------------------------------------------------------------------------
  // Categories and filtering

  function CategoriesOf(ps: seq<Product>): (r: seq<string>)
    ensures |r| == |ps|
    ensures forall i :: 0 <= i < |ps| ==> r[i] == ps[i].info.category
  {
    seq(|ps|, i requires 0 <= i < |ps| => ps[i].info.category)
  }

  /** `['All', ...Array.from(new Set(products.map(p => p.category)))]`. */
  function Categories(ps: seq<Product>): (r: seq<string>)
    ensures |r| >= 1 && r[0] == "All"
    ensures forall c :: c in r[1..] <==> exists i :: 0 <= i < |ps| && ps[i].info.category == c
    ensures forall i, j :: 1 <= i < j < |r| ==> r[i] != r[j]
    ensures forall i :: 1 <= i < |r| ==> r[i] in CategoriesOf(ps)
    ensures forall i, j :: 1 <= i < j < |r| ==>
      Seqs.FirstIndex(CategoriesOf(ps), r[i]) < Seqs.FirstIndex(CategoriesOf(ps), r[j])
  {
    var cs := CategoriesOf(ps);
    var d := Seqs.Dedup(cs);
    var r := ["All"] + d;
    assert r[1..] == d;
    assert forall c :: c in cs <==> exists i :: 0 <= i < |ps| && ps[i].info.category == c by {
      forall c ensures c in cs <==> exists i :: 0 <= i < |ps| && ps[i].info.category == c {
        if c in cs {
          var i :| 0 <= i < |cs| && cs[i] == c;
          assert ps[i].info.category == c;
        }
      }
    }
    assert forall i :: 1 <= i < |r| ==> r[i] == d[i - 1];
    r
  }

  function IsNotAll(c: string): bool {
    c != "All"
  }

  /** The options of the category picker, `categories.filter(c => c !== 'All')`
      (besides the fixed "all" option). */
  function CategoryOptions(ps: seq<Product>): (r: seq<string>)
    ensures forall c :: c in r <==> c != "All" && exists i :: 0 <= i < |ps| && ps[i].info.category == c
    ensures Seqs.IsSubsequence(r, Categories(ps))
    ensures Seqs.Distinct(r)
  {
    var cs := Categories(ps);
    assert forall c :: c in cs && c != "All" <==> c in cs[1..] && c != "All" by {
      assert cs == [cs[0]] + cs[1..];
    }
    assert Seqs.Filter(cs, IsNotAll) == Seqs.Filter(cs[1..], IsNotAll);
    assert Seqs.Distinct(cs[1..]) by {
      forall i, j | 0 <= i < j < |cs[1..]| ensures cs[1..][i] != cs[1..][j] {
        assert cs[1..][i] == cs[i + 1] && cs[1..][j] == cs[j + 1];
      }
    }
    Seqs.FilterDistinct(cs[1..], IsNotAll);
    Seqs.Filter(cs, IsNotAll)
  }

  /** The product table's selection rule: the query (when non-empty) must
      match, and the category (unless "all") must be equal. */
  predicate Shows(p: Product, query: string, category: string) {
    (query == "" || Catalog.SearchMatches(p, query)) && (category == "all" || p.info.category == category)
  }

  function MatchingSearch(query: string): Product -> bool {
    (p: Product) => Catalog.SearchMatches(p, query)
  }

  function InCategory(category: string): Product -> bool {
    (p: Product) => p.info.category == category
  }

  function ShowsFn(query: string, category: string): Product -> bool {
    (p: Product) => Shows(p, query, category)
  }

  /** The filter effect: first the search, then the category. */
  function Filtered(ps: seq<Product>, query: string, category: string): (r: seq<Product>)
    ensures forall p :: p in r <==> p in ps && Shows(p, query, category)
    ensures query == "" && category == "all" ==> r == ps
  {
    var bySearch := if query != "" then Seqs.Filter(ps, MatchingSearch(query)) else ps;
    if category != "all" then Seqs.Filter(bySearch, InCategory(category)) else bySearch
  }

  /** The staged filter equals one pass with the selection rule, so it is an
      order-preserving subsequence that keeps every copy of a shown product. */
  lemma {:induction false} FilteredIsOnePass(ps: seq<Product>, query: string, category: string)
    ensures Filtered(ps, query, category) == Seqs.Filter(ps, ShowsFn(query, category))
    ensures Seqs.IsSubsequence(Filtered(ps, query, category), ps)
  {
    var shows := ShowsFn(query, category);
    if query != "" && category != "all" {
      Seqs.FilterFusion(ps, MatchingSearch(query), InCategory(category), shows);
    } else if query != "" {
      Seqs.FilterExtensional(ps, MatchingSearch(query), shows);
    } else if category != "all" {
      Seqs.FilterExtensional(ps, InCategory(category), shows);
    } else {
      assert forall i :: 0 <= i < |ps| ==> shows(ps[i]);
    }
  }

  // ---------------------------------------------------------------------------
  // The dialog

  /** The dialog's form, `Partial<Product>` without the id. */
  datatype Form = Form(
    name: Option<string>,
    price: Option<string>,
    originalPrice: Option<string>,
    stock: Option<int>,
    image: Option<string>,
    category: Option<string>,
    rating: Option<real>,
    badge: Option<string>,
    description: Option<string>)

  const BlankForm := Form(Some(""), Some(""), Some(""), Some(0), Some(""), Some(""), Some(0.0), Some(""), Some(""))

  /** The component's state that the dialog touches. */
  datatype Manager = Manager(dialogOpen: bool, editing: Option<Product>, form: Form)

  const Initial := Manager(false, None, BlankForm)

  /** The submit guard: name, price, category and image must be non-empty. */
  predicate IsComplete(f: Form) {
    Filled(f.name) && Filled(f.price) && Filled(f.category) && Filled(f.image)
  }

  /** The product fields a valid submit writes, with the optional ones
      normalised: absent text becomes "", absent or non-numeric numbers 0,
      and every value that is present is written as typed. */
  function Submitted(f: Form): (r: Catalog.Info)
    requires IsComplete(f)
    ensures r.name == f.name.value && r.price == f.price.value
    ensures r.category == f.category.value && r.image == f.image.value
    ensures r.originalPrice.Some? && r.badge.Some? && r.description.Some?
    ensures r.rating.Some? && r.stock.Some?
    ensures f.originalPrice.None? ==> r.originalPrice == Some("")
    ensures f.badge.None? ==> r.badge == Some("")
    ensures f.description.None? ==> r.description == Some("")
    ensures f.rating.None? ==> r.rating == Some(0.0)
    ensures f.stock.None? ==> r.stock == Some(0)
    ensures f.originalPrice.Some? ==> r.originalPrice == f.originalPrice
    ensures f.stock.Some? ==> r.stock == f.stock
    ensures f.badge.Some? ==> r.badge == f.badge
    ensures f.description.Some? ==> r.description == f.description
    ensures f.rating.Some? ==> r.rating == f.rating
  {
    Catalog.Info(f.name.value, f.category.value, f.price.value, Some(StringOrEmpty(f.originalPrice)),
      f.image.value, Some(StringOrEmpty(f.badge)), Some(RealOrZero(f.rating)),
      Some(NumberOrZero(f.stock)), Some(StringOrEmpty(f.description)))
  }

  /** The patch handed to `updateProduct`: every field but the id. */
  function SubmittedPatch(f: Form): (r: Catalog.Patch)
    requires IsComplete(f)
    ensures r.id.None?
    ensures forall p: Product :: Catalog.ApplyPatch(p, r) == Catalog.Product(p.id, Submitted(f))
  {
    var info := Submitted(f);
    Catalog.Patch(None, Some(info.name), Some(info.category), Some(info.price), info.originalPrice,
      Some(info.image), info.badge, info.rating, info.stock, info.description)
  }

  /** `handleCloseDialog`: closed, nothing being edited, blank form. Whatever
      was typed or edited before is forgotten, so the next submit is refused
      until the required fields are filled again. */
  function CloseDialog(m: Manager): (r: Manager)
    ensures !r.dialogOpen && r.editing.None? && r.form == BlankForm
    ensures !IsComplete(r.form)
  {
    Initial
  }

  datatype Outcome = Outcome(manager: Manager, products: seq<Product>)

  /** `handleSubmit`: reject an incomplete form; otherwise update the product
      being edited, or add a new one, and close the dialog. */
  function Submit(m: Manager, ps: seq<Product>): (r: Outcome)
    ensures !IsComplete(m.form) ==> r.products == ps && r.manager == m
    ensures IsComplete(m.form) ==> r.manager == Initial
    ensures IsComplete(m.form) && m.editing.None? ==>
      && |r.products| == |ps| + 1
      && r.products[..|ps|] == ps
      && r.products[|ps|].info == Submitted(m.form)
      && !Catalog.HasId(ps, r.products[|ps|].id)
    ensures IsComplete(m.form) && m.editing.Some? ==>
      && |r.products| == |ps|
      && (forall i :: 0 <= i < |ps| ==>
            r.products[i] == if ps[i].id == m.editing.value.id then Catalog.Product(ps[i].id, Submitted(m.form)) else ps[i])
  {
    if !IsComplete(m.form) then Outcome(m, ps)
    else if m.editing.Some? then
      Outcome(CloseDialog(m), Catalog.Update(ps, m.editing.value.id, SubmittedPatch(m.form)))
    else
      Outcome(CloseDialog(m), Catalog.Add(ps, Submitted(m.form)))
  }

  /** The form `handleEdit` fills from a product. */
  function FormOf(p: Product): (f: Form)
    ensures f.name == Some(p.info.name) && f.price == Some(p.info.price)
    ensures f.category == Some(p.info.category) && f.image == Some(p.info.image)
    ensures f.originalPrice == Some(StringOrEmpty(p.info.originalPrice))
    ensures f.stock == Some(NumberOrZero(p.info.stock))
    ensures f.rating == Some(RealOrZero(p.info.rating))
    ensures f.badge == Some(StringOrEmpty(p.info.badge))
    ensures f.description == Some(StringOrEmpty(p.info.description))
  {
    Form(Some(p.info.name), Some(p.info.price), Some(StringOrEmpty(p.info.originalPrice)),
      Some(NumberOrZero(p.info.stock)), Some(p.info.image), Some(p.info.category),
      Some(RealOrZero(p.info.rating)), Some(StringOrEmpty(p.info.badge)),
      Some(StringOrEmpty(p.info.description)))
  }

  /** `handleEdit(p)`. */
  function Edit(m: Manager, p: Product): (r: Manager)
    ensures r.dialogOpen && r.editing == Some(p)
    ensures r.form == FormOf(p)
  {
    Manager(true, Some(p), FormOf(p))
  }

  /** A product whose optional fields are all present and whose required
      fields are non-empty. */
  predicate FullyDescribed(p: Product) {
    && p.info.name != "" && p.info.price != "" && p.info.category != "" && p.info.image != ""
    && p.info.originalPrice.Some? && p.info.badge.Some? && p.info.description.Some?
    && p.info.rating.Some? && p.info.stock.Some?
  }

  /** Opening a fully described product for editing and saving it unchanged
      leaves the catalog as it was. */
  lemma {:induction false} EditThenSubmitIsIdentity(m: Manager, ps: seq<Product>, p: Product)
    requires Catalog.UniqueIds(ps)
    requires p in ps
    requires FullyDescribed(p)
    ensures Submit(Edit(m, p), ps).products == ps
  {
    var e := Edit(m, p);
    assert IsComplete(e.form);
    assert Submitted(e.form) == p.info;
    var r := Submit(e, ps).products;
    var k :| 0 <= k < |ps| && ps[k] == p;
    forall i | 0 <= i < |ps| ensures r[i] == ps[i] {
      if ps[i].id == p.id {
        assert i == k;
      }
    }
  }

  /** `handleDelete(id)` with the answer to the confirmation prompt. */
  function ConfirmDelete(ps: seq<Product>, id: int, confirmed: bool): (r: seq<Product>)
    ensures !confirmed ==> r == ps
    ensures confirmed ==> !Catalog.HasId(r, id)
    ensures confirmed ==> forall p :: p in r <==> p in ps && p.id != id
  {
    if confirmed then Catalog.Delete(ps, id) else ps
  }

  /** Every reachable submit keeps identifiers unique. */
  lemma SubmitKeepsIdsUnique(m: Manager, ps: seq<Product>)
    requires Catalog.UniqueIds(ps)
    ensures Catalog.UniqueIds(Submit(m, ps).products)
  {
    if IsComplete(m.form) {
      if m.editing.Some? {
        Catalog.UpdateKeepsIdsUnique(ps, m.editing.value.id, SubmittedPatch(m.form));
      } else {
        Catalog.AddKeepsIdsUnique(ps, Submitted(m.form));
      }
    }
  }

  // ---------------------------------------------------------------------------
  // Dismissing the dialog

  /** The "Add Product" button: `setIsDialogOpen(true)` and nothing else. */
  function OpenForAdd(m: Manager): (r: Manager)
    ensures r.dialogOpen && r.editing == m.editing && r.form == m.form
  {
    m.(dialogOpen := true)
  }

  /** Dismissing the dialog with Escape or a click outside it, as written: the
      dialog's `onOpenChange` is `setIsDialogOpen`, which only closes it. */
  function DismissAsWritten(m: Manager): (r: Manager)
    ensures !r.dialogOpen && r.editing == m.editing && r.form == m.form
  {
    m.(dialogOpen := false)
  }

  /** After Edit, a dismissal as written and "Add Product", the dialog still
      edits the old product: whatever complete form is then submitted, the
      catalog keeps its length and the old product is overwritten. */
  lemma DismissAsWrittenThenAddUpdates(p: Product, ps: seq<Product>, f: Form)
    requires IsComplete(f)
    ensures var m := OpenForAdd(DismissAsWritten(Edit(Initial, p)));
      m.editing == Some(p)
      && |Submit(m.(form := f), ps).products| == |ps|
      && (forall i :: 0 <= i < |ps| && ps[i].id == p.id ==>
            Submit(m.(form := f), ps).products[i] == Catalog.Product(p.id, Submitted(f)))
  {
  }

  /** Dismissing the dialog as the Cancel button does: through
      `handleCloseDialog`. */
  function Dismiss(m: Manager): (r: Manager)
    ensures !r.dialogOpen && r.editing.None? && r.form == BlankForm
  {
    CloseDialog(m)
  }

  /** With the corrected dismissal, "Add Product" always starts a new product:
      a complete form then appends exactly one product. */
  lemma DismissThenAddAppends(m: Manager, ps: seq<Product>, f: Form)
    requires IsComplete(f)
    ensures var r := Submit(OpenForAdd(Dismiss(m)).(form := f), ps).products;
      |r| == |ps| + 1 && r[..|ps|] == ps
  {
  }
}
