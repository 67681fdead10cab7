/** The checkout dialog of src/components/CheckoutModal.tsx: what is being
    bought (one product bought directly, or the whole cart), the amounts shown,
    the customer form, and the state after an order is placed. The cart itself
    lives in a context outside this model: its items and `getTotalPrice()` are
    parameters, and `clearCart()` is reported as a flag. */
module Checkout {
  import opened Values
  import Price
  import Catalog

  type Product = Catalog.Product

  /** A cart line: the product spread together with its quantity. */
  datatype Line = Line(product: Product, quantity: int)

  /** `checkoutItems`: the direct product once, or the cart. The summary's
      line amounts add up to the total it prints whenever the cart's total is
      the sum of its lines. */
  function Items(direct: Option<Product>, cart: seq<Line>): (r: seq<Line>)
    ensures direct.Some? ==> r == [Line(direct.value, 1)]
    ensures direct.None? ==> r == cart
    ensures SumAmounts(r) == Total(direct, SumAmounts(cart))
  {
    match direct
    case Some(p) =>
      assert [Line(p, 1)][1..] == [];
      [Line(p, 1)]
    case None => cart
  }

  /** `totalAmount`: the direct product's price without its commas, or the
      cart's total. Nothing is added for delivery, so a direct purchase totals
      exactly the amount of its one line. */
  function Total(direct: Option<Product>, cartTotal: Number): (r: Number)
    ensures direct.Some? ==> r == LineAmount(Line(direct.value, 1))
    ensures direct.Some? ==> r == Price.ParsePrice(direct.value.info.price)
    ensures direct.None? ==> r == cartTotal
  {
    match direct
    case Some(p) => Price.ParsePrice(p.info.price)
    case None => cartTotal
  }

  /** A cart line's amount: unit price without commas times quantity. */
  function LineAmount(l: Line): (r: Number)
    ensures r.Finite? <==> Price.ParsePrice(l.product.info.price).Finite?
    ensures r.Finite? ==> r.value == Price.ParsePrice(l.product.info.price).value * l.quantity
  {
    Times(Price.ParsePrice(l.product.info.price), Finite(l.quantity))
  }

  /** The text of a summary line: a direct purchase prints the price string
      as stored, a cart line its amount through `toLocaleString()`. Either
      way the text reads back as the line's amount, taken per unit for a
      direct purchase. */
  function LineShown(direct: Option<Product>, l: Line): (r: string)
    ensures direct.Some? ==> r == l.product.info.price
    ensures direct.Some? ==> Price.ParsePrice(r) == LineAmount(l.(quantity := 1))
    ensures direct.None? && Price.ReadsBack(LineAmount(l)) ==> Price.ParsePrice(r) == LineAmount(l)
    ensures direct.None? && !Price.ReadsBack(LineAmount(l)) ==> |r| > 1 && r[0] == '-'
  {
    if direct.Some? then l.product.info.price else Price.Show(LineAmount(l))
  }

  /** The printed total, `totalAmount.toLocaleString()`: it reads back as the
      total, and for a direct purchase as the product's price. */
  function TotalShown(direct: Option<Product>, cartTotal: Number): (r: string)
    ensures Price.ReadsBack(Total(direct, cartTotal)) ==> Price.ParsePrice(r) == Total(direct, cartTotal)
    ensures direct.Some? ==> Price.ParsePrice(r) == Price.ParsePrice(direct.value.info.price)
  {
    Price.Show(Total(direct, cartTotal))
  }

  /** The amounts of a list of lines, added up. */
  function SumAmounts(ls: seq<Line>): Number
    decreases |ls|
  {
    if |ls| == 0 then Finite(0) else Plus(LineAmount(ls[0]), SumAmounts(ls[1..]))
  }

  /** For a direct purchase the total is the one line's amount, and the line
      and the total print texts that read as the same number. */
  lemma DirectTotalIsItsLine(p: Product, cart: seq<Line>, cartTotal: Number)
    ensures Total(Some(p), cartTotal) == SumAmounts(Items(Some(p), cart))
    ensures Price.ParsePrice(LineShown(Some(p), Items(Some(p), cart)[0]))
      == Price.ParsePrice(TotalShown(Some(p), cartTotal))
  {
  }

  /** In cart mode the summary prints one line per cart line, whose text
      reads back as that line's amount, and those amounts add up to a number
      exactly when every line's price reads as one. The total printed below
      them is the cart's own figure, which this dialog takes as given. */
  lemma {:induction false} CartSummaryLines(cart: seq<Line>)
    ensures |Items(None, cart)| == |cart|
    ensures forall i :: 0 <= i < |cart| && Price.ReadsBack(LineAmount(cart[i])) ==>
      Price.ParsePrice(LineShown(None, Items(None, cart)[i])) == LineAmount(cart[i])
    ensures SumAmounts(cart).Finite? <==>
      forall i :: 0 <= i < |cart| ==> Price.ParsePrice(cart[i].product.info.price).Finite?
    decreases |cart|
  {
    if |cart| > 0 {
      CartSummaryLines(cart[1..]);
      assert forall i :: 1 <= i < |cart| ==> cart[i] == cart[1..][i - 1];
    }
  }

  // ---------------------------------------------------------------------------
  // The customer form

  datatype Form = Form(
    name: string,
    email: string,
    phone: string,
    address: string,
    city: string,
    postalCode: string,
    notes: string,
    paymentMethod: string)

  const CashOnDelivery := "cash_on_delivery"

  const BlankForm := Form("", "", "", "", "", "", "", CashOnDelivery)

  /** The `name` attributes of the inputs wired to `handleInputChange`. */
  datatype Field = Name | Email | Phone | Address | City | PostalCode | Notes

  function Get(f: Form, field: Field): string {
    match field
    case Name => f.name
    case Email => f.email
    case Phone => f.phone
    case Address => f.address
    case City => f.city
    case PostalCode => f.postalCode
    case Notes => f.notes
  }

  /** `handleInputChange`: `{ ...formData, [name]: value }`. */
  function InputChange(f: Form, field: Field, value: string): (r: Form)
    ensures Get(r, field) == value
    ensures forall g :: g != field ==> Get(r, g) == Get(f, g)
    ensures r.paymentMethod == f.paymentMethod
  {
    match field
    case Name => f.(name := value)
    case Email => f.(email := value)
    case Phone => f.(phone := value)
    case Address => f.(address := value)
    case City => f.(city := value)
    case PostalCode => f.(postalCode := value)
    case Notes => f.(notes := value)
  }

  /** The payment radio group. */
  function ChoosePayment(f: Form, choice: string): (r: Form)
    ensures r.paymentMethod == choice
    ensures forall g :: Get(r, g) == Get(f, g)
  {
    f.(paymentMethod := choice)
  }

  /** Typing a value and then the old value back restores the form. */
  lemma InputChangeUndo(f: Form, field: Field, value: string)
    ensures InputChange(InputChange(f, field, value), field, Get(f, field)) == f
  {
  }

  // ---------------------------------------------------------------------------
  // Placing the order

  datatype State = State(form: Form, isSubmitting: bool)

  const Initial := State(BlankForm, false)

  /** Both buttons are disabled while the order is being placed. */
  predicate SubmitDisabled(s: State) {
    s.isSubmitting
  }

  predicate CancelDisabled(s: State) {
    s.isSubmitting
  }

  /** `setIsSubmitting(true)` at the start of `handleSubmit`. */
  function BeginSubmit(s: State): (r: State)
    ensures r.form == s.form && SubmitDisabled(r) && CancelDisabled(r)
  {
    s.(isSubmitting := true)
  }

  /** What the end of `handleSubmit` does besides its own state. */
  datatype Effects = Effects(clearsCart: bool, closesDialog: bool)

  /** The end of `handleSubmit`, once the simulated delay is over. */
  function FinishSubmit(s: State, direct: Option<Product>): (r: (State, Effects))
    ensures r.0.form == BlankForm && !r.0.isSubmitting
    ensures r.1.clearsCart <==> direct.None?
    ensures r.1.closesDialog
  {
    (Initial, Effects(direct.None?, true))
  }

  /** The whole submission, taken as one step. */
  function Submit(s: State, direct: Option<Product>): (r: (State, Effects))
    ensures r.0 == Initial
    ensures !SubmitDisabled(r.0) && !CancelDisabled(r.0)
    ensures r.1.clearsCart <==> direct.None?
  {
    FinishSubmit(BeginSubmit(s), direct)
  }

  /** After an order the form is blank with cash on delivery selected, so a
      second order starts from the same state as the first. */
  lemma SubmitResetsForm(s: State, t: State, direct: Option<Product>)
    ensures Submit(s, direct).0 == Submit(t, direct).0
    ensures Submit(s, direct).0.form.paymentMethod == CashOnDelivery
    ensures forall g :: Get(Submit(s, direct).0.form, g) == ""
  {
  }
}
