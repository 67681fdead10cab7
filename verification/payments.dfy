/** The payment-method settings of
    src/components/admin/PaymentMethodsManager.tsx: four methods, each with an
    on/off switch, and account details shown under the enabled ones. The
    detail inputs are uncontrolled and "Save" only shows a notice, so the
    switches are the only thing that changes the state. */
module Payments {
  import opened Values

  /** The keys of the `paymentMethods` object. */
  datatype Key = Cod | BankTransfer | Easypaisa | Jazzcash

  /** One method; the account fields are absent where the object has none. */
  datatype Method = Method(
    enabled: bool,
    name: string,
    accountName: Option<string>,
    accountNumber: Option<string>,
    bankName: Option<string>,
    iban: Option<string>)

  datatype Methods = Methods(cod: Method, bankTransfer: Method, easypaisa: Method, jazzcash: Method)

  function Get(ms: Methods, k: Key): Method {
    match k
    case Cod => ms.cod
    case BankTransfer => ms.bankTransfer
    case Easypaisa => ms.easypaisa
    case Jazzcash => ms.jazzcash
  }

  /** `{ ...prev, [k]: m }`. */
  function With(ms: Methods, k: Key, m: Method): (r: Methods)
    ensures Get(r, k) == m
    ensures forall j :: j != k ==> Get(r, j) == Get(ms, j)
  {
    match k
    case Cod => ms.(cod := m)
    case BankTransfer => ms.(bankTransfer := m)
    case Easypaisa => ms.(easypaisa := m)
    case Jazzcash => ms.(jazzcash := m)
  }

  /** The methods as the page starts. */
  const Initial := Methods(
    Method(true, "Cash on Delivery", None, None, None, None),
    Method(true, "Bank Transfer", Some("Al-Noor Collection"), Some("1234567890"),
           Some("Allied Bank"), Some("PK12ABCD0000001234567890")),
    Method(true, "Easypaisa", None, Some("0300-1234567"), None, None),
    Method(true, "JazzCash", None, Some("0301-9876543"), None, None))

  /** Every method starts enabled. */
  lemma InitialAllEnabled()
    ensures forall k :: Get(Initial, k).enabled
  {
    forall k
      ensures Get(Initial, k).enabled
    {
      match k
      case Cod =>
      case BankTransfer =>
      case Easypaisa =>
      case Jazzcash =>
    }
  }

  /** `handleToggle(k)`: flip the switch of `k`, keep its other fields and
      every other method. */
  function Toggle(ms: Methods, k: Key): (r: Methods)
    ensures Get(r, k).enabled == !Get(ms, k).enabled
    ensures Get(r, k) == Get(ms, k).(enabled := Get(r, k).enabled)
    ensures forall j :: j != k ==> Get(r, j) == Get(ms, j)
  {
    var m := Get(ms, k);
    With(ms, k, m.(enabled := !m.enabled))
  }

  /** Flipping a switch twice puts it back. */
  lemma ToggleTwice(ms: Methods, k: Key)
    ensures Toggle(Toggle(ms, k), k) == ms
  {
  }

  /** Flips of two switches can happen in either order. */
  lemma TogglesCommute(ms: Methods, a: Key, b: Key)
    ensures Toggle(Toggle(ms, a), b) == Toggle(Toggle(ms, b), a)
  {
  }

  /** The account details of `k` are on screen: Cash on Delivery has none, the
      others show theirs while enabled. */
  predicate DetailsShown(ms: Methods, k: Key) {
    k != Cod && Get(ms, k).enabled
  }

  /** What the admin can do on the page. */
  datatype Event =
    | Switch(key: Key)
    | EditDetail(key: Key, text: string)  // an uncontrolled input
    | Save

  /** One event: only a switch changes anything, and it flips exactly its own
      method's `enabled` flag. */
  function Step(ms: Methods, e: Event): (r: Methods)
    ensures !e.Switch? ==> r == ms
    ensures forall k :: Get(r, k).enabled != Get(ms, k).enabled <==> e == Switch(k)
    ensures forall k :: Get(r, k) == Get(ms, k).(enabled := Get(r, k).enabled)
  {
    match e
    case Switch(k) => Toggle(ms, k)
    case EditDetail(_, _) => ms
    case Save => ms
  }

  function Run(ms: Methods, es: seq<Event>): Methods
    decreases |es|
  {
    if |es| == 0 then ms else Run(Step(ms, es[0]), es[1..])
  }

  /** How many times the switch of `k` is flipped. */
  function Flips(es: seq<Event>, k: Key): nat
    decreases |es|
  {
    if |es| == 0 then 0 else (if es[0] == Switch(k) then 1 else 0) + Flips(es[1..], k)
  }

  /** Saving and typing into the detail inputs change nothing. */
  lemma SaveAndEditChangeNothing(ms: Methods, k: Key, text: string)
    ensures Step(ms, Save) == ms && Step(ms, EditDetail(k, text)) == ms
  {
  }

  /** After any sequence of events a method is enabled exactly when it started
      enabled and was flipped an even number of times, or started disabled
      and was flipped an odd number of times; its other fields never change. */
  lemma {:induction false} RunFlips(ms: Methods, es: seq<Event>, k: Key)
    ensures Get(Run(ms, es), k).enabled == (Get(ms, k).enabled == (Flips(es, k) % 2 == 0))
    ensures Get(Run(ms, es), k) == Get(ms, k).(enabled := Get(Run(ms, es), k).enabled)
    decreases |es|
  {
    if |es| > 0 {
      RunFlips(Step(ms, es[0]), es[1..], k);
    }
  }

  /** From the starting settings, a method's details are shown exactly when
      its switch was flipped an even number of times. */
  lemma DetailsShownAfter(es: seq<Event>, k: Key)
    requires k != Cod
    ensures DetailsShown(Run(Initial, es), k) <==> Flips(es, k) % 2 == 0
  {
    InitialAllEnabled();
    RunFlips(Initial, es, k);
  }
}
