/** The rows of the till's five tables, the answers its handlers give, and the
    checks the handlers make on a submitted form before they touch the store. */
module Schema {
  import opened Text

  /** An amount of money in cents (the store keeps francs as REAL; see README). */
  type Cents = int

  /** `datetime.utcnow().isoformat()` at the moment a sale is stored; opaque here. */
  type Timestamp = string

  datatype Item = Item(name: string, price: Cents)
  datatype PaymentMethod = PaymentMethod(name: string, protected: bool)
  datatype User = User(username: string, pin: string, isAdmin: bool)
  /** A sale header: who rang it up, how it was paid, its total and when. */
  datatype Sale = Sale(userId: int, paymentMethodId: int, total: Cents, createdAt: Timestamp)
  /** One line of a sale, with the unit price the item had when it was sold. */
  datatype SaleLine = SaleLine(saleId: int, itemId: int, qty: int, price: Cents)

  /** Why a handler refused; each stands for one of the handlers' messages. */
  datatype Error =
    | Invalid                 // 'Ungültig'
    | UserExists              // 'Benutzer existiert bereits'
    | PaymentMethodExists     // 'Zahlart existiert bereits'
    | UniqueViolation         // an UPDATE that hits a UNIQUE column: an uncaught IntegrityError
    | OwnAccount              // 'Eigener Benutzer kann nicht gelöscht werden'
    | ProtectedPaymentMethod  // 'Geschützte Zahlart kann nicht gelöscht werden'
    | EmptySale               // 'Leerer Verkauf'
    | MissingCredentials      // 'Benutzer/PIN fehlt'
    | WrongPin                // 'PIN falsch'

  datatype Result<T> = Ok(value: T) | Err(error: Error)

  /** `data.get(key) or ''` for a text field of a JSON body: an absent field reads as empty. */
  function TextOr(field: Option<string>): string {
    if field.Some? then field.value else ""
  }

  /** `data.get(key) or 0` for a number field: an absent field reads as zero. */
  function NumberOr(field: Option<int>): int {
    if field.Some? then field.value else 0
  }

  datatype Option<T> = None | Some(value: T)

  /** No two users share a username (`username TEXT NOT NULL UNIQUE`). */
  ghost predicate UniqueUsernames(users: map<int, User>) {
    forall a, b :: a in users && b in users && users[a].username == users[b].username ==> a == b
  }

  /** No two payment methods share a name (`name TEXT NOT NULL UNIQUE`). */
  ghost predicate UniquePaymentNames(methods: map<int, PaymentMethod>) {
    forall a, b :: a in methods && b in methods && methods[a].name == methods[b].name ==> a == b
  }

  /** Some user other than `except` is called `name`. */
  predicate UsernameTaken(users: map<int, User>, name: string, except: Option<int>) {
    exists id :: id in users && users[id].username == name && Some(id) != except
  }

  /** Some payment method other than `except` is called `name`. */
  predicate PaymentNameTaken(methods: map<int, PaymentMethod>, name: string, except: Option<int>) {
    exists id :: id in methods && methods[id].name == name && Some(id) != except
  }

  /** The check `items_create` makes on `{name, price}` and the row it then inserts:
      refused exactly when the stripped name is empty or the price is not positive. */
  function ItemForm(name: Option<string>, price: Option<Cents>): (r: Result<Item>)
    ensures r.Err? <==> Blank(TextOr(name)) || NumberOr(price) <= 0
    ensures r.Err? ==> r.error == Invalid
    ensures r.Ok? ==> r.value.name != [] && Trimmed(r.value.name) && r.value.price > 0
    ensures r.Ok? ==> r.value.name == Strip(TextOr(name)) && r.value.price == NumberOr(price)
  {
    var n := Strip(TextOr(name));
    var p := NumberOr(price);
    if n == [] || p <= 0 then Err(Invalid)
    else Ok(Item(n, p))
  }

  /** The check `users_create` makes on `{username, pin, is_admin}` and the row it
      would insert: refused exactly when the stripped username or PIN is empty. */
  function UserForm(username: Option<string>, pin: Option<string>, isAdmin: bool): (r: Result<User>)
    ensures r.Err? <==> Blank(TextOr(username)) || Blank(TextOr(pin))
    ensures r.Err? ==> r.error == Invalid
    ensures r.Ok? ==> r.value.username != [] && r.value.pin != []
    ensures r.Ok? ==> Trimmed(r.value.username) && Trimmed(r.value.pin)
    ensures r.Ok? ==> r.value == User(Strip(TextOr(username)), Strip(TextOr(pin)), isAdmin)
  {
    var u := Strip(TextOr(username));
    var p := Strip(TextOr(pin));
    if u == [] || p == [] then Err(Invalid)
    else Ok(User(u, p, isAdmin))
  }

  /** The check `payments_create` makes on `{name, protected}` and the row it would
      insert: refused exactly when the stripped name is empty. */
  function PaymentForm(name: Option<string>, protected: bool): (r: Result<PaymentMethod>)
    ensures r.Err? <==> Blank(TextOr(name))
    ensures r.Err? ==> r.error == Invalid
    ensures r.Ok? ==> r.value.name != [] && Trimmed(r.value.name)
    ensures r.Ok? ==> r.value == PaymentMethod(Strip(TextOr(name)), protected)
  {
    var n := Strip(TextOr(name));
    if n == [] then Err(Invalid)
    else Ok(PaymentMethod(n, protected))
  }
}
