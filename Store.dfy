/** The till's store and the handlers that change it: recording a sale, and
    creating, updating and deleting items, users and payment methods. Each
    handler is one atomic change of the store (one `with con:` block); a
    refused request leaves every table as it was. */
module PosStore {
  import opened Text
  import opened Schema
  import opened Tables
  import opened Sales
  import opened Auth

  /** The rows of `items` that `SEED_SQL` inserts: the four products and their prices. */
  function SeedItems(): (t: Table<Item>)
    ensures t.Valid() && t.rows.Keys == {1, 2, 3, 4}
    ensures forall id :: id in t.rows ==> t.rows[id].price > 0
  {
    Table(map[
      1 := Item("Hot Dog", 900),
      2 := Item("Hot Dog Kids", 600),
      3 := Item("Hot Dog Veggie", 700),
      4 := Item("Getränk", 800)], 5)
  }

  /** The one seeded payment method: cash ("Bar"), protected from deletion. */
  function SeedPayments(): (t: Table<PaymentMethod>)
    ensures t.Valid() && t.rows.Keys == {1} && t.rows[1].protected
  {
    Table(map[1 := PaymentMethod("Bar", true)], 2)
  }

  /** The one seeded user: the administrator "Admin" with PIN "0000". */
  function SeedUsers(): (t: Table<User>)
    ensures t.Valid() && t.rows.Keys == {1} && t.rows[1].isAdmin
  {
    Table(map[1 := User("Admin", "0000", true)], 2)
  }

  /** The items table: ids below the counter, every name trimmed. */
  ghost predicate ItemsInv(items: Table<Item>) {
    && items.Valid()
    && forall id :: id in items.rows ==> Trimmed(items.rows[id].name)
  }

  /** The users table: ids below the counter, usernames unique, every
      username and PIN trimmed. */
  ghost predicate UsersInv(users: Table<User>) {
    && users.Valid()
    && UniqueUsernames(users.rows)
    && forall id :: id in users.rows ==> Trimmed(users.rows[id].username) && Trimmed(users.rows[id].pin)
  }

  /** The payment-methods table: ids below the counter, names unique and trimmed. */
  ghost predicate PaymentsInv(payments: Table<PaymentMethod>) {
    && payments.Valid()
    && UniquePaymentNames(payments.rows)
    && forall id :: id in payments.rows ==> Trimmed(payments.rows[id].name)
  }

  /** The seeded items satisfy the items invariant. */
  lemma SeedItemsInv()
    ensures ItemsInv(SeedItems())
  {
    var items := SeedItems().rows;
    assert items[1].name == "Hot Dog" && Trimmed("Hot Dog");
    assert items[2].name == "Hot Dog Kids" && Trimmed("Hot Dog Kids");
    assert items[3].name == "Hot Dog Veggie" && Trimmed("Hot Dog Veggie");
    assert items[4].name == "Getränk" && Trimmed("Getränk");
  }

  /** The seeded user and payment method satisfy their tables' invariants. */
  lemma SeedUsersAndPaymentsInv()
    ensures UsersInv(SeedUsers()) && PaymentsInv(SeedPayments())
  {
    assert Trimmed("Admin") && Trimmed("0000") && Trimmed("Bar");
  }

  /** The seeded administrator can log in with "Admin" and PIN "0000". */
  lemma SeedAdminCanLogIn()
    ensures Login(SeedUsers().rows, "Admin", "0000") == Ok(SessionUser(1, "Admin", true))
  {
    SeedUsersAndPaymentsInv();
    LoginAcceptsStoredCredentials(SeedUsers().rows, 1);
  }

  /** A user that `users_create` has just added can log in with the very
      username and PIN that were submitted, surrounding whitespace and all,
      and the session is the new user's. */
  lemma CreatedUserCanLogIn(users: Table<User>, username: Option<string>, pin: Option<string>, isAdmin: bool)
    requires UsersInv(users)
    requires UserForm(username, pin, isAdmin).Ok?
    requires !UsernameTaken(users.rows, Strip(TextOr(username)), None)
    ensures var users' := users.Insert(UserForm(username, pin, isAdmin).value);
      && UsersInv(users')
      && Login(users'.rows, TextOr(username), TextOr(pin)) == Ok(SessionUser(users.next, Strip(TextOr(username)), isAdmin))
  {
    var u := UserForm(username, pin, isAdmin).value;
    var users' := users.Insert(u);
    assert users'.rows[users.next] == u;
    assert UniqueUsernames(users'.rows);
    assert Registered(users'.rows, Strip(TextOr(username)), Strip(TextOr(pin)));
    var r := Login(users'.rows, TextOr(username), TextOr(pin));
    assert r.value.id == users.next;
  }

  /** The loop of `create_sale` over the submitted cart: it keeps each line
      with a positive quantity of an item in `items`, prices it from the table,
      and adds price × qty to the running total. */
  method PriceCart(items: map<int, Item>, cart: seq<CartLine>) returns (norm: seq<PricedLine>, total: Cents)
    ensures norm == Normalize(items, cart)
    ensures total == Total(norm)
  {
    norm := [];
    total := 0;
    var i := 0;
    while i < |cart|
      invariant 0 <= i <= |cart|
      invariant norm == Normalize(items, cart[..i])
      invariant total == Total(norm)
    {
      var ln := cart[i];
      assert cart[..i + 1][..i] == cart[..i];
      if ln.qty > 0 && ln.itemId in items {
        var price := items[ln.itemId].price;
        total := total + price * ln.qty;
        var norm' := norm + [PricedLine(ln.itemId, ln.qty, price)];
        assert norm'[..|norm|] == norm;
        norm := norm';
      }
      i := i + 1;
    }
    assert cart[..|cart|] == cart;
  }

  /** The `executemany` of `create_sale`: one `sale_lines` row per normalised
      line, in order, each under the next id and naming sale `saleId`. */
  method WriteLines(lines: Table<SaleLine>, saleId: int, norm: seq<PricedLine>) returns (lines': Table<SaleLine>)
    requires lines.Valid()
    ensures lines'.Valid()
    ensures lines'.next == lines.next + |norm|
    ensures Written(lines.rows, lines'.rows, lines.next, saleId, norm)
  {
    lines' := lines;
    var j := 0;
    while j < |norm|
      invariant 0 <= j <= |norm|
      invariant lines'.Valid() && lines'.next == lines.next + j
      invariant Written(lines.rows, lines'.rows, lines.next, saleId, norm[..j])
    {
      WrittenSnoc(lines.rows, lines'.rows, lines.next, saleId, norm, j);
      lines' := lines'.Insert(LineRow(saleId, norm[j]));
      j := j + 1;
    }
    assert norm[..|norm|] == norm;
  }

  class Store {
    var items: Table<Item>
    var payments: Table<PaymentMethod>
    var users: Table<User>
    var sales: Table<Sale>
    var saleLines: Table<SaleLine>
    /** For each recorded sale, the ids of its lines in the order they were written. */
    ghost var lineIds: map<int, seq<int>>

    /** What holds of the store between requests: the id counters are ahead of
        every id in use, names and usernames are unique, every stored text was
        stripped, and every sale header agrees with its lines. */
    ghost predicate Valid()
      reads this
    {
      && ItemsInv(items) && UsersInv(users) && PaymentsInv(payments)
      && SalesInv(sales, saleLines, lineIds)
    }

    /** A fresh store after `init_db`: the seed rows and no sales. */
    constructor ()
      ensures Valid()
      ensures items == SeedItems() && payments == SeedPayments() && users == SeedUsers()
      ensures sales == Table(map[], 1) && saleLines == Table(map[], 1)
    {
      items := SeedItems();
      payments := SeedPayments();
      users := SeedUsers();
      sales := Table(map[], 1);
      saleLines := Table(map[], 1);
      lineIds := map[];
      SeedItemsInv();
      SeedUsersAndPaymentsInv();
    }

    /** `create_sale` for the logged-in user `userId`: the cart is walked in
        order, keeping each line with a positive quantity of a known item at
        the item's stored price and adding it to the total. A total that is not
        positive refuses the sale and writes nothing; otherwise one header is
        written under a fresh id and then one line row per kept line, in cart
        order, under consecutive fresh ids. */
    method RecordSale(userId: int, paymentMethodId: int, cart: seq<CartLine>, now: Timestamp)
      returns (r: Result<int>)
      requires Valid()
      modifies this`sales, this`saleLines, this`lineIds
      ensures Valid()
      ensures var norm := Normalize(items.rows, cart);
        Total(norm) <= 0 ==> r == Err(EmptySale) && sales == old(sales) && saleLines == old(saleLines)
      ensures var norm := Normalize(items.rows, cart);
        Total(norm) > 0 ==>
          && r == Ok(old(sales.next))
          && sales == old(sales).Insert(Sale(userId, paymentMethodId, Total(norm), now))
          && saleLines.next == old(saleLines.next) + |norm|
          && Written(old(saleLines.rows), saleLines.rows, old(saleLines.next), r.value, norm)
    {
      var norm, total := PriceCart(items.rows, cart);
      if total <= 0 {
        return Err(EmptySale);
      }
      var saleId := WriteSale(Sale(userId, paymentMethodId, total, now), norm);
      r := Ok(saleId);
    }

    /** The `with con:` block of `create_sale`: the header is written under the
        next sale id, then one line row per normalised line under consecutive
        fresh line ids, each naming the new sale. */
    method WriteSale(header: Sale, norm: seq<PricedLine>) returns (saleId: int)
      requires Valid()
      requires header.total == Total(norm) > 0
      requires forall k :: 0 <= k < |norm| ==> norm[k].qty > 0
      modifies this`sales, this`saleLines, this`lineIds
      ensures Valid()
      ensures saleId == old(sales.next)
      ensures sales == old(sales).Insert(header)
      ensures saleLines.next == old(saleLines.next) + |norm|
      ensures Written(old(saleLines.rows), saleLines.rows, old(saleLines.next), saleId, norm)
    {
      saleId := sales.next;
      var start := saleLines.next;
      var written := WriteLines(saleLines, saleId, norm);
      WriteKeepsSalesInv(sales, saleLines, written, lineIds, header, norm);
      sales, saleLines, lineIds := sales.Insert(header), written, lineIds[saleId := Ids(start, |norm|)];
      assert items == old(items) && users == old(users) && payments == old(payments);
    }

    /** `items_create`: a blank name (after stripping) or a price that is not
        positive is refused; otherwise the item is added under a fresh id. */
    method CreateItem(name: Option<string>, price: Option<Cents>) returns (r: Result<()>)
      requires Valid()
      modifies this`items
      ensures Valid()
      ensures r.Err? <==> Blank(TextOr(name)) || NumberOr(price) <= 0
      ensures r.Err? ==> r == Err(Invalid) && items == old(items)
      ensures r.Ok? ==> items == old(items).Insert(Item(Strip(TextOr(name)), NumberOr(price)))
    {
      var form := ItemForm(name, price);
      if form.Err? {
        return Err(form.error);
      }
      items := items.Insert(form.value);
      assert users == old(users) && payments == old(payments);
      assert sales == old(sales) && saleLines == old(saleLines) && lineIds == old(lineIds);
      r := Ok(());
    }

    /** `items_update`: only the supplied fields of item `id` change (a supplied
        name is stored stripped, a supplied price as given, with no check); an
        unknown id changes nothing. The request always succeeds. */
    method UpdateItem(id: int, name: Option<string>, price: Option<Cents>) returns (r: Result<()>)
      requires Valid()
      modifies this`items
      ensures Valid()
      ensures r == Ok(())
      ensures items.next == old(items.next) && items.rows.Keys == old(items.rows.Keys)
      ensures forall k :: k in items.rows && k != id ==> items.rows[k] == old(items.rows[k])
      ensures id in items.rows ==>
        && items.rows[id].name == (if name.Some? then Strip(name.value) else old(items.rows[id].name))
        && items.rows[id].price == (if price.Some? then price.value else old(items.rows[id].price))
    {
      if id in items.rows {
        if name.Some? {
          items := items.Replace(id, items.rows[id].(name := Strip(name.value)));
        }
        if price.Some? {
          items := items.Replace(id, items.rows[id].(price := price.value));
        }
      }
      assert users == old(users) && payments == old(payments);
      assert sales == old(sales) && saleLines == old(saleLines) && lineIds == old(lineIds);
      r := Ok(());
    }

    /** `items_delete`: item `id` is gone, if it was there; nothing else changes.
        Sale lines that name the item are kept. */
    method DeleteItem(id: int) returns (r: Result<()>)
      requires Valid()
      modifies this`items
      ensures Valid()
      ensures r == Ok(())
      ensures items == old(items).Delete(id)
    {
      items := items.Delete(id);
      assert users == old(users) && payments == old(payments);
      assert sales == old(sales) && saleLines == old(saleLines) && lineIds == old(lineIds);
      r := Ok(());
    }

    /** `users_create`: a blank username or PIN (after stripping) is refused; a
        username some user already has is refused by the UNIQUE constraint;
        otherwise the user is added under a fresh id. */
    method CreateUser(username: Option<string>, pin: Option<string>, isAdmin: bool) returns (r: Result<()>)
      requires Valid()
      modifies this`users
      ensures Valid()
      ensures r == Err(Invalid) <==> Blank(TextOr(username)) || Blank(TextOr(pin))
      ensures r == Err(UserExists) <==>
        !Blank(TextOr(username)) && !Blank(TextOr(pin)) &&
        UsernameTaken(old(users.rows), Strip(TextOr(username)), None)
      ensures r.Ok? <==>
        !Blank(TextOr(username)) && !Blank(TextOr(pin)) &&
        !UsernameTaken(old(users.rows), Strip(TextOr(username)), None)
      ensures r.Err? ==> users == old(users)
      ensures r.Ok? ==> users == old(users).Insert(User(Strip(TextOr(username)), Strip(TextOr(pin)), isAdmin))
    {
      var form := UserForm(username, pin, isAdmin);
      if form.Err? {
        return Err(form.error);
      }
      if UsernameTaken(users.rows, form.value.username, None) {
        return Err(UserExists);
      }
      users := users.Insert(form.value);
      assert items == old(items) && payments == old(payments);
      assert sales == old(sales) && saleLines == old(saleLines) && lineIds == old(lineIds);
      r := Ok(());
    }

    /** `users_update` on user `id`: a supplied username is stored stripped, the
        admin flag is always set, and a non-empty PIN is stored stripped. A new
        username another user already has violates the UNIQUE constraint, and
        the whole update is rolled back. An unknown id changes nothing. */
    method UpdateUser(id: int, username: Option<string>, pin: Option<string>, isAdmin: bool) returns (r: Result<()>)
      requires Valid()
      modifies this`users
      ensures Valid()
      ensures r.Err? <==>
        id in old(users.rows) && username.Some? && UsernameTaken(old(users.rows), Strip(username.value), Some(id))
      ensures r.Err? ==> r.error == UniqueViolation && users == old(users)
      ensures r.Ok? ==>
        && users.next == old(users.next) && users.rows.Keys == old(users.rows.Keys)
        && (forall k :: k in users.rows && k != id ==> users.rows[k] == old(users.rows[k]))
        && (id in users.rows ==> users.rows[id] == User(
              if username.Some? then Strip(username.value) else old(users.rows[id].username),
              if pin.Some? && pin.value != [] then Strip(pin.value) else old(users.rows[id].pin),
              isAdmin))
    {
      if id !in users.rows {
        return Ok(());
      }
      var old_ := users.rows[id];
      var newName := if username.Some? then Strip(username.value) else old_.username;
      if username.Some? && UsernameTaken(users.rows, newName, Some(id)) {
        return Err(UniqueViolation);
      }
      var newPin := if pin.Some? && pin.value != [] then Strip(pin.value) else old_.pin;
      users := users.Replace(id, User(newName, newPin, isAdmin));
      assert items == old(items) && payments == old(payments);
      assert sales == old(sales) && saleLines == old(saleLines) && lineIds == old(lineIds);
      r := Ok(());
    }

    /** `users_delete`: the user logged in as `session` cannot delete their own
        account; any other id is removed (if present). No login is required. */
    method DeleteUser(id: int, session: Option<int>) returns (r: Result<()>)
      requires Valid()
      modifies this`users
      ensures Valid()
      ensures r.Err? <==> session == Some(id)
      ensures r.Err? ==> r.error == OwnAccount && users == old(users)
      ensures r.Ok? ==> users == old(users).Delete(id)
    {
      if session == Some(id) {
        return Err(OwnAccount);
      }
      users := users.Delete(id);
      assert items == old(items) && payments == old(payments);
      assert sales == old(sales) && saleLines == old(saleLines) && lineIds == old(lineIds);
      r := Ok(());
    }

    /** `payments_create`: a blank name (after stripping) is refused; a name
        another payment method already has is refused by the UNIQUE constraint;
        otherwise the payment method is added under a fresh id. */
    method CreatePaymentMethod(name: Option<string>, protected: bool) returns (r: Result<()>)
      requires Valid()
      modifies this`payments
      ensures Valid()
      ensures r == Err(Invalid) <==> Blank(TextOr(name))
      ensures r == Err(PaymentMethodExists) <==>
        !Blank(TextOr(name)) && PaymentNameTaken(old(payments.rows), Strip(TextOr(name)), None)
      ensures r.Ok? <==> !Blank(TextOr(name)) && !PaymentNameTaken(old(payments.rows), Strip(TextOr(name)), None)
      ensures r.Err? ==> payments == old(payments)
      ensures r.Ok? ==> payments == old(payments).Insert(PaymentMethod(Strip(TextOr(name)), protected))
    {
      var form := PaymentForm(name, protected);
      if form.Err? {
        return Err(form.error);
      }
      if PaymentNameTaken(payments.rows, form.value.name, None) {
        return Err(PaymentMethodExists);
      }
      payments := payments.Insert(form.value);
      assert items == old(items) && users == old(users);
      assert sales == old(sales) && saleLines == old(saleLines) && lineIds == old(lineIds);
      r := Ok(());
    }

    /** `payments_update` on payment method `id`: a supplied name is stored
        stripped and the protected flag is always set (so an update can clear
        it). A new name another payment method already has violates the UNIQUE
        constraint, and the whole update is rolled back. An unknown id changes
        nothing. */
    method UpdatePaymentMethod(id: int, name: Option<string>, protected: bool) returns (r: Result<()>)
      requires Valid()
      modifies this`payments
      ensures Valid()
      ensures r.Err? <==>
        id in old(payments.rows) && name.Some? && PaymentNameTaken(old(payments.rows), Strip(name.value), Some(id))
      ensures r.Err? ==> r.error == UniqueViolation && payments == old(payments)
      ensures r.Ok? ==>
        && payments.next == old(payments.next) && payments.rows.Keys == old(payments.rows.Keys)
        && (forall k :: k in payments.rows && k != id ==> payments.rows[k] == old(payments.rows[k]))
        && (id in payments.rows ==> payments.rows[id] == PaymentMethod(
              if name.Some? then Strip(name.value) else old(payments.rows[id].name),
              protected))
    {
      if id !in payments.rows {
        return Ok(());
      }
      var newName := if name.Some? then Strip(name.value) else payments.rows[id].name;
      if name.Some? && PaymentNameTaken(payments.rows, newName, Some(id)) {
        return Err(UniqueViolation);
      }
      payments := payments.Replace(id, PaymentMethod(newName, protected));
      assert items == old(items) && users == old(users);
      assert sales == old(sales) && saleLines == old(saleLines) && lineIds == old(lineIds);
      r := Ok(());
    }

    /** `payments_delete`: a protected payment method is refused and stays;
        any other id is removed (if present). */
    method DeletePaymentMethod(id: int) returns (r: Result<()>)
      requires Valid()
      modifies this`payments
      ensures Valid()
      ensures r.Err? <==> id in old(payments.rows) && old(payments.rows[id].protected)
      ensures r.Err? ==> r.error == ProtectedPaymentMethod && payments == old(payments)
      ensures r.Ok? ==> payments == old(payments).Delete(id)
    {
      if id in payments.rows && payments.rows[id].protected {
        return Err(ProtectedPaymentMethod);
      }
      payments := payments.Delete(id);
      assert items == old(items) && users == old(users);
      assert sales == old(sales) && saleLines == old(saleLines) && lineIds == old(lineIds);
      r := Ok(());
    }
  }
}
