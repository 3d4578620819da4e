/** The app's records (src/lib/data.ts) and the lookups and list helpers over
    them. The source reads module-level sample arrays; here the collections are
    parameters, and the sample data are constants. */
module Model {
  import opened Wrappers
  import opened Seqs
  import opened Records

  type UserId = string

  /** An ISO date or instant, as an integer that orders the same way
      (`new Date(s).getTime()`); the samples use `yyyymmddhhmm` and `yyyymmdd`. */
  type Timestamp = int

  datatype User = User(id: UserId, name: string, email: string, defaultCurrency: string)

  datatype GroupKind = Trip | Home | Couple | OtherKind

  datatype Group = Group(
    id: string, name: string, kind: GroupKind, baseCurrency: string,
    members: seq<UserId>, createdBy: UserId, createdAt: Timestamp)

  /** Someone who paid `amount` towards an expense. */
  datatype Payer = Payer(userId: UserId, amount: real)

  /** Someone responsible for `share` of an expense. */
  datatype Participant = Participant(userId: UserId, share: real)

  datatype Expense = Expense(
    id: string, title: string, amount: real, currency: string, date: Timestamp,
    note: Option<string>, payers: seq<Payer>, participants: seq<Participant>,
    groupId: Option<string>, createdBy: UserId, createdAt: Timestamp)

  datatype Settlement = Settlement(
    id: string, fromUserId: UserId, toUserId: UserId, amount: real, currency: string,
    date: Timestamp, note: Option<string>, groupId: Option<string>)

  /** One user's position: `owes[v]` is what the user owes `v`, `owedBy[v]` what `v` owes the user. */
  datatype Balance = Balance(owes: Record, owedBy: Record)

  datatype Currency = Currency(code: string, name: string, symbol: string)

  // ---------------------------------------------------------------- sample data

  const Users: seq<User> := [
    User("user1", "John Doe", "test@hisaab.com", "USD"),
    User("user2", "Alice Johnson", "alice@example.com", "EUR"),
    User("user3", "Bob Smith", "bob@example.com", "GBP"),
    User("user4", "Carol Davis", "carol@example.com", "INR")
  ]

  const Groups: seq<Group> := [
    Group("group1", "Bali Trip 2024", Trip, "USD", ["user1", "user2", "user3"], "user1", 202401151000),
    Group("group2", "Apartment 4B", Home, "USD", ["user1", "user4"], "user1", 202402010900)
  ]

  const Exp1: Expense := Expense(
    "exp1", "Dinner at Italian Restaurant", 120.50, "USD", 20241001, Some("Food and dining"),
    [Payer("user1", 120.50)],
    [Participant("user1", 40.17), Participant("user2", 40.17), Participant("user3", 40.16)],
    Some("group1"), "user1", 202410011930)

  const Exp2: Expense := Expense(
    "exp2", "Grocery Shopping", 85.25, "USD", 20240930, Some("Food and groceries"),
    [Payer("user4", 85.25)],
    [Participant("user1", 42.63), Participant("user4", 42.62)],
    Some("group2"), "user4", 202409301645)

  const Exp3: Expense := Expense(
    "exp3", "Taxi to Airport", 45.00, "USD", 20240928, Some("Transportation"),
    [Payer("user2", 45.00)],
    [Participant("user1", 15.00), Participant("user2", 15.00), Participant("user3", 15.00)],
    Some("group1"), "user2", 202409281420)

  const Expenses: seq<Expense> := [Exp1, Exp2, Exp3]

  const Settlements: seq<Settlement> := [
    Settlement("settlement1", "user2", "user1", 25.00, "USD", 20241002, Some("Settlement for dinner"), Some("group1")),
    Settlement("settlement2", "user1", "user4", 42.63, "USD", 20241001, Some("Grocery payment"), Some("group2"))
  ]

  const Currencies: seq<Currency> := [
    Currency("USD", "US Dollar", "$"),
    Currency("EUR", "Euro", "€"),
    Currency("GBP", "British Pound", "£"),
    Currency("INR", "Indian Rupee", "₹"),
    Currency("MYR", "Malaysian Ringgit", "RM"),
    Currency("LKR", "Sri Lankan Rupee", "Rs"),
    Currency("SGD", "Singapore Dollar", "S$"),
    Currency("JPY", "Japanese Yen", "¥"),
    Currency("CAD", "Canadian Dollar", "C$"),
    Currency("AUD", "Australian Dollar", "A$"),
    Currency("CNY", "Chinese Yuan", "¥"),
    Currency("THB", "Thai Baht", "฿")
  ]

  // ---------------------------------------------------------------- lookups

  /** `getUserById`: the first user with the id, if any. */
  function GetUserById(users: seq<User>, id: UserId): (r: Option<User>)
    ensures r.None? <==> forall u :: u in users ==> u.id != id
    ensures r.Some? ==> r.value in users && r.value.id == id
    ensures forall i :: 0 <= i < |users| && users[i].id == id && (forall j :: 0 <= j < i ==> users[j].id != id) ==>
      r == Some(users[i])
  {
    Find(users, (u: User) => u.id == id)
  }

  /** `getGroupById`: the first group with the id, if any. */
  function GetGroupById(groups: seq<Group>, id: string): (r: Option<Group>)
    ensures r.None? <==> forall g :: g in groups ==> g.id != id
    ensures r.Some? ==> r.value in groups && r.value.id == id
    ensures forall i :: 0 <= i < |groups| && groups[i].id == id && (forall j :: 0 <= j < i ==> groups[j].id != id) ==>
      r == Some(groups[i])
  {
    Find(groups, (g: Group) => g.id == id)
  }

  /** The symbol of the first currency in `table` with the code, else "$";
      an empty symbol is falsy and also gives "$". */
  function SymbolIn(table: seq<Currency>, code: string): (r: string)
    ensures (forall c :: c in table ==> c.code != code) ==> r == "$"
    ensures forall i :: 0 <= i < |table| && table[i].code == code && (forall j :: 0 <= j < i ==> table[j].code != code) ==>
      r == if table[i].symbol == "" then "$" else table[i].symbol
    ensures r != ""
  {
    match Find(table, (c: Currency) => c.code == code)
    case Some(c) => if c.symbol == "" then "$" else c.symbol
    case None => "$"
  }

  /** `getCurrencySymbol`. */
  function GetCurrencySymbol(code: string): (r: string)
    ensures (forall c :: c in Currencies ==> c.code != code) ==> r == "$"
    ensures forall i :: (0 <= i < |Currencies| && Currencies[i].code == code &&
                         forall j :: 0 <= j < i ==> Currencies[j].code != code) ==> r == Currencies[i].symbol
  {
    assert forall i :: 0 <= i < |Currencies| ==> Currencies[i].symbol != "";
    SymbolIn(Currencies, code)
  }

  // ---------------------------------------------------------------- list helpers

  function IsMember(userId: UserId): Group -> bool {
    (g: Group) => userId in g.members
  }

  function InGroup(groupId: string): Expense -> bool {
    (e: Expense) => e.groupId == Some(groupId)
  }

  function CreatedAt(e: Expense): Timestamp {
    e.createdAt
  }

  /** `getUserGroups`: the groups listing the user as a member, in order. */
  function GetUserGroups(groups: seq<Group>, userId: UserId): (r: seq<Group>)
    ensures forall g :: g in r <==> g in groups && userId in g.members
  {
    Filter(groups, IsMember(userId))
  }

  /** `getGroupExpenses`: the expenses filed under the group, in order. */
  function GetGroupExpenses(expenses: seq<Expense>, groupId: string): (r: seq<Expense>)
    ensures forall e :: e in r <==> e in expenses && e.groupId == Some(groupId)
  {
    Filter(expenses, InGroup(groupId))
  }

  /** Both list helpers keep order: they commute with concatenation. */
  lemma ListHelpersPreserveOrder(gs1: seq<Group>, gs2: seq<Group>, es1: seq<Expense>, es2: seq<Expense>, id: string)
    ensures GetUserGroups(gs1 + gs2, id) == GetUserGroups(gs1, id) + GetUserGroups(gs2, id)
    ensures GetGroupExpenses(es1 + es2, id) == GetGroupExpenses(es1, id) + GetGroupExpenses(es2, id)
  {
    FilterAppend(gs1, gs2, IsMember(id));
    FilterAppend(es1, es2, InGroup(id));
  }

  /** `getRecentExpenses(limit)`: newest `createdAt` first, cut with `slice(0, limit)`. */
  function GetRecentExpenses(expenses: seq<Expense>, limit: int := 10): (r: seq<Expense>)
    ensures SortedDesc(r, CreatedAt)
    ensures multiset(r) <= multiset(expenses)
    ensures limit >= 0 ==> |r| == if limit < |expenses| then limit else |expenses|
    ensures forall x :: multiset(r)[x] < multiset(expenses)[x] ==>
      forall y :: y in r ==> y.createdAt >= x.createdAt
  {
    Newest(expenses, CreatedAt, limit)
  }

  lemma FirstSymbol(table: seq<Currency>, code: string, i: nat)
    requires i < |table| && table[i].code == code && table[i].symbol != ""
    requires forall j :: 0 <= j < i ==> table[j].code != code
    ensures SymbolIn(table, code) == table[i].symbol
  {
  }

  lemma SampleCurrencySymbols()
    ensures GetCurrencySymbol("USD") == "$"
    ensures GetCurrencySymbol("INR") == "₹"
  {
    var t := Currencies;
    assert t[0] == Currency("USD", "US Dollar", "$");
    assert t[3] == Currency("INR", "Indian Rupee", "₹");
    assert t[1].code == "EUR" && t[2].code == "GBP";
    assert forall j :: 0 <= j < 3 ==> t[j].code != "INR";
    assert t[3].symbol != "";
    FirstSymbol(t, "USD", 0);
    FirstSymbol(t, "INR", 3);
  }

  lemma SampleUserLookups()
    ensures GetUserById(Users, "user2") == Some(Users[1])
    ensures GetUserById(Users, "user9") == None
  {
    UsersShape(Users);
  }

  /** The sample user ids differ (in their last character). */
  lemma SampleIdsDistinct()
    ensures "user1" != "user2" && "user1" != "user3" && "user1" != "user4"
    ensures "user2" != "user3" && "user2" != "user4" && "user3" != "user4"
    ensures "user1" != "user9" && "user2" != "user9" && "user3" != "user9" && "user4" != "user9"
  {
    assert "user1"[4] == '1' && "user2"[4] == '2' && "user3"[4] == '3' && "user4"[4] == '4' && "user9"[4] == '9';
  }

  lemma UsersShape(users: seq<User>)
    requires |users| == 4
    requires users[0].id == "user1" && users[1].id == "user2" && users[2].id == "user3" && users[3].id == "user4"
    ensures GetUserById(users, "user2") == Some(users[1])
    ensures GetUserById(users, "user9") == None
  {
    SampleIdsDistinct();
    assert forall i :: 0 <= i < |users| ==> users[i].id != "user9";
  }

  lemma SampleListHelpers()
    ensures GetUserGroups(Groups, "user4") == [Groups[1]]
    ensures GetGroupExpenses(Expenses, "group1") == [Exp1, Exp3]
  {
    assert Groups[1..][1..] == [];
    var f := InGroup("group1");
    assert f(Exp1) && !f(Exp2) && f(Exp3);
    assert Expenses[1..][1..][1..] == [];
    assert Filter(Expenses[1..][1..], f) == [Exp3];
    assert Filter(Expenses[1..], f) == [Exp3];
  }
}
