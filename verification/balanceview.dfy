/** The logic of the Balances page (src/pages/Balances.tsx) on top of the
    balance aggregator: per-counterpart net amounts, the counterpart list, the
    two display filters, settlement-form validation and the recent-settlement
    list. */
module BalanceView {
  import opened Wrappers
  import opened Seqs
  import opened Numbers
  import opened Records
  import opened Model
  import opened Balances

  // ---------------------------------------------------------------- net balance

  /** `getNetBalance(k)`: what `k` owes the target minus what the target owes `k`. */
  function NetBalance(b: Balance, k: UserId): real {
    Get(b.owedBy, k) - Get(b.owes, k)
  }

  /** On a computed balance, the net against `k` is everything the expenses
      attribute to `k` as owing the target, minus everything they attribute
      to the target as owing `k`. */
  lemma NetBalanceOfExpenses(es: seq<Expense>, u: UserId, k: UserId)
    ensures NetBalance(CalculateBalances(es, u), k) == OwedByTotal(es, u, k) - OwesTotal(es, u, k)
  {
    CalculateBalancesPerKey(es, u, k);
  }

  /** The target's net against itself is always 0. */
  lemma NetAgainstSelf(es: seq<Expense>, u: UserId)
    ensures NetBalance(CalculateBalances(es, u), u) == 0.0
  {
    TargetNeverKey(es, u);
  }

  // ---------------------------------------------------------------- counterparts

  /** `allBalanceUsers`: the `owedBy` keys then the `owes` keys, each kept at
      its first occurrence. */
  function AllBalanceUsers(b: Balance): (r: seq<UserId>)
    requires ValidBalance(b)
    ensures NoDups(r)
    ensures forall k :: k in r <==> k in b.owedBy.amounts || k in b.owes.amounts
  {
    Dedup(b.owedBy.keys + b.owes.keys)
  }

  /** The list starts with every `owedBy` key in its order, followed by the
      `owes` keys not already listed, in theirs. */
  lemma AllBalanceUsersOrder(b: Balance)
    requires ValidBalance(b)
    ensures AllBalanceUsers(b) == b.owedBy.keys + Filter(b.owes.keys, NotIn(b.owedBy.keys))
  {
    DedupAppend(b.owedBy.keys, b.owes.keys);
  }

  /** On a computed balance, `k` is listed exactly when some expense attributes
      an amount between `k` and the target; the target is never listed. */
  lemma CounterpartsOfExpenses(es: seq<Expense>, u: UserId, k: UserId)
    ensures k in AllBalanceUsers(CalculateBalances(es, u)) <==>
      exists e :: e in es && (CreditsKey(e, u, k) || DebitsKey(e, u, k))
    ensures u !in AllBalanceUsers(CalculateBalances(es, u))
  {
    CalculateBalancesPerKey(es, u, k);
    TargetNeverKey(es, u);
  }

  // ---------------------------------------------------------------- display filters

  /** One line of the overview tab. */
  datatype OverviewRow = Hidden | OwesYou(amount: real) | YouOwe(amount: real)

  /** The overview renders nothing for an unknown user or a net under a cent,
      "owes you" for a positive net and "you owe" otherwise, with `|net|`. */
  function Overview(users: seq<User>, b: Balance, k: UserId): (r: OverviewRow)
    ensures r.Hidden? <==> GetUserById(users, k).None? || Abs(NetBalance(b, k)) < 0.01
    ensures r.OwesYou? <==> GetUserById(users, k).Some? && NetBalance(b, k) >= 0.01
    ensures r.YouOwe? <==> GetUserById(users, k).Some? && NetBalance(b, k) <= -0.01
    ensures !r.Hidden? ==> r.amount == Abs(NetBalance(b, k)) && r.amount >= 0.01
  {
    var net := NetBalance(b, k);
    if GetUserById(users, k).None? || Abs(net) < 0.01 then Hidden
    else if net > 0.0 then OwesYou(Abs(net))
    else YouOwe(Abs(net))
  }

  /** One block of the person-to-person tab: the amounts shown, if any. */
  datatype PairRow = Omitted | Shown(owesYou: Option<real>, youOwe: Option<real>)

  /** The person-to-person tab renders nothing for an unknown user or when
      both amounts are exactly 0, and otherwise shows each positive amount. */
  function Individual(users: seq<User>, b: Balance, k: UserId): (r: PairRow)
    ensures r.Omitted? <==> GetUserById(users, k).None? || (Get(b.owedBy, k) == 0.0 && Get(b.owes, k) == 0.0)
    ensures r.Shown? ==> (r.owesYou.Some? <==> Get(b.owedBy, k) > 0.0)
    ensures r.Shown? ==> (r.youOwe.Some? <==> Get(b.owes, k) > 0.0)
    ensures r.Shown? && r.owesYou.Some? ==> r.owesYou.value == Get(b.owedBy, k)
    ensures r.Shown? && r.youOwe.Some? ==> r.youOwe.value == Get(b.owes, k)
  {
    var owed := Get(b.owedBy, k);
    var owes := Get(b.owes, k);
    if GetUserById(users, k).None? || (owed == 0.0 && owes == 0.0) then Omitted
    else Shown(if owed > 0.0 then Some(owed) else None, if owes > 0.0 then Some(owes) else None)
  }

  /** Over well-formed expenses every listed counterpart with a known user
      gets a person-to-person block showing at least one amount, while the
      overview may still hide them when the two amounts cancel. */
  lemma IndividualShowsEveryCounterpart(users: seq<User>, es: seq<Expense>, u: UserId, k: UserId)
    requires forall e :: e in es ==> WellFormed(e)
    requires k in AllBalanceUsers(CalculateBalances(es, u)) && GetUserById(users, k).Some?
    ensures Individual(users, CalculateBalances(es, u), k).Shown?
    ensures Individual(users, CalculateBalances(es, u), k).owesYou.Some? ||
            Individual(users, CalculateBalances(es, u), k).youOwe.Some?
  {
    BalancesPositive(es, u);
  }

  /** A counterpart the overview shows is one the person-to-person tab shows. */
  lemma OverviewImpliesIndividual(users: seq<User>, b: Balance, k: UserId)
    ensures !Overview(users, b, k).Hidden? ==> Individual(users, b, k).Shown?
  {
  }

  // ---------------------------------------------------------------- settlement form

  datatype SettlementCheck = MissingFields | InvalidAmount | Recorded(amount: JsNumber)

  /** `handleSettlement`: both fields must be filled in, and an amount that
      reads as a number must be positive. An amount that does not read as a
      number is NaN, and `NaN <= 0` is false, so it is recorded. */
  function ValidateSettlement(selectedUser: UserId, amountText: string): (r: SettlementCheck)
    ensures r.MissingFields? <==> selectedUser == "" || amountText == ""
    ensures r.InvalidAmount? <==>
      selectedUser != "" && amountText != "" && ParseFloat(amountText).Num? && ParseFloat(amountText).value <= 0.0
    ensures r.Recorded? ==> r.amount == ParseFloat(amountText) && (r.amount.NaN? || r.amount.value > 0.0)
  {
    if selectedUser == "" || amountText == "" then MissingFields
    else
      var amount := ParseFloat(amountText);
      if amount.Num? && amount.value <= 0.0 then InvalidAmount
      else Recorded(amount)
  }

  /** A whole number of at least one unit, typed as digits, is recorded with its value. */
  lemma SettlementOfDigits(selectedUser: UserId, amountText: string)
    requires selectedUser != "" && |amountText| > 0 && AllDigits(amountText)
    requires DigitsValue(amountText) > 0
    ensures ValidateSettlement(selectedUser, amountText) == Recorded(Num(DigitsValue(amountText) as real))
  {
    ParseWhole(amountText);
  }

  /** Zero, typed as any run of zeros, is refused. */
  lemma SettlementOfZero(selectedUser: UserId, amountText: string)
    requires selectedUser != "" && |amountText| > 0 && AllDigits(amountText)
    requires DigitsValue(amountText) == 0
    ensures ValidateSettlement(selectedUser, amountText) == InvalidAmount
  {
    ParseWhole(amountText);
  }

  /** An amount whose first character is a visible ASCII character that cannot
      start a number, such as "x", is recorded as NaN. ("I" is left out: it
      may begin "Infinity".) */
  lemma SettlementOfText(selectedUser: UserId, amountText: string)
    requires selectedUser != "" && |amountText| > 0
    requires '!' <= amountText[0] <= '~' && amountText[0] != 'I'
    requires !IsDigit(amountText[0]) && amountText[0] != '.' && amountText[0] != '-' && amountText[0] != '+'
    ensures ValidateSettlement(selectedUser, amountText) == Recorded(NaN)
  {
    assert DigitRun(amountText) == 0;
    assert amountText[0..] == amountText;
  }

  // ---------------------------------------------------------------- recent settlements

  /** The number of settlements `getRecentSettlements` keeps. */
  const RecentSettlementsLimit := 5

  function Involves(u: UserId): Settlement -> bool {
    (s: Settlement) => s.fromUserId == u || s.toUserId == u
  }

  function SettledOn(s: Settlement): Timestamp {
    s.date
  }

  /** `getRecentSettlements`: the settlements the user sent or received,
      newest first, at most five. */
  function RecentSettlements(ss: seq<Settlement>, u: UserId): (r: seq<Settlement>)
    ensures forall s :: s in r ==> s in ss && (s.fromUserId == u || s.toUserId == u)
    ensures SortedDesc(r, SettledOn)
    ensures |r| <= RecentSettlementsLimit
    ensures multiset(r) <= multiset(Filter(ss, Involves(u)))
    ensures |r| == RecentSettlementsLimit || multiset(r) == multiset(Filter(ss, Involves(u)))
    ensures forall x :: x in ss && (x.fromUserId == u || x.toUserId == u) && x !in r ==>
      forall y :: y in r ==> y.date >= x.date
  {
    var mine := Filter(ss, Involves(u));
    var r := Newest(mine, SettledOn, RecentSettlementsLimit);
    NewestOfMine(ss, u, mine, r);
    r
  }

  /** What reading a property of a settlement object gives: the declared
      fields their values, an absent optional field or an undeclared name
      `undefined`. */
  datatype FieldValue = Undefined | StringValue(string) | NumberValue(real) | TimeValue(Timestamp)

  function ReadField(s: Settlement, name: string): FieldValue {
    if name == "id" then StringValue(s.id)
    else if name == "fromUserId" then StringValue(s.fromUserId)
    else if name == "toUserId" then StringValue(s.toUserId)
    else if name == "amount" then NumberValue(s.amount)
    else if name == "currency" then StringValue(s.currency)
    else if name == "date" then TimeValue(s.date)
    else if name == "note" && s.note.Some? then StringValue(s.note.value)
    else if name == "groupId" && s.groupId.Some? then StringValue(s.groupId.value)
    else Undefined
  }

  function InvolvesAsWritten(u: UserId): Settlement -> bool {
    (s: Settlement) => ReadField(s, "fromUser") == StringValue(u) || ReadField(s, "toUser") == StringValue(u)
  }

  /** `getRecentSettlements` as written: the filter reads `fromUser` and
      `toUser`, which `Settlement` does not declare, so no settlement passes
      and the sort on the equally undeclared `createdAt` sees an empty list.
      The list is empty for every input. */
  function RecentSettlementsAsWritten(ss: seq<Settlement>, u: UserId): (r: seq<Settlement>)
    ensures r == []
  {
    var mine := Filter(ss, InvolvesAsWritten(u));
    FilterNone(ss, InvolvesAsWritten(u));
    SliceTo(mine, RecentSettlementsLimit)
  }

  lemma NewestOfMine(ss: seq<Settlement>, u: UserId, mine: seq<Settlement>, r: seq<Settlement>)
    requires mine == Filter(ss, Involves(u))
    requires r == Newest(mine, SettledOn, RecentSettlementsLimit)
    ensures forall s :: s in r ==> s in ss && (s.fromUserId == u || s.toUserId == u)
    ensures |r| == RecentSettlementsLimit || multiset(r) == multiset(mine)
    ensures forall x :: x in ss && (x.fromUserId == u || x.toUserId == u) && x !in r ==>
      forall y :: y in r ==> y.date >= x.date
  {
    forall s | s in r
      ensures s in mine
    {
      assert multiset(r)[s] > 0;
    }
    if |r| < RecentSettlementsLimit {
      assert |r| == |mine|;
      MultisetSubsetEqual(r, mine);
    }
    forall x | x in ss && (x.fromUserId == u || x.toUserId == u) && x !in r
      ensures forall y :: y in r ==> y.date >= x.date
    {
      assert x in mine;
      assert multiset(r)[x] == 0 < multiset(mine)[x];
    }
  }

  lemma MultisetSubsetEqual<T>(a: seq<T>, b: seq<T>)
    requires multiset(a) <= multiset(b) && |a| == |b|
    ensures multiset(a) == multiset(b)
  {
    var d := multiset(b) - multiset(a);
    assert multiset(b) == multiset(a) + d;
    assert |multiset(b)| == |multiset(a)| + |d|;
  }

  // ---------------------------------------------------------------- samples

  /** user1's counterparts on the sample data: user2 owes user1 a net 25.17,
      user3 owes 40.16, and user1 owes user4 42.63. */
  lemma SampleNetBalances()
    ensures NetBalance(CalculateBalances(Expenses, "user1"), "user2") == 25.17
    ensures NetBalance(CalculateBalances(Expenses, "user1"), "user3") == 40.16
    ensures NetBalance(CalculateBalances(Expenses, "user1"), "user4") == -42.63
  {
    SampleBalances("user2");
    SampleBalances("user3");
    SampleBalances("user4");
    SampleNets(CalculateBalances(Expenses, "user1"));
  }

  lemma SampleNets(b: Balance)
    requires Get(b.owedBy, "user2") == 40.17 && Get(b.owes, "user2") == 15.0
    requires Get(b.owedBy, "user3") == 40.16 && Get(b.owes, "user3") == 0.0
    requires Get(b.owedBy, "user4") == 0.0 && Get(b.owes, "user4") == 42.63
    ensures NetBalance(b, "user2") == 25.17 && NetBalance(b, "user3") == 40.16 && NetBalance(b, "user4") == -42.63
  {
  }

  lemma SampleUsersKnown()
    ensures GetUserById(Users, "user2").Some? && GetUserById(Users, "user4").Some?
  {
    assert Users[1] in Users && Users[1].id == "user2";
    assert Users[3] in Users && Users[3].id == "user4";
  }

  lemma OverviewOfNet(users: seq<User>, b: Balance, k: UserId, net: real)
    requires GetUserById(users, k).Some? && NetBalance(b, k) == net
    ensures net >= 0.01 ==> Overview(users, b, k) == OwesYou(net)
    ensures net <= -0.01 ==> Overview(users, b, k) == YouOwe(-net)
  {
  }

  lemma IndividualOfAmounts(users: seq<User>, b: Balance, k: UserId, owed: real, owes: real)
    requires GetUserById(users, k).Some? && Get(b.owedBy, k) == owed && Get(b.owes, k) == owes
    requires owed > 0.0 && owes > 0.0
    ensures Individual(users, b, k) == Shown(Some(owed), Some(owes))
  {
  }

  /** On the sample data user1's overview shows "owes you 25.17" for user2 and
      "you owe 42.63" for user4; the person-to-person tab shows both of
      user2's amounts. */
  lemma SampleOverview()
    ensures Overview(Users, CalculateBalances(Expenses, "user1"), "user2") == OwesYou(25.17)
    ensures Overview(Users, CalculateBalances(Expenses, "user1"), "user4") == YouOwe(42.63)
    ensures Individual(Users, CalculateBalances(Expenses, "user1"), "user2") == Shown(Some(40.17), Some(15.0))
  {
    var b := CalculateBalances(Expenses, "user1");
    SampleNetBalances();
    SampleBalances("user2");
    SampleUsersKnown();
    OverviewOfNet(Users, b, "user2", 25.17);
    OverviewOfNet(Users, b, "user4", -42.63);
    IndividualOfAmounts(Users, b, "user2", 40.17, 15.0);
  }

  lemma SortedPair(r: seq<Settlement>, a: Settlement, c: Settlement)
    requires multiset(r) == multiset([a, c]) && SortedDesc(r, SettledOn) && a.date > c.date
    ensures r == [a, c]
  {
    assert |r| == |multiset(r)| == 2;
    assert r[0] in multiset(r) && r[1] in multiset(r);
    assert SettledOn(r[0]) >= SettledOn(r[1]);
  }

  /** When fewer than five settlements involve the user, all of them are kept. */
  lemma RecentKeepsAll(ss: seq<Settlement>, u: UserId)
    requires Filter(ss, Involves(u)) == ss && |ss| < RecentSettlementsLimit
    ensures multiset(RecentSettlements(ss, u)) == multiset(ss)
  {
  }

  lemma SampleSettlementsInvolveUser1()
    ensures Filter(Settlements, Involves("user1")) == Settlements
  {
    assert Settlements[1..][1..] == [];
  }

  /** Both sample settlements involve user1; the later one comes first. */
  lemma SampleRecentSettlements()
    ensures RecentSettlements(Settlements, "user1") == Settlements
  {
    var ss := Settlements;
    SampleSettlementsInvolveUser1();
    RecentKeepsAll(ss, "user1");
    SortedPair(RecentSettlements(ss, "user1"), ss[0], ss[1]);
  }
}
