/** The balance aggregator (`calculateBalances`, src/lib/data.ts) and the
    per-category spending totals (`getCategoryTotals`). Both scan a list of
    expenses for one target user; the source scans the module's sample list,
    here the list is a parameter. */
module Balances {
  import opened Wrappers
  import opened Seqs
  import opened Numbers
  import opened Records
  import opened Model

  // ---------------------------------------------------------------- lookups inside an expense

  function IsPayer(u: UserId): Payer -> bool {
    (p: Payer) => p.userId == u
  }

  function IsParticipant(u: UserId): Participant -> bool {
    (p: Participant) => p.userId == u
  }

  /** `expense.participants.find(p => p.userId === u)`. */
  function ParticipantOf(e: Expense, u: UserId): (r: Option<Participant>)
    ensures r.None? <==> forall p :: p in e.participants ==> p.userId != u
    ensures r.Some? ==> r.value in e.participants && r.value.userId == u
    ensures forall i :: (0 <= i < |e.participants| && e.participants[i].userId == u
      && forall j :: 0 <= j < i ==> e.participants[j].userId != u) ==> r == Some(e.participants[i])
  {
    Find(e.participants, IsParticipant(u))
  }

  /** `expense.payers.find(p => p.userId === u)?.amount || 0`: the first
      payment the user made towards the expense, or 0. */
  function PaidBy(e: Expense, u: UserId): (r: real)
    ensures (forall p :: p in e.payers ==> p.userId != u) ==> r == 0.0
    ensures forall i :: (0 <= i < |e.payers| && e.payers[i].userId == u
      && forall j :: 0 <= j < i ==> e.payers[j].userId != u) ==> r == e.payers[i].amount
  {
    match Find(e.payers, IsPayer(u))
    case Some(p) => p.amount
    case None => 0.0
  }

  /** `expense.participants.find(p => p.userId === u)?.share || 0`. */
  function ShareOf(e: Expense, u: UserId): real {
    match ParticipantOf(e, u)
    case Some(p) => p.share
    case None => 0.0
  }

  /** The share is that of the user's first participant entry, and 0 when
      the user takes no part. */
  lemma ShareOfFirst(e: Expense, u: UserId)
    ensures (forall p :: p in e.participants ==> p.userId != u) ==> ShareOf(e, u) == 0.0
    ensures forall i :: (0 <= i < |e.participants| && e.participants[i].userId == u
      && forall j :: 0 <= j < i ==> e.participants[j].userId != u) ==> ShareOf(e, u) == e.participants[i].share
  {
  }

  /** The participant lookup finds the first entry for the user. */
  lemma ParticipantAt(e: Expense, u: UserId, i: nat)
    requires i < |e.participants| && e.participants[i].userId == u
    requires forall j :: 0 <= j < i ==> e.participants[j].userId != u
    ensures ParticipantOf(e, u) == Some(e.participants[i])
  {
    assert forall j :: 0 <= j < i ==> !IsParticipant(u)(e.participants[j]);
  }

  /** A user with no payer entry paid nothing. */
  lemma NotPayer(e: Expense, u: UserId)
    requires forall i :: 0 <= i < |e.payers| ==> e.payers[i].userId != u
    ensures PaidBy(e, u) == 0.0
  {
  }

  // ---------------------------------------------------------------- the capped attribution

  function Min(a: real, b: real): real {
    if a <= b then a else b
  }

  /** `Math.min(cap, net * (share / rest))`. When `rest` is 0 JavaScript divides
      a positive share to +Infinity and the cap is taken; the model takes the
      cap for every share at a zero rest. */
  function Attribution(cap: real, net: real, share: real, rest: real): (r: real)
    ensures r <= cap
    ensures rest == 0.0 ==> r == cap
    ensures rest != 0.0 ==> r <= net * (share / rest) && (r == cap || r == net * (share / rest))
  {
    if rest == 0.0 then cap else Min(cap, net * (share / rest))
  }

  /** The target's net on the expense: paid minus share. */
  function NetOf(e: Expense, u: UserId, userShare: real): real {
    PaidBy(e, u) - userShare
  }

  /** A participant entry other than the target, who paid less than their share. */
  predicate Underpaid(e: Expense, u: UserId, p: Participant) {
    p.userId != u && PaidBy(e, p.userId) - p.share < 0.0
  }

  /** What an underpaying participant is recorded as owing a target who overpaid by `net`. */
  function Credit(e: Expense, net: real, userShare: real, p: Participant): real {
    Attribution(Abs(PaidBy(e, p.userId) - p.share), net, p.share, e.amount - userShare)
  }

  /** A payer entry other than the target, who paid more than their share. */
  predicate Overpaid(e: Expense, u: UserId, p: Payer) {
    p.userId != u && p.amount - ShareOf(e, p.userId) > 0.0
  }

  /** What an underpaying target owes (by `net` < 0) an overpaying payer. */
  function Debit(e: Expense, net: real, userShare: real, p: Payer): real {
    Attribution(Abs(net), p.amount - ShareOf(e, p.userId), userShare, e.amount - ShareOf(e, p.userId))
  }

  // ---------------------------------------------------------------- one expense

  /** The `participants.forEach` of the `netAmount > 0` branch. */
  function CreditOthers(r: Record, e: Expense, u: UserId, net: real, userShare: real, ps: seq<Participant>): (r': Record)
    requires Valid(r)
    ensures Valid(r')
    decreases |ps|
  {
    if |ps| == 0 then r
    else
      var p := ps[0];
      var next := if Underpaid(e, u, p) then AddTo(r, p.userId, Credit(e, net, userShare, p)) else r;
      CreditOthers(next, e, u, net, userShare, ps[1..])
  }

  /** The `payers.forEach` of the `netAmount < 0` branch. */
  function DebitPayers(r: Record, e: Expense, u: UserId, net: real, userShare: real, ps: seq<Payer>): (r': Record)
    requires Valid(r)
    ensures Valid(r')
    decreases |ps|
  {
    if |ps| == 0 then r
    else
      var p := ps[0];
      var next := if Overpaid(e, u, p) then AddTo(r, p.userId, Debit(e, net, userShare, p)) else r;
      DebitPayers(next, e, u, net, userShare, ps[1..])
  }

  predicate ValidBalance(b: Balance) {
    Valid(b.owes) && Valid(b.owedBy)
  }

  /** One iteration of the `sampleExpenses.forEach` loop. */
  function ApplyExpense(b: Balance, e: Expense, u: UserId): (r: Balance)
    requires ValidBalance(b)
    ensures ValidBalance(r)
    ensures r.owes == b.owes || r.owedBy == b.owedBy
  {
    match ParticipantOf(e, u)
    case None => b
    case Some(me) =>
      var net := NetOf(e, u, me.share);
      if net > 0.0 then Balance(b.owes, CreditOthers(b.owedBy, e, u, net, me.share, e.participants))
      else if net < 0.0 then Balance(DebitPayers(b.owes, e, u, net, me.share, e.payers), b.owedBy)
      else b
  }

  function ApplyAll(b: Balance, es: seq<Expense>, u: UserId): (r: Balance)
    requires ValidBalance(b)
    ensures ValidBalance(r)
    decreases |es|
  {
    if |es| == 0 then b else ApplyAll(ApplyExpense(b, es[0], u), es[1..], u)
  }

  const NoBalance: Balance := Balance(Empty, Empty)

  /** `calculateBalances(userId)` over the expense list `es`. */
  function CalculateBalances(es: seq<Expense>, u: UserId): (r: Balance)
    ensures ValidBalance(r)
    ensures forall k :: Get(r.owedBy, k) == OwedByTotal(es, u, k)
    ensures forall k :: Get(r.owes, k) == OwesTotal(es, u, k)
  {
    FromNothing(es, u);
    ApplyAll(NoBalance, es, u)
  }

  // ---------------------------------------------------------------- reference sums

  /** Sum of the credits the entries `ps` record under key `k`. */
  function CreditSum(e: Expense, u: UserId, net: real, userShare: real, ps: seq<Participant>, k: UserId): real
    decreases |ps|
  {
    if |ps| == 0 then 0.0
    else
      (if ps[0].userId == k && Underpaid(e, u, ps[0]) then Credit(e, net, userShare, ps[0]) else 0.0)
      + CreditSum(e, u, net, userShare, ps[1..], k)
  }

  function DebitSum(e: Expense, u: UserId, net: real, userShare: real, ps: seq<Payer>, k: UserId): real
    decreases |ps|
  {
    if |ps| == 0 then 0.0
    else
      (if ps[0].userId == k && Overpaid(e, u, ps[0]) then Debit(e, net, userShare, ps[0]) else 0.0)
      + DebitSum(e, u, net, userShare, ps[1..], k)
  }

  /** What `k` comes to owe the target through expense `e`. */
  function OwedByFrom(e: Expense, u: UserId, k: UserId): real {
    match ParticipantOf(e, u)
    case None => 0.0
    case Some(me) =>
      var net := NetOf(e, u, me.share);
      if net > 0.0 then CreditSum(e, u, net, me.share, e.participants, k) else 0.0
  }

  /** What the target comes to owe `k` through expense `e`. */
  function OwesFrom(e: Expense, u: UserId, k: UserId): real {
    match ParticipantOf(e, u)
    case None => 0.0
    case Some(me) =>
      var net := NetOf(e, u, me.share);
      if net < 0.0 then DebitSum(e, u, net, me.share, e.payers, k) else 0.0
  }

  function OwedByTotal(es: seq<Expense>, u: UserId, k: UserId): real {
    if |es| == 0 then 0.0 else OwedByFrom(es[0], u, k) + OwedByTotal(es[1..], u, k)
  }

  function OwesTotal(es: seq<Expense>, u: UserId, k: UserId): real {
    if |es| == 0 then 0.0 else OwesFrom(es[0], u, k) + OwesTotal(es[1..], u, k)
  }

  /** Expense `e` records something under `k` in `owedBy`. */
  predicate CreditsKey(e: Expense, u: UserId, k: UserId) {
    && ParticipantOf(e, u).Some?
    && NetOf(e, u, ParticipantOf(e, u).value.share) > 0.0
    && exists p :: p in e.participants && p.userId == k && Underpaid(e, u, p)
  }

  /** Expense `e` records something under `k` in `owes`. */
  predicate DebitsKey(e: Expense, u: UserId, k: UserId) {
    && ParticipantOf(e, u).Some?
    && NetOf(e, u, ParticipantOf(e, u).value.share) < 0.0
    && exists p :: p in e.payers && p.userId == k && Overpaid(e, u, p)
  }

  // ---------------------------------------------------------------- per-key lemmas

  lemma {:induction false} CreditOthersPerKey(r: Record, e: Expense, u: UserId, net: real, userShare: real,
                                             ps: seq<Participant>, k: UserId)
    requires Valid(r)
    ensures Get(CreditOthers(r, e, u, net, userShare, ps), k) == Get(r, k) + CreditSum(e, u, net, userShare, ps, k)
    ensures k in CreditOthers(r, e, u, net, userShare, ps).amounts <==>
      k in r.amounts || exists p :: p in ps && p.userId == k && Underpaid(e, u, p)
    decreases |ps|
  {
    if |ps| > 0 {
      var p := ps[0];
      var next := if Underpaid(e, u, p) then AddTo(r, p.userId, Credit(e, net, userShare, p)) else r;
      CreditOthersPerKey(next, e, u, net, userShare, ps[1..], k);
      if k in r.amounts || exists q :: q in ps && q.userId == k && Underpaid(e, u, q) {
        if !(k in next.amounts) {
          var q :| q in ps && q.userId == k && Underpaid(e, u, q);
          assert q != ps[0];
          assert q in ps[1..];
        }
      }
    }
  }

  lemma {:induction false} DebitPayersPerKey(r: Record, e: Expense, u: UserId, net: real, userShare: real,
                                            ps: seq<Payer>, k: UserId)
    requires Valid(r)
    ensures Get(DebitPayers(r, e, u, net, userShare, ps), k) == Get(r, k) + DebitSum(e, u, net, userShare, ps, k)
    ensures k in DebitPayers(r, e, u, net, userShare, ps).amounts <==>
      k in r.amounts || exists p :: p in ps && p.userId == k && Overpaid(e, u, p)
    decreases |ps|
  {
    if |ps| > 0 {
      var p := ps[0];
      var next := if Overpaid(e, u, p) then AddTo(r, p.userId, Debit(e, net, userShare, p)) else r;
      DebitPayersPerKey(next, e, u, net, userShare, ps[1..], k);
      if k in r.amounts || exists q :: q in ps && q.userId == k && Overpaid(e, u, q) {
        if !(k in next.amounts) {
          var q :| q in ps && q.userId == k && Overpaid(e, u, q);
          assert q != ps[0];
          assert q in ps[1..];
        }
      }
    }
  }

  /** One expense adds `OwedByFrom` and `OwesFrom` to each key, and introduces
      exactly the keys it credits or debits. */
  lemma ApplyExpensePerKey(b: Balance, e: Expense, u: UserId, k: UserId)
    requires ValidBalance(b)
    ensures Get(ApplyExpense(b, e, u).owedBy, k) == Get(b.owedBy, k) + OwedByFrom(e, u, k)
    ensures Get(ApplyExpense(b, e, u).owes, k) == Get(b.owes, k) + OwesFrom(e, u, k)
    ensures k in ApplyExpense(b, e, u).owedBy.amounts <==> k in b.owedBy.amounts || CreditsKey(e, u, k)
    ensures k in ApplyExpense(b, e, u).owes.amounts <==> k in b.owes.amounts || DebitsKey(e, u, k)
  {
    match ParticipantOf(e, u)
    case None =>
    case Some(me) =>
      var net := NetOf(e, u, me.share);
      if net > 0.0 {
        assert ApplyExpense(b, e, u) == Balance(b.owes, CreditOthers(b.owedBy, e, u, net, me.share, e.participants));
        assert OwesFrom(e, u, k) == 0.0 && !DebitsKey(e, u, k);
        CreditOthersPerKey(b.owedBy, e, u, net, me.share, e.participants, k);
      } else if net < 0.0 {
        assert ApplyExpense(b, e, u) == Balance(DebitPayers(b.owes, e, u, net, me.share, e.payers), b.owedBy);
        assert OwedByFrom(e, u, k) == 0.0 && !CreditsKey(e, u, k);
        DebitPayersPerKey(b.owes, e, u, net, me.share, e.payers, k);
      }
  }

  lemma {:induction false} ApplyAllPerKey(b: Balance, es: seq<Expense>, u: UserId, k: UserId)
    requires ValidBalance(b)
    ensures Get(ApplyAll(b, es, u).owedBy, k) == Get(b.owedBy, k) + OwedByTotal(es, u, k)
    ensures Get(ApplyAll(b, es, u).owes, k) == Get(b.owes, k) + OwesTotal(es, u, k)
    ensures k in ApplyAll(b, es, u).owedBy.amounts <==> k in b.owedBy.amounts || exists e :: e in es && CreditsKey(e, u, k)
    ensures k in ApplyAll(b, es, u).owes.amounts <==> k in b.owes.amounts || exists e :: e in es && DebitsKey(e, u, k)
    decreases |es|
  {
    if |es| > 0 {
      var next := ApplyExpense(b, es[0], u);
      ApplyExpensePerKey(b, es[0], u, k);
      ApplyAllPerKey(next, es[1..], u, k);
      assert forall e :: e in es <==> e == es[0] || e in es[1..];
    }
  }

  /** `calculateBalances` per key: `owedBy[k]` and `owes[k]` are the sums of
      what each expense attributes to `k`, and `k` is a key exactly when some
      expense attributes something to it. */
  lemma FromNothing(es: seq<Expense>, u: UserId)
    ensures forall k :: Get(ApplyAll(NoBalance, es, u).owedBy, k) == OwedByTotal(es, u, k)
    ensures forall k :: Get(ApplyAll(NoBalance, es, u).owes, k) == OwesTotal(es, u, k)
  {
    assert NoBalance.owedBy == Empty && NoBalance.owes == Empty;
    assert ValidBalance(NoBalance);
    forall k
      ensures Get(ApplyAll(NoBalance, es, u).owedBy, k) == OwedByTotal(es, u, k)
      ensures Get(ApplyAll(NoBalance, es, u).owes, k) == OwesTotal(es, u, k)
    {
      ApplyAllPerKey(NoBalance, es, u, k);
    }
  }

  lemma CalculateBalancesPerKey(es: seq<Expense>, u: UserId, k: UserId)
    ensures Get(CalculateBalances(es, u).owedBy, k) == OwedByTotal(es, u, k)
    ensures Get(CalculateBalances(es, u).owes, k) == OwesTotal(es, u, k)
    ensures k in CalculateBalances(es, u).owedBy.amounts <==> exists e :: e in es && CreditsKey(e, u, k)
    ensures k in CalculateBalances(es, u).owes.amounts <==> exists e :: e in es && DebitsKey(e, u, k)
  {
    assert NoBalance.owedBy == Empty && NoBalance.owes == Empty;
    assert ValidBalance(NoBalance);
    ApplyAllPerKey(NoBalance, es, u, k);
  }

  /** The target never appears as a key of its own balance. */
  lemma TargetNeverKey(es: seq<Expense>, u: UserId)
    ensures u !in CalculateBalances(es, u).owedBy.amounts
    ensures u !in CalculateBalances(es, u).owes.amounts
  {
    CalculateBalancesPerKey(es, u, u);
  }

  /** Expenses the target does not take part in contribute nothing. */
  lemma NonParticipantIgnored(b: Balance, e: Expense, u: UserId)
    requires ValidBalance(b)
    requires forall p :: p in e.participants ==> p.userId != u
    ensures ApplyExpense(b, e, u) == b
    ensures forall k :: OwedByFrom(e, u, k) == 0.0 && OwesFrom(e, u, k) == 0.0
  {
  }

  /** A target who paid exactly their share leaves both maps unchanged. */
  lemma ZeroNetIgnored(b: Balance, e: Expense, u: UserId)
    requires ValidBalance(b)
    requires ParticipantOf(e, u).Some? && PaidBy(e, u) == ParticipantOf(e, u).value.share
    ensures ApplyExpense(b, e, u) == b
  {
  }

  /** Appending expenses adds their attributions to every key. */
  lemma {:induction false} TotalsAppend(es1: seq<Expense>, es2: seq<Expense>, u: UserId, k: UserId)
    ensures OwedByTotal(es1 + es2, u, k) == OwedByTotal(es1, u, k) + OwedByTotal(es2, u, k)
    ensures OwesTotal(es1 + es2, u, k) == OwesTotal(es1, u, k) + OwesTotal(es2, u, k)
  {
    if |es1| == 0 {
      assert es1 + es2 == es2;
    } else {
      assert (es1 + es2)[1..] == es1[1..] + es2;
      TotalsAppend(es1[1..], es2, u, k);
    }
  }

  // ---------------------------------------------------------------- bounds

  /** Each underpaying participant is charged at most what they underpaid, and
      never more than the proportional amount when `rest` is not 0. */
  lemma CreditBound(e: Expense, u: UserId, net: real, userShare: real, p: Participant)
    requires Underpaid(e, u, p)
    ensures Credit(e, net, userShare, p) <= p.share - PaidBy(e, p.userId)
    ensures e.amount - userShare != 0.0 ==>
      Credit(e, net, userShare, p) <= net * (p.share / (e.amount - userShare))
  {
    var cap := p.share - PaidBy(e, p.userId);
    assert Abs(PaidBy(e, p.userId) - p.share) == cap;
    assert Credit(e, net, userShare, p) == Attribution(cap, net, p.share, e.amount - userShare);
  }

  /** With the participants listed once each, what `k` is charged on one
      expense is at most what `k` underpaid on it. */
  lemma {:induction false} CreditSumBound(e: Expense, u: UserId, net: real, userShare: real,
                                         ps: seq<Participant>, k: UserId)
    requires forall i, j :: 0 <= i < j < |ps| ==> ps[i].userId != ps[j].userId
    ensures CreditSum(e, u, net, userShare, ps, k) <= Underpayment(e, ps, k)
    decreases |ps|
  {
    if |ps| > 0 {
      CreditSumBound(e, u, net, userShare, ps[1..], k);
      if ps[0].userId == k {
        NoOtherEntry(e, u, net, userShare, ps[1..], k);
      }
    }
  }

  /** How much the first entry for `k` in `ps` underpaid, or 0. */
  function Underpayment(e: Expense, ps: seq<Participant>, k: UserId): real
    decreases |ps|
  {
    if |ps| == 0 then 0.0
    else if ps[0].userId == k then
      (if PaidBy(e, k) - ps[0].share < 0.0 then ps[0].share - PaidBy(e, k) else 0.0)
    else Underpayment(e, ps[1..], k)
  }

  lemma {:induction false} NoOtherEntry(e: Expense, u: UserId, net: real, userShare: real,
                                       ps: seq<Participant>, k: UserId)
    requires forall p :: p in ps ==> p.userId != k
    ensures CreditSum(e, u, net, userShare, ps, k) == 0.0 && Underpayment(e, ps, k) == 0.0
    decreases |ps|
  {
    if |ps| > 0 {
      NoOtherEntry(e, u, net, userShare, ps[1..], k);
    }
  }

  /** If the target is the sole payer and paid the full amount, every other
      participant who paid nothing is charged exactly their share. */
  lemma SolePayerCredit(e: Expense, u: UserId, p: Participant)
    requires e.payers == [Payer(u, e.amount)]
    requires ParticipantOf(e, u).Some?
    requires p.userId != u && p.share > 0.0
    requires e.amount - ParticipantOf(e, u).value.share > 0.0
    ensures var me := ParticipantOf(e, u).value;
      Underpaid(e, u, p) && Credit(e, NetOf(e, u, me.share), me.share, p) == p.share
  {
    var me := ParticipantOf(e, u).value;
    var net := e.amount - me.share;
    assert PaidBy(e, u) == e.amount;
    assert PaidBy(e, p.userId) == 0.0;
    assert net * (p.share / net) == p.share;
  }

  /** What the target is recorded as owing one overpaying payer is at most
      the target's own deficit, and at most the proportional amount. */
  lemma DebitBound(e: Expense, u: UserId, net: real, userShare: real, p: Payer)
    requires net < 0.0
    ensures Debit(e, net, userShare, p) <= -net
    ensures e.amount - ShareOf(e, p.userId) != 0.0 ==>
      Debit(e, net, userShare, p) <= (p.amount - ShareOf(e, p.userId)) * (userShare / (e.amount - ShareOf(e, p.userId)))
  {
    var other := ShareOf(e, p.userId);
    assert Abs(net) == -net;
    assert Debit(e, net, userShare, p) == Attribution(-net, p.amount - other, userShare, e.amount - other);
  }

  // ---------------------------------------------------------------- samples

  /** The dinner's attributions, stated over any expense of the dinner's shape. */
  lemma DinnerShape(e: Expense, k: UserId)
    requires e.amount == 120.50 && e.payers == [Payer("user1", 120.50)]
    requires e.participants == [Participant("user1", 40.17), Participant("user2", 40.17), Participant("user3", 40.16)]
    ensures ParticipantOf(e, "user1") == Some(Participant("user1", 40.17))
    ensures NetOf(e, "user1", 40.17) > 0.0
    ensures OwedByFrom(e, "user1", k) == (if k == "user2" then 40.17 else if k == "user3" then 40.16 else 0.0)
    ensures OwesFrom(e, "user1", k) == 0.0
  {
    SampleIdsDistinct();
    var ps := e.participants;
    ParticipantAt(e, "user1", 0);
    var net := NetOf(e, "user1", 40.17);
    assert PaidBy(e, "user1") == 120.50;
    SolePayerCredit(e, "user1", ps[1]);
    SolePayerCredit(e, "user1", ps[2]);
    assert !Underpaid(e, "user1", ps[0]);
    assert ps[1..][1..][1..] == [];
    assert CreditSum(e, "user1", net, 40.17, ps[1..][1..], k) == (if k == "user3" then 40.16 else 0.0);
    assert CreditSum(e, "user1", net, 40.17, ps[1..], k) == (if k == "user2" then 40.17 else if k == "user3" then 40.16 else 0.0);
  }

  lemma DinnerAttributions(k: UserId)
    ensures OwedByFrom(Exp1, "user1", k) == (if k == "user2" then 40.17 else if k == "user3" then 40.16 else 0.0)
    ensures OwesFrom(Exp1, "user1", k) == 0.0
  {
    DinnerShape(Exp1, k);
  }

  /** An expense on which the target is owed leaves what the target owes untouched. */
  lemma CreditorKeepsOwes(b: Balance, e: Expense, u: UserId)
    requires ValidBalance(b)
    requires ParticipantOf(e, u).Some? && NetOf(e, u, ParticipantOf(e, u).value.share) > 0.0
    ensures ApplyExpense(b, e, u).owes == b.owes
  {
  }

  /** On the dinner, which user1 paid alone, user2 and user3 come to owe user1
      exactly their shares. */
  lemma DinnerSample()
    ensures Get(CalculateBalances([Exp1], "user1").owedBy, "user2") == 40.17
    ensures Get(CalculateBalances([Exp1], "user1").owedBy, "user3") == 40.16
    ensures CalculateBalances([Exp1], "user1").owes == Empty
  {
    SampleIdsDistinct();
    DinnerAttributions("user2");
    DinnerAttributions("user3");
    CalculateBalancesPerKey([Exp1], "user1", "user2");
    CalculateBalancesPerKey([Exp1], "user1", "user3");
    SingleTotals(Exp1, "user1", "user2");
    SingleTotals(Exp1, "user1", "user3");
    DinnerShape(Exp1, "user1");
    assert ValidBalance(NoBalance);
    CreditorKeepsOwes(NoBalance, Exp1, "user1");
    assert CalculateBalances([Exp1], "user1") == ApplyAll(ApplyExpense(NoBalance, Exp1, "user1"), [], "user1");
  }

  lemma SingleTotals(e: Expense, u: UserId, k: UserId)
    ensures OwedByTotal([e], u, k) == OwedByFrom(e, u, k)
    ensures OwesTotal([e], u, k) == OwesFrom(e, u, k)
  {
    assert [e][1..] == [];
  }

  lemma TripleTotals(e1: Expense, e2: Expense, e3: Expense, u: UserId, k: UserId)
    ensures OwedByTotal([e1, e2, e3], u, k) == OwedByFrom(e1, u, k) + OwedByFrom(e2, u, k) + OwedByFrom(e3, u, k)
    ensures OwesTotal([e1, e2, e3], u, k) == OwesFrom(e1, u, k) + OwesFrom(e2, u, k) + OwesFrom(e3, u, k)
  {
    assert [e1, e2, e3][1..] == [e2, e3];
    assert [e2, e3][1..] == [e3];
    SingleTotals(e3, u, k);
  }

  /** The groceries' attributions, over any expense of their shape. */
  lemma GroceriesShape(e: Expense, k: UserId)
    requires e.amount == 85.25 && e.payers == [Payer("user4", 85.25)]
    requires e.participants == [Participant("user1", 42.63), Participant("user4", 42.62)]
    ensures OwedByFrom(e, "user1", k) == 0.0
    ensures OwesFrom(e, "user1", k) == (if k == "user4" then 42.63 else 0.0)
  {
    SampleIdsDistinct();
    ParticipantAt(e, "user1", 0);
    ParticipantAt(e, "user4", 1);
    NotPayer(e, "user1");
    assert e.payers[1..] == [];
    assert Overpaid(e, "user1", e.payers[0]);
    assert Debit(e, -42.63, 42.63, e.payers[0]) == 42.63;
    assert NetOf(e, "user1", 42.63) == -42.63;
    assert DebitSum(e, "user1", -42.63, 42.63, e.payers, k) == (if k == "user4" then 42.63 else 0.0);
  }

  lemma GroceriesAttributions(k: UserId)
    ensures OwedByFrom(Exp2, "user1", k) == 0.0
    ensures OwesFrom(Exp2, "user1", k) == (if k == "user4" then 42.63 else 0.0)
  {
    GroceriesShape(Exp2, k);
  }

  /** The taxi's attributions, over any expense of its shape. */
  lemma TaxiShape(e: Expense, k: UserId)
    requires e.amount == 45.00 && e.payers == [Payer("user2", 45.00)]
    requires e.participants == [Participant("user1", 15.00), Participant("user2", 15.00), Participant("user3", 15.00)]
    ensures OwedByFrom(e, "user1", k) == 0.0
    ensures OwesFrom(e, "user1", k) == (if k == "user2" then 15.0 else 0.0)
  {
    SampleIdsDistinct();
    ParticipantAt(e, "user1", 0);
    ParticipantAt(e, "user2", 1);
    NotPayer(e, "user1");
    assert e.payers[1..] == [];
    assert Overpaid(e, "user1", e.payers[0]);
    assert Debit(e, -15.0, 15.0, e.payers[0]) == 15.0;
    assert NetOf(e, "user1", 15.0) == -15.0;
    assert DebitSum(e, "user1", -15.0, 15.0, e.payers, k) == (if k == "user2" then 15.0 else 0.0);
  }

  lemma TaxiAttributions(k: UserId)
    ensures OwedByFrom(Exp3, "user1", k) == 0.0
    ensures OwesFrom(Exp3, "user1", k) == (if k == "user2" then 15.0 else 0.0)
  {
    TaxiShape(Exp3, k);
  }

  /** user1's balance over the three sample expenses: owed 40.17 by user2 and
      40.16 by user3, owing 42.63 to user4 and 15 to user2. */
  lemma SampleBalances(k: UserId)
    ensures Get(CalculateBalances(Expenses, "user1").owedBy, k) ==
      (if k == "user2" then 40.17 else if k == "user3" then 40.16 else 0.0)
    ensures Get(CalculateBalances(Expenses, "user1").owes, k) ==
      (if k == "user4" then 42.63 else if k == "user2" then 15.0 else 0.0)
  {
    CalculateBalancesPerKey(Expenses, "user1", k);
    TripleTotals(Exp1, Exp2, Exp3, "user1", k);
    DinnerAttributions(k);
    GroceriesAttributions(k);
    TaxiAttributions(k);
  }

  /** Two payers and an underpaying target: 100 paid as 60 by A and 40 by B,
      shared 50/25/25 among T, A and B. */
  const TwoPayers: Expense := Expense(
    "x", "Two payers", 100.0, "USD", 0, None,
    [Payer("A", 60.0), Payer("B", 40.0)],
    [Participant("T", 50.0), Participant("A", 25.0), Participant("B", 25.0)],
    None, "A", 0)

  lemma TwoPayersLookups()
    ensures ParticipantOf(TwoPayers, "T") == Some(Participant("T", 50.0))
    ensures PaidBy(TwoPayers, "T") == 0.0
    ensures ShareOf(TwoPayers, "A") == 25.0 && ShareOf(TwoPayers, "B") == 25.0
  {
    TwoPayersShape(TwoPayers);
  }

  lemma TwoPayersShape(e: Expense)
    requires e.payers == [Payer("A", 60.0), Payer("B", 40.0)]
    requires e.participants == [Participant("T", 50.0), Participant("A", 25.0), Participant("B", 25.0)]
    ensures ParticipantOf(e, "T") == Some(Participant("T", 50.0))
    ensures PaidBy(e, "T") == 0.0
    ensures ShareOf(e, "A") == 25.0 && ShareOf(e, "B") == 25.0
  {
    assert "T" != "A" && "T" != "B" && "A" != "B" by {
      assert "T"[0] != "A"[0] && "T"[0] != "B"[0] && "A"[0] != "B"[0];
    }
    ParticipantAt(e, "T", 0);
    ParticipantAt(e, "A", 1);
    ParticipantAt(e, "B", 2);
    NotPayer(e, "T");
  }

  /** The attribution is not a ledger reconciliation: with two overpaying
      payers, T's deficit of 50 is recorded as 70/3 owed to A and 10 owed to
      B, 100/3 in all, and nothing is owed to T. So `owedBy` total minus
      `owes` total need not equal the target's summed net. */
  lemma AttributionFallsShort()
    ensures OwesFrom(TwoPayers, "T", "A") == 70.0 / 3.0
    ensures OwesFrom(TwoPayers, "T", "B") == 10.0
    ensures forall k :: OwedByFrom(TwoPayers, "T", k) == 0.0
    ensures NetOf(TwoPayers, "T", 50.0) == -50.0
  {
    FallsShort(TwoPayers);
  }

  lemma FallsShort(e: Expense)
    requires e.amount == 100.0
    requires e.payers == [Payer("A", 60.0), Payer("B", 40.0)]
    requires e.participants == [Participant("T", 50.0), Participant("A", 25.0), Participant("B", 25.0)]
    ensures OwesFrom(e, "T", "A") == 70.0 / 3.0
    ensures OwesFrom(e, "T", "B") == 10.0
    ensures forall k :: OwedByFrom(e, "T", k) == 0.0
    ensures NetOf(e, "T", 50.0) == -50.0
  {
    TwoPayersShape(e);
    var ps := e.payers;
    assert ps[1..][1..] == [];
    assert Overpaid(e, "T", ps[0]) && Overpaid(e, "T", ps[1]);
    assert Debit(e, -50.0, 50.0, ps[0]) == 70.0 / 3.0;
    assert Debit(e, -50.0, 50.0, ps[1]) == 10.0;
    assert ps[0].userId != "B" && ps[1].userId != "A";
    assert DebitSum(e, "T", -50.0, 50.0, ps[1..], "A") == 0.0;
    assert DebitSum(e, "T", -50.0, 50.0, ps[1..], "B") == 10.0;
  }

  // ---------------------------------------------------------------- positivity

  /** Amounts the app can hold: nobody pays or is charged a negative amount,
      and no share exceeds the expense. */
  predicate WellFormed(e: Expense) {
    && e.amount >= 0.0
    && (forall p :: p in e.payers ==> p.amount >= 0.0)
    && (forall p :: p in e.participants ==> 0.0 <= p.share <= e.amount)
  }

  predicate AllPositive(r: Record) {
    forall k :: k in r.amounts ==> r.amounts[k] > 0.0
  }

  lemma PositiveRatio(net: real, share: real, rest: real)
    requires net > 0.0 && share > 0.0 && rest > 0.0
    ensures net * (share / rest) > 0.0
  {
  }

  lemma CreditPositive(e: Expense, u: UserId, net: real, userShare: real, p: Participant)
    requires WellFormed(e) && p in e.participants && Underpaid(e, u, p)
    requires net > 0.0 && 0.0 <= userShare <= e.amount
    ensures Credit(e, net, userShare, p) > 0.0
  {
    var rest := e.amount - userShare;
    PaidByNonNegative(e, p.userId);
    if rest != 0.0 {
      PositiveRatio(net, p.share, rest);
    }
  }

  lemma PaidByNonNegative(e: Expense, u: UserId)
    requires WellFormed(e)
    ensures PaidBy(e, u) >= 0.0
  {
  }

  lemma ShareOfBounded(e: Expense, u: UserId)
    requires WellFormed(e)
    ensures 0.0 <= ShareOf(e, u) <= e.amount
  {
  }

  lemma AttributionPositive(cap: real, net: real, share: real, rest: real)
    requires cap > 0.0 && net > 0.0 && share > 0.0 && rest >= 0.0
    ensures Attribution(cap, net, share, rest) > 0.0
  {
    if rest != 0.0 {
      PositiveRatio(net, share, rest);
    }
  }

  lemma DebitPositive(e: Expense, u: UserId, net: real, userShare: real, p: Payer)
    requires WellFormed(e) && Overpaid(e, u, p)
    requires net < 0.0 && userShare > 0.0
    ensures Debit(e, net, userShare, p) > 0.0
  {
    ShareOfBounded(e, p.userId);
    DebitPositiveAt(e, net, userShare, p, ShareOf(e, p.userId));
  }

  lemma DebitPositiveAt(e: Expense, net: real, userShare: real, p: Payer, other: real)
    requires other == ShareOf(e, p.userId) && other <= e.amount && p.amount - other > 0.0
    requires net < 0.0 && userShare > 0.0
    ensures Debit(e, net, userShare, p) > 0.0
  {
    assert Abs(net) == -net;
    assert Debit(e, net, userShare, p) == Attribution(-net, p.amount - other, userShare, e.amount - other);
    AttributionPositive(-net, p.amount - other, userShare, e.amount - other);
  }

  lemma {:induction false} CreditOthersPositive(r: Record, e: Expense, u: UserId, net: real, userShare: real,
                                               ps: seq<Participant>)
    requires Valid(r) && AllPositive(r)
    requires WellFormed(e) && (forall p :: p in ps ==> p in e.participants)
    requires net > 0.0 && 0.0 <= userShare <= e.amount
    ensures AllPositive(CreditOthers(r, e, u, net, userShare, ps))
    decreases |ps|
  {
    if |ps| > 0 {
      var p := ps[0];
      if Underpaid(e, u, p) {
        CreditPositive(e, u, net, userShare, p);
      }
      var next := if Underpaid(e, u, p) then AddTo(r, p.userId, Credit(e, net, userShare, p)) else r;
      CreditOthersPositive(next, e, u, net, userShare, ps[1..]);
    }
  }

  lemma {:induction false} DebitPayersPositive(r: Record, e: Expense, u: UserId, net: real, userShare: real,
                                              ps: seq<Payer>)
    requires Valid(r) && AllPositive(r)
    requires WellFormed(e)
    requires net < 0.0 && userShare > 0.0
    ensures AllPositive(DebitPayers(r, e, u, net, userShare, ps))
    decreases |ps|
  {
    if |ps| > 0 {
      var p := ps[0];
      if Overpaid(e, u, p) {
        DebitPositive(e, u, net, userShare, p);
      }
      var next := if Overpaid(e, u, p) then AddTo(r, p.userId, Debit(e, net, userShare, p)) else r;
      DebitPayersPositive(next, e, u, net, userShare, ps[1..]);
    }
  }

  lemma {:induction false} ApplyAllPositive(b: Balance, es: seq<Expense>, u: UserId)
    requires ValidBalance(b) && AllPositive(b.owes) && AllPositive(b.owedBy)
    requires forall e :: e in es ==> WellFormed(e)
    ensures AllPositive(ApplyAll(b, es, u).owes) && AllPositive(ApplyAll(b, es, u).owedBy)
    decreases |es|
  {
    if |es| > 0 {
      var e := es[0];
      if ParticipantOf(e, u).Some? {
        var me := ParticipantOf(e, u).value;
        var net := NetOf(e, u, me.share);
        PaidByNonNegative(e, u);
        if net > 0.0 {
          CreditOthersPositive(b.owedBy, e, u, net, me.share, e.participants);
        } else if net < 0.0 {
          DebitPayersPositive(b.owes, e, u, net, me.share, e.payers);
        }
      }
      ApplyAllPositive(ApplyExpense(b, e, u), es[1..], u);
    }
  }

  /** Over well-formed expenses every amount either map holds is positive. */
  lemma BalancesPositive(es: seq<Expense>, u: UserId)
    requires forall e :: e in es ==> WellFormed(e)
    ensures AllPositive(CalculateBalances(es, u).owes)
    ensures AllPositive(CalculateBalances(es, u).owedBy)
  {
    ApplyAllPositive(NoBalance, es, u);
  }

  // ---------------------------------------------------------------- category totals

  /** `note?.split(' ')[0] || 'Other'`. */
  function CategoryOf(note: Option<string>): (c: string)
    ensures c != "" && ' ' !in c
    ensures note.None? || |note.value| == 0 || note.value[0] == ' ' ==> c == "Other"
    ensures note.Some? && |note.value| > 0 && note.value[0] != ' ' ==>
      c <= note.value && (|c| == |note.value| || note.value[|c|] == ' ')
  {
    match note
    case None => "Other"
    case Some(s) =>
      var word := s[..IndexOf(s, ' ')];
      assert forall i :: 0 <= i < |word| ==> word[i] == s[i];
      if word == "" then "Other" else word
  }

  /** One iteration of `getCategoryTotals`' loop. */
  function AddCategory(r: Record, e: Expense, u: UserId): (r': Record)
    requires Valid(r)
    ensures Valid(r')
  {
    match ParticipantOf(e, u)
    case None => r
    case Some(me) => AddTo(r, CategoryOf(e.note), me.share)
  }

  function CategoryFold(r: Record, es: seq<Expense>, u: UserId): (r': Record)
    requires Valid(r)
    ensures Valid(r')
    decreases |es|
  {
    if |es| == 0 then r else CategoryFold(AddCategory(r, es[0], u), es[1..], u)
  }

  /** `getCategoryTotals(userId)` over the expense list `es`. */
  function CategoryTotals(es: seq<Expense>, u: UserId): (r: Record)
    ensures Valid(r)
    ensures forall c :: Get(r, c) == CategorySpend(es, u, c)
    ensures Total(r) == SpendTotal(es, u)
  {
    FromEmpty(es, u);
    CategoryFold(Empty, es, u)
  }

  /** The target's shares of the expenses in category `c`. */
  function CategorySpend(es: seq<Expense>, u: UserId, c: string): real {
    if |es| == 0 then 0.0
    else
      (if ParticipantOf(es[0], u).Some? && CategoryOf(es[0].note) == c then ShareOf(es[0], u) else 0.0)
      + CategorySpend(es[1..], u, c)
  }

  /** The target's shares of all the expenses they take part in. */
  function SpendTotal(es: seq<Expense>, u: UserId): real {
    if |es| == 0 then 0.0 else ShareOf(es[0], u) + SpendTotal(es[1..], u)
  }

  lemma {:induction false} CategoryFoldSpec(r: Record, es: seq<Expense>, u: UserId, c: string)
    requires Valid(r)
    ensures Get(CategoryFold(r, es, u), c) == Get(r, c) + CategorySpend(es, u, c)
    ensures Total(CategoryFold(r, es, u)) == Total(r) + SpendTotal(es, u)
    decreases |es|
  {
    if |es| > 0 {
      var e := es[0];
      if ParticipantOf(e, u).Some? {
        TotalAddTo(r, CategoryOf(e.note), ParticipantOf(e, u).value.share);
      }
      CategoryFoldSpec(AddCategory(r, e, u), es[1..], u, c);
    }
  }

  lemma FromEmpty(es: seq<Expense>, u: UserId)
    ensures forall c :: Get(CategoryFold(Empty, es, u), c) == CategorySpend(es, u, c)
    ensures Total(CategoryFold(Empty, es, u)) == SpendTotal(es, u)
  {
    CategoryFoldSpec(Empty, es, u, "");
    forall c
      ensures Get(CategoryFold(Empty, es, u), c) == CategorySpend(es, u, c)
    {
      CategoryFoldSpec(Empty, es, u, c);
    }
  }

  /** An expense that puts the target's share under category `c`. */
  predicate FiledUnder(e: Expense, u: UserId, c: string) {
    ParticipantOf(e, u).Some? && CategoryOf(e.note) == c
  }

  lemma {:induction false} CategoryFoldKeys(r: Record, es: seq<Expense>, u: UserId, c: string)
    requires Valid(r)
    ensures c in CategoryFold(r, es, u).amounts <==> c in r.amounts || exists e :: e in es && FiledUnder(e, u, c)
    decreases |es|
  {
    if |es| > 0 {
      var next := AddCategory(r, es[0], u);
      assert c in next.amounts <==> c in r.amounts || FiledUnder(es[0], u, c);
      CategoryFoldKeys(next, es[1..], u, c);
      assert forall e :: e in es <==> e == es[0] || e in es[1..];
    }
  }

  /** A category is listed exactly when the target takes part in some
      expense filed under it; any other category reads as 0. */
  lemma CategoryKeys(es: seq<Expense>, u: UserId, c: string)
    ensures c in CategoryTotals(es, u).amounts <==> exists e :: e in es && FiledUnder(e, u, c)
    ensures (forall e :: e in es ==> !FiledUnder(e, u, c)) ==> Get(CategoryTotals(es, u), c) == 0.0
  {
    CategoryFoldKeys(Empty, es, u, c);
  }
}
