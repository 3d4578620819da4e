/** The split calculator of the expense form (`calculateSplits`,
    src/pages/AddExpense.tsx): it turns the typed amount, the participant list and
    the chosen method into each participant's share as `toFixed(2)` text, and
    sets the form's split error. */
module Splits {
  import opened Wrappers
  import opened Seqs
  import opened Numbers
  import opened Model

  /** The `splitMethod` select; any other value reaches the `default` branch. */
  datatype SplitMethod = Equal | Exact | Percentage | Shares | Unrecognised(name: string)

  /** The messages `setSplitError` shows, with the numbers they quote. */
  datatype SplitError =
    | ExactMismatch(total: real, expected: real)
    | PercentageMismatch(total: real)
    | ZeroShares
    | UnreadableEntry(userId: UserId)

  /** The form state `calculateSplits` reads: the amount text, the selected
      participants, the method, and the per-participant text boxes. */
  datatype SplitForm = SplitForm(
    amount: string, participants: seq<UserId>, splitMethod: SplitMethod, custom: map<UserId, string>)

  /** The returned share table and the split error the form holds afterwards. */
  datatype SplitOutcome = SplitOutcome(shares: map<UserId, Fixed2>, error: Option<SplitError>)

  // ---------------------------------------------------------------- per-participant entries

  /** `customSplits[id] || fallback`: a missing or empty box reads as the fallback. */
  function Entry(custom: map<UserId, string>, id: UserId, fallback: string): string {
    if id in custom && custom[id] != "" then custom[id] else fallback
  }

  /** `parseFloat(customSplits[id] || fallback)` for every participant id. */
  function Reader(custom: map<UserId, string>, fallback: string): UserId -> JsNumber {
    id => ParseFloat(Entry(custom, id, fallback))
  }

  /** The boxes as numbers, one per participant in list order. */
  function ValuesOf(ids: seq<UserId>, value: UserId -> JsNumber): (vs: seq<JsNumber>)
    ensures |vs| == |ids|
    ensures forall i :: 0 <= i < |ids| ==> vs[i] == value(ids[i])
  {
    seq(|ids|, i requires 0 <= i < |ids| => value(ids[i]))
  }

  /** The running total the `forEach` loop accumulates (exact reals, so the
      order of the additions does not matter). */
  function TotalOf(ids: seq<UserId>, value: UserId -> JsNumber): JsNumber {
    Sum(ValuesOf(ids, value))
  }

  /** `Math.abs(x - target) > tolerance`, which is false when `x` is NaN. */
  predicate OffBy(x: JsNumber, target: real, tolerance: real) {
    x.Num? && Abs(x.value - target) > tolerance
  }

  // ---------------------------------------------------------------- the four methods

  function EqualSplit(amount: real, ids: seq<UserId>): SplitOutcome
    requires |ids| > 0
  {
    var each := ToFixed2(Num(amount / |ids| as real));
    SplitOutcome(map id | id in ids :: each, None)
  }

  function ExactSplit(amount: real, ids: seq<UserId>, value: UserId -> JsNumber): SplitOutcome {
    var total := TotalOf(ids, value);
    SplitOutcome(
      map id | id in ids :: ToFixed2(value(id)),
      if OffBy(total, amount, 0.01) then Some(ExactMismatch(total.value, amount)) else None)
  }

  /** `(amount * percentage) / 100`. */
  function PercentOf(amount: real, pct: JsNumber): JsNumber {
    if pct.Num? then Num(amount * pct.value / 100.0) else NaN
  }

  function PercentageSplit(amount: real, ids: seq<UserId>, value: UserId -> JsNumber): SplitOutcome {
    var total := TotalOf(ids, value);
    SplitOutcome(
      map id | id in ids :: ToFixed2(PercentOf(amount, value(id))),
      if OffBy(total, 100.0, 0.01) then Some(PercentageMismatch(total.value)) else None)
  }

  /** `(amount * shares) / totalShares` on numbers. */
  function Slice(amount: real, w: real, t: real): real
    requires t != 0.0
  {
    amount * w / t
  }

  /** `(amount * shares) / totalShares`, for a total that is not 0. */
  function Portion(amount: real, weight: JsNumber, total: JsNumber): JsNumber
    requires total != Num(0.0)
  {
    if weight.Num? && total.Num? then Num(Slice(amount, weight.value, total.value)) else NaN
  }

  function SharesSplit(amount: real, ids: seq<UserId>, value: UserId -> JsNumber): SplitOutcome {
    var total := TotalOf(ids, value);
    if total == Num(0.0) then SplitOutcome(map[], Some(ZeroShares))
    else SplitOutcome(map id | id in ids :: ToFixed2(Portion(amount, value(id), total)), None)
  }

  /** The body of `calculateSplits` once the amount text has been parsed. */
  function SplitsFor(amount: JsNumber, ids: seq<UserId>, m: SplitMethod, custom: map<UserId, string>,
                     previous: Option<SplitError>): (r: SplitOutcome)
    ensures Falsy(amount) || |ids| == 0 ==> r == SplitOutcome(map[], previous)
    ensures !Falsy(amount) && |ids| > 0 && m.Unrecognised? ==> r == SplitOutcome(map[], None)
    ensures !Falsy(amount) && |ids| > 0 && !m.Unrecognised? && r.error != Some(ZeroShares) ==>
      r.shares.Keys == set id | id in ids
    ensures !Falsy(amount) && |ids| > 0 && r.error == Some(ZeroShares) ==> m == Shares && r.shares == map[]
    ensures !Falsy(amount) && |ids| > 0 && m == Equal ==> r.error.None?
  {
    if Falsy(amount) || |ids| == 0 then SplitOutcome(map[], previous)
    else
      match m
      case Equal => EqualSplit(amount.value, ids)
      case Exact => ExactSplit(amount.value, ids, Reader(custom, "0"))
      case Percentage => PercentageSplit(amount.value, ids, Reader(custom, "0"))
      case Shares => SharesSplit(amount.value, ids, Reader(custom, "1"))
      case Unrecognised(_) => SplitOutcome(map[], None)
  }

  /** Past the early return, each method reads the boxes with its own
      fallback: 0 for `exact` and `percentage`, 1 for `shares`. */
  lemma {:induction false} SplitsForDispatch(amount: real, ids: seq<UserId>, m: SplitMethod, custom: map<UserId, string>,
                          previous: Option<SplitError>)
    requires amount != 0.0 && |ids| > 0
    ensures m == Equal ==> SplitsFor(Num(amount), ids, m, custom, previous) == EqualSplit(amount, ids)
    ensures m == Exact ==> SplitsFor(Num(amount), ids, m, custom, previous) == ExactSplit(amount, ids, Reader(custom, "0"))
    ensures m == Percentage ==>
      SplitsFor(Num(amount), ids, m, custom, previous) == PercentageSplit(amount, ids, Reader(custom, "0"))
    ensures m == Shares ==> SplitsFor(Num(amount), ids, m, custom, previous) == SharesSplit(amount, ids, Reader(custom, "1"))
  {
    assert !Falsy(Num(amount));
    var r := SplitsFor(Num(amount), ids, m, custom, previous);
    match m
    case Equal => assert r == EqualSplit(amount, ids);
    case Exact => assert r == ExactSplit(amount, ids, Reader(custom, "0"));
    case Percentage => assert r == PercentageSplit(amount, ids, Reader(custom, "0"));
    case Shares => assert r == SharesSplit(amount, ids, Reader(custom, "1"));
    case Unrecognised(_) =>
  }

  /** `calculateSplits`, as written. `previous` is the split error the form held
      before the call: the early return happens before the error is cleared. */
  function CalculateSplits(form: SplitForm, previous: Option<SplitError>): (r: SplitOutcome)
    ensures Falsy(ParseFloat(form.amount)) || |form.participants| == 0 ==> r == SplitOutcome(map[], previous)
    ensures !Falsy(ParseFloat(form.amount)) && |form.participants| > 0 && form.splitMethod.Unrecognised? ==>
      r == SplitOutcome(map[], None)
    ensures !Falsy(ParseFloat(form.amount)) && |form.participants| > 0 && form.splitMethod == Equal ==> r.error.None?
    ensures (!Falsy(ParseFloat(form.amount)) && |form.participants| > 0 && !form.splitMethod.Unrecognised? &&
             r.error != Some(ZeroShares)) ==> r.shares.Keys == set id | id in form.participants
    ensures !Falsy(ParseFloat(form.amount)) && |form.participants| > 0 && r.error == Some(ZeroShares) ==>
      form.splitMethod == Shares && r.shares == map[]
  {
    SplitsFor(ParseFloat(form.amount), form.participants, form.splitMethod, form.custom, previous)
  }

  // ---------------------------------------------------------------- equal

  /** `equal`: every participant is shown the same amount, `amount / n` to the
      cent, so the n shown amounts add up to within half a cent per participant
      of the expense. */
  lemma EqualSplitShares(amount: real, ids: seq<UserId>)
    requires |ids| > 0
    ensures var r := EqualSplit(amount, ids);
      var n := |ids| as real;
      && r.error.None?
      && r.shares.Keys == set id | id in ids
      && r.shares[ids[0]].Cents?
      && (forall id :: id in ids ==> r.shares[id] == r.shares[ids[0]])
      && Abs(n * (r.shares[ids[0]].cents as real) - 100.0 * amount) <= n / 2.0
  {
    var n := |ids| as real;
    var c := RoundCents(amount / n);
    RoundingSpread(n, amount, c as real);
  }

  /** Rounding `100 * a / n` to `c` moves `n` copies by at most `n / 2`. */
  lemma RoundingSpread(n: real, a: real, c: real)
    requires n > 0.0
    requires 100.0 * (a / n) - 0.5 <= c <= 100.0 * (a / n) + 0.5
    ensures Abs(n * c - 100.0 * a) <= n / 2.0
  {
    var x := 100.0 * (a / n);
    assert n * x == 100.0 * a;
    var d := c - x;
    assert n * d <= n * 0.5;
    assert n * d >= n * -0.5;
    assert n * c - 100.0 * a == n * d;
  }

  /** The number a `toFixed(2)` text denotes: what `parseFloat` reads back from
      it, by `ReadBackParses`. */
  function Shown(f: Fixed2): JsNumber {
    match f
    case NaNText => NaN
    case Cents(c) => Num(c as real / 100.0)
  }

  lemma ReadBackParses(f: Fixed2)
    ensures ParseFloat(Text(f)) == Shown(f)
  {
    TextRoundTrip(f);
  }

  /** The numbers the split preview reads back from the share table, in the
      table's key order. */
  function PreviewTerms(shares: map<UserId, Fixed2>, order: seq<UserId>): seq<JsNumber> {
    if |order| == 0 then []
    else (if order[0] in shares then [Shown(shares[order[0]])] else []) + PreviewTerms(shares, order[1..])
  }

  /** `totalSplitAmount`: `Object.values(splits)` summed after `parseFloat`; the
      table's keys are the participants in first-occurrence order. */
  function PreviewTotal(r: SplitOutcome, participants: seq<UserId>): (t: JsNumber)
    ensures t.Num? <==> forall id :: id in participants && id in r.shares ==> r.shares[id].Cents?
  {
    PreviewTermsNum(r.shares, Dedup(participants));
    Sum(PreviewTerms(r.shares, Dedup(participants)))
  }

  /** The preview sum is a number exactly when every listed share is. */
  lemma {:induction false} PreviewTermsNum(shares: map<UserId, Fixed2>, order: seq<UserId>)
    ensures Sum(PreviewTerms(shares, order)).Num? <==> forall id :: id in order && id in shares ==> shares[id].Cents?
  {
    SumNumeric(PreviewTerms(shares, order));
    if |order| > 0 {
      PreviewTermsNum(shares, order[1..]);
      SumNumeric(PreviewTerms(shares, order[1..]));
      var head := if order[0] in shares then [Shown(shares[order[0]])] else [];
      AllNumConcat(head, PreviewTerms(shares, order[1..]));
      assert order == [order[0]] + order[1..];
    }
  }

  lemma PreviewOfConstant(shares: map<UserId, Fixed2>, order: seq<UserId>, c: int)
    requires forall id :: id in order ==> id in shares && shares[id] == Cents(c)
    ensures Sum(PreviewTerms(shares, order)) == Num(|order| as real * (c as real / 100.0))
  {
    PreviewTermsConstant(shares, order, c);
    SumOfConstant(PreviewTerms(shares, order), c as real / 100.0);
  }

  lemma {:induction false} PreviewTermsConstant(shares: map<UserId, Fixed2>, order: seq<UserId>, c: int)
    requires forall id :: id in order ==> id in shares && shares[id] == Cents(c)
    ensures |PreviewTerms(shares, order)| == |order|
    ensures forall i :: 0 <= i < |order| ==> PreviewTerms(shares, order)[i] == Num(c as real / 100.0)
  {
    if |order| > 0 {
      PreviewTermsConstant(shares, order[1..], c);
      assert order[0] in order;
      assert forall id :: id in order[1..] ==> id in order;
    }
  }

  lemma {:induction false} SumOfConstant(ts: seq<JsNumber>, k: real)
    requires forall i :: 0 <= i < |ts| ==> ts[i] == Num(k)
    ensures Sum(ts) == Num(|ts| as real * k)
  {
    if |ts| > 0 {
      SumOfConstant(ts[1..], k);
      OneMore(|ts| as real, |ts[1..]| as real, k);
    }
  }

  lemma OneMore(n: real, m: real, k: real)
    requires n == m + 1.0
    ensures k + m * k == n * k
  {
  }

  /** With distinct participants all shown the same amount, the preview total
      is that amount times their number. */
  lemma PreviewOfUniform(r: SplitOutcome, ids: seq<UserId>, c: int)
    requires NoDups(ids)
    requires forall id :: id in ids ==> id in r.shares && r.shares[id] == Cents(c)
    ensures PreviewTotal(r, ids) == Num(|ids| as real * (c as real / 100.0))
  {
    DedupOfDistinct(ids);
    PreviewOfConstant(r.shares, ids, c);
  }

  /** Distinct participants all shown `c` cents, where `n * c` cents is within
      half a cent per participant of the amount: the preview total is too. */
  lemma UniformPreviewTotal(r: SplitOutcome, ids: seq<UserId>, c: int, amount: real)
    requires NoDups(ids)
    requires forall id :: id in ids ==> id in r.shares && r.shares[id] == Cents(c)
    requires Abs(|ids| as real * (c as real) - 100.0 * amount) <= |ids| as real / 2.0
    ensures PreviewTotal(r, ids).Num?
    ensures Abs(PreviewTotal(r, ids).value - amount) <= |ids| as real * 0.005
  {
    CentsBound(|ids| as real, c as real, amount);
    PreviewOfUniform(r, ids, c);
  }

  /** With distinct participants, the preview total of an `equal` split is off
      from the amount by at most half a cent per participant. */
  lemma EqualPreviewTotal(amount: real, ids: seq<UserId>)
    requires |ids| > 0 && NoDups(ids)
    ensures var t := PreviewTotal(EqualSplit(amount, ids), ids);
      t.Num? && Abs(t.value - amount) <= |ids| as real * 0.005
  {
    var r := EqualSplit(amount, ids);
    EqualSplitShares(amount, ids);
    UniformPreviewTotal(r, ids, r.shares[ids[0]].cents, amount);
  }

  lemma CentsBound(n: real, c: real, a: real)
    requires Abs(n * c - 100.0 * a) <= n / 2.0
    ensures Abs(n * (c / 100.0) - a) <= n * 0.005
  {
    assert n * (c / 100.0) - a == (n * c - 100.0 * a) / 100.0;
  }


  // ---------------------------------------------------------------- exact

  /** An empty or missing box reads as 0 for `exact` and `percentage`, and as 1
      for `shares`. */
  lemma EmptyBoxDefaults(custom: map<UserId, string>, id: UserId)
    requires id !in custom || custom[id] == ""
    ensures Reader(custom, "0")(id) == Num(0.0)
    ensures Reader(custom, "1")(id) == Num(1.0)
  {
    assert Entry(custom, id, "0") == "0" && Entry(custom, id, "1") == "1";
    ParseDigit0();
    ParseDigit1();
  }

  lemma ParseDigit0()
    ensures ParseFloat("0") == Num(0.0)
  {
    ParseWhole("0");
    assert "0"[..0] == "";
  }

  lemma ParseDigit1()
    ensures ParseFloat("1") == Num(1.0)
  {
    ParseWhole("1");
    assert "1"[..0] == "";
  }

  /** `exact`: each participant is shown the amount typed for them; the
      mismatch error is raised exactly when every box is a number and their sum
      is more than 0.01 away from the amount, and the share table is returned
      either way. */
  lemma ExactSplitSpec(amount: real, ids: seq<UserId>, value: UserId -> JsNumber)
    ensures var r := ExactSplit(amount, ids, value);
      var vs := ValuesOf(ids, value);
      && r.shares.Keys == set id | id in ids
      && (forall id :: id in ids ==> r.shares[id] == ToFixed2(value(id)))
      && (r.error.Some? <==> AllNum(vs) && Abs(SumReals(Values(vs)) - amount) > 0.01)
      && (r.error.Some? ==> r.error.value == ExactMismatch(SumReals(Values(vs)), amount))
  {
    SumNumeric(ValuesOf(ids, value));
  }

  // ---------------------------------------------------------------- percentage

  /** `percentage`: each participant is shown `amount * pct / 100`; the error is
      raised exactly when every box is a number and the percentages sum to more
      than 0.01 away from 100. */
  lemma PercentageSplitSpec(amount: real, ids: seq<UserId>, value: UserId -> JsNumber)
    ensures var r := PercentageSplit(amount, ids, value);
      var vs := ValuesOf(ids, value);
      && r.shares.Keys == set id | id in ids
      && (forall id :: id in ids && value(id).Num? ==>
            r.shares[id] == Cents(RoundCents(amount * value(id).value / 100.0)))
      && (forall id :: id in ids && value(id).NaN? ==> r.shares[id] == NaNText)
      && (r.error.Some? <==> AllNum(vs) && Abs(SumReals(Values(vs)) - 100.0) > 0.01)
      && (r.error.Some? ==> r.error.value == PercentageMismatch(SumReals(Values(vs))))
  {
    PercentageShares(amount, ids, value);
    PercentageError(amount, ids, value);
  }

  lemma PercentageShares(amount: real, ids: seq<UserId>, value: UserId -> JsNumber)
    ensures var shares := PercentageSplit(amount, ids, value).shares;
      && shares.Keys == set id | id in ids
      && (forall id :: id in ids && value(id).Num? ==>
            shares[id] == Cents(RoundCents(amount * value(id).value / 100.0)))
      && (forall id :: id in ids && value(id).NaN? ==> shares[id] == NaNText)
  {
    var shares := PercentageSplit(amount, ids, value).shares;
    assert shares == map id | id in ids :: ToFixed2(PercentOf(amount, value(id)));
    forall id | id in ids && value(id).Num?
      ensures shares[id] == Cents(RoundCents(amount * value(id).value / 100.0))
    {
      assert shares[id] == ToFixed2(PercentOf(amount, value(id)));
      assert PercentOf(amount, value(id)) == Num(amount * value(id).value / 100.0);
    }
    forall id | id in ids && value(id).NaN?
      ensures shares[id] == NaNText
    {
      assert shares[id] == ToFixed2(PercentOf(amount, value(id)));
    }
  }

  lemma PercentageError(amount: real, ids: seq<UserId>, value: UserId -> JsNumber)
    ensures var error := PercentageSplit(amount, ids, value).error;
      var vs := ValuesOf(ids, value);
      && (error.Some? <==> AllNum(vs) && Abs(SumReals(Values(vs)) - 100.0) > 0.01)
      && (error.Some? ==> error.value == PercentageMismatch(SumReals(Values(vs))))
  {
    var total := TotalOf(ids, value);
    assert PercentageSplit(amount, ids, value).error ==
      if OffBy(total, 100.0, 0.01) then Some(PercentageMismatch(total.value)) else None;
    SumNumeric(ValuesOf(ids, value));
  }

  // ---------------------------------------------------------------- shares

  /** Each weight's slice of the amount before rounding. */
  function Unrounded(amount: real, ws: seq<real>): (r: seq<real>)
    requires SumReals(ws) != 0.0
    ensures |r| == |ws|
    ensures forall i :: 0 <= i < |ws| ==> r[i] == Slice(amount, ws[i], SumReals(ws))
  {
    seq(|ws|, i requires 0 <= i < |ws| => Slice(amount, ws[i], SumReals(ws)))
  }

  lemma {:induction false} SumScaled(ws: seq<real>, k: real, r: seq<real>)
    requires |r| == |ws| && forall i :: 0 <= i < |ws| ==> r[i] == k * ws[i]
    ensures SumReals(r) == k * SumReals(ws)
  {
    if |ws| > 0 {
      SumScaled(ws[1..], k, r[1..]);
    }
  }

  lemma DivideLater(a: real, w: real, t: real, k: real)
    requires t != 0.0 && k == a / t
    ensures a * w / t == k * w
  {
  }

  lemma Cancel(a: real, t: real)
    requires t != 0.0
    ensures (a / t) * t == a
  {
  }

  lemma Commute3(k: real, x: real, y: real, kx: real, ky: real)
    requires kx == k * x && ky == k * y
    ensures kx * y == ky * x
  {
  }

  lemma {:induction false} ScaledSlices(amount: real, ws: seq<real>, t: real, r: seq<real>)
    requires t != 0.0 && |r| == |ws|
    requires forall i :: 0 <= i < |ws| ==> r[i] == amount * ws[i] / t
    ensures forall i :: 0 <= i < |ws| ==> r[i] == (amount / t) * ws[i]
  {
    var k := amount / t;
    forall i | 0 <= i < |ws|
      ensures r[i] == k * ws[i]
    {
      DivideLater(amount, ws[i], t, k);
    }
  }

  /** Before rounding, the slices add up to the amount. */
  lemma {:induction false} UnroundedSum(amount: real, ws: seq<real>)
    requires SumReals(ws) != 0.0
    ensures SumReals(Unrounded(amount, ws)) == amount
  {
    var t := SumReals(ws);
    var r := Unrounded(amount, ws);
    ScaledSlices(amount, ws, t, r);
    SumScaled(ws, amount / t, r);
    Cancel(amount, t);
  }

  /** Before rounding, the slices stand in the proportion of their weights. */
  lemma {:induction false} UnroundedProportional(amount: real, ws: seq<real>)
    requires SumReals(ws) != 0.0
    ensures forall i, j :: 0 <= i < |ws| && 0 <= j < |ws| ==>
      Unrounded(amount, ws)[i] * ws[j] == Unrounded(amount, ws)[j] * ws[i]
  {
    var r := Unrounded(amount, ws);
    ProportionalQuotients(amount, ws, SumReals(ws), r);
  }

  lemma ProportionalQuotients(amount: real, ws: seq<real>, t: real, r: seq<real>)
    requires t != 0.0 && |r| == |ws|
    requires forall i :: 0 <= i < |ws| ==> r[i] == amount * ws[i] / t
    ensures forall i, j :: 0 <= i < |ws| && 0 <= j < |ws| ==> r[i] * ws[j] == r[j] * ws[i]
  {
    ScaledSlices(amount, ws, t, r);
    ProportionalSlices(amount / t, ws, r);
  }

  lemma {:induction false} ProportionalSlices(k: real, ws: seq<real>, r: seq<real>)
    requires |r| == |ws| && forall i :: 0 <= i < |ws| ==> r[i] == k * ws[i]
    ensures forall i, j :: 0 <= i < |ws| && 0 <= j < |ws| ==> r[i] * ws[j] == r[j] * ws[i]
  {
    forall i, j | 0 <= i < |ws| && 0 <= j < |ws|
      ensures r[i] * ws[j] == r[j] * ws[i]
    {
      Commute3(k, ws[i], ws[j], r[i], r[j]);
    }
  }

  /** `shares` with every box readable: a zero weight total raises the error and
      returns no shares; otherwise participant i is shown its unrounded slice to
      the cent, with no error. */
  lemma SharesSplitSpec(amount: real, ids: seq<UserId>, value: UserId -> JsNumber)
    requires AllNum(ValuesOf(ids, value))
    ensures var r := SharesSplit(amount, ids, value);
      var ws := Values(ValuesOf(ids, value));
      && (SumReals(ws) == 0.0 ==> r == SplitOutcome(map[], Some(ZeroShares)))
      && (SumReals(ws) != 0.0 ==>
            && r.error.None?
            && r.shares.Keys == (set id | id in ids)
            && forall i :: 0 <= i < |ids| ==> r.shares[ids[i]] == Cents(RoundCents(Unrounded(amount, ws)[i])))
  {
    var vs := ValuesOf(ids, value);
    var ws := Values(vs);
    SumNumeric(vs);
    var total := TotalOf(ids, value);
    assert total == Num(SumReals(ws));
    if SumReals(ws) != 0.0 {
      assert forall i :: 0 <= i < |ids| ==> value(ids[i]) == Num(ws[i]);
      SharesNonZero(amount, ids, value, ws, total);
    }
  }

  /** The `shares` table for a readable, non-zero weight total. */
  lemma SharesNonZero(amount: real, ids: seq<UserId>, value: UserId -> JsNumber, ws: seq<real>, total: JsNumber)
    requires |ws| == |ids| && forall i :: 0 <= i < |ids| ==> value(ids[i]) == Num(ws[i])
    requires SumReals(ws) != 0.0 && total == Num(SumReals(ws))
    ensures var shares := map id | id in ids :: ToFixed2(Portion(amount, value(id), total));
      && shares.Keys == (set id | id in ids)
      && forall i :: 0 <= i < |ids| ==> shares[ids[i]] == Cents(RoundCents(Unrounded(amount, ws)[i]))
  {
    var u := Unrounded(amount, ws);
    var shares := map id | id in ids :: ToFixed2(Portion(amount, value(id), total));
    forall i | 0 <= i < |ids|
      ensures shares[ids[i]] == Cents(RoundCents(u[i]))
    {
      var p := Portion(amount, value(ids[i]), total);
      assert value(ids[i]) == Num(ws[i]);
      assert shares[ids[i]] == ToFixed2(p);
    }
  }

  /** `shares` with an unreadable box (such as "."): the total is NaN, so
      neither the zero check nor any other raises an error, and every share is
      shown as "NaN". */
  lemma SharesSplitUnreadable(amount: real, ids: seq<UserId>, value: UserId -> JsNumber)
    requires !AllNum(ValuesOf(ids, value))
    ensures var r := SharesSplit(amount, ids, value);
      r.error.None? && r.shares.Keys == (set id | id in ids) &&
      forall id :: id in ids ==> r.shares[id] == NaNText
  {
    SumNumeric(ValuesOf(ids, value));
  }

  // ---------------------------------------------------------------- toggles

  /** The predicate "is not `id`". */
  function Other(id: UserId): UserId -> bool {
    x => x != id
  }

  /** `handleParticipantToggle` / `handlePayerToggle`: a listed id is removed
      (every occurrence), an unlisted one is appended. */
  function Toggle(ids: seq<UserId>, id: UserId): (r: seq<UserId>)
    ensures id in r <==> id !in ids
    ensures forall y :: y != id ==> (y in r <==> y in ids)
    ensures id !in ids ==> r == ids + [id]
    ensures NoDups(ids) ==> NoDups(r)
  {
    if id in ids then
      FilterNoDups(ids, Other(id));
      Filter(ids, Other(id))
    else
      var r := ids + [id];
      assert forall i :: 0 <= i < |ids| ==> r[i] == ids[i];
      r
  }

  /** Toggling an unlisted id twice gives back the same list. */
  lemma ToggleTwice(ids: seq<UserId>, id: UserId)
    requires id !in ids
    ensures Toggle(Toggle(ids, id), id) == ids
  {
    FilterAppend(ids, [id], Other(id));
    FilterAll(ids, Other(id));
    assert Filter([id], Other(id)) == [];
    assert ids + [] == ids;
  }

  /** Toggling a listed id twice moves it to the end of a duplicate-free list. */
  lemma ToggleTwiceListed(ids: seq<UserId>, id: UserId)
    requires id in ids
    ensures Toggle(Toggle(ids, id), id) == Filter(ids, Other(id)) + [id]
  {
  }

  // ---------------------------------------------------------------- worked examples

  lemma ParseAmount120()
    ensures ParseFloat("120.50") == Num(120.5)
  {
    Digits120();
    Digits50();
    ParseDecimal("120", "50");
    assert "120" + "." + "50" == "120.50";
  }

  lemma Digits120()
    ensures AllDigits("120") && DigitsValue("120") == 120
  {
    assert "120"[..2] == "12" && "12"[..1] == "1" && "1"[..0] == "";
  }

  lemma Digits50()
    ensures AllDigits("50") && DigitsValue("50") == 50 && Decimal("120", "50") == 120.5
  {
    assert "50"[..1] == "5" && "5"[..0] == "";
    Digits120();
    assert Pow10(2) == 100;
  }

  lemma ParseAmount80()
    ensures ParseFloat("80") == Num(80.0)
  {
    assert "80"[..1] == "8" && "8"[..0] == "";
    assert DigitsValue("80") == 80;
    ParseWhole("80");
  }

  lemma ParseAmount101()
    ensures ParseFloat("101") == Num(101.0)
  {
    assert "101"[..2] == "10" && "10"[..1] == "1" && "1"[..0] == "";
    assert DigitsValue("101") == 101;
    ParseWhole("101");
  }

  lemma ParseBoxes()
    ensures ParseFloat("2") == Num(2.0) && ParseFloat("50") == Num(50.0)
  {
    assert "2"[..0] == "";
    ParseWhole("2");
    assert "50"[..1] == "5" && "5"[..0] == "";
    assert DigitsValue("50") == 50;
    ParseWhole("50");
  }

  /** A three-way `equal` split of 120.50 shows 40.17 to everyone (a total of
      120.51: the cent is not redistributed). */
  lemma EqualSample()
    ensures CalculateSplits(SplitForm("120.50", ["u1", "u2", "u3"], Equal, map[]), None)
      == SplitOutcome(map["u1" := Cents(4017), "u2" := Cents(4017), "u3" := Cents(4017)], None)
  {
    ParseAmount120();
    EqualSampleParsed();
  }

  lemma EqualSampleParsed()
    ensures SplitsFor(Num(120.5), ["u1", "u2", "u3"], Equal, map[], None)
      == SplitOutcome(map["u1" := Cents(4017), "u2" := Cents(4017), "u3" := Cents(4017)], None)
  {
    RoundCentsUnique(120.5 / 3.0, 4017);
    var r := EqualSplit(120.5, ["u1", "u2", "u3"]);
    assert r.shares.Keys == {"u1", "u2", "u3"};
  }

  /** Weights 1, 1 (an empty box) and 2 over 80 give 20, 20 and 40. */
  lemma SharesSample()
    ensures CalculateSplits(SplitForm("80", ["u1", "u2", "u3"], Shares, map["u2" := "", "u3" := "2"]), None)
      == SplitOutcome(map["u1" := Cents(2000), "u2" := Cents(2000), "u3" := Cents(4000)], None)
  {
    ParseAmount80();
    SharesSampleParsed();
  }

  lemma SharesSampleParsed()
    ensures SplitsFor(Num(80.0), ["u1", "u2", "u3"], Shares, map["u2" := "", "u3" := "2"], None)
      == SplitOutcome(map["u1" := Cents(2000), "u2" := Cents(2000), "u3" := Cents(4000)], None)
  {
    var custom := map["u2" := "", "u3" := "2"];
    SplitsForDispatch(80.0, ["u1", "u2", "u3"], Shares, custom, None);
    SharesBoxes();
    SharesOfWeights(Reader(custom, "1"));
  }

  lemma SharesBoxes()
    ensures var read := Reader(map["u2" := "", "u3" := "2"], "1");
      read("u1") == Num(1.0) && read("u2") == Num(1.0) && read("u3") == Num(2.0)
  {
    var custom := map["u2" := "", "u3" := "2"];
    assert Entry(custom, "u1", "1") == "1";
    assert Entry(custom, "u2", "1") == "1";
    assert Entry(custom, "u3", "1") == "2";
    ParseDigit1();
    ParseBoxes();
  }

  lemma SharesOfWeights(value: UserId -> JsNumber)
    requires value("u1") == Num(1.0) && value("u2") == Num(1.0) && value("u3") == Num(2.0)
    ensures SharesSplit(80.0, ["u1", "u2", "u3"], value)
      == SplitOutcome(map["u1" := Cents(2000), "u2" := Cents(2000), "u3" := Cents(4000)], None)
  {
    var ids := ["u1", "u2", "u3"];
    var vs := ValuesOf(ids, value);
    assert vs == [Num(1.0), Num(1.0), Num(2.0)];
    assert vs[1..] == [Num(1.0), Num(2.0)] && vs[1..][1..] == [Num(2.0)] && vs[1..][1..][1..] == [];
    assert Sum(vs[1..][1..]) == Num(2.0);
    assert Sum(vs[1..]) == Num(3.0);
    assert TotalOf(ids, value) == Num(4.0);
    RoundCentsUnique(20.0, 2000);
    RoundCentsUnique(40.0, 4000);
    var r := SharesSplit(80.0, ids, value);
    assert r.shares.Keys == {"u1", "u2", "u3"};
  }

  /** Exact boxes of 50 and 50 against an amount of 101 raise the mismatch
      error, quoting both totals. */
  lemma ExactSample()
    ensures CalculateSplits(SplitForm("101", ["u1", "u2"], Exact, map["u1" := "50", "u2" := "50"]), None).error
      == Some(ExactMismatch(100.0, 101.0))
  {
    ParseAmount101();
    ExactSampleParsed();
  }

  lemma ExactSampleParsed()
    ensures SplitsFor(Num(101.0), ["u1", "u2"], Exact, map["u1" := "50", "u2" := "50"], None).error
      == Some(ExactMismatch(100.0, 101.0))
  {
    var read := Reader(map["u1" := "50", "u2" := "50"], "0");
    ExactBoxes();
    ExactOfBoxes(read);
    SplitsForDispatch(101.0, ["u1", "u2"], Exact, map["u1" := "50", "u2" := "50"], None);
  }

  lemma ExactBoxes()
    ensures var read := Reader(map["u1" := "50", "u2" := "50"], "0");
      read("u1") == Num(50.0) && read("u2") == Num(50.0)
  {
    ParseBoxes();
  }

  lemma ExactOfBoxes(value: UserId -> JsNumber)
    requires value("u1") == Num(50.0) && value("u2") == Num(50.0)
    ensures ExactSplit(101.0, ["u1", "u2"], value).error == Some(ExactMismatch(100.0, 101.0))
  {
    var ids := ["u1", "u2"];
    var vs := ValuesOf(ids, value);
    assert vs == [Num(50.0), Num(50.0)];
    assert vs[1..] == [Num(50.0)] && vs[1..][1..] == [];
    assert Sum(vs[1..]) == Num(50.0);
    assert TotalOf(ids, value) == Num(100.0);
  }

  // ---------------------------------------------------------------- unreadable boxes

  /** As written, a box holding "." (which the input pattern accepts) reads as
      NaN, the NaN total makes `Math.abs(total - amount) > 0.01` false, and so
      `exact` raises no error although one participant's share is "NaN". */
  lemma DotSuppressesMismatch()
    ensures AcceptEdit("5", ".") == "."
    ensures var r := CalculateSplits(SplitForm("100", ["u1", "u2"], Exact, map["u1" := ".", "u2" := "5"]), None);
      r.error.None? && "u1" in r.shares && r.shares["u1"] == NaNText
  {
    DotAccepted();
    ParseAmount100();
    var ids := ["u1", "u2"];
    var custom := map["u1" := ".", "u2" := "5"];
    assert CalculateSplits(SplitForm("100", ids, Exact, custom), None) == SplitsFor(Num(100.0), ids, Exact, custom, None);
    SplitsForDispatch(100.0, ids, Exact, custom, None);
    DotBoxes();
    DotExact(Reader(custom, "0"));
  }

  lemma DotAccepted()
    ensures AcceptEdit("5", ".") == "."
  {
    assert DigitsAndDots(".") && AtMostOneDot(".");
  }

  lemma DotExact(value: UserId -> JsNumber)
    requires value("u1") == NaN
    ensures var r := ExactSplit(100.0, ["u1", "u2"], value);
      r.error.None? && "u1" in r.shares && r.shares["u1"] == NaNText
  {
    ExactSplitSpec(100.0, ["u1", "u2"], value);
    assert ValuesOf(["u1", "u2"], value)[0].NaN?;
  }

  lemma ParseAmount100()
    ensures ParseFloat("100") == Num(100.0)
  {
    assert "100"[..2] == "10" && "10"[..1] == "1" && "1"[..0] == "";
    assert DigitsValue("100") == 100;
    ParseWhole("100");
  }

  lemma DotBoxes()
    ensures Reader(map["u1" := ".", "u2" := "5"], "0")("u1") == NaN
  {
    assert Entry(map["u1" := ".", "u2" := "5"], "u1", "0") == ".";
    assert DigitRun(".") == 0;
    assert "."[0..][1..] == "";
  }

  /** The predicate "this participant's box does not read as a number". */
  function Unreadable(value: UserId -> JsNumber): UserId -> bool {
    id => value(id).NaN?
  }

  /** Replaces the outcome's error with `UnreadableEntry` for the first
      participant whose box does not read as a number. */
  function Flag(out: SplitOutcome, ids: seq<UserId>, value: UserId -> JsNumber): (r: SplitOutcome)
    ensures r.shares == out.shares
    ensures AllNum(ValuesOf(ids, value)) ==> r == out
    ensures !AllNum(ValuesOf(ids, value)) ==>
      && r.error.Some? && r.error.value.UnreadableEntry?
      && r.error.value.userId in ids && value(r.error.value.userId).NaN?
  {
    AllNumOfFind(ids, value);
    match Find(ids, Unreadable(value))
    case Some(id) => SplitOutcome(out.shares, Some(UnreadableEntry(id)))
    case None => out
  }

  lemma AllNumOfFind(ids: seq<UserId>, value: UserId -> JsNumber)
    ensures AllNum(ValuesOf(ids, value)) <==> Find(ids, Unreadable(value)).None?
  {
    var vs := ValuesOf(ids, value);
    if !AllNum(vs) {
      var i :| 0 <= i < |vs| && vs[i].NaN?;
      assert Unreadable(value)(ids[i]);
    }
  }

  /** `calculateSplits` with the evidently intended check: past the early
      return, `exact`, `percentage` and `shares` report an unreadable box
      instead of silently skipping their totals check. */
  function CheckedSplits(form: SplitForm, previous: Option<SplitError>): (r: SplitOutcome)
    ensures r.shares == CalculateSplits(form, previous).shares
    ensures CalculateSplits(form, previous).error.Some? ==> r.error.Some?
    ensures r.error != CalculateSplits(form, previous).error ==>
      r.error.Some? && r.error.value.UnreadableEntry? && r.error.value.userId in form.participants
  {
    CheckedSplitsFor(ParseFloat(form.amount), form.participants, form.splitMethod, form.custom, previous)
  }

  function CheckedSplitsFor(amount: JsNumber, ids: seq<UserId>, m: SplitMethod, custom: map<UserId, string>,
                            previous: Option<SplitError>): (r: SplitOutcome)
    ensures var out := SplitsFor(amount, ids, m, custom, previous);
      && r.shares == out.shares
      && (out.error.Some? ==> r.error.Some?)
      && (r.error != out.error ==> r.error.Some? && r.error.value.UnreadableEntry? && r.error.value.userId in ids)
  {
    var out := SplitsFor(amount, ids, m, custom, previous);
    if Falsy(amount) || |ids| == 0 then out
    else
      match m
      case Exact => Flag(out, ids, Reader(custom, "0"))
      case Percentage => Flag(out, ids, Reader(custom, "0"))
      case Shares => Flag(out, ids, Reader(custom, "1"))
      case _ => out
  }

  /** The checked `exact` split raises no error exactly when every box is a
      number and the boxes add up to the amount within 0.01. */
  lemma CheckedExactReconciles(amount: real, ids: seq<UserId>, value: UserId -> JsNumber)
    ensures var r := Flag(ExactSplit(amount, ids, value), ids, value);
      var vs := ValuesOf(ids, value);
      r.error.None? <==> AllNum(vs) && Abs(SumReals(Values(vs)) - amount) <= 0.01
  {
    var out := ExactSplit(amount, ids, value);
    var vs := ValuesOf(ids, value);
    ExactSplitSpec(amount, ids, value);
    if AllNum(vs) {
      assert Flag(out, ids, value) == out;
    } else {
      assert Flag(out, ids, value).error.Some?;
    }
  }

  /** The checked `percentage` split raises no error exactly when every box is
      a number and the percentages add up to 100 within 0.01. */
  lemma CheckedPercentageReconciles(amount: real, ids: seq<UserId>, value: UserId -> JsNumber)
    ensures var r := Flag(PercentageSplit(amount, ids, value), ids, value);
      var vs := ValuesOf(ids, value);
      r.error.None? <==> AllNum(vs) && Abs(SumReals(Values(vs)) - 100.0) <= 0.01
  {
    var out := PercentageSplit(amount, ids, value);
    var vs := ValuesOf(ids, value);
    PercentageError(amount, ids, value);
    if AllNum(vs) {
      assert Flag(out, ids, value) == out;
    } else {
      assert Flag(out, ids, value).error.Some?;
    }
  }

  /** The checked `shares` split raises no error exactly when every box is a
      number and the weights do not total 0; then every share is a number. */
  lemma CheckedSharesReconciles(amount: real, ids: seq<UserId>, value: UserId -> JsNumber)
    ensures var r := Flag(SharesSplit(amount, ids, value), ids, value);
      var vs := ValuesOf(ids, value);
      && (r.error.None? <==> AllNum(vs) && SumReals(Values(vs)) != 0.0)
      && (r.error.None? ==> forall id :: id in ids ==> id in r.shares && r.shares[id].Cents?)
  {
    var vs := ValuesOf(ids, value);
    AllNumOfFind(ids, value);
    if AllNum(vs) {
      SharesSplitSpec(amount, ids, value);
      var r := SharesSplit(amount, ids, value);
      if SumReals(Values(vs)) != 0.0 {
        forall id | id in ids
          ensures r.shares[id].Cents?
        {
          var i :| 0 <= i < |ids| && ids[i] == id;
        }
      }
    } else {
      SharesSplitUnreadable(amount, ids, value);
    }
  }

  /** The corrected check flags the "." box of the example above. */
  lemma DotFlagged()
    ensures CheckedSplits(SplitForm("100", ["u1", "u2"], Exact, map["u1" := ".", "u2" := "5"]), None).error
      == Some(UnreadableEntry("u1"))
  {
    ParseAmount100();
    var ids := ["u1", "u2"];
    var custom := map["u1" := ".", "u2" := "5"];
    assert CheckedSplits(SplitForm("100", ids, Exact, custom), None) == CheckedSplitsFor(Num(100.0), ids, Exact, custom, None);
    CheckedExactDispatch(100.0, ids, custom, None);
    DotBoxes();
    DotFlag(Reader(custom, "0"));
  }

  lemma DotFlag(value: UserId -> JsNumber)
    requires value("u1") == NaN
    ensures Flag(ExactSplit(100.0, ["u1", "u2"], value), ["u1", "u2"], value).error == Some(UnreadableEntry("u1"))
  {
    assert Unreadable(value)(["u1", "u2"][0]);
  }

  // ---------------------------------------------------------------- submit

  /** What `handleSubmit` ends in: one of its error toasts, or the success toast
      with the computed shares. */
  datatype SubmitResult =
    | MissingTitleOrAmount
    | NoParticipants
    | NoPayers
    | SplitProblem(error: SplitError)
    | Added(shares: map<UserId, Fixed2>)

  /** `handleSubmit` given the split the form holds: the title/amount,
      participant and payer checks in order, then the split error, then the
      new expense with the computed shares. */
  function Submit(title: string, form: SplitForm, payers: seq<UserId>, split: SplitOutcome): (r: SubmitResult)
    ensures r == MissingTitleOrAmount <==> title == "" || form.amount == ""
    ensures r == NoParticipants <==> title != "" && form.amount != "" && |form.participants| == 0
    ensures r == NoPayers <==> title != "" && form.amount != "" && |form.participants| > 0 && |payers| == 0
    ensures r.SplitProblem? <==>
      title != "" && form.amount != "" && |form.participants| > 0 && |payers| > 0 && split.error.Some?
    ensures r.SplitProblem? ==> split.error == Some(r.error)
    ensures r.Added? ==> r.shares == split.shares && split.error.None?
  {
    if title == "" || form.amount == "" then MissingTitleOrAmount
    else if |form.participants| == 0 then NoParticipants
    else if |payers| == 0 then NoPayers
    else if split.error.Some? then SplitProblem(split.error.value)
    else Added(split.shares)
  }

  /** The form checks pass: a title, an amount, participants and payers. */
  predicate FormComplete(title: string, form: SplitForm, payers: seq<UserId>) {
    title != "" && form.amount != "" && |form.participants| > 0 && |payers| > 0
  }

  /** `handleSubmit` as written: the split error is the one `calculateSplits`
      set. `held` is the error the form held before that call. */
  function SubmitExpense(title: string, form: SplitForm, payers: seq<UserId>, held: Option<SplitError>): (r: SubmitResult)
    ensures r.Added? <==> FormComplete(title, form, payers) && CalculateSplits(form, held).error.None?
    ensures r.Added? ==> r.shares == CalculateSplits(form, held).shares
  {
    Submit(title, form, payers, CalculateSplits(form, held))
  }

  /** `handleSubmit` over the corrected calculator, which reports unreadable boxes. */
  function SubmitExpenseChecked(title: string, form: SplitForm, payers: seq<UserId>, held: Option<SplitError>): (r: SubmitResult)
    ensures r.Added? <==> FormComplete(title, form, payers) && CheckedSplits(form, held).error.None?
    ensures r.Added? ==> r.shares == CheckedSplits(form, held).shares
  {
    Submit(title, form, payers, CheckedSplits(form, held))
  }

  /** As written, the expense of the "." example is added, with a "NaN" share,
      although its boxes do not add up to the amount. */
  lemma DotSubmitted()
    ensures var form := SplitForm("100", ["u1", "u2"], Exact, map["u1" := ".", "u2" := "5"]);
      var r := SubmitExpense("t", form, ["u1"], None);
      && r.Added? && "u1" in r.shares && r.shares["u1"] == NaNText
      && !ExactReconciles(form.participants, form.custom, 100.0)
  {
    var custom := map["u1" := ".", "u2" := "5"];
    var form := SplitForm("100", ["u1", "u2"], Exact, custom);
    DotSuppressesMismatch();
    assert FormComplete("t", form, ["u1"]);
    DotBoxes();
    assert ValuesOf(["u1", "u2"], Reader(custom, "0"))[0].NaN?;
  }

  /** With the corrected calculator, an accepted `exact` expense whose amount
      reads as a non-zero `a` has boxes that are all numbers and add up to `a`. */
  lemma SubmittedExactReconciles(title: string, form: SplitForm, payers: seq<UserId>, held: Option<SplitError>, a: real)
    requires form.splitMethod == Exact
    requires ParseFloat(form.amount) == Num(a) && a != 0.0
    requires SubmitExpenseChecked(title, form, payers, held).Added?
    ensures ExactReconciles(form.participants, form.custom, a)
  {
    assert CheckedSplits(form, held).error == CheckedSplitsFor(Num(a), form.participants, Exact, form.custom, held).error;
    CheckedExactAt(form.participants, form.custom, held, a);
  }

  /** Every `exact` box is a number and the boxes add up to `a` within 0.01. */
  predicate ExactReconciles(ids: seq<UserId>, custom: map<UserId, string>, a: real) {
    var vs := ValuesOf(ids, Reader(custom, "0"));
    AllNum(vs) && Abs(SumReals(Values(vs)) - a) <= 0.01
  }

  lemma CheckedExactAt(ids: seq<UserId>, custom: map<UserId, string>, held: Option<SplitError>, a: real)
    requires |ids| > 0 && a != 0.0
    requires CheckedSplitsFor(Num(a), ids, Exact, custom, held).error.None?
    ensures ExactReconciles(ids, custom, a)
  {
    CheckedExactDispatch(a, ids, custom, held);
    CheckedExactReconciles(a, ids, Reader(custom, "0"));
  }

  lemma CheckedExactDispatch(a: real, ids: seq<UserId>, custom: map<UserId, string>, held: Option<SplitError>)
    requires a != 0.0 && |ids| > 0
    ensures CheckedSplitsFor(Num(a), ids, Exact, custom, held) ==
      Flag(ExactSplit(a, ids, Reader(custom, "0")), ids, Reader(custom, "0"))
  {
    SplitsForDispatch(a, ids, Exact, custom, held);
  }
}
