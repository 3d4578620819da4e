/** A JavaScript object used as a number table (`{ [key: string]: number }`):
    keys keep their insertion order, which `Object.keys` and `Object.values`
    expose, and a missing key reads as 0 through `table[k] || 0`. */
module Records {
  import opened Seqs

  datatype Record = Record(keys: seq<string>, amounts: map<string, real>)

  /** The key order lists each stored key once. */
  predicate Valid(r: Record) {
    && NoDups(r.keys)
    && (forall k :: k in r.keys ==> k in r.amounts)
    && (forall k :: k in r.amounts ==> k in r.keys)
  }

  const Empty: Record := Record([], map[])

  /** `r[k] || 0`. */
  function Get(r: Record, k: string): real {
    if k in r.amounts then r.amounts[k] else 0.0
  }

  /** `r[k] = (r[k] || 0) + v`: a new key goes to the end of the key order. */
  function AddTo(r: Record, k: string, v: real): (r': Record)
    requires Valid(r)
    ensures Valid(r')
    ensures Get(r', k) == Get(r, k) + v
    ensures forall j :: j != k ==> Get(r', j) == Get(r, j)
    ensures r'.amounts.Keys == r.amounts.Keys + {k}
    ensures k in r.amounts ==> r'.keys == r.keys
    ensures k !in r.amounts ==> r'.keys == r.keys + [k]
  {
    Record(if k in r.amounts then r.keys else r.keys + [k], r.amounts[k := Get(r, k) + v])
  }

  function SumOver(ks: seq<string>, m: map<string, real>): real
    requires forall k :: k in ks ==> k in m
  {
    if |ks| == 0 then 0.0 else m[ks[0]] + SumOver(ks[1..], m)
  }

  /** `Object.values(r).reduce((sum, x) => sum + x, 0)`. */
  function Total(r: Record): real
    requires Valid(r)
  {
    SumOver(r.keys, r.amounts)
  }

  lemma {:induction false} SumOverUnchanged(ks: seq<string>, m: map<string, real>, k: string, x: real)
    requires forall j :: j in ks ==> j in m
    requires k !in ks
    ensures SumOver(ks, m[k := x]) == SumOver(ks, m)
  {
    if |ks| > 0 {
      SumOverUnchanged(ks[1..], m, k, x);
    }
  }

  lemma {:induction false} SumOverBump(ks: seq<string>, m: map<string, real>, k: string, v: real)
    requires forall j :: j in ks ==> j in m
    requires NoDups(ks) && k in ks
    ensures SumOver(ks, m[k := m[k] + v]) == SumOver(ks, m) + v
  {
    if ks[0] == k {
      assert k !in ks[1..];
      SumOverUnchanged(ks[1..], m, k, m[k] + v);
    } else {
      SumOverBump(ks[1..], m, k, v);
    }
  }

  lemma {:induction false} SumOverAppend(ks: seq<string>, m: map<string, real>, k: string)
    requires forall j :: j in ks ==> j in m
    requires k in m
    ensures SumOver(ks + [k], m) == SumOver(ks, m) + m[k]
  {
    if |ks| > 0 {
      assert (ks + [k])[1..] == ks[1..] + [k];
      SumOverAppend(ks[1..], m, k);
    }
  }

  /** Adding `v` under any key raises the table's total by exactly `v`. */
  lemma TotalAddTo(r: Record, k: string, v: real)
    requires Valid(r)
    ensures Total(AddTo(r, k, v)) == Total(r) + v
  {
    if k in r.amounts {
      SumOverBump(r.keys, r.amounts, k, v);
    } else {
      SumOverUnchanged(r.keys, r.amounts, k, v);
      SumOverAppend(r.keys, r.amounts[k := v], k);
    }
  }
}
