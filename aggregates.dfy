/** The accumulation idioms shared by the statistics, insights and
    dashboard code: a running sum of durations and Go maps filled by
    `m[key] += d` / `m[key]++` (a missing key reads as zero), each with an
    independent reference definition and a lemma tying the two. */
module Aggregates {
  import opened Wrappers
  import opened Records

  /** The sum of the durations, folded from the end as a loop adds them. */
  function SumDurations(es: seq<LogEntry>): int
  {
    if es == [] then 0 else SumDurations(es[..|es| - 1]) + es[|es| - 1].duration
  }

  /** `m[k] += d`. */
  function Accumulate<K>(m: map<K, int>, k: K, d: int): (r: map<K, int>)
    ensures r.Keys == m.Keys + {k}
    ensures r[k] == Get(m, k, 0) + d
    ensures forall j :: j in m && j != k ==> r[j] == m[j]
  {
    m[k := Get(m, k, 0) + d]
  }

  /** The map a loop builds with `m[key(e)] += e.Duration` over `es`. */
  function TotalsBy<K>(es: seq<LogEntry>, key: LogEntry -> K): map<K, int>
  {
    if es == [] then map[]
    else Accumulate(TotalsBy(es[..|es| - 1], key), key(es[|es| - 1]), es[|es| - 1].duration)
  }

  /** The map a loop builds with `m[key(e)]++` over `es`. */
  function CountsBy<K>(es: seq<LogEntry>, key: LogEntry -> K): map<K, int>
  {
    if es == [] then map[]
    else Accumulate(CountsBy(es[..|es| - 1], key), key(es[|es| - 1]), 1)
  }

  /** Reference definition: the summed duration of the entries whose key is `k`. */
  function SumWhere<K(==)>(es: seq<LogEntry>, key: LogEntry -> K, k: K): int
  {
    if es == [] then 0
    else SumWhere(es[1..], key, k) + (if key(es[0]) == k then es[0].duration else 0)
  }

  /** Reference definition: the number of entries whose key is `k`. */
  function CountWhere<K(==)>(es: seq<LogEntry>, key: LogEntry -> K, k: K): nat
  {
    if es == [] then 0
    else CountWhere(es[1..], key, k) + (if key(es[0]) == k then 1 else 0)
  }

  lemma {:induction false} SumWhereSnoc<K>(es: seq<LogEntry>, e: LogEntry, key: LogEntry -> K, k: K)
    ensures SumWhere(es + [e], key, k) == SumWhere(es, key, k) + (if key(e) == k then e.duration else 0)
    ensures CountWhere(es + [e], key, k) == CountWhere(es, key, k) + (if key(e) == k then 1 else 0)
  {
    if es != [] {
      assert (es + [e])[1..] == es[1..] + [e];
      SumWhereSnoc(es[1..], e, key, k);
    }
  }

  /** A key is in the accumulated map exactly when some entry carries it,
      and its value is that key's summed duration (resp. count). */
  lemma {:induction false} TotalsByMeaning<K>(es: seq<LogEntry>, key: LogEntry -> K, k: K)
    ensures k in TotalsBy(es, key) <==> exists i :: 0 <= i < |es| && key(es[i]) == k
    ensures k in CountsBy(es, key) <==> k in TotalsBy(es, key)
    ensures Get(TotalsBy(es, key), k, 0) == SumWhere(es, key, k)
    ensures Get(CountsBy(es, key), k, 0) == CountWhere(es, key, k)
  {
    if es != [] {
      var init, last := es[..|es| - 1], es[|es| - 1];
      assert es == init + [last];
      TotalsByMeaning(init, key, k);
      SumWhereSnoc(init, last, key, k);
      if key(last) != k && k in TotalsBy(es, key) {
        var i :| 0 <= i < |init| && key(init[i]) == k;
        assert key(es[i]) == k;
      }
      if exists i :: 0 <= i < |es| && key(es[i]) == k {
        var i :| 0 <= i < |es| && key(es[i]) == k;
        if i < |init| { assert key(init[i]) == k; }
      }
    }
  }

  /** The sum of `m` over a set of its keys. */
  ghost function SumOver<K>(m: map<K, int>, s: set<K>): int
    requires s <= m.Keys
    decreases s
  {
    if s == {} then 0 else var k :| k in s; m[k] + SumOver(m, s - {k})
  }

  /** Summing may begin with any key. */
  lemma {:induction false} SumOverRemove<K>(m: map<K, int>, s: set<K>, k: K)
    requires s <= m.Keys && k in s
    ensures SumOver(m, s) == m[k] + SumOver(m, s - {k})
    decreases s
  {
    var j :| j in s && SumOver(m, s) == m[j] + SumOver(m, s - {j});
    if j != k {
      SumOverRemove(m, s - {j}, k);
      SumOverRemove(m, s - {k}, j);
      assert s - {j} - {k} == s - {k} - {j};
    }
  }

  /** Two maps that agree on `s` have the same sum over it. */
  lemma {:induction false} SumOverAgree<K>(m1: map<K, int>, m2: map<K, int>, s: set<K>)
    requires s <= m1.Keys && s <= m2.Keys
    requires forall x :: x in s ==> m1[x] == m2[x]
    ensures SumOver(m1, s) == SumOver(m2, s)
    decreases s
  {
    if s != {} {
      var k :| k in s;
      SumOverRemove(m1, s, k);
      SumOverRemove(m2, s, k);
      SumOverAgree(m1, m2, s - {k});
    }
  }

  /** The sum of all the values of a map. */
  ghost function MapSum<K>(m: map<K, int>): int
  {
    SumOver(m, m.Keys)
  }

  /** Adding `d` under one key adds `d` to the sum of the map. */
  lemma MapSumAccumulate<K>(m: map<K, int>, k: K, d: int)
    ensures MapSum(Accumulate(m, k, d)) == MapSum(m) + d
  {
    var r := Accumulate(m, k, d);
    SumOverRemove(r, r.Keys, k);
    var others := m.Keys - {k};
    assert r.Keys - {k} == others;
    SumOverAgree(r, m, others);
    if k in m {
      SumOverRemove(m, m.Keys, k);
    } else {
      assert m.Keys == others;
    }
  }

  /** The per-key totals add up to the grand total. */
  lemma {:induction false} MapSumTotals<K>(es: seq<LogEntry>, key: LogEntry -> K)
    ensures MapSum(TotalsBy(es, key)) == SumDurations(es)
  {
    if es != [] {
      MapSumTotals(es[..|es| - 1], key);
      MapSumAccumulate(TotalsBy(es[..|es| - 1], key), key(es[|es| - 1]), es[|es| - 1].duration);
    }
  }
}
