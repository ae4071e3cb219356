/**
 Counters keyed by strings with the reading of Python's `defaultdict(int)`:
 a key that was never bumped counts zero. Both the logger's in-memory cache
 and the per-class histogram of the statistics are counters of this kind.
 */
module Counter {

  type Counts = map<string, nat>

  /** `m[k]` on a `defaultdict(int)`, without inserting the key. */
  function Get(m: Counts, k: string): nat {
    if k in m then m[k] else 0
  }

  /** `m[k] += 1` on a `defaultdict(int)`. */
  function Bump(m: Counts, k: string): (r: Counts)
    ensures r.Keys == m.Keys + {k}
    ensures Get(r, k) == Get(m, k) + 1
    ensures forall j :: j != k ==> Get(r, j) == Get(m, j)
  {
    m[k := Get(m, k) + 1]
  }

  /** The sum of all the counts held in `m`. */
  ghost function Sum(m: Counts): nat
    decreases |m|
  {
    if m == map[] then 0
    else
      var k :| k in m;
      assert (m - {k}).Keys == m.Keys - {k};
      m[k] + Sum(m - {k})
  }

  /** The sum does not depend on the order in which keys are taken out. */
  lemma {:induction false} SumRemove(m: Counts, k: string)
    requires k in m
    ensures Sum(m) == m[k] + Sum(m - {k})
    decreases |m|
  {
    var k' :| k' in m && Sum(m) == m[k'] + Sum(m - {k'});
    if k' != k {
      assert (m - {k'}).Keys == m.Keys - {k'};
      assert (m - {k}).Keys == m.Keys - {k};
      SumRemove(m - {k'}, k);
      SumRemove(m - {k}, k');
      assert m - {k'} - {k} == m - {k} - {k'};
    }
  }

  /** One bump adds exactly one to the sum of the counts. */
  lemma {:induction false} SumBump(m: Counts, k: string)
    ensures Sum(Bump(m, k)) == Sum(m) + 1
  {
    var r := Bump(m, k);
    SumRemove(r, k);
    assert r - {k} == m - {k};
    if k in m {
      SumRemove(m, k);
    } else {
      assert m - {k} == m;
    }
  }
}
