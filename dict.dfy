/** A string-keyed dictionary whose enumeration order is observable, as it is
    for a .NET `Dictionary<string, …>` that is only added to and overwritten:
    an ordered list of entries with distinct keys. Assigning through the
    indexer overwrites an existing key in place and appends a new key. */
module Dict {
  import opened Wrappers

  type Dict<V> = seq<(string, V)>

  function Keys<V>(d: Dict<V>): (ks: seq<string>)
    ensures |ks| == |d|
    ensures forall i :: 0 <= i < |d| ==> ks[i] == d[i].0
  {
    seq(|d|, i requires 0 <= i < |d| => d[i].0)
  }

  function Values<V>(d: Dict<V>): (vs: seq<V>)
    ensures |vs| == |d|
    ensures forall i :: 0 <= i < |d| ==> vs[i] == d[i].1
  {
    seq(|d|, i requires 0 <= i < |d| => d[i].1)
  }

  /** No key occurs twice. */
  ghost predicate UniqueKeys<V>(d: Dict<V>) {
    forall i, j :: 0 <= i < j < |d| ==> d[i].0 != d[j].0
  }

  predicate HasKey<V>(d: Dict<V>, k: string) {
    k in Keys(d)
  }

  /** `TryGetValue`. */
  function Get<V>(d: Dict<V>, k: string): (r: Option<V>)
    ensures r.None? <==> !HasKey(d, k)
    decreases |d|
  {
    if |d| == 0 then None
    else if d[0].0 == k then Some(d[0].1)
    else
      assert Keys(d) == [d[0].0] + Keys(d[1..]);
      Get(d[1..], k)
  }

  /** A lookup that succeeds found an entry of the dictionary. */
  lemma GetIsEntry<V>(d: Dict<V>, k: string)
    requires Get(d, k).Some?
    ensures (k, Get(d, k).value) in d
    decreases |d|
  {
    if d[0].0 != k {
      GetIsEntry(d[1..], k);
    }
  }

  /** The entry at a position is what a lookup of its key finds. */
  lemma GetAt<V>(d: Dict<V>, i: nat)
    requires UniqueKeys(d) && i < |d|
    ensures Get(d, d[i].0) == Some(d[i].1)
    decreases i
  {
    if i > 0 {
      GetAt(d[1..], i - 1);
    }
  }

  /** `d[k] = v`. */
  function Put<V>(d: Dict<V>, k: string, v: V): (r: Dict<V>)
    ensures HasKey(d, k) ==> Keys(r) == Keys(d)
    ensures !HasKey(d, k) ==> Keys(r) == Keys(d) + [k]
    decreases |d|
  {
    if |d| == 0 then [(k, v)]
    else if d[0].0 == k then [(k, v)] + d[1..]
    else
      assert Keys(d) == [d[0].0] + Keys(d[1..]);
      var r := [d[0]] + Put(d[1..], k, v);
      assert Keys(r) == [d[0].0] + Keys(Put(d[1..], k, v));
      r
  }

  lemma PutUnique<V>(d: Dict<V>, k: string, v: V)
    requires UniqueKeys(d)
    ensures UniqueKeys(Put(d, k, v))
  {
    var r := Put(d, k, v);
    var ks := Keys(r);
    forall i, j | 0 <= i < j < |r| ensures r[i].0 != r[j].0 {
      assert ks[i] == r[i].0 && ks[j] == r[j].0;
    }
  }

  /** After `d[k] = v`, looking up `k` finds `v`. */
  lemma GetPutSame<V>(d: Dict<V>, k: string, v: V)
    ensures Get(Put(d, k, v), k) == Some(v)
    decreases |d|
  {
    if |d| > 0 && d[0].0 != k {
      GetPutSame(d[1..], k, v);
    }
  }

  /** After `d[k] = v`, every other key is looked up as before. */
  lemma GetPutOther<V>(d: Dict<V>, k: string, v: V, k': string)
    requires k' != k
    ensures Get(Put(d, k, v), k') == Get(d, k')
    decreases |d|
  {
    if |d| > 0 && d[0].0 != k {
      GetPutOther(d[1..], k, v, k');
    }
  }
  /** Every entry of `d[k] = v` is the new one or an entry of `d`. */
  lemma PutEntries<V>(d: Dict<V>, k: string, v: V)
    ensures forall e :: e in Put(d, k, v) ==> e == (k, v) || e in d
    decreases |d|
  {
    if |d| > 0 && d[0].0 != k {
      PutEntries(d[1..], k, v);
    }
  }

  /** `Remove(k)`: the entry of `k` leaves, the others keep their order. */
  function Remove<V>(d: Dict<V>, k: string): (r: Dict<V>)
    ensures forall e :: e in r ==> e in d
    ensures !HasKey(d, k) ==> r == d
    decreases |d|
  {
    if |d| == 0 then []
    else if d[0].0 == k then d[1..]
    else
      assert Keys(d) == [d[0].0] + Keys(d[1..]);
      [d[0]] + Remove(d[1..], k)
  }

  /** After `Remove(k)`, `k` is gone and every other key is looked up as
      before. */
  lemma GetRemove<V>(d: Dict<V>, k: string, k': string)
    requires UniqueKeys(d)
    ensures Get(Remove(d, k), k') == if k' == k then None else Get(d, k')
    decreases |d|
  {
    if |d| > 0 {
      if d[0].0 == k {
        if k' == k {
          forall i | 0 <= i < |d[1..]| ensures d[1..][i].0 != k {
            assert d[1..][i] == d[i + 1];
          }
          assert !HasKey(d[1..], k);
        }
      } else {
        GetRemove(d[1..], k, k');
      }
    }
  }

  lemma RemoveUnique<V>(d: Dict<V>, k: string)
    requires UniqueKeys(d)
    ensures UniqueKeys(Remove(d, k))
    decreases |d|
  {
    if |d| > 0 && d[0].0 != k {
      RemoveUnique(d[1..], k);
      var r := Remove(d, k);
      forall i, j | 0 <= i < j < |r| ensures r[i].0 != r[j].0 {
        if i == 0 {
          assert r[j] in Remove(d[1..], k);
          assert r[j] in d[1..];
          var m :| 0 <= m < |d[1..]| && d[1..][m] == r[j];
          assert d[m + 1] == r[j];
        }
      }
    }
  }
}
