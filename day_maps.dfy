/** JavaScript's `Map<string, number>` keyed by date, as the chart code uses
    it: the keys in insertion order beside a table from key to value. `get`
    is Get and `set` is Put: a new key goes to the end of the order, an
    existing key keeps its place and takes the new value. */
module DayMaps {
  import opened Wrappers
  import opened Dates

  datatype DayMap = DayMap(keys: seq<Day>, table: map<Day, int>)

  const Empty: DayMap := DayMap([], map[])

  /** Every key is listed once and the list and the table agree. */
  predicate Valid(m: DayMap) {
    && (forall i, j :: 0 <= i < j < |m.keys| ==> m.keys[i] != m.keys[j])
    && (forall d :: d in m.table ==> d in m.keys)
    && (forall i :: 0 <= i < |m.keys| ==> m.keys[i] in m.table)
  }

  /** `map.get(d)`: None is `undefined`. */
  function Get(m: DayMap, d: Day): (r: Option<int>)
    ensures r.Some? <==> d in m.table
  {
    if d in m.table then Some(m.table[d]) else None
  }

  /** `map.set(d, v)`. */
  function Put(m: DayMap, d: Day, v: int): (r: DayMap)
    ensures Valid(m) ==> Valid(r)
    ensures r.keys == if d in m.table then m.keys else m.keys + [d]
  {
    DayMap(if d in m.table then m.keys else m.keys + [d], m.table[d := v])
  }

  /** After `set`, `get` returns the new value for its key and the old value
      for every other key. */
  lemma PutGet(m: DayMap, d: Day, v: int, e: Day)
    ensures Get(Put(m, d, v), e) == if e == d then Some(v) else Get(m, e)
  {
  }

  /** The values in key order (`[...map.values()]`). */
  function Values(m: DayMap): (vs: seq<int>)
    ensures |vs| == |m.keys|
    ensures forall i :: 0 <= i < |vs| && m.keys[i] in m.table ==> vs[i] == m.table[m.keys[i]]
  {
    seq(|m.keys|, i requires 0 <= i < |m.keys| => if m.keys[i] in m.table then m.table[m.keys[i]] else 0)
  }

  function SumInts(s: seq<int>): int
  {
    if s == [] then 0 else SumInts(s[..|s| - 1]) + s[|s| - 1]
  }

  /** The sum of the values. */
  function Total(m: DayMap): int
  {
    SumInts(Values(m))
  }

  lemma {:induction false} SumIntsUpdate(s: seq<int>, i: nat, v: int)
    requires i < |s|
    ensures SumInts(s[i := v]) == SumInts(s) - s[i] + v
  {
    var n := |s|;
    if i < n - 1 {
      assert s[i := v][..n - 1] == s[..n - 1][i := v];
      SumIntsUpdate(s[..n - 1], i, v);
    } else {
      assert s[i := v][..n - 1] == s[..n - 1];
    }
  }

  /** Setting a key changes the sum by the difference of new and old value. */
  lemma TotalPut(m: DayMap, d: Day, v: int)
    requires Valid(m)
    ensures Total(Put(m, d, v)) == Total(m) - Get(m, d).GetOr(0) + v
  {
    if d in m.table {
      var i :| 0 <= i < |m.keys| && m.keys[i] == d;
      ValuesPutPresent(m, i, v);
      SumIntsUpdate(Values(m), i, v);
    } else {
      ValuesPutAbsent(m, d, v);
      assert (Values(m) + [v])[..|Values(m)|] == Values(m);
    }
  }

  lemma ValuesPutPresent(m: DayMap, i: nat, v: int)
    requires Valid(m) && i < |m.keys|
    ensures Values(Put(m, m.keys[i], v)) == Values(m)[i := v]
  {
    var r, s := Values(Put(m, m.keys[i], v)), Values(m)[i := v];
    forall j | 0 <= j < |r| ensures r[j] == s[j] {
      assert m.keys[j] in m.table;
    }
  }

  lemma ValuesPutAbsent(m: DayMap, d: Day, v: int)
    requires Valid(m) && d !in m.table
    ensures Values(Put(m, d, v)) == Values(m) + [v]
  {
    var r, s := Values(Put(m, d, v)), Values(m) + [v];
    forall j | 0 <= j < |r| ensures r[j] == s[j] {
      if j < |m.keys| {
        assert m.keys[j] in m.table;
      }
    }
  }
}
