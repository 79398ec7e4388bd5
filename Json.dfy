/** The Python values the tool builds as request bodies and reads back from
    the compute API: strings, integers, lists, tuples, dictionaries, `None`,
    and the type objects (such as `list`) that appear inside `schema` specs.
    A dictionary keeps Python's insertion order, so it is a sequence of
    key/value entries. */
module Json {
  import opened Wrappers

  datatype Value =
    | Null
    | Bool(b: bool)
    | Int(i: int)
    | Str(s: string)
    | List(items: seq<Value>)
    | Tuple(items: seq<Value>)
    | Dict(entries: seq<(string, Value)>)
    | TypeRef(name: string)

  type Entries = seq<(string, Value)>

  /** A Python dict never holds the same key twice. */
  predicate DistinctKeys(d: Entries)
  {
    forall i, j :: 0 <= i < j < |d| ==> d[i].0 != d[j].0
  }

  function Keys(d: Entries): (ks: seq<string>)
    ensures |ks| == |d|
    ensures forall i :: 0 <= i < |d| ==> ks[i] == d[i].0
  {
    seq(|d|, i requires 0 <= i < |d| => d[i].0)
  }

  /** `d.get(k)`: the value stored under `k`, or None when the key is absent. */
  function Get(d: Entries, k: string): (r: Option<Value>)
    ensures r.None? <==> forall i :: 0 <= i < |d| ==> d[i].0 != k
    ensures r.Some? ==> exists i :: 0 <= i < |d| && d[i] == (k, r.value)
  {
    if d == [] then None
    else if d[0].0 == k then Some(d[0].1)
    else
      var r := Get(d[1..], k);
      assert r.Some? ==> exists i :: 0 <= i < |d[1..]| && d[1..][i] == (k, r.value);
      assert r.Some? ==> exists i :: 1 <= i < |d| && d[i] == (k, r.value);
      r
  }

  /** In a dict with distinct keys, every entry is what `get` finds under its key. */
  lemma {:induction false} GetEntry(d: Entries, i: nat)
    requires DistinctKeys(d)
    requires i < |d|
    ensures Get(d, d[i].0) == Some(d[i].1)
  {
    if i > 0 {
      assert DistinctKeys(d[1..]) by {
        forall a, b | 0 <= a < b < |d[1..]| ensures d[1..][a].0 != d[1..][b].0 {
          assert d[1..][a] == d[a + 1] && d[1..][b] == d[b + 1];
        }
      }
      GetEntry(d[1..], i - 1);
      assert d[1..][i - 1] == d[i];
    }
  }

  /** A key `get` finds is among the keys. */
  lemma GetInKeys(d: Entries, k: string)
    requires Get(d, k).Some?
    ensures k in Keys(d)
  {
    var i :| 0 <= i < |d| && d[i] == (k, Get(d, k).value);
    assert Keys(d)[i] == k;
  }

  /** `d[k] = v`: replaces the value in place when the key is present,
      otherwise appends a new entry at the end (dict insertion order). */
  function Put(d: Entries, k: string, v: Value): (r: Entries)
    ensures Keys(r) == if k in Keys(d) then Keys(d) else Keys(d) + [k]
    ensures forall i :: 0 <= i < |d| ==> r[i] == (if d[i].0 == k then (k, v) else d[i])
    ensures k !in Keys(d) ==> r == d + [(k, v)]
  {
    if k in Keys(d) then
      seq(|d|, i requires 0 <= i < |d| => if d[i].0 == k then (k, v) else d[i])
    else
      d + [(k, v)]
  }

  lemma PutKeepsDistinct(d: Entries, k: string, v: Value)
    requires DistinctKeys(d)
    ensures DistinctKeys(Put(d, k, v))
  {
    var r := Put(d, k, v);
    forall i, j | 0 <= i < j < |r| ensures r[i].0 != r[j].0 {
      assert Keys(r)[i] == r[i].0 && Keys(r)[j] == r[j].0;
      if k !in Keys(d) && j == |d| {
        assert Keys(d)[i] == d[i].0;
      }
    }
  }

  /** After `d[k] = v`, `d.get(k)` is `v` and every other key reads as before. */
  lemma {:induction false} GetPut(d: Entries, k: string, v: Value, k': string)
    requires DistinctKeys(d)
    ensures Get(Put(d, k, v), k') == if k' == k then Some(v) else Get(d, k')
  {
    var r := Put(d, k, v);
    PutKeepsDistinct(d, k, v);
    if k' == k {
      var i :| 0 <= i < |r| && r[i].0 == k by {
        if k in Keys(d) {
          var i :| 0 <= i < |d| && Keys(d)[i] == k;
          assert r[i].0 == k;
        } else {
          assert r[|d|] == (k, v);
        }
      }
      GetEntry(r, i);
      if i < |d| {
        assert r[i] == (k, v);
      } else {
        assert r == d + [(k, v)];
      }
    } else {
      match Get(d, k') {
        case None =>
          forall i | 0 <= i < |r| ensures r[i].0 != k' {
            if i < |d| { assert Keys(r)[i] == Keys(d)[i]; }
            else { assert r[i] == (k, v); }
          }
        case Some(w) =>
          var i :| 0 <= i < |d| && d[i] == (k', w);
          GetEntry(r, i);
          assert r[i] == d[i];
      }
    }
  }

  /** Python truthiness: `None`, `False`, `0`, the empty string and empty
      containers are false; everything else is true. */
  predicate Truthy(v: Value)
  {
    match v
    case Null => false
    case Bool(b) => b
    case Int(i) => i != 0
    case Str(s) => s != ""
    case List(items) => items != []
    case Tuple(items) => items != []
    case Dict(entries) => entries != []
    case TypeRef(_) => true
  }

  /** `tuple(v)` for a list or tuple. */
  function ToTuple(v: Value): (r: Value)
    requires v.List? || v.Tuple?
    ensures r.Tuple? && r.items == v.items
  {
    Tuple(v.items)
  }
}
