/** Values produced by `json.loads` and the Python operations the orchestration applies to
    them: `dict.get`, truthiness and iteration, with the exceptions they can raise. */
module PyJson {
  import opened Wrappers
  import opened Seqs

  /** A decoded JSON value. An object keeps its key/value pairs in document order. */
  datatype Json =
    | Null
    | Bool(b: bool)
    | Num(n: real)
    | Str(s: string)
    | Arr(items: seq<Json>)
    | Obj(fields: seq<(string, Json)>)

  /** Why a step stopped: the Python exception it would raise (`AttributeError` from `.get`,
      `.items()`, `.title()` or `.upper()` on the wrong kind of value, `TypeError` from
      iterating a number, boolean or null), or an entity name that is truthy but not a
      string, which the model does not represent. */
  datatype Fault = AttributeError | TypeError | NonStringName

  /** `d.get(key)` on the dict `json.loads` builds from `fields`: a repeated key keeps its
      last value. */
  function Lookup(fields: seq<(string, Json)>, key: string): (r: Option<Json>)
    ensures r.None? <==> forall i :: 0 <= i < |fields| ==> fields[i].0 != key
    ensures r.Some? ==> exists i :: 0 <= i < |fields| && fields[i] == (key, r.value)
  {
    if |fields| == 0 then None
    else
      var n := |fields| - 1;
      if fields[n].0 == key then Some(fields[n].1) else Lookup(fields[..n], key)
  }

  /** When no later pair repeats the key of pair `i`, that pair supplies the key's value. */
  lemma {:induction false} LookupLastPair(fields: seq<(string, Json)>, i: nat)
    requires i < |fields|
    requires forall j :: i < j < |fields| ==> fields[j].0 != fields[i].0
    ensures Lookup(fields, fields[i].0) == Some(fields[i].1)
  {
    var n := |fields| - 1;
    if i < n {
      assert fields[..n][i] == fields[i];
      LookupLastPair(fields[..n], i);
    }
  }

  /** The dict `json.loads` builds from `fields`. */
  function DictOf(fields: seq<(string, Json)>): (m: map<string, Json>)
    ensures forall k :: k in m <==> Lookup(fields, k).Some?
    ensures forall k :: k in m ==> Lookup(fields, k) == Some(m[k])
  {
    if |fields| == 0 then map[]
    else
      var n := |fields| - 1;
      DictOf(fields[..n])[fields[n].0 := fields[n].1]
  }

  /** The keys of `fields` in document order, repeats included. */
  function KeyList(fields: seq<(string, Json)>): (r: seq<string>)
    ensures |r| == |fields|
    ensures forall i :: 0 <= i < |fields| ==> r[i] == fields[i].0
  {
    seq(|fields|, i requires 0 <= i < |fields| => fields[i].0)
  }

  /** `list(d)` for the dict built from `fields`: each key once, at the position of its first
      occurrence (a repeated key updates the value but keeps its place). */
  function Keys(fields: seq<(string, Json)>): (r: seq<string>)
    ensures Distinct(r)
    ensures forall k :: k in r <==> k in KeyList(fields)
    ensures forall k :: k in r <==> Lookup(fields, k).Some?
    ensures forall i, j :: 0 <= i < j < |r| ==> IndexOf(KeyList(fields), r[i]) < IndexOf(KeyList(fields), r[j])
  {
    var ks := KeyList(fields);
    assert forall k :: k in ks <==> exists i :: 0 <= i < |fields| && fields[i].0 == k by {
      forall k | k in ks ensures exists i :: 0 <= i < |fields| && fields[i].0 == k {
        var i :| 0 <= i < |ks| && ks[i] == k;
        assert fields[i].0 == k;
      }
    }
    Dedup(ks)
  }

  /** `d.items()`: each key once, in first-occurrence order, with its value in the dict. */
  function Items(fields: seq<(string, Json)>): (r: seq<(string, Json)>)
    ensures |r| == |Keys(fields)|
    ensures forall i :: 0 <= i < |r| ==> r[i].0 == Keys(fields)[i] && Lookup(fields, r[i].0) == Some(r[i].1)
  {
    var ks := Keys(fields);
    seq(|ks|, i requires 0 <= i < |ks| => (ks[i], GetOr(fields, ks[i], Null)))
  }

  /** A key has a pair among the items exactly when it has one among the fields. */
  lemma ItemsHaveKeys(fields: seq<(string, Json)>, k: string)
    ensures Lookup(Items(fields), k).Some? <==> Lookup(fields, k).Some?
  {
    var items := Items(fields);
    var ks := Keys(fields);
    if Lookup(fields, k).Some? {
      var i :| 0 <= i < |ks| && ks[i] == k;
      assert items[i].0 == k;
    }
  }

  /** Looking a key up among the items gives its value in the dict. */
  lemma ItemsLookup(fields: seq<(string, Json)>, k: string)
    ensures Lookup(Items(fields), k) == Lookup(fields, k)
  {
    var items := Items(fields);
    ItemsHaveKeys(fields, k);
    if Lookup(items, k).Some? {
      var i :| 0 <= i < |items| && items[i] == (k, Lookup(items, k).value);
    }
  }

  /** No key appears twice among the items. */
  lemma ItemsDistinct(fields: seq<(string, Json)>)
    ensures forall i, j :: 0 <= i < j < |Items(fields)| ==> Items(fields)[i].0 != Items(fields)[j].0
  {
    var items := Items(fields);
    var ks := Keys(fields);
    forall i, j | 0 <= i < j < |items| ensures items[i].0 != items[j].0 {
      assert items[i].0 == ks[i] && items[j].0 == ks[j];
    }
  }

  /** The items rebuild the same dict. */
  lemma ItemsDict(fields: seq<(string, Json)>)
    ensures DictOf(Items(fields)) == DictOf(fields)
  {
    var a := DictOf(Items(fields));
    var b := DictOf(fields);
    forall k ensures k in a <==> k in b {
      ItemsLookup(fields, k);
    }
    forall k | k in a ensures a[k] == b[k] {
      ItemsLookup(fields, k);
    }
  }

  /** `d.get(key, default)`. */
  function GetOr(fields: seq<(string, Json)>, key: string, default: Json): Json {
    match Lookup(fields, key)
    case Some(v) => v
    case None => default
  }

  /** Python's `bool(v)`. */
  predicate Truthy(v: Json) {
    match v
    case Null => false
    case Bool(b) => b
    case Num(n) => n != 0.0
    case Str(s) => s != ""
    case Arr(items) => |items| > 0
    case Obj(fields) => |fields| > 0
  }

  /** `for x in v`: a list yields its items, a dict its distinct keys, a string its characters;
      anything else raises TypeError. */
  function Iterate(v: Json): (r: Result<seq<Json>, Fault>)
    ensures v.Arr? ==> r == Ok(v.items)
    ensures v.Obj? ==>
              && r.Ok? && |r.value| == |Keys(v.fields)|
              && forall i :: 0 <= i < |Keys(v.fields)| ==> r.value[i] == Str(Keys(v.fields)[i])
    ensures v.Str? ==> r.Ok? && |r.value| == |v.s| && forall i :: 0 <= i < |v.s| ==> r.value[i] == Str([v.s[i]])
    ensures (v.Null? || v.Bool? || v.Num?) <==> r == Err(TypeError)
  {
    match v
    case Arr(items) => Ok(items)
    case Obj(fields) =>
      var ks := Keys(fields);
      Ok(seq(|ks|, i requires 0 <= i < |ks| => Str(ks[i])))
    case Str(s) => Ok(seq(|s|, i requires 0 <= i < |s| => Str([s[i]])))
    case _ => Err(TypeError)
  }
}
