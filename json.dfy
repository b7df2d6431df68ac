/** JSON values as the Vert.x `JsonObject` / `JsonArray` classes hold them.

    An object is an ordered list of fields: Vert.x keeps its fields in a
    `LinkedHashMap`, so `fieldNames()` yields the keys in insertion order,
    and `put` on an existing key replaces the value in its old position
    while `put` on a new key appends it. Java `null` is `None` where a
    lookup can miss, and `JNull` where null is a stored value.
 */
module Json {

  datatype Option<+T> = None | Some(value: T)

  datatype Json =
    | JNull
    | JBool(b: bool)
    | JInt(n: int)
    | JString(s: string)
    | JArray(elems: seq<Json>)
    | JObject(fields: seq<(string, Json)>)

  type Fields = seq<(string, Json)>

  /** No key occurs twice, as in any Java map. */
  predicate DistinctKeys(fs: Fields)
  {
    forall i, j :: 0 <= i < j < |fs| ==> fs[i].0 != fs[j].0
  }

  /** Every object anywhere inside `v` has distinct keys. */
  predicate WellFormed(v: Json)
  {
    match v
    case JArray(a) => forall i :: 0 <= i < |a| ==> WellFormed(a[i])
    case JObject(fs) => DistinctKeys(fs) && forall i :: 0 <= i < |fs| ==> WellFormed(fs[i].1)
    case _ => true
  }

  /** `containsKey`: true also when the stored value is JSON null. */
  predicate HasKey(fs: Fields, key: string)
  {
    exists i :: 0 <= i < |fs| && fs[i].0 == key
  }

  /** The key set, as `getMap().keySet()` gives it. */
  function KeySet(fs: Fields): (ks: set<string>)
    ensures forall k :: k in ks <==> HasKey(fs, k)
  {
    set i | 0 <= i < |fs| :: fs[i].0
  }

  /** `fieldNames()`, in insertion order. */
  function FieldNames(fs: Fields): (ks: seq<string>)
    ensures |ks| == |fs|
    ensures forall i :: 0 <= i < |fs| ==> ks[i] == fs[i].0
  {
    if fs == [] then [] else [fs[0].0] + FieldNames(fs[1..])
  }

  /** `containsKey` agrees with `fieldNames()`: the keys are exactly the listed names. */
  lemma HasKeyFieldNames(fs: Fields, key: string)
    ensures HasKey(fs, key) <==> key in FieldNames(fs)
  {
    var ks := FieldNames(fs);
    if key in ks {
      var i :| 0 <= i < |ks| && ks[i] == key;
      assert fs[i].0 == key;
    }
  }

  /** `getValue(key)`, with a missing key as `None`: it misses exactly when
      the key is absent. */
  function Lookup(fs: Fields, key: string): (r: Option<Json>)
    ensures r.None? <==> !HasKey(fs, key)
  {
    if fs == [] then None
    else if fs[0].0 == key then Some(fs[0].1)
    else
      assert HasKey(fs, key) <==> HasKey(fs[1..], key) by {
        if HasKey(fs, key) {
          var i :| 0 <= i < |fs| && fs[i].0 == key;
          assert i > 0 && fs[1..][i - 1] == fs[i];
        }
        if HasKey(fs[1..], key) {
          var i :| 0 <= i < |fs| - 1 && fs[1..][i].0 == key;
          assert fs[i + 1] == fs[1..][i];
        }
      }
      Lookup(fs[1..], key)
  }

  /** A hit is a stored field. */
  lemma {:induction false} LookupFound(fs: Fields, key: string)
    ensures Lookup(fs, key).Some? ==> exists i :: 0 <= i < |fs| && fs[i] == (key, Lookup(fs, key).value)
  {
    if fs != [] && fs[0].0 != key {
      LookupFound(fs[1..], key);
      if Lookup(fs, key).Some? {
        var i :| 0 <= i < |fs| - 1 && fs[1..][i] == (key, Lookup(fs, key).value);
        assert fs[i + 1] == fs[1..][i];
      }
    } else if fs != [] {
      assert fs[0] == (key, Lookup(fs, key).value);
    }
  }

  /** With distinct keys, the value found for the key at position `i` is the one stored there. */
  lemma {:induction false} LookupAt(fs: Fields, i: int)
    requires DistinctKeys(fs)
    requires 0 <= i < |fs|
    ensures Lookup(fs, fs[i].0) == Some(fs[i].1)
  {
    if i > 0 {
      assert fs[0].0 != fs[i].0;
      assert DistinctKeys(fs[1..]) by {
        forall a, b | 0 <= a < b < |fs| - 1 ensures fs[1..][a].0 != fs[1..][b].0 {
          assert fs[1..][a] == fs[a + 1] && fs[1..][b] == fs[b + 1];
        }
      }
      assert fs[1..][i - 1] == fs[i];
      LookupAt(fs[1..], i - 1);
    }
  }

  /** `put(key, v)` on a `LinkedHashMap`: an existing key keeps its position. */
  function PutValue(fs: Fields, key: string, v: Json): (r: Fields)
    ensures HasKey(fs, key) ==> |r| == |fs|
    ensures !HasKey(fs, key) ==> r == fs + [(key, v)]
  {
    if fs == [] then [(key, v)]
    else if fs[0].0 == key then [(key, v)] + fs[1..]
    else
      var r := [fs[0]] + PutValue(fs[1..], key, v);
      assert HasKey(fs, key) ==> HasKey(fs[1..], key) by {
        if HasKey(fs, key) {
          var i :| 0 <= i < |fs| && fs[i].0 == key;
          assert i > 0 && fs[1..][i - 1] == fs[i];
        }
      }
      assert !HasKey(fs, key) ==> !HasKey(fs[1..], key) by {
        if HasKey(fs[1..], key) {
          var i :| 0 <= i < |fs| - 1 && fs[1..][i].0 == key;
          assert fs[i + 1] == fs[1..][i];
        }
      }
      r
  }

  /** Position by position, `put` on a map with distinct keys replaces exactly the
      field of that key, or appends a new last field when the key is new. */
  lemma {:induction false} PutValueAt(fs: Fields, key: string, v: Json)
    requires DistinctKeys(fs)
    ensures |PutValue(fs, key, v)| == |fs| + (if HasKey(fs, key) then 0 else 1)
    ensures forall i :: 0 <= i < |fs| ==>
      PutValue(fs, key, v)[i] == (if fs[i].0 == key then (key, v) else fs[i])
    ensures !HasKey(fs, key) ==> PutValue(fs, key, v)[|fs|] == (key, v)
  {
    if fs != [] && fs[0].0 != key {
      assert DistinctKeys(fs[1..]) by {
        forall a, b | 0 <= a < b < |fs| - 1 ensures fs[1..][a].0 != fs[1..][b].0 {
          assert fs[1..][a] == fs[a + 1] && fs[1..][b] == fs[b + 1];
        }
      }
      PutValueAt(fs[1..], key, v);
      assert HasKey(fs, key) <==> HasKey(fs[1..], key) by {
        if HasKey(fs, key) {
          var i :| 0 <= i < |fs| && fs[i].0 == key;
          assert i > 0 && fs[1..][i - 1] == fs[i];
        }
        if HasKey(fs[1..], key) {
          var i :| 0 <= i < |fs| - 1 && fs[1..][i].0 == key;
          assert fs[i + 1] == fs[1..][i];
        }
      }
      forall i | 0 <= i < |fs|
        ensures PutValue(fs, key, v)[i] == (if fs[i].0 == key then (key, v) else fs[i])
      {
        if i > 0 {
          assert PutValue(fs, key, v)[i] == PutValue(fs[1..], key, v)[i - 1];
          assert fs[1..][i - 1] == fs[i];
        }
      }
    } else if fs != [] {
      forall i | 0 < i < |fs| ensures fs[i].0 != key {
        assert fs[0].0 != fs[i].0;
      }
    }
  }

  /** `put` keeps the keys distinct. */
  lemma {:induction false} PutValueDistinct(fs: Fields, key: string, v: Json)
    requires DistinctKeys(fs)
    ensures DistinctKeys(PutValue(fs, key, v))
  {
    var r := PutValue(fs, key, v);
    PutValueAt(fs, key, v);
    forall a, b | 0 <= a < b < |r| ensures r[a].0 != r[b].0 {
      if b == |fs| {
        assert !HasKey(fs, key);
      }
    }
  }

  /** After `put(key, v)` the key maps to `v` and every other key keeps its value. */
  lemma {:induction false} PutValueLookup(fs: Fields, key: string, v: Json)
    requires DistinctKeys(fs)
    ensures Lookup(PutValue(fs, key, v), key) == Some(v)
    ensures forall k :: k != key ==> Lookup(PutValue(fs, key, v), k) == Lookup(fs, k)
  {
    var r := PutValue(fs, key, v);
    PutValueAt(fs, key, v);
    PutValueDistinct(fs, key, v);
    if HasKey(fs, key) {
      var i :| 0 <= i < |fs| && fs[i].0 == key;
      LookupAt(r, i);
    } else {
      LookupAt(r, |fs|);
    }
    forall k | k != key ensures Lookup(r, k) == Lookup(fs, k) {
      PutValueLookupOther(fs, key, v, k);
    }
  }

  lemma {:induction false} PutValueLookupOther(fs: Fields, key: string, v: Json, k: string)
    requires DistinctKeys(fs)
    requires k != key
    ensures Lookup(PutValue(fs, key, v), k) == Lookup(fs, k)
  {
    var r := PutValue(fs, key, v);
    PutValueAt(fs, key, v);
    PutValueDistinct(fs, key, v);
    LookupFound(fs, k);
    LookupFound(r, k);
    if HasKey(fs, k) {
      var j :| 0 <= j < |fs| && fs[j].0 == k;
      LookupAt(fs, j);
      LookupAt(r, j);
    }
  }

  /** `put(key, v)` adds exactly `key` to the key set. */
  lemma {:induction false} PutValueKeys(fs: Fields, key: string, v: Json)
    requires DistinctKeys(fs)
    ensures KeySet(PutValue(fs, key, v)) == KeySet(fs) + {key}
  {
    var r := PutValue(fs, key, v);
    PutValueAt(fs, key, v);
    forall k ensures k in KeySet(r) <==> k in KeySet(fs) + {key} {
      if HasKey(r, k) {
        var j :| 0 <= j < |r| && r[j].0 == k;
        assert j < |fs| && k != key ==> fs[j].0 == k;
      }
      if HasKey(fs, k) {
        var j :| 0 <= j < |fs| && fs[j].0 == k;
        assert r[j].0 == k;
      }
      if k == key && !HasKey(fs, k) {
        assert r[|fs|].0 == k;
      }
    }
  }

  /** Storing a well-formed value in a well-formed object keeps it well formed. */
  lemma {:induction false} PutValueWellFormed(fs: Fields, key: string, v: Json)
    requires WellFormed(JObject(fs))
    requires WellFormed(v)
    ensures WellFormed(JObject(PutValue(fs, key, v)))
  {
    PutValueAt(fs, key, v);
    PutValueDistinct(fs, key, v);
  }

  /** The mutable Vert.x `JsonObject` that the configuration code updates in place. */
  class JsonObject {
    var fields: Fields

    ghost predicate Valid()
      reads this
    {
      WellFormed(JObject(fields))
    }

    constructor (fs: Fields)
      requires WellFormed(JObject(fs))
      ensures Valid() && fields == fs
    {
      fields := fs;
    }

    /** `put(key, v)`. */
    method Put(key: string, v: Json)
      requires Valid()
      requires WellFormed(v)
      modifies this
      ensures Valid()
      ensures fields == PutValue(old(fields), key, v)
    {
      PutValueWellFormed(fields, key, v);
      fields := PutValue(fields, key, v);
    }
  }
}
