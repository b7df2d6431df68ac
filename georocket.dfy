/** The configuration pass GeoRocket runs on its configuration file before
    deploying anything: defaults for the home and storage keys, then
    substitution of `$GEOROCKET_HOME` in every string value of the tree
    (keys are left alone).

    The home directory is a parameter instead of the static field the
    server fills from the environment, and the two configuration keys are
    parameters because their constants live outside this model. */
module GeoRocket {
  import opened Json

  const Variable: string := "$GEOROCKET_HOME"
  const StorageSuffix: string := "/storage"
  const DefaultStoragePath: string := Variable + StorageSuffix

  // ---------------------------------------------------------------------
  // String.replace
  // ---------------------------------------------------------------------

  /** `pat` occurs in `s` at position `i`. */
  predicate OccursAt(s: string, pat: string, i: int)
  {
    0 <= i && i + |pat| <= |s| && s[i..i + |pat|] == pat
  }

  /** `pat` does not occur in `s` at or after position `from`. */
  predicate NoMatchFrom(s: string, pat: string, from: int)
  {
    forall j :: from <= j <= |s| ==> !OccursAt(s, pat, j)
  }

  /** `indexOf(pat, from)`: the leftmost match at or after `from`, or -1. */
  function IndexOf(s: string, pat: string, from: nat): (r: int)
    requires |pat| > 0
    ensures r == -1 || (from <= r && OccursAt(s, pat, r))
    decreases |s| - from
  {
    if from + |pat| > |s| then -1
    else if s[from..from + |pat|] == pat then from
    else IndexOf(s, pat, from + 1)
  }

  /** `indexOf` misses only when there is no match at or after `from`, and
      otherwise no match lies between `from` and the position it returns. */
  lemma {:induction false} IndexOfLeftmost(s: string, pat: string, from: nat)
    requires |pat| > 0
    ensures IndexOf(s, pat, from) == -1 <==> NoMatchFrom(s, pat, from)
    ensures forall j :: from <= j < IndexOf(s, pat, from) ==> !OccursAt(s, pat, j)
    decreases |s| - from
  {
    if from + |pat| <= |s| && s[from..from + |pat|] != pat {
      IndexOfLeftmost(s, pat, from + 1);
      assert !OccursAt(s, pat, from);
    }
  }

  /** The text from position `from` on, with every match replaced: copy up
      to the next match, emit `rep`, continue right after the match.
      Without a match from `from` on, the rest of the text is copied unchanged. */
  function ReplaceFrom(s: string, pat: string, rep: string, from: nat): (r: string)
    requires |pat| > 0
    requires from <= |s|
    ensures NoMatchFrom(s, pat, from) ==> r == s[from..]
    decreases |s| - from
  {
    var j := IndexOf(s, pat, from);
    if j < 0 then s[from..]
    else s[from..j] + rep + ReplaceFrom(s, pat, rep, j + |pat|)
  }

  /** Java's `String.replace(CharSequence, CharSequence)` for a non-empty
      target: a string without the target is returned unchanged. */
  function ReplaceAll(s: string, pat: string, rep: string): (r: string)
    requires |pat| > 0
    ensures NoMatchFrom(s, pat, 0) ==> r == s
  {
    assert s[0..] == s;
    ReplaceFrom(s, pat, rep, 0)
  }

  /** When the leftmost match from `from` on is at `i`, the text before it is
      kept, the match becomes `rep`, and replacement resumes right after the
      match (so matches never overlap). */
  lemma ReplaceFromFirstOccurrence(s: string, pat: string, rep: string, from: nat, i: int)
    requires |pat| > 0 && from <= |s|
    requires OccursAt(s, pat, i) && from <= i
    requires forall j :: from <= j < i ==> !OccursAt(s, pat, j)
    ensures ReplaceFrom(s, pat, rep, from) == s[from..i] + rep + ReplaceFrom(s, pat, rep, i + |pat|)
  {
    IndexOfFirst(s, pat, from, i);
    ReplaceFromAt(s, pat, rep, from, i);
  }

  lemma IndexOfFirst(s: string, pat: string, from: nat, i: int)
    requires |pat| > 0
    requires OccursAt(s, pat, i) && from <= i
    requires forall j :: from <= j < i ==> !OccursAt(s, pat, j)
    ensures IndexOf(s, pat, from) == i
  {
    IndexOfLeftmost(s, pat, from);
  }

  lemma ReplaceFromAt(s: string, pat: string, rep: string, from: nat, i: int)
    requires |pat| > 0 && from <= |s|
    requires IndexOf(s, pat, from) == i >= 0
    ensures ReplaceFrom(s, pat, rep, from) == s[from..i] + rep + ReplaceFrom(s, pat, rep, i + |pat|)
  {
  }

  /** `replaceConfVariables(String)`: a string that does not mention the
      variable is kept as it is. */
  function ReplaceConfVariablesInString(s: string, home: string): (r: string)
    ensures NoMatchFrom(s, Variable, 0) ==> r == s
  {
    ReplaceAll(s, Variable, home)
  }

  /** The two default values become the home path and the home path followed by `/storage`. */
  lemma DefaultsSubstituted(home: string)
    ensures ReplaceConfVariablesInString(Variable, home) == home
    ensures ReplaceConfVariablesInString(DefaultStoragePath, home) == home + StorageSuffix
  {
    var n := |Variable|;
    assert OccursAt(Variable, Variable, 0);
    ReplaceFromFirstOccurrence(Variable, Variable, home, 0, 0);
    assert NoMatchFrom(Variable, Variable, n);
    assert Variable[0..0] == [] && Variable[n..] == [];
    assert OccursAt(DefaultStoragePath, Variable, 0);
    ReplaceFromFirstOccurrence(DefaultStoragePath, Variable, home, 0, 0);
    assert NoMatchFrom(DefaultStoragePath, Variable, n);
    assert DefaultStoragePath[0..0] == [] && DefaultStoragePath[n..] == StorageSuffix;
  }

  // ---------------------------------------------------------------------
  // Substitution in a configuration tree
  // ---------------------------------------------------------------------

  /** What the rewrite does to one value found in an array or an object:
      strings are substituted, arrays and objects rewritten element by
      element, everything else (numbers, booleans, null) kept. The kind of
      the value, the length of an array and the keys of an object, in
      order, stay as they were. */
  function SubstValue(v: Json, home: string): (r: Json)
    ensures r.JString? == v.JString? && r.JArray? == v.JArray? && r.JObject? == v.JObject?
    ensures !v.JString? && !v.JArray? && !v.JObject? ==> r == v
    ensures v.JArray? ==> |r.elems| == |v.elems|
    ensures v.JObject? ==> |r.fields| == |v.fields|
    ensures v.JObject? ==> forall i :: 0 <= i < |v.fields| ==> r.fields[i].0 == v.fields[i].0
  {
    match v
    case JString(s) => JString(ReplaceConfVariablesInString(s, home))
    case JArray(a) => JArray(seq(|a|, i requires 0 <= i < |a| => SubstValue(a[i], home)))
    case JObject(fs) => JObject(seq(|fs|, i requires 0 <= i < |fs| => (fs[i].0, SubstValue(fs[i].1, home))))
    case _ => v
  }

  /** The rewritten elements of an array. */
  function SubstArray(a: seq<Json>, home: string): (r: seq<Json>)
    ensures |r| == |a|
    ensures forall i :: 0 <= i < |a| ==> r[i] == SubstValue(a[i], home)
  {
    SubstValue(JArray(a), home).elems
  }

  /** The rewritten fields of an object: same keys in the same order. */
  function SubstFields(fs: Fields, home: string): (r: Fields)
    ensures |r| == |fs|
    ensures forall i :: 0 <= i < |fs| ==> r[i] == (fs[i].0, SubstValue(fs[i].1, home))
  {
    SubstValue(JObject(fs), home).fields
  }

  /** The rewrite of a single value, case by case, in the shape in which
      `ReplaceConfVariablesInValue` dispatches on its type. */
  lemma SubstValueCases(v: Json, home: string)
    ensures v.JObject? ==> SubstValue(v, home) == JObject(SubstFields(v.fields, home))
    ensures v.JArray? ==> SubstValue(v, home) == JArray(SubstArray(v.elems, home))
    ensures v.JString? ==> SubstValue(v, home) == JString(ReplaceConfVariablesInString(v.s, home))
    ensures !v.JObject? && !v.JArray? && !v.JString? ==> SubstValue(v, home) == v
  {
  }

  /** Two trees have the same shape: same constructors, same array lengths,
      same keys in the same order; only the text of strings may differ. */
  predicate SameShape(u: Json, v: Json)
  {
    match u
    case JString(_) => v.JString?
    case JArray(a) =>
      v.JArray? && |v.elems| == |a| && forall i :: 0 <= i < |a| ==> SameShape(a[i], v.elems[i])
    case JObject(fs) =>
      v.JObject? && |v.fields| == |fs|
      && forall i :: 0 <= i < |fs| ==> fs[i].0 == v.fields[i].0 && SameShape(fs[i].1, v.fields[i].1)
    case _ => u == v
  }

  /** The rewrite keeps the shape of the tree: it never adds, drops,
      reorders or renames anything, and leaves non-string leaves alone. */
  lemma {:induction false} SubstValueSameShape(v: Json, home: string)
    ensures SameShape(v, SubstValue(v, home))
  {
    match v
    case JArray(a) =>
      forall i | 0 <= i < |a| ensures SameShape(a[i], SubstValue(v, home).elems[i]) {
        SubstValueSameShape(a[i], home);
      }
    case JObject(fs) =>
      forall i | 0 <= i < |fs| ensures SameShape(fs[i].1, SubstValue(v, home).fields[i].1) {
        SubstValueSameShape(fs[i].1, home);
      }
    case _ =>
  }

  /** The rewrite keeps every object's keys distinct. */
  lemma {:induction false} SubstValueWellFormed(v: Json, home: string)
    requires WellFormed(v)
    ensures WellFormed(SubstValue(v, home))
  {
    match v
    case JArray(a) =>
      forall i | 0 <= i < |a| ensures WellFormed(SubstValue(v, home).elems[i]) {
        SubstValueWellFormed(a[i], home);
      }
    case JObject(fs) =>
      var r := SubstValue(v, home).fields;
      assert forall i :: 0 <= i < |fs| ==> r[i].0 == fs[i].0;
      forall i | 0 <= i < |fs| ensures WellFormed(r[i].1) {
        SubstValueWellFormed(fs[i].1, home);
      }
    case _ =>
  }

  /** The object overload only overwrites existing keys: the rewritten
      object has the same keys, in the same order. */
  lemma SubstFieldsKeys(fs: Fields, home: string)
    ensures FieldNames(SubstFields(fs, home)) == FieldNames(fs)
    ensures KeySet(SubstFields(fs, home)) == KeySet(fs)
  {
    var r := SubstFields(fs, home);
    assert forall i :: 0 <= i < |fs| ==> r[i].0 == fs[i].0;
    forall k ensures HasKey(r, k) <==> HasKey(fs, k) {
      if HasKey(r, k) {
        var i :| 0 <= i < |r| && r[i].0 == k;
        assert fs[i].0 == k;
      }
      if HasKey(fs, k) {
        var i :| 0 <= i < |fs| && fs[i].0 == k;
        assert r[i].0 == k;
      }
    }
  }

  /** No string anywhere in `v` contains the variable. */
  predicate NoVariable(v: Json)
  {
    match v
    case JString(s) => NoMatchFrom(s, Variable, 0)
    case JArray(a) => forall i :: 0 <= i < |a| ==> NoVariable(a[i])
    case JObject(fs) => forall i :: 0 <= i < |fs| ==> NoVariable(fs[i].1)
    case _ => true
  }

  /** A configuration that never mentions the variable comes out unchanged. */
  lemma {:induction false} SubstValueNoVariable(v: Json, home: string)
    requires NoVariable(v)
    ensures SubstValue(v, home) == v
  {
    match v
    case JString(s) =>
    case JArray(a) =>
      forall i | 0 <= i < |a| ensures SubstValue(v, home).elems[i] == a[i] {
        SubstValueNoVariable(a[i], home);
      }
      assert SubstValue(v, home).elems == a;
    case JObject(fs) =>
      forall i | 0 <= i < |fs| ensures SubstValue(v, home).fields[i] == fs[i] {
        SubstValueNoVariable(fs[i].1, home);
      }
      assert SubstValue(v, home).fields == fs;
    case _ =>
  }

  /** A lookup in a rewritten object finds the rewritten value of the key. */
  lemma LookupSubstFields(fs: Fields, home: string, key: string)
    requires DistinctKeys(fs)
    ensures Lookup(SubstFields(fs, home), key)
      == (match Lookup(fs, key) case None => None case Some(v) => Some(SubstValue(v, home)))
  {
    var r := SubstFields(fs, home);
    assert DistinctKeys(r) by {
      assert forall i :: 0 <= i < |fs| ==> r[i].0 == fs[i].0;
    }
    LookupFound(fs, key);
    LookupFound(r, key);
    if HasKey(fs, key) {
      var i :| 0 <= i < |fs| && fs[i].0 == key;
      LookupAt(fs, i);
      LookupAt(r, i);
    }
  }

  /** Well-formed elements, as a `JsonArray` holds them. */
  predicate AllWellFormed(a: seq<Json>)
  {
    forall i :: 0 <= i < |a| ==> WellFormed(a[i])
  }

  /** The dispatch both collection overloads perform on one element:
      objects are rewritten in place, arrays and strings replaced by their
      rewritten copies, anything else kept. */
  method ReplaceConfVariablesInValue(o: Json, home: string) returns (r: Json)
    requires WellFormed(o)
    ensures r == SubstValue(o, home)
    decreases o, 2
  {
    SubstValueCases(o, home);
    r := o;
    if o.JObject? {
      var nested := new JsonObject(o.fields);
      ReplaceConfVariablesInObject(nested, home);
      r := JObject(nested.fields);
    } else if o.JArray? {
      var replaced := ReplaceConfVariablesInArray(o.elems, home);
      r := JArray(replaced);
    } else if o.JString? {
      r := JString(ReplaceConfVariablesInString(o.s, home));
    }
  }

  /** `replaceConfVariables(JsonArray)`: builds a new array, element by element. */
  method ReplaceConfVariablesInArray(arr: seq<Json>, home: string) returns (result: seq<Json>)
    requires AllWellFormed(arr)
    ensures result == SubstArray(arr, home)
    decreases JArray(arr), 1
  {
    result := [];
    for i := 0 to |arr|
      invariant |result| == i
      invariant forall k :: 0 <= k < i ==> result[k] == SubstValue(arr[k], home)
    {
      var o := ReplaceConfVariablesInValue(arr[i], home);
      result := result + [o];
    }
  }

  /** Part way through the object loop: keys still `pending` hold their
      original values, every other key its rewritten value, in place. */
  function PartlyRewritten(orig: Fields, pending: set<string>, home: string): Fields
  {
    seq(|orig|, i requires 0 <= i < |orig| =>
      (orig[i].0, if orig[i].0 in pending then orig[i].1 else SubstValue(orig[i].1, home)))
  }

  /** A pending key still holds its original field. */
  lemma RewritePending(orig: Fields, pending: set<string>, home: string, idx: int)
    requires 0 <= idx < |orig| && orig[idx].0 in pending
    ensures |PartlyRewritten(orig, pending, home)| == |orig|
    ensures PartlyRewritten(orig, pending, home)[idx] == orig[idx]
  {
  }

  /** Putting the rewritten value of a pending key settles that key. */
  lemma RewriteStep(orig: Fields, pending: set<string>, home: string, idx: int, v: Json)
    requires DistinctKeys(orig)
    requires 0 <= idx < |orig| && orig[idx].0 in pending
    requires v == SubstValue(orig[idx].1, home)
    ensures PutValue(PartlyRewritten(orig, pending, home), orig[idx].0, v)
      == PartlyRewritten(orig, pending - {orig[idx].0}, home)
  {
    var cur := PartlyRewritten(orig, pending, home);
    assert DistinctKeys(cur);
    PutValueAt(cur, orig[idx].0, SubstValue(orig[idx].1, home));
    assert HasKey(cur, orig[idx].0) by {
      assert cur[idx].0 == orig[idx].0;
    }
  }

  /** A pending key whose value the rewrite leaves alone is settled without a `put`. */
  lemma RewriteSkip(orig: Fields, pending: set<string>, home: string, idx: int)
    requires DistinctKeys(orig)
    requires 0 <= idx < |orig| && orig[idx].0 in pending
    requires SubstValue(orig[idx].1, home) == orig[idx].1
    ensures PartlyRewritten(orig, pending, home) == PartlyRewritten(orig, pending - {orig[idx].0}, home)
  {
  }

  /** Before the loop nothing is rewritten; after it, everything is. */
  lemma RewriteEnds(orig: Fields, home: string)
    ensures PartlyRewritten(orig, KeySet(orig), home) == orig
    ensures PartlyRewritten(orig, {}, home) == SubstFields(orig, home)
  {
  }

  /** `replaceConfVariables(JsonObject)`: rewrites the object in place, one
      key of a copied key set at a time, in whatever order the set yields. */
  method ReplaceConfVariablesInObject(obj: JsonObject, home: string)
    requires obj.Valid()
    modifies obj
    ensures obj.Valid()
    ensures obj.fields == SubstFields(old(obj.fields), home)
    decreases JObject(obj.fields), 1
  {
    ghost var orig := obj.fields;
    var keys := KeySet(obj.fields);
    RewriteEnds(orig, home);
    while keys != {}
      invariant obj.Valid()
      invariant keys <= KeySet(orig)
      invariant obj.fields == PartlyRewritten(orig, keys, home)
      decreases keys
    {
      var key :| key in keys;
      ghost var idx :| 0 <= idx < |orig| && orig[idx].0 == key;
      RewritePending(orig, keys, home, idx);
      LookupAt(obj.fields, idx);
      var value := Lookup(obj.fields, key);
      assert value == Some(orig[idx].1) && orig[idx] in orig;
      assert WellFormed(value.value);
      if value.Some? && (value.value.JObject? || value.value.JArray? || value.value.JString?) {
        var newValue := ReplaceConfVariablesInValue(value.value, home);
        SubstValueWellFormed(value.value, home);
        obj.Put(key, newValue);
        RewriteStep(orig, keys, home, idx, newValue);
      } else {
        RewriteSkip(orig, keys, home, idx);
      }
      keys := keys - {key};
    }
  }

  // ---------------------------------------------------------------------
  // Defaults
  // ---------------------------------------------------------------------

  /** The configuration after `setDefaultConf`: the defaults add exactly the
      two keys and keep the keys distinct. */
  function DefaultedConf(fs: Fields, homeKey: string, storageKey: string): (r: Fields)
    ensures DistinctKeys(fs) ==> DistinctKeys(r)
    ensures DistinctKeys(fs) ==> KeySet(r) == KeySet(fs) + {homeKey, storageKey}
  {
    var withHome := PutValue(fs, homeKey, JString(Variable));
    var r := if HasKey(withHome, storageKey) then withHome
             else PutValue(withHome, storageKey, JString(DefaultStoragePath));
    assert DistinctKeys(fs) ==> DistinctKeys(r) && KeySet(r) == KeySet(fs) + {homeKey, storageKey} by {
      if DistinctKeys(fs) {
        PutValueKeys(fs, homeKey, JString(Variable));
        PutValueDistinct(fs, homeKey, JString(Variable));
        if !HasKey(withHome, storageKey) {
          PutValueKeys(withHome, storageKey, JString(DefaultStoragePath));
          PutValueDistinct(withHome, storageKey, JString(DefaultStoragePath));
        } else {
          assert storageKey in KeySet(withHome);
        }
      }
    }
    r
  }

  /** `setDefaultConf`: always sets the home key; sets the storage path only when it is absent. */
  method SetDefaultConf(conf: JsonObject, homeKey: string, storageKey: string)
    requires conf.Valid()
    modifies conf
    ensures conf.Valid()
    ensures conf.fields == DefaultedConf(old(conf.fields), homeKey, storageKey)
  {
    conf.Put(homeKey, JString(Variable));
    if !HasKey(conf.fields, storageKey) {
      conf.Put(storageKey, JString(DefaultStoragePath));
    }
  }

  /** Setting the home key does not change whether the storage key is present. */
  lemma HomeKeepsStorage(fs: Fields, homeKey: string, storageKey: string)
    requires DistinctKeys(fs)
    requires homeKey != storageKey
    ensures HasKey(PutValue(fs, homeKey, JString(Variable)), storageKey) <==> HasKey(fs, storageKey)
  {
    PutValueKeys(fs, homeKey, JString(Variable));
    assert storageKey in KeySet(PutValue(fs, homeKey, JString(Variable))) <==> storageKey in KeySet(fs);
  }

  /** After the defaults, the home key holds the variable (overwriting any
      earlier value), the storage key keeps an existing value or else holds
      the default path, and every other key is untouched. */
  lemma DefaultedConfValues(fs: Fields, homeKey: string, storageKey: string)
    requires DistinctKeys(fs)
    requires homeKey != storageKey
    ensures Lookup(DefaultedConf(fs, homeKey, storageKey), homeKey) == Some(JString(Variable))
    ensures Lookup(DefaultedConf(fs, homeKey, storageKey), storageKey)
      == if HasKey(fs, storageKey) then Lookup(fs, storageKey) else Some(JString(DefaultStoragePath))
    ensures forall k :: k != homeKey && k != storageKey ==>
      Lookup(DefaultedConf(fs, homeKey, storageKey), k) == Lookup(fs, k)
  {
    var withHome := PutValue(fs, homeKey, JString(Variable));
    PutValueLookup(fs, homeKey, JString(Variable));
    PutValueDistinct(fs, homeKey, JString(Variable));
    HomeKeepsStorage(fs, homeKey, storageKey);
    if !HasKey(withHome, storageKey) {
      PutValueLookup(withHome, storageKey, JString(DefaultStoragePath));
    }
  }

  /** The tail of `loadGeoRocketConfiguration`: defaults, then substitution. */
  method ApplyDefaultsAndVariables(conf: JsonObject, home: string, homeKey: string, storageKey: string)
    requires conf.Valid()
    modifies conf
    ensures conf.Valid()
    ensures conf.fields == SubstFields(DefaultedConf(old(conf.fields), homeKey, storageKey), home)
  {
    SetDefaultConf(conf, homeKey, storageKey);
    ReplaceConfVariablesInObject(conf, home);
  }

  /** In the loaded configuration the home key holds the home path, a
      defaulted storage path is the home path followed by `/storage`, and an
      existing storage path is kept with its variables substituted. */
  lemma LoadedConfValues(fs: Fields, home: string, homeKey: string, storageKey: string)
    requires DistinctKeys(fs)
    requires homeKey != storageKey
    ensures Lookup(SubstFields(DefaultedConf(fs, homeKey, storageKey), home), homeKey)
      == Some(JString(home))
    ensures !HasKey(fs, storageKey) ==>
      Lookup(SubstFields(DefaultedConf(fs, homeKey, storageKey), home), storageKey)
        == Some(JString(home + StorageSuffix))
    ensures Lookup(fs, storageKey).Some? ==>
      Lookup(SubstFields(DefaultedConf(fs, homeKey, storageKey), home), storageKey)
        == Some(SubstValue(Lookup(fs, storageKey).value, home))
  {
    var d := DefaultedConf(fs, homeKey, storageKey);
    DefaultedConfValues(fs, homeKey, storageKey);
    LookupSubstFields(d, home, homeKey);
    LookupSubstFields(d, home, storageKey);
    DefaultsSubstituted(home);
    LookupFound(fs, storageKey);
  }
}
