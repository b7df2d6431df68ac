/** The logic that the Elasticsearch client interface carries in its default
    methods: delegation of the convenience overloads of `beginScroll` and
    `search`, and the interpreter that turns a bulk response into an error
    message. The network operations themselves are abstract. */
module ElasticsearchClient {
  import opened Json

  // ---------------------------------------------------------------------
  // Overload delegation
  // ---------------------------------------------------------------------

  /** The two abstract operations the convenience overloads delegate to:
      the five-argument `beginScroll(query, postFilter, aggregations,
      parameters, timeout)` and the four-argument `search(query,
      postFilter, aggregations, parameters)`. A missing (Java `null`)
      query, post filter, aggregation, parameter object or timeout is
      `None`. `R` stands for the asynchronous reply. */
  datatype Client<R> = Client(
    beginScroll: (Option<Fields>, Option<Fields>, Option<Fields>, Option<Fields>, Option<string>) -> R,
    search: (Option<Fields>, Option<Fields>, Option<Fields>, Option<Fields>) -> R)

  /** `beginScroll(query, postFilter, parameters, timeout)`: one of query and
      post filter is required; no aggregations are sent. */
  function BeginScrollFiltered<R>(c: Client<R>, query: Option<Fields>, postFilter: Option<Fields>,
                                  parameters: Option<Fields>, timeout: Option<string>): (r: R)
    requires query.Some? || postFilter.Some?
    ensures r == c.beginScroll(query, postFilter, None, parameters, timeout)
  {
    c.beginScroll(query, postFilter, None, parameters, timeout)
  }

  /** `beginScroll(query, parameters, timeout)`: scrolls over a query with
      neither post filter nor aggregations. */
  function BeginScroll<R>(c: Client<R>, query: Option<Fields>, parameters: Option<Fields>,
                          timeout: Option<string>): (r: R)
    requires query.Some?
    ensures r == BeginScrollFiltered(c, query, None, parameters, timeout)
    ensures r == c.beginScroll(query, None, None, parameters, timeout)
  {
    BeginScrollFiltered(c, query, None, parameters, timeout)
  }

  /** `search(query, postFilter, parameters)`: no aggregations. */
  function SearchFiltered<R>(c: Client<R>, query: Option<Fields>, postFilter: Option<Fields>,
                             parameters: Option<Fields>): (r: R)
    ensures r == c.search(query, postFilter, None, parameters)
  {
    c.search(query, postFilter, None, parameters)
  }

  /** `search(query, parameters)`: neither post filter nor aggregations. */
  function Search<R>(c: Client<R>, query: Option<Fields>, parameters: Option<Fields>): (r: R)
    ensures r == SearchFiltered(c, query, None, parameters)
    ensures r == c.search(query, None, None, parameters)
  {
    c.search(query, None, None, parameters)
  }

  // ---------------------------------------------------------------------
  // Vert.x getters used by the interpreter
  // ---------------------------------------------------------------------

  /** `getBoolean("errors", false)` returns a boolean: the key is absent or
      holds one (a stored null or another type makes Java throw). */
  predicate ErrorsFlagReadable(response: Fields)
  {
    match Lookup(response, "errors")
    case None => true
    case Some(JBool(_)) => true
    case Some(_) => false
  }

  /** `getJsonObject(key)` does not throw: the value is absent, null or an object. */
  predicate ObjectFieldReadable(fs: Fields, key: string)
  {
    match Lookup(fs, key)
    case None => true
    case Some(JNull) => true
    case Some(JObject(_)) => true
    case Some(_) => false
  }

  /** `getJsonObject(key)`, with Java `null` as `None`. */
  function GetJsonObject(fs: Fields, key: string): (r: Option<Fields>)
    ensures r.Some? <==> Lookup(fs, key).Some? && Lookup(fs, key).value.JObject?
    ensures r.Some? ==> Lookup(fs, key) == Some(JObject(r.value))
  {
    match Lookup(fs, key)
    case Some(JObject(o)) => Some(o)
    case _ => None
  }

  /** `getString(key)` does not throw: the value is absent, null or a string. */
  predicate StringFieldReadable(fs: Fields, key: string)
  {
    match Lookup(fs, key)
    case None => true
    case Some(JNull) => true
    case Some(JString(_)) => true
    case Some(_) => false
  }

  /** `getString(key)`, with Java `null` as `None`. */
  function GetString(fs: Fields, key: string): (r: Option<string>)
    ensures r.Some? <==> Lookup(fs, key).Some? && Lookup(fs, key).value.JString?
    ensures r.Some? ==> Lookup(fs, key) == Some(JString(r.value))
  {
    match Lookup(fs, key)
    case Some(JString(s)) => Some(s)
    case _ => None
  }

  /** The text `StringBuilder.append(String)` adds: a null string appends `"null"`. */
  function AppendedText(s: Option<string>): (t: string)
    ensures s.None? ==> t == "null"
    ensures s.Some? ==> t == s.value
  {
    match s
    case None => "null"
    case Some(text) => text
  }

  // ---------------------------------------------------------------------
  // Bulk response interpreter
  // ---------------------------------------------------------------------

  const BulkErrorHeader: string := "Errors in bulk operation:"

  /** `bulkResponseHasErrors`: the top-level `errors` flag, false when absent. */
  function BulkResponseHasErrors(response: Fields): (r: bool)
    requires ErrorsFlagReadable(response)
    ensures r <==> Lookup(response, "errors") == Some(JBool(true))
    ensures !HasKey(response, "errors") ==> !r
  {
    LookupFound(response, "errors");
    match Lookup(response, "errors")
    case Some(JBool(b)) => b
    case _ => false
  }

  /** `bulkResponseItemHasErrors`: the item's `error` is a non-null object. */
  function BulkResponseItemHasErrors(item: Fields): (r: bool)
    requires ObjectFieldReadable(item, "error")
    ensures r <==> Lookup(item, "error").Some? && Lookup(item, "error").value.JObject?
  {
    GetJsonObject(item, "error") != None
  }

  /** An operation object of a bulk response is read without a Java
      exception: its `error` is absent, null or an object, and when it is an
      object, `_id` of the operation and `type` and `reason` of the error are
      absent, null or strings. */
  predicate ItemReadable(item: Fields)
  {
    && ObjectFieldReadable(item, "error")
    && (GetJsonObject(item, "error").Some? ==>
         && StringFieldReadable(item, "_id")
         && StringFieldReadable(ErrorOf(item), "type")
         && StringFieldReadable(ErrorOf(item), "reason"))
  }

  /** The message of one erroring operation: it starts a new line, and
      besides the id, type and reason it holds 31 fixed characters. */
  function ItemErrorText(id: Option<string>, errorType: Option<string>, reason: Option<string>): (t: string)
    ensures |t| > 0 && t[0] == '\n'
    ensures |t| == 31 + |AppendedText(id)| + |AppendedText(errorType)| + |AppendedText(reason)|
  {
    var t := "\n[id: [" + AppendedText(id) + "], type: [" + AppendedText(errorType)
      + "], reason: [" + AppendedText(reason) + "]]";
    assert t[0] == "\n[id: ["[0] == '\n';
    t
  }

  /** The error object of an operation, `{}` when it has none. */
  function ErrorOf(item: Fields): Fields
  {
    match GetJsonObject(item, "error")
    case Some(error) => error
    case None => []
  }

  /** The message `bulkResponseItemGetErrorMessage` builds for an operation
      with an error: one line when its id, type and reason have no line
      breaks of their own. */
  function OperationText(item: Fields): (t: string)
    ensures |t| > 0 && t[0] == '\n'
    ensures OperationSingleLine(item) ==> LineBreaks(t) == 1
  {
    var t := ItemErrorText(GetString(item, "_id"), GetString(ErrorOf(item), "type"),
                           GetString(ErrorOf(item), "reason"));
    assert OperationSingleLine(item) ==> LineBreaks(t) == 1 by {
      if OperationSingleLine(item) {
        ItemErrorTextLine(GetString(item, "_id"), GetString(ErrorOf(item), "type"),
                          GetString(ErrorOf(item), "reason"));
      }
    }
    t
  }

  /** `bulkResponseItemGetErrorMessage`: null for an operation without an
      error, otherwise the id, error type and reason in a fixed format, a
      missing one rendered as `null`. */
  method BulkResponseItemGetErrorMessage(item: Fields) returns (msg: Option<string>)
    requires ItemReadable(item)
    ensures msg.None? <==> !BulkResponseItemHasErrors(item)
    ensures msg.Some? ==> msg.value == OperationText(item)
  {
    if !BulkResponseItemHasErrors(item) {
      return None;
    }
    var res := "";
    var error := GetJsonObject(item, "error");
    if error != None {
      var id := GetString(item, "_id");
      var errorType := GetString(error.value, "type");
      var reason := GetString(error.value, "reason");
      res := res + "\n[id: [";
      assert res == "\n[id: [";
      res := res + AppendedText(id);
      res := res + "], type: [";
      res := res + AppendedText(errorType);
      res := res + "], reason: [";
      res := res + AppendedText(reason);
      res := res + "]]";
      assert res == ItemErrorText(id, errorType, reason);
      assert error.value == ErrorOf(item);
    }
    return Some(res);
  }

  /** One element of `items` is an object with distinct keys whose every
      value is a readable operation object. */
  predicate BulkItemReadable(v: Json)
  {
    && v.JObject?
    && DistinctKeys(v.fields)
    && forall j :: 0 <= j < |v.fields| ==> OperationReadable(v.fields[j].1)
  }

  predicate OperationReadable(op: Json)
  {
    op.JObject? && ItemReadable(op.fields)
  }

  /** `getJsonArray("items", new JsonArray())` returns an array of readable items. */
  predicate ItemsReadable(response: Fields)
  {
    match Lookup(response, "items")
    case None => true
    case Some(JArray(a)) => forall i :: 0 <= i < |a| ==> BulkItemReadable(a[i])
    case Some(_) => false
  }

  /** Everything `bulkResponseGetErrorMessage` reads can be read: the flag
      always, the items only when the flag is set. */
  predicate ResponseReadable(response: Fields)
  {
    ErrorsFlagReadable(response) && (BulkResponseHasErrors(response) ==> ItemsReadable(response))
  }

  /** `getJsonArray("items", new JsonArray())`: a missing array is empty. */
  function ItemsOf(response: Fields): (items: seq<Json>)
    ensures !HasKey(response, "items") ==> items == []
    ensures Lookup(response, "items").Some? && Lookup(response, "items").value.JArray? ==>
      items == Lookup(response, "items").value.elems
  {
    LookupFound(response, "items");
    match Lookup(response, "items")
    case Some(JArray(a)) => a
    case _ => []
  }

  /** The operations of one item that carry an error, in field order. */
  function ErroringOpsOfItem(jo: Fields): (ops: seq<Fields>)
    ensures |ops| <= |jo|
    ensures forall k :: 0 <= k < |ops| ==> GetJsonObject(ops[k], "error").Some?
  {
    if jo == [] then []
    else
      (match jo[0].1
       case JObject(op) => if GetJsonObject(op, "error").Some? then [op] else []
       case _ => [])
      + ErroringOpsOfItem(jo[1..])
  }

  /** The operations of all items that carry an error: items in array order,
      and within an item its fields in order. */
  function ErroringOps(items: seq<Json>): (ops: seq<Fields>)
    ensures forall k :: 0 <= k < |ops| ==> GetJsonObject(ops[k], "error").Some?
  {
    if items == [] then []
    else
      (match items[0]
       case JObject(jo) => ErroringOpsOfItem(jo)
       case _ => [])
      + ErroringOps(items[1..])
  }

  /** The message of each operation, in order. */
  function Messages(ops: seq<Fields>): (ms: seq<string>)
    ensures |ms| == |ops|
    ensures forall k :: 0 <= k < |ops| ==> ms[k] == OperationText(ops[k])
  {
    seq(|ops|, k requires 0 <= k < |ops| => OperationText(ops[k]))
  }

  /** The messages of the erroring operations, concatenated as the string builder does. */
  function Concat(ms: seq<string>): string
  {
    if ms == [] then "" else ms[0] + Concat(ms[1..])
  }

  lemma {:induction false} ConcatAppend(a: seq<string>, b: seq<string>)
    ensures Concat(a + b) == Concat(a) + Concat(b)
  {
    if a == [] {
      assert a + b == b;
    } else {
      calc {
        Concat(a + b);
        a[0] + Concat((a + b)[1..]);
        { assert (a + b)[1..] == a[1..] + b; }
        a[0] + Concat(a[1..] + b);
        { ConcatAppend(a[1..], b); }
        a[0] + (Concat(a[1..]) + Concat(b));
        (a[0] + Concat(a[1..])) + Concat(b);
      }
    }
  }

  lemma {:induction false} ErroringOpsOfItemAppend(a: Fields, b: Fields)
    ensures ErroringOpsOfItem(a + b) == ErroringOpsOfItem(a) + ErroringOpsOfItem(b)
  {
    if a == [] {
      assert a + b == b;
    } else {
      assert (a + b)[0] == a[0];
      assert (a + b)[1..] == a[1..] + b;
      ErroringOpsOfItemAppend(a[1..], b);
    }
  }

  lemma {:induction false} ErroringOpsAppend(a: seq<Json>, b: seq<Json>)
    ensures ErroringOps(a + b) == ErroringOps(a) + ErroringOps(b)
  {
    if a == [] {
      assert a + b == b;
    } else {
      assert (a + b)[0] == a[0];
      assert (a + b)[1..] == a[1..] + b;
      ErroringOpsAppend(a[1..], b);
    }
  }

  /** Appending to the string builder regroups: inside the loops of
      `BulkResponseGetErrorMessage` this step is expensive unless stated apart. */
  lemma ConcatAssoc(a: string, b: string, c: string)
    ensures a + b + c == a + (b + c)
  {
  }

  /** The text the erroring operations of `ops` contribute to the message. */
  function ErrorLines(ops: seq<Fields>): string
  {
    Concat(Messages(ops))
  }

  lemma ErrorLinesAppend(a: seq<Fields>, b: seq<Fields>)
    ensures ErrorLines(a + b) == ErrorLines(a) + ErrorLines(b)
  {
    assert Messages(a + b) == Messages(a) + Messages(b) by {
      forall k | 0 <= k < |a + b| ensures Messages(a + b)[k] == (Messages(a) + Messages(b))[k] {
        if k < |a| {
          assert (a + b)[k] == a[k];
        } else {
          assert (a + b)[k] == b[k - |a|];
        }
      }
    }
    ConcatAppend(Messages(a), Messages(b));
  }

  /** One field of an item adds the message of its operation when that operation has an error. */
  lemma {:induction false} ErroringOpsOfItemStep(jo: Fields, j: int)
    requires 0 <= j < |jo| && jo[j].1.JObject?
    ensures ErrorLines(ErroringOpsOfItem(jo[..j + 1])) == ErrorLines(ErroringOpsOfItem(jo[..j]))
      + (if GetJsonObject(jo[j].1.fields, "error").Some? then OperationText(jo[j].1.fields) else "")
  {
    var op := jo[j].1.fields;
    assert jo[..j + 1] == jo[..j] + [jo[j]];
    ErroringOpsOfItemAppend(jo[..j], [jo[j]]);
    assert [jo[j]][1..] == [];
    var tail := if GetJsonObject(op, "error").Some? then [op] else [];
    assert ErroringOpsOfItem([jo[j]]) == tail;
    ErrorLinesAppend(ErroringOpsOfItem(jo[..j]), tail);
    assert ErrorLines(tail) == if tail == [] then "" else OperationText(op) by {
      if tail != [] {
        assert Messages(tail) == [OperationText(op)];
        assert Concat([OperationText(op)]) == OperationText(op);
      } else {
        assert Messages(tail) == [];
      }
    }
  }

  lemma {:induction false} ErroringOpsSingle(v: Json)
    requires v.JObject?
    ensures ErroringOps([v]) == ErroringOpsOfItem(v.fields)
  {
    assert [v][1..] == [];
  }

  lemma {:induction false} ErroringOpsSnoc(items: seq<Json>, i: int)
    requires 0 <= i < |items|
    ensures ErroringOps(items[..i + 1]) == ErroringOps(items[..i]) + ErroringOps([items[i]])
  {
    assert items[..i + 1] == items[..i] + [items[i]];
    ErroringOpsAppend(items[..i], [items[i]]);
  }

  /** One item adds the messages of its erroring operations. */
  lemma {:induction false} ErroringOpsStep(items: seq<Json>, i: int)
    requires 0 <= i < |items| && items[i].JObject?
    ensures ErrorLines(ErroringOps(items[..i + 1])) == ErrorLines(ErroringOps(items[..i]))
      + ErrorLines(ErroringOpsOfItem(items[i].fields))
  {
    var a := ErroringOps(items[..i]);
    var b := ErroringOpsOfItem(items[i].fields);
    ErroringOpsSnoc(items, i);
    ErroringOpsSingle(items[i]);
    assert ErroringOps(items[..i + 1]) == a + b;
    ErrorLinesAppend(a, b);
  }

  /** `bulkResponseGetErrorMessage`: null exactly when the `errors` flag is
      not set (whatever the items say); otherwise the header followed by the
      message of every erroring operation, items in array order and within
      an item its fields in order. */
  method BulkResponseGetErrorMessage(response: Fields) returns (msg: Option<string>)
    requires ResponseReadable(response)
    ensures msg.None? <==> !BulkResponseHasErrors(response)
    ensures msg.Some? ==> msg.value == BulkErrorHeader + ErrorLines(ErroringOps(ItemsOf(response)))
    ensures msg.Some? && !HasKey(response, "items") ==> msg.value == BulkErrorHeader
  {
    if !BulkResponseHasErrors(response) {
      return None;
    }
    var res := BulkErrorHeader;
    var items := ItemsOf(response);
    assert forall i :: 0 <= i < |items| ==> BulkItemReadable(items[i]);
    assert items[..0] == [];
    assert res == BulkErrorHeader + ErrorLines(ErroringOps(items[..0]));
    var i := 0;
    while i < |items|
      invariant 0 <= i <= |items|
      invariant res == BulkErrorHeader + ErrorLines(ErroringOps(items[..i]))
    {
      var jo := items[i].fields;
      var names := FieldNames(jo);
      ghost var before := res;
      assert jo[..0] == [];
      assert res == before + ErrorLines(ErroringOpsOfItem(jo[..0]));
      var j := 0;
      while j < |names|
        invariant 0 <= j <= |names|
        invariant res == before + ErrorLines(ErroringOpsOfItem(jo[..j]))
      {
        LookupAt(jo, j);
        var op := Lookup(jo, names[j]).value.fields;
        assert op == jo[j].1.fields && OperationReadable(jo[j].1);
        ghost var done := ErrorLines(ErroringOpsOfItem(jo[..j]));
        ghost var added := if GetJsonObject(op, "error").Some? then OperationText(op) else "";
        ErroringOpsOfItemStep(jo, j);
        if BulkResponseItemHasErrors(op) {
          var m := BulkResponseItemGetErrorMessage(op);
          res := res + m.value;
        } else {
          assert added == [];
        }
        ConcatAssoc(before, done, added);
        j := j + 1;
      }
      assert jo[..j] == jo;
      ErroringOpsStep(items, i);
      ghost var doneItems := ErrorLines(ErroringOps(items[..i]));
      assert res == BulkErrorHeader + doneItems + ErrorLines(ErroringOpsOfItem(jo));
      ConcatAssoc(BulkErrorHeader, doneItems, ErrorLines(ErroringOpsOfItem(jo)));
      i := i + 1;
    }
    assert items[..i] == items;
    return Some(res);
  }

  // ---------------------------------------------------------------------
  // What the message contains
  // ---------------------------------------------------------------------

  /** `v` is the operation object `op`, and `op` carries an error. */
  predicate IsErroringOp(v: Json, op: Fields)
  {
    v == JObject(op) && GetJsonObject(op, "error").Some?
  }

  /** An operation is reported by an item exactly when it is one of the
      item's values and carries an error. */
  lemma {:induction false} ErroringOpsOfItemMember(jo: Fields, op: Fields)
    ensures op in ErroringOpsOfItem(jo) <==> exists j :: 0 <= j < |jo| && IsErroringOp(jo[j].1, op)
  {
    if jo != [] {
      ErroringOpsOfItemMember(jo[1..], op);
      if exists j :: 0 <= j < |jo| && IsErroringOp(jo[j].1, op) {
        var j :| 0 <= j < |jo| && IsErroringOp(jo[j].1, op);
        if j > 0 {
          assert jo[1..][j - 1] == jo[j];
        }
      }
      if exists j :: 0 <= j < |jo| - 1 && IsErroringOp(jo[1..][j].1, op) {
        var j :| 0 <= j < |jo| - 1 && IsErroringOp(jo[1..][j].1, op);
        assert jo[j + 1] == jo[1..][j];
      }
    }
  }

  /** An operation is reported by the response exactly when some item
      object holds it and it carries an error; operations without an error
      and non-object items contribute nothing. */
  lemma {:induction false} ErroringOpsMember(items: seq<Json>, op: Fields)
    ensures op in ErroringOps(items) <==>
      exists i :: 0 <= i < |items| && items[i].JObject? && op in ErroringOpsOfItem(items[i].fields)
  {
    if items != [] {
      ErroringOpsMember(items[1..], op);
      if exists i :: 0 <= i < |items| && items[i].JObject? && op in ErroringOpsOfItem(items[i].fields) {
        var i :| 0 <= i < |items| && items[i].JObject? && op in ErroringOpsOfItem(items[i].fields);
        if i > 0 {
          assert items[1..][i - 1] == items[i];
        }
      }
      if exists i :: 0 <= i < |items| - 1 && items[1..][i].JObject?
          && op in ErroringOpsOfItem(items[1..][i].fields) {
        var i :| 0 <= i < |items| - 1 && items[1..][i].JObject?
          && op in ErroringOpsOfItem(items[1..][i].fields);
        assert items[i + 1] == items[1..][i];
      }
    }
  }

  /** The number of line breaks in a text. */
  function LineBreaks(s: string): nat
  {
    if s == [] then 0 else (if s[0] == '\n' then 1 else 0) + LineBreaks(s[1..])
  }

  lemma {:induction false} LineBreaksAppend(a: string, b: string)
    ensures LineBreaks(a + b) == LineBreaks(a) + LineBreaks(b)
  {
    if a == [] {
      assert a + b == b;
    } else {
      assert (a + b)[0] == a[0];
      assert (a + b)[1..] == a[1..] + b;
      LineBreaksAppend(a[1..], b);
    }
  }

  lemma {:induction false} LineBreaksAbsent(s: string)
    requires '\n' !in s
    ensures LineBreaks(s) == 0
  {
    if s != [] {
      assert s[0] in s;
      assert forall c :: c in s[1..] ==> c in s;
      LineBreaksAbsent(s[1..]);
    }
  }

  /** The id, type and reason of an erroring operation render without line breaks. */
  predicate OperationSingleLine(op: Fields)
  {
    && '\n' !in AppendedText(GetString(op, "_id"))
    && '\n' !in AppendedText(GetString(ErrorOf(op), "type"))
    && '\n' !in AppendedText(GetString(ErrorOf(op), "reason"))
  }

  /** The fixed parts of the message contain no line break but the leading
      one. Kept apart: facts about string literals are cheap only in a
      small context. */
  lemma FixedPartsSingleLine()
    ensures '\n' !in "[id: [" && '\n' !in "], type: [" && '\n' !in "], reason: [" && '\n' !in "]]"
    ensures '\n' !in BulkErrorHeader
  {
  }

  /** The opening part of an operation's message holds its one line break. */
  lemma OpeningPartLine()
    ensures LineBreaks("\n[id: [") == 1
  {
    var rest := "[id: [";
    FixedPartsSingleLine();
    LineBreaksAbsent(rest);
    assert "\n[id: [" == ['\n'] + rest;
    assert (['\n'] + rest)[1..] == rest;
  }

  /** Seven pieces joined, of which only the first holds a line break, hold
      exactly one. */
  lemma {:induction false} JoinedLineBreaks(p1: string, a: string, p2: string, b: string,
                                            p3: string, c: string, p4: string)
    requires LineBreaks(p1) == 1
    requires LineBreaks(a) == 0 && LineBreaks(b) == 0 && LineBreaks(c) == 0
    requires LineBreaks(p2) == 0 && LineBreaks(p3) == 0 && LineBreaks(p4) == 0
    ensures LineBreaks(p1 + a + p2 + b + p3 + c + p4) == 1
  {
    LineBreaksAppend(p1, a);
    LineBreaksAppend(p1 + a, p2);
    LineBreaksAppend(p1 + a + p2, b);
    LineBreaksAppend(p1 + a + p2 + b, p3);
    LineBreaksAppend(p1 + a + p2 + b + p3, c);
    LineBreaksAppend(p1 + a + p2 + b + p3 + c, p4);
  }

  /** The message of one erroring operation is exactly one line when its
      id, type and reason have no line breaks of their own. */
  lemma ItemErrorTextLine(id: Option<string>, errorType: Option<string>, reason: Option<string>)
    requires '\n' !in AppendedText(id)
    requires '\n' !in AppendedText(errorType)
    requires '\n' !in AppendedText(reason)
    ensures LineBreaks(ItemErrorText(id, errorType, reason)) == 1
  {
    FixedPartsSingleLine();
    OpeningPartLine();
    LineBreaksAbsent(AppendedText(id));
    LineBreaksAbsent(AppendedText(errorType));
    LineBreaksAbsent(AppendedText(reason));
    LineBreaksAbsent("], type: [");
    LineBreaksAbsent("], reason: [");
    LineBreaksAbsent("]]");
    JoinedLineBreaks("\n[id: [", AppendedText(id), "], type: [", AppendedText(errorType),
                     "], reason: [", AppendedText(reason), "]]");
  }

  /** The header is followed by one line per erroring operation. */
  lemma {:induction false} ErrorLinesCount(ops: seq<Fields>)
    requires forall k :: 0 <= k < |ops| ==> OperationSingleLine(ops[k])
    ensures LineBreaks(ErrorLines(ops)) == |ops|
  {
    if ops == [] {
      assert Messages(ops) == [];
    } else {
      ErrorLinesCount(ops[1..]);
      assert ops == [ops[0]] + ops[1..];
      ErrorLinesAppend([ops[0]], ops[1..]);
      assert Messages([ops[0]]) == [OperationText(ops[0])];
      assert Concat([OperationText(ops[0])]) == OperationText(ops[0]);
      LineBreaksAppend(OperationText(ops[0]), ErrorLines(ops[1..]));
    }
  }

  /** The whole message: the header line, then one line per erroring operation. */
  lemma ErrorMessageLines(ops: seq<Fields>)
    requires forall k :: 0 <= k < |ops| ==> OperationSingleLine(ops[k])
    ensures LineBreaks(BulkErrorHeader + ErrorLines(ops)) == |ops|
  {
    FixedPartsSingleLine();
    LineBreaksAbsent(BulkErrorHeader);
    ErrorLinesCount(ops);
    LineBreaksAppend(BulkErrorHeader, ErrorLines(ops));
  }

  /** A response whose one operation failed while the `errors` flag says
      false: the flag wins and no message is produced. */
  lemma FlagDecides()
    ensures var op := [("_id", JString("1")), ("error", JObject([("type", JString("t")), ("reason", JString("r"))]))];
      var response := [("errors", JBool(false)), ("items", JArray([JObject([("index", JObject(op))])]))];
      && ResponseReadable(response)
      && !BulkResponseHasErrors(response)
      && ErroringOps(ItemsOf(response)) == [op]
  {
  }

  /** The same response with the flag set reports the operation's id, type and reason. */
  lemma FailedOperationReported()
    ensures var op := [("_id", JString("1")), ("error", JObject([("type", JString("t")), ("reason", JString("r"))]))];
      var response := [("errors", JBool(true)), ("items", JArray([JObject([("index", JObject(op))])]))];
      && ResponseReadable(response)
      && BulkResponseHasErrors(response)
      && BulkErrorHeader + ErrorLines(ErroringOps(ItemsOf(response)))
           == BulkErrorHeader + ItemErrorText(Some("1"), Some("t"), Some("r"))
  {
    var error := [("type", JString("t")), ("reason", JString("r"))];
    var op := [("_id", JString("1")), ("error", JObject(error))];
    var response := [("errors", JBool(true)), ("items", JArray([JObject([("index", JObject(op))])]))];
    var item := [("index", JObject(op))];
    assert Lookup(response, "errors") == Some(JBool(true));
    assert Lookup(response, "items") == Some(JArray([JObject(item)]));
    assert Lookup(op, "error") == Some(JObject(error));
    assert GetJsonObject(op, "error") == Some(error);
    assert Lookup(op, "_id") == Some(JString("1"));
    assert Lookup(error, "type") == Some(JString("t"));
    assert Lookup(error, "reason") == Some(JString("r"));
    assert ItemReadable(op);
    assert BulkItemReadable(JObject(item));
    assert ItemsReadable(response);
    assert ErroringOpsOfItem(item) == [op] by {
      assert item[1..] == [];
    }
    assert ErroringOps([JObject(item)]) == [op] by {
      ErroringOpsSingle(JObject(item));
    }
    assert Messages([op]) == [OperationText(op)];
    assert Concat([OperationText(op)]) == OperationText(op);
    assert OperationText(op) == ItemErrorText(Some("1"), Some("t"), Some("r"));
  }
}
