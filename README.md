# GeoRocket server core in Dafny

This is a model of two pieces of the GeoRocket server.

1. **The Elasticsearch client's default methods.** The convenience
   overloads of `beginScroll` and `search` fill in `null` for the
   arguments they omit and delegate. The bulk-response interpreter decides
   whether a bulk response reports errors, and builds the error message:
   the header `Errors in bulk operation:` followed by one
   `\n[id: [..], type: [..], reason: [..]]` part for every operation that
   carries an `error` object.
2. **GeoRocket's configuration pass.** `setDefaultConf` always sets the
   home key to `$GEOROCKET_HOME`. It sets the storage path to
   `$GEOROCKET_HOME/storage` only when none is configured. The three
   `replaceConfVariables` overloads then replace `$GEOROCKET_HOME` with the
   home directory in every string value of the configuration tree; keys
   are left alone.

Files:

- `json.dfy` (module `Json`): JSON values as Vert.x holds them. An object is
  an ordered field list, because Vert.x uses a `LinkedHashMap`. The class
  `JsonObject` is the mutable object the configuration code updates with
  `put`.
- `elasticsearch_client.dfy` (module `ElasticsearchClient`): the overloads
  and the bulk-response interpreter. The message-building methods keep the
  source's loops over `items` and `fieldNames()`. They are proved equal to
  a specification function, `BulkErrorHeader + ErrorLines(ErroringOps(..))`.
  Separate lemmas then say which operations that function reports and how
  many lines the message has.
- `georocket.dfy` (module `GeoRocket`): `String.replace`, the three
  `replaceConfVariables` overloads, `setDefaultConf`, and the two steps of
  `loadGeoRocketConfiguration` that apply them. The object overload is a
  method that rewrites a `JsonObject` in place, key by key. The array
  overload builds a new array in a loop. Both are proved to yield the
  value-level rewrite `SubstValue`, and the lemmas are stated about
  `SubstValue`.

Java runtime exceptions are preconditions. Examples are a `ClassCastException`
when `errors` is not a boolean, and a `NullPointerException` when `items`
holds a null. Every case the source handles without throwing is in the
model: a missing flag, missing items, a missing `error`, a null id, type
or reason.

## Model

| member | source | states |
|---|---|---|
| ElasticsearchClient.BeginScrollFiltered | georocket-server/src/main/java/io/georocket/index/elasticsearch/ElasticsearchClient.java:44-60 | the four-argument overload requires a query or a post filter, and forwards both with no aggregations |
| ElasticsearchClient.BeginScroll | georocket-server/src/main/java/io/georocket/index/elasticsearch/ElasticsearchClient.java:31-42 | the three-argument overload scrolls over the query with neither a post filter nor aggregations, via the four-argument overload |
| ElasticsearchClient.SearchFiltered | georocket-server/src/main/java/io/georocket/index/elasticsearch/ElasticsearchClient.java:111-114 | the three-argument search forwards query and post filter with no aggregations |
| ElasticsearchClient.Search | georocket-server/src/main/java/io/georocket/index/elasticsearch/ElasticsearchClient.java:97-99 | the two-argument search is the filtered search without a post filter, so it sends neither a post filter nor aggregations |
| ElasticsearchClient.GetJsonObject | georocket-server/src/main/java/io/georocket/index/elasticsearch/ElasticsearchClient.java:257 | a field reads as an object exactly when the key is present and holds an object, and then it is that stored object; a missing key and a stored null both read as null |
| ElasticsearchClient.GetString | georocket-server/src/main/java/io/georocket/index/elasticsearch/ElasticsearchClient.java:290-292 | a field reads as a string exactly when the key is present and holds a string, and then it is that stored string |
| ElasticsearchClient.AppendedText | georocket-server/src/main/java/io/georocket/index/elasticsearch/ElasticsearchClient.java:293-299 | appending a null id, type or reason writes `null`; any other string is written as it is |
| ElasticsearchClient.BulkResponseHasErrors | georocket-server/src/main/java/io/georocket/index/elasticsearch/ElasticsearchClient.java:233-235 | a response has errors exactly when its `errors` flag is true; a missing flag means no errors |
| ElasticsearchClient.BulkResponseItemHasErrors | georocket-server/src/main/java/io/georocket/index/elasticsearch/ElasticsearchClient.java:272-274 | an operation has an error exactly when its `error` field holds an object (not missing, not null) |
| ElasticsearchClient.BulkResponseItemGetErrorMessage | georocket-server/src/main/java/io/georocket/index/elasticsearch/ElasticsearchClient.java:282-303 | no message exactly when the operation has no error; otherwise one part starting on a new line with the operation's id and its error's type and reason, each missing one shown as `null` |
| ElasticsearchClient.BulkResponseGetErrorMessage | georocket-server/src/main/java/io/georocket/index/elasticsearch/ElasticsearchClient.java:246-264 | no message exactly when the response has no errors; otherwise the header followed by the parts of all erroring operations, in array order and field order; with no `items` key, only the header |
| ElasticsearchClient.ItemsOf | georocket-server/src/main/java/io/georocket/index/elasticsearch/ElasticsearchClient.java:253 | a missing `items` key reads as the empty array, and a stored array reads as itself |
| ElasticsearchClient.ErroringOpsOfItem | georocket-server/src/main/java/io/georocket/index/elasticsearch/ElasticsearchClient.java:256-261 | the operations one item reports are at most as many as its fields, and each of them carries an error |
| ElasticsearchClient.ErroringOps | georocket-server/src/main/java/io/georocket/index/elasticsearch/ElasticsearchClient.java:254-262 | every operation the response reports carries an error |
| ElasticsearchClient.ErroringOpsOfItemMember | georocket-server/src/main/java/io/georocket/index/elasticsearch/ElasticsearchClient.java:256-261 | within one item, an operation is reported exactly when it is one of the item's values and carries an error |
| ElasticsearchClient.ErroringOpsMember | georocket-server/src/main/java/io/georocket/index/elasticsearch/ElasticsearchClient.java:253-262 | across the response, an operation is reported exactly when some item object reports it |
| ElasticsearchClient.ItemErrorText | georocket-server/src/main/java/io/georocket/index/elasticsearch/ElasticsearchClient.java:293-299 | an operation's part always starts with a line break and consists of the id, type and reason as appended plus 31 fixed characters |
| ElasticsearchClient.OperationText | georocket-server/src/main/java/io/georocket/index/elasticsearch/ElasticsearchClient.java:288-299 | the part built for an erroring operation starts with a line break, and is a single line when its id, type and reason hold no line break |
| ElasticsearchClient.ItemErrorTextLine | georocket-server/src/main/java/io/georocket/index/elasticsearch/ElasticsearchClient.java:293-299 | when the id, type and reason hold no line break, an operation's part contains exactly one |
| ElasticsearchClient.ErrorLinesCount | georocket-server/src/main/java/io/georocket/index/elasticsearch/ElasticsearchClient.java:254-262 | the reported parts hold exactly one line break per erroring operation |
| ElasticsearchClient.ErrorMessageLines | georocket-server/src/main/java/io/georocket/index/elasticsearch/ElasticsearchClient.java:251-263 | the whole message is the header line followed by one line per erroring operation |
| ElasticsearchClient.FlagDecides | georocket-server/src/main/java/io/georocket/index/elasticsearch/ElasticsearchClient.java:233-249 | a response whose flag is false is reported as error-free even though one of its operations carries an error |
| ElasticsearchClient.FailedOperationReported | georocket-server/src/main/java/io/georocket/index/elasticsearch/ElasticsearchClient.java:246-303 | the same response with the flag set yields the header followed by the operation's id, type and reason |
| GeoRocket.IndexOf | georocket-server/src/main/java/io/georocket/GeoRocket.java:125 | the search for the target either misses (-1) or finds a position at or after the start where the target occurs |
| GeoRocket.IndexOfLeftmost | georocket-server/src/main/java/io/georocket/GeoRocket.java:124-126 | the search for the variable misses only when there is no match, and never skips an earlier match |
| GeoRocket.ReplaceAll | georocket-server/src/main/java/io/georocket/GeoRocket.java:125 | `String.replace` returns a string without the target unchanged |
| GeoRocket.ReplaceFrom | georocket-server/src/main/java/io/georocket/GeoRocket.java:125 | with no match left from a position on, the rest of the string is copied unchanged |
| GeoRocket.ReplaceFromFirstOccurrence | georocket-server/src/main/java/io/georocket/GeoRocket.java:124-126 | replacement goes left to right: the text before the leftmost match is kept, the match becomes the home path, and replacement continues after the match |
| GeoRocket.ReplaceConfVariablesInString | georocket-server/src/main/java/io/georocket/GeoRocket.java:124-126 | a string that does not mention `$GEOROCKET_HOME` is returned unchanged |
| GeoRocket.DefaultsSubstituted | georocket-server/src/main/java/io/georocket/GeoRocket.java:124-126 | the default home value becomes the home path, and the default storage path becomes the home path followed by `/storage` |
| GeoRocket.SubstValue | georocket-server/src/main/java/io/georocket/GeoRocket.java:133-166 | the rewrite of one value keeps its kind (string, array, object or other), the length of an array, and the keys of an object in order; null, booleans and numbers are kept as they are |
| GeoRocket.SubstValueSameShape | georocket-server/src/main/java/io/georocket/GeoRocket.java:133-166 | the rewrite keeps the tree's shape: the same constructors, array lengths, keys and key order, and the same non-string leaves |
| GeoRocket.SubstValueWellFormed | georocket-server/src/main/java/io/georocket/GeoRocket.java:133-166 | the rewrite keeps every object's keys distinct |
| GeoRocket.SubstFieldsKeys | georocket-server/src/main/java/io/georocket/GeoRocket.java:152-166 | the object rewrite only overwrites existing keys: the field names, their order and the key set are unchanged |
| GeoRocket.SubstValueNoVariable | georocket-server/src/main/java/io/georocket/GeoRocket.java:133-166 | a configuration that never mentions the variable is unchanged |
| GeoRocket.LookupSubstFields | georocket-server/src/main/java/io/georocket/GeoRocket.java:152-166 | looking a key up in the rewritten object gives the rewritten value of the original lookup, and a missing key stays missing |
| GeoRocket.ReplaceConfVariablesInValue | georocket-server/src/main/java/io/georocket/GeoRocket.java:135-143 | the per-element dispatch on object, array and string yields the element's rewrite |
| GeoRocket.ReplaceConfVariablesInArray | georocket-server/src/main/java/io/georocket/GeoRocket.java:133-146 | the array overload returns a new array of the same length whose every element is the rewrite of the original element |
| GeoRocket.ReplaceConfVariablesInObject | georocket-server/src/main/java/io/georocket/GeoRocket.java:152-166 | the object overload leaves the object, in place, with every field's value rewritten and keys, key order and distinctness kept, whatever order the keys are visited in |
| GeoRocket.RewriteStep | georocket-server/src/main/java/io/georocket/GeoRocket.java:159-164 | putting the rewritten value of a pending key settles that key and changes no other field |
| GeoRocket.DefaultedConf | georocket-server/src/main/java/io/georocket/GeoRocket.java:172-177 | on an object with distinct keys, the defaults add exactly the home and storage keys and keep the keys distinct |
| GeoRocket.SetDefaultConf | georocket-server/src/main/java/io/georocket/GeoRocket.java:172-177 | the configuration is updated in place to its defaulted form |
| GeoRocket.DefaultedConfValues | georocket-server/src/main/java/io/georocket/GeoRocket.java:172-177 | after the defaults the home key holds the variable, overwriting any earlier value; the storage key keeps an existing value (even null) or holds the default path; all other keys are untouched |
| GeoRocket.HomeKeepsStorage | georocket-server/src/main/java/io/georocket/GeoRocket.java:173-174 | setting the home key does not change whether a storage path is configured |
| GeoRocket.ApplyDefaultsAndVariables | georocket-server/src/main/java/io/georocket/GeoRocket.java:204-208 | loading applies the defaults and then the substitution to the configuration object |
| GeoRocket.LoadedConfValues | georocket-server/src/main/java/io/georocket/GeoRocket.java:172-208 | in the loaded configuration the home key holds the home path, a defaulted storage path is the home path followed by `/storage`, and a configured storage path is kept with its variables replaced |
| Json.HasKey | georocket-server/src/main/java/io/georocket/GeoRocket.java:174 | `containsKey` holds when some field carries the key, whatever its value, null included |
| Json.HasKeyFieldNames | georocket-server/src/main/java/io/georocket/index/elasticsearch/ElasticsearchClient.java:256-257 | `containsKey` agrees with `fieldNames()`: a key is contained exactly when it is one of the listed names |
| Json.KeySet | georocket-server/src/main/java/io/georocket/GeoRocket.java:153 | the key set holds exactly the contained keys |
| Json.FieldNames | georocket-server/src/main/java/io/georocket/index/elasticsearch/ElasticsearchClient.java:256 | `fieldNames()` lists the key of every field, in insertion order |
| Json.Lookup | georocket-server/src/main/java/io/georocket/GeoRocket.java:155 | `getValue(key)` misses exactly when the key is not contained |
| Json.PutValue | georocket-server/src/main/java/io/georocket/GeoRocket.java:173-176 | `put` on a contained key keeps the number of fields, and `put` on a new key appends that one field at the end |
| Json.JsonObject.Put | georocket-server/src/main/java/io/georocket/GeoRocket.java:173-176 | `put` replaces the value of an existing key in its position, or appends a new key, and keeps the keys distinct |
| Json.PutValueLookup | georocket-server/src/main/java/io/georocket/GeoRocket.java:173-176 | after `put(key, v)` the key maps to `v`, and every other key keeps its value |

## Left out

- The network operations (the five-argument `beginScroll`, the four-argument `search`, bulk insert, count, scrolling, index and mapping management, `isRunning`, `close`) are abstract in the source. The delegated ones are function fields of `Client`; the rest have no default logic and are not modelled.
- The asynchronous `Single` replies are an opaque type parameter `R`.
- BulkResponseHasErrors: reads only the top-level `errors` flag and never inspects the items, so a response whose flag is false reads as error-free even when an operation carries an error (`FlagDecides`).
- Java exceptions are not modelled. A non-boolean flag, a non-array `items`, a null or non-object item or operation, and a non-object `error` or non-string `_id`, `type` or `reason` are preconditions (the `...Readable` predicates), not error results.
- ItemErrorTextLine: counts line breaks only under the precondition that id, type and reason contain none themselves.
- ErrorLinesCount: counts line breaks only under the same precondition, for every reported operation.
- ErrorMessageLines: counts line breaks only under the same precondition, for every reported operation.
- ReplaceConfVariablesInObject: a nested object is rewritten as a value and put back. The source mutates it in place without `put`, which yields the same fields, because `put` on an existing key keeps its position.
- ReplaceConfVariablesInArray: takes its input by value. The source's array overload also mutates the nested objects of its input array in place, because they are shared with the result. The model has no aliasing, so this side effect on the input is not captured.
- The object overload visits the keys of a `HashSet` in an unspecified order. The model chooses keys arbitrarily (`:|`), so its result is proved for every order.
- The home directory is a parameter. Reading `GEOROCKET_HOME`, falling back to the working directory and computing the canonical path are left out because they are environment and file-system access.
- The configuration keys for the home and the storage path are parameters. Their constants are not part of this model, and the home and storage lookups assume they differ.
- Reading and JSON-decoding `conf/georocketd.json`, deploying the verticles, logging and the server start-up are I/O and are left out.
- JSON numbers are only integers. Floating-point values behave like every other non-string leaf, which the rewrite keeps.
- The command-line import command is not part of this model.
