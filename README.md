# Candid method form and governance metrics parser, in Dafny

This project models two pieces of sequential logic from the ic-rocks dashboard
and proves properties of them.

**The method-invocation form** (`components/CandidUI.tsx`). The form keeps one
state record for all of a canister's methods:

- five dictionaries keyed by method name: loading flag, input tree, errors,
  last output and chosen output display;
- the list of every output received (the history).

A reducer applies five kinds of message, and each message is addressed to
one method. The model has:

- the state, the messages and the reducer (`CandidState`);
- the comparator that orders the method list, and the return-type label;
- the rule that picks the methods called as soon as the form loads;
- the validation gate a call passes before its request goes out
  (`CandidMethods`);
- a class `CandidForm` that holds the reducer state and dispatches messages in
  the order the component does. Its ghost `log` is every message dispatched so
  far, and `Valid()` ties the state to a fold of the reducer over the log.

**The governance metrics parser** (`lib/hooks/useGovernanceMetrics.ts`). The
governance canister publishes its metrics as Prometheus text: a HELP line, a
TYPE line and a sample line `name value timestamp` per gauge. The parser
splits the text into lines, walks them three at a time and fills a dictionary
of gauges keyed by name. `GovernanceMetrics.ParseGauges` is that loop. It is
proved equal to a fold (`Gauges`) over the records read at offsets 0, 3, 6, …,
and the properties of the parser are proved about that fold. An exception
inside the query function is modelled as a `Failure` carrying the error.

**The JavaScript built-ins** these use are written out in `JsString`:

- `indexOf`, `split` (including the empty separator) and `join`;
- `trim`, with the ECMAScript white-space set;
- the `>` comparison of strings;
- `BigInt(string)`, with trimming, sign, 0x/0o/0b prefixes and `SyntaxError` as
  `None`.

The files:

- `wrappers.dfy`: `Option` and `Result`;
- `js_string.dfy`: the built-ins;
- `candid_state.dfy`: state, messages, reducer;
- `candid_methods.dfy`: helpers around the reducer, the gate and the class;
- `governance_metrics.dfy`: the gauge parser.

## Model

| member | source | states |
|---|---|---|
| CandidState.SetAt | components/CandidUI.tsx:87 | `set(tree, path, payload)`: the payload becomes the leaf at `path`. Stored leaves strictly below `path` are replaced and a stored leaf on a prefix of `path` gives way to it; every other leaf is kept unchanged. |
| CandidState.DeleteAt | components/CandidUI.tsx:86 | `del(tree, path)`: exactly the leaves at or below `path` are removed; every other leaf keeps its value. |
| CandidState.SetKeepsTreeWellFormed | components/CandidUI.tsx:84-87 | Setting a leaf never leaves one leaf stored under another. |
| CandidState.DeleteKeepsTreeWellFormed | components/CandidUI.tsx:84-87 | Deleting a subtree keeps the tree well formed. |
| CandidState.RunKeepsInputsWellFormed | components/CandidUI.tsx:83-96 | Every input tree reached from well-formed ones (in particular from the initial state) by any sequence of messages is well formed. |
| CandidState.Reduce | components/CandidUI.tsx:44-106 | The reducer. Only an `output` message changes the history, and it appends its payload; every other kind leaves it identical. |
| CandidState.ViewsDetermineState | components/CandidUI.tsx:126-133 | The state record is exactly its five dictionaries and the history: two states that agree on every method's entries and on the history are equal. The frame lemmas below therefore say everything about the new state. |
| CandidState.ReduceIsLocal | components/CandidUI.tsx:44-106 | A message changes no method's entries but those of the method it is addressed to. |
| CandidState.LoadingEffect | components/CandidUI.tsx:54-61 | `loading` sets the method's loading flag to the payload. The method's other four entries and the history are unchanged. |
| CandidState.OutputDisplayEffect | components/CandidUI.tsx:62-69 | `outputDisplay` sets only the method's display entry; the history is unchanged. |
| CandidState.OutputEffect | components/CandidUI.tsx:70-82 | `output` stores the payload as the method's output, forces its loading flag to false and appends the payload to the history (length + 1). |
| CandidState.InputEffect | components/CandidUI.tsx:83-96 | `input` replaces only the method's input tree. With the `DELETE_ITEM` payload it is the old tree with `path` deleted; otherwise it is the old tree with `path` set to the payload. A method without a tree starts from the empty one. |
| CandidState.ErrorEffect | components/CandidUI.tsx:97-104 | `error` sets only the method's errors entry; the history is unchanged. |
| CandidState.HistoryIsOutputLog | components/CandidUI.tsx:54-104 | After any sequence of messages, the history is the old history followed by the payloads of the `output` messages, in dispatch order. It only grows at its end. |
| CandidState.ViewsAreIndependent | components/CandidUI.tsx:44-106 | A method's entries after any sequence of messages depend only on the messages addressed to that method. |
| CandidState.OutputIsLastWritten | components/CandidUI.tsx:70-82 | A method's output is the payload of the last `output` message addressed to it, or its earlier output if there is none. |
| CandidState.LoadingIsLastWritten | components/CandidUI.tsx:54-82 | A method's loading flag is set by its latest `loading` message or cleared by its latest `output` message, whichever came later. |
| CandidState.EntriesOnlyForAddressees | components/CandidUI.tsx:44-106 | After any sequence of messages, a method has an entry exactly when it had one before or was sent a message. |
| CandidMethods.MethodCmp | components/CandidUI.tsx:39 | `methodCmp` answers only 1 or -1, and -1 when the two names are equal (it never answers 0). |
| CandidMethods.MethodCmpOrdersNames | components/CandidUI.tsx:39 | On distinct names `methodCmp` answers -1 exactly when the first name sorts before the second, and swapping the arguments negates the answer. |
| CandidMethods.MethodCmpTransitive | components/CandidUI.tsx:39 | On distinct names the comparator is transitive. |
| CandidMethods.SortedIsAscending | components/CandidUI.tsx:268 | Method entries sorted by `methodCmp` are in strictly ascending order of name. |
| CandidMethods.SortedOrderIsUnique | components/CandidUI.tsx:268 | Any two arrangements of the same entries that the comparator puts in order are the same sequence, so the listing depends only on the method table. |
| CandidMethods.ReturnLabel | components/CandidUI.tsx:368-373 | With one return type the label is its short name; with none or several it is parenthesised. |
| CandidMethods.ReturnLabelLists | components/CandidUI.tsx:368-373 | The label is `"()"` for no return type. For two or more, splitting its inside at `", "` gives back every short name in order (when no short name holds a comma). |
| CandidMethods.AutoCalls | components/CandidUI.tsx:150-155 | A name is called on load exactly when it is the name of a listed method that is auto-called: protobuf methods annotated `query` whose request type has no field, and (as at lines 195-199) Candid functions whose first annotation is `query` and that take no argument. |
| CandidMethods.IsAutoCalled | components/CandidUI.tsx:195-199 | A method called on load takes no input: a Candid function with no argument type annotated `query`, or (lines 150-155) a protobuf method whose request type has no field. |
| CandidMethods.AutoCallsShowLoading | components/CandidUI.tsx:156-157 | After the load-time `loading` dispatches, every auto-called method shows as loading, and every other method's entries are as they were. |
| CandidMethods.CandidForm.StartAutoCalls | components/CandidUI.tsx:195-201 | The form requests exactly the auto-called methods and dispatches `loading = true` for each in order. The log grows by exactly those messages, and the state is the reducer's fold over them. |
| CandidMethods.CandidForm.SettleAutoCall | components/CandidUI.tsx:200-216 | A settled load-time call dispatches `outputDisplay = "Raw"` first only when it returned a value whose encoding is over 1000 bytes, then the `output`; the state is the reducer's fold over exactly those messages. |
| CandidMethods.LastLoadingOfLoadingMessages | components/CandidUI.tsx:201 | After the load-time messages, a method's loading flag is true exactly when it was auto-called, and otherwise what it was. |
| CandidMethods.Truthy | components/CandidUI.tsx:243 | JavaScript truthiness: every array and object, even an empty one, is truthy; `undefined` and `null` are not. |
| CandidMethods.AnyTruthy | components/CandidUI.tsx:243 | `errors.some(Boolean)` holds exactly when some error is truthy in the JavaScript sense. |
| CandidMethods.Argument | components/CandidUI.tsx:233-238 | `inputs[i]` is exactly the subtree stored under index `i` of the input tree. |
| CandidMethods.Validated | components/CandidUI.tsx:229-242 | A protobuf method validates its request type against input 0. A Candid function validates each argument type against its own input, one result per argument. |
| CandidMethods.CallMessages | components/CandidUI.tsx:243-248 | The gate dispatches at least one message, all addressed to the called method and all `loading` or `error` (never an `output`); it dispatches exactly one message when some error is truthy. |
| CandidMethods.OutcomePayload | components/CandidUI.tsx:254-260 | The output payload is `{ res }` when the request returned and `{ err: message }` when it threw. |
| CandidMethods.RejectedCallOnlyRecordsErrors | components/CandidUI.tsx:243-245 | When any validation error is truthy, the call only stores the error list as the method's errors. Loading flag, output, inputs, display and history stay as they were, and so does every other method's view. |
| CandidMethods.AcceptedCallLifecycle | components/CandidUI.tsx:246-262 | Otherwise the method shows loading with errors cleared while the request is out. Once it settles, loading is off, the outcome is its output and it is the last entry of the history. No other method's view changes. |
| CandidMethods.CandidForm.Call | components/CandidUI.tsx:222-248 | A call of a method the actor lacks dispatches nothing. Otherwise the call dispatches the error list if any error is truthy, or `loading` then `error = null`, and the new state is the reducer's fold over those messages. The request goes out (with the validated arguments) exactly when no error is truthy. |
| CandidMethods.CandidForm.Settle | components/CandidUI.tsx:249-262 | The settled request dispatches its outcome as the method's output. |
| CandidMethods.CandidForm.Dispatch | components/CandidUI.tsx:126 | A dispatch applies the reducer to the held state and records the message. |
| CandidMethods.CandidForm.constructor | components/CandidUI.tsx:126-133 | The form starts with every dictionary and the history empty. |
| GovernanceMetrics.ParseGauges | lib/hooks/useGovernanceMetrics.ts:20-34 | The loop yields exactly the fold `Gauges(text)` of the records, or the error of the first record that throws. |
| GovernanceMetrics.RecordsReadEveryThirdLine | lib/hooks/useGovernanceMetrics.ts:22-24 | Record k is read from the lines at offsets 3k (HELP) and 3k + 2 (sample), and only while 3k < lines − 3. |
| GovernanceMetrics.RecordCountOfLines | lib/hooks/useGovernanceMetrics.ts:22-23 | 3n + 1 lines give n records; 3n lines give n − 1. |
| GovernanceMetrics.Gauges | lib/hooks/useGovernanceMetrics.ts:20-35 | A page of fewer than four lines yields the empty dictionary, and every gauge returned is stored under its own name. |
| GovernanceMetrics.Records | lib/hooks/useGovernanceMetrics.ts:22-23 | The loop reads as many records as `RecordCount` gives for the number of lines. |
| GovernanceMetrics.Collect | lib/hooks/useGovernanceMetrics.ts:27-33 | Inserting the records in order stores every gauge under its own name. |
| GovernanceMetrics.ParsedGaugeFields | lib/hooks/useGovernanceMetrics.ts:24-30 | A parsed gauge's name, value and timestamp are the first three space-separated fields of the sample line. The value is the integer `BigInt` reads from the second field, and the timestamp is absent when there is no third field. |
| GovernanceMetrics.ParsedDescription | lib/hooks/useGovernanceMetrics.ts:25-31 | The description is the text of the HELP line after the first occurrence of the name, up to the next occurrence or the end of the line, trimmed. |
| GovernanceMetrics.ParsedDescriptionOfEmptyName | lib/hooks/useGovernanceMetrics.ts:24-31 | A sample line starting with a space has the empty name. The HELP line then splits into single characters, and the description is its second character, trimmed. |
| GovernanceMetrics.ParseRecordFailures | lib/hooks/useGovernanceMetrics.ts:24-31 | A record throws on a missing value field, on a value field `BigInt` rejects, or on a HELP line without the name, in that order of precedence (each as an if-and-only-if). |
| GovernanceMetrics.ParseRecord | lib/hooks/useGovernanceMetrics.ts:24-32 | A parsed gauge is named by the first space-separated field of its sample line, the key it is stored under. |
| GovernanceMetrics.CollectKeys | lib/hooks/useGovernanceMetrics.ts:27-28 | The dictionary's keys are exactly the records' names, and every gauge is stored under its own name. |
| GovernanceMetrics.CollectKeepsLast | lib/hooks/useGovernanceMetrics.ts:27 | Of several records with one name, the dictionary holds the last. |
| GovernanceMetrics.CollectSucceeds | lib/hooks/useGovernanceMetrics.ts:23-33 | The page yields a dictionary exactly when every record parses. |
| GovernanceMetrics.CollectFirstError | lib/hooks/useGovernanceMetrics.ts:23-33 | When the page fails, the error is that of the first record that does not parse. |
| GovernanceMetrics.FailureIsFinal | lib/hooks/useGovernanceMetrics.ts:23-33 | Once a record throws, later records change nothing. |
| GovernanceMetrics.RecordRoundTrip | lib/hooks/useGovernanceMetrics.ts:24-31 | The HELP and sample lines written for an exposable gauge parse back to that gauge. |
| GovernanceMetrics.ExpositionRoundTrip | lib/hooks/useGovernanceMetrics.ts:20-34 | The exposition of exposable gauges, with its final line break, parses to the dictionary of those gauges (later ones replacing earlier ones of the same name). |
| GovernanceMetrics.UnterminatedExpositionDropsLast | lib/hooks/useGovernanceMetrics.ts:22-23 | Without the final line break, the last gauge is lost. |
| JsString.IndexOfFrom | lib/hooks/useGovernanceMetrics.ts:25 | The search returns the first index at or after `from` where the string occurs, and there is no match before it. |
| JsString.SplitOn | lib/hooks/useGovernanceMetrics.ts:20 | `split` at a non-empty separator yields at least one piece. |
| JsString.Split | lib/hooks/useGovernanceMetrics.ts:24-25 | `split` yields at least one piece for a non-empty separator, and one piece per character for the empty separator (`arr[i].split(name)` with an empty name). |
| JsString.Join | components/CandidUI.tsx:371 | `join` starts with the first part, and its length is the parts' total length plus one separator between each two parts. |
| JsString.SplitOnPieces | lib/hooks/useGovernanceMetrics.ts:20 | No piece of `split` contains the separator, and joining the pieces with it gives the string back. |
| JsString.SplitJoin | lib/hooks/useGovernanceMetrics.ts:20 | Splitting a join gives back the parts when the separator's first character is in none of them. |
| JsString.SplitOnHasSecondPiece | lib/hooks/useGovernanceMetrics.ts:25 | A split at a non-empty separator has a second piece exactly when the separator occurs. |
| JsString.SplitSecondPiece | lib/hooks/useGovernanceMetrics.ts:25 | The second piece of a split is the text between the first match of the separator and the next one (or the end). |
| JsString.SplitCharsSecondPiece | lib/hooks/useGovernanceMetrics.ts:25 | With the empty separator, the second piece is the second character. |
| JsString.Trim | lib/hooks/useGovernanceMetrics.ts:31 | `trim()` leaves no white space at either end and never lengthens the string. |
| JsString.TrimIsSlice | lib/hooks/useGovernanceMetrics.ts:31 | What `trim()` keeps is one contiguous part of the string… |
| JsString.TrimStartRemovesWhiteSpace | lib/hooks/useGovernanceMetrics.ts:31 | …everything before that part is white space… |
| JsString.TrimRemovesTrailingWhiteSpace | lib/hooks/useGovernanceMetrics.ts:31 | …and so is everything after it. |
| JsString.TrimFixesTrimmed | lib/hooks/useGovernanceMetrics.ts:31 | Trimming changes nothing exactly when neither end is white space. |
| JsString.LexLess | components/CandidUI.tsx:39 | String `<` is irreflexive: no string is less than itself. |
| JsString.LexLessTotal | components/CandidUI.tsx:39 | Of two different strings, one is less than the other under `<`. |
| JsString.LexLessTransitive | components/CandidUI.tsx:39 | String `<` is transitive. |
| JsString.LexLessAsymmetric | components/CandidUI.tsx:39 | String `<` is asymmetric. |
| JsString.BigIntOfDecimal | lib/hooks/useGovernanceMetrics.ts:29 | `BigInt` reads back every integer written in decimal. |
| JsString.StringToBigInt | lib/hooks/useGovernanceMetrics.ts:29 | `BigInt` of an empty or all-white-space string is 0. |
| JsString.BigIntSign | lib/hooks/useGovernanceMetrics.ts:29 | `BigInt` is negative only for a string whose trimmed text starts with `-`, and a 0x, 0o or 0b numeral is never negative. |

## Left out

- JSX rendering, the React hooks (`useState`, `useReducer`, `useEffect`,
  `useCallback`) and console logging are presentation, lifecycle and output.
  `CandidForm` stands in for the state `useReducer` holds.
- Actor creation, the `eval(import(...))` of the bindings and the remote calls
  are network I/O. A request's result is a `CallOutcome` parameter (returned
  value or thrown message).
- Concurrent load-time calls are not modelled as interleavings.
  `StartAutoCalls` dispatches the `loading` messages in the order the
  interface gives the methods (`candidMethods` or `serviceDef.methodsArray`).
  `SettleAutoCall` and `Settle` dispatch one outcome each, in whatever order
  the caller settles them.
- protobufjs schema resolution (`lookupService`, `resolveAll`, `resolve`) is
  library code. A protobuf method is given by its annotation and by the number
  of fields of its request type.
- `encodeValue` is library code. `SettleAutoCall` takes the encoded length as
  a parameter, and a throw from `encodeValue` is part of the outcome parameter.
- `validate` and `getShortname` live in `lib/candid/utils`, which is not part
  of this model. They are function parameters.
- object-path-immutable is modelled on trees given by their leaves. Creating
  containers, array splicing by `del` and the difference between an object and
  an array are not represented. A missing input tree (`undefined`) reads as the
  empty tree.
- CandidState.SetAt: a payload that is itself an array or object is stored as
  one opaque leaf. A later `set` below its path replaces the whole leaf
  instead of writing inside the container, and a later read below it does not
  see the container's members.
- CandidState.DeleteAt: it removes stored leaves at or below the path. It does
  not reach inside a container payload stored as one leaf, and it does not
  splice an array, so the indices of later items do not shift as they do
  with object-path-immutable's `del`.
- CandidState.SetAt and CandidState.DeleteAt: the path key `Index(0)` and the
  property `Prop("0")` are distinct keys here, while JavaScript treats
  `obj[0]` and `obj["0"]` as the same property.
- Numbers are integers (`Num(n: int)`). NaN, fractions and `-0` are not
  represented, so `Truthy` treats only `Num(0)` as a falsy number.
- `setMethods` merging and the method table itself are not modelled beyond the
  entries handed to `AutoCalls` and the sorted-listing lemmas. The sort
  algorithm is not modelled: the listing lemmas hold for any sorted
  arrangement.
- Dictionary keys are plain strings. The special `__proto__` key of a
  JavaScript object literal is not modelled.
- `DELETE_ITEM` is one distinct value; its identity comparison is value
  equality here.
- Strings are sequences of Unicode scalar values, not UTF-16 code units.
  `methodCmp` and `indexOf` therefore agree with JavaScript on text without
  characters outside the Basic Multilingual Plane.
- The `fetch`, `res.text()` and `useQuery` caching around the gauge parser are
  I/O and a library wrapper: `ParseGauges` takes the page text.
- lib/hooks/useMetrics.ts, config.js and state/auth.ts are not part of this
  model. They are a query wrapper, environment defaults and atom definitions.
- GovernanceMetrics.ExpositionRoundTrip: it is stated for exposable gauges
  only, for the reasons given on the next line.
- GovernanceMetrics.RecordRoundTrip: it holds only for exposable gauges, and
  each condition of `Exposable` excludes gauges the parser misreads:
  - the name is non-empty and does not occur in the `# HELP ` prefix, because
    `split(name)` cuts the HELP line at the first occurrence of the name (a
    name such as `H` or `HELP` is found inside the prefix);
  - the name has no space or line break, because the sample line is cut at
    spaces and the page at line breaks;
  - the description is on one line, because the page is cut at line breaks;
  - the description is trimmed, because the parser trims it (a gauge with
    description `" x"` never reads back);
  - the description does not contain the name, because `split(name)` cuts
    the HELP line again at a second occurrence;
  - the timestamp, if any, has no space or line break, for the same reason as
    the name.
