/** The method list of the invocation form and what happens when a method is
    called: the order methods are listed in, the label of their return types,
    which methods are called on their own when the form loads, and the
    validation gate a call passes before any request is sent. */
module CandidMethods {
  import opened Wrappers
  import opened JsString
  import opened CandidState

  // ---------------------------------------------------------------------
  // Method descriptors

  /** A method as the form knows it: a Candid function (its annotations and
      argument and return types) or a protobuf method (its annotation option,
      its request message type and the number of fields that type has). */
  datatype MethodDesc<T> =
    | CandidFunc(annotations: seq<string>, argTypes: seq<T>, retTypes: seq<T>)
    | ProtobufMethod(annotation: Option<string>, requestType: T, requestFieldCount: nat)

  // ---------------------------------------------------------------------
  // Listing order

  /** The comparator the method entries are sorted with: 1 when a's name is
      greater than b's, and -1 otherwise (also when the names are equal). */
  function MethodCmp<M>(a: (string, M), b: (string, M)): (r: int)
    ensures r == 1 || r == -1
    ensures a.0 == b.0 ==> r == -1
  {
    if LexLess(b.0, a.0) then 1 else -1
  }

  /** On entries with distinct names the comparator answers -1 exactly when
      the first name sorts before the second, and swapping the entries flips
      the answer. */
  lemma MethodCmpOrdersNames<M>(a: (string, M), b: (string, M))
    requires a.0 != b.0
    ensures MethodCmp(a, b) == -1 <==> LexLess(a.0, b.0)
    ensures MethodCmp(a, b) == -MethodCmp(b, a)
  {
    LexLessTotal(a.0, b.0);
    if LexLess(a.0, b.0) {
      LexLessAsymmetric(a.0, b.0);
    }
  }

  /** The comparator is transitive on entries with distinct names. */
  lemma MethodCmpTransitive<M>(a: (string, M), b: (string, M), c: (string, M))
    requires a.0 != b.0 && b.0 != c.0
    requires MethodCmp(a, b) == -1 && MethodCmp(b, c) == -1
    ensures MethodCmp(a, c) == -1
  {
    MethodCmpOrdersNames(a, b);
    MethodCmpOrdersNames(b, c);
    LexLessTransitive(a.0, b.0, c.0);
    LexLessAsymmetric(a.0, c.0);
  }

  /** The entries of an object: no name occurs twice. */
  predicate UniqueNames<M>(xs: seq<(string, M)>) {
    forall i, j :: 0 <= i < |xs| && 0 <= j < |xs| && i != j ==> xs[i].0 != xs[j].0
  }

  /** A sequence that the comparator puts in order. */
  predicate SortedByCmp<M>(xs: seq<(string, M)>) {
    forall i, j :: 0 <= i < j < |xs| ==> MethodCmp(xs[i], xs[j]) == -1
  }

  /** Sorted entries are listed in strictly ascending order of name. */
  lemma SortedIsAscending<M>(xs: seq<(string, M)>)
    requires UniqueNames(xs) && SortedByCmp(xs)
    ensures forall i, j :: 0 <= i < j < |xs| ==> LexLess(xs[i].0, xs[j].0)
  {
    forall i, j | 0 <= i < j < |xs| ensures LexLess(xs[i].0, xs[j].0) {
      MethodCmpOrdersNames(xs[i], xs[j]);
    }
  }

  lemma MultisetTail<E>(xs: seq<E>)
    requires |xs| > 0
    ensures multiset(xs[1..]) == multiset(xs) - multiset{xs[0]}
  {
    assert xs == [xs[0]] + xs[1..];
  }

  /** Two sorted arrangements of the same entries start with the same entry. */
  lemma SortedHeadsAgree<M>(xs: seq<(string, M)>, ys: seq<(string, M)>)
    requires UniqueNames(xs) && SortedByCmp(xs) && SortedByCmp(ys)
    requires multiset(xs) == multiset(ys) && |xs| > 0
    ensures |ys| > 0 && xs[0] == ys[0]
  {
    assert xs[0] in multiset(ys);
    var k :| 0 <= k < |ys| && ys[k] == xs[0];
    assert ys[0] in multiset(xs);
    var i :| 0 <= i < |xs| && xs[i] == ys[0];
    if i != 0 && k != 0 {
      assert MethodCmp(xs[0], xs[i]) == -1 && MethodCmp(ys[0], ys[k]) == -1;
      LexLessTotal(xs[0].0, ys[0].0);
      assert false;
    }
  }

  /** The listing is determined by the method table alone: any two sorted
      arrangements of the same entries are the same sequence. */
  lemma {:induction false} SortedOrderIsUnique<M>(xs: seq<(string, M)>, ys: seq<(string, M)>)
    requires UniqueNames(xs) && SortedByCmp(xs) && SortedByCmp(ys)
    requires multiset(xs) == multiset(ys)
    ensures xs == ys
    decreases |xs|
  {
    if xs == [] {
      assert |ys| == |multiset(ys)| == 0;
    } else {
      SortedHeadsAgree(xs, ys);
      MultisetTail(xs);
      MultisetTail(ys);
      SortedOrderIsUnique(xs[1..], ys[1..]);
      assert xs == [xs[0]] + xs[1..] && ys == [ys[0]] + ys[1..];
    }
  }

  // ---------------------------------------------------------------------
  // Return-type label

  /** The label shown for a Candid method's results: "()" for none, the short
      name of the only type, or the short names joined by ", " in parentheses. */
  function ReturnLabel<T>(retTypes: seq<T>, shortname: T -> string): (r: string)
    ensures |retTypes| == 1 ==> r == shortname(retTypes[0])
    ensures |retTypes| != 1 ==> |r| >= 2 && r[0] == '(' && r[|r| - 1] == ')'
  {
    if |retTypes| == 0 then "()"
    else if |retTypes| == 1 then shortname(retTypes[0])
    else "(" + Join(ShortNames(retTypes, shortname), ", ") + ")"
  }

  function ShortNames<T>(ts: seq<T>, shortname: T -> string): (r: seq<string>)
    ensures |r| == |ts| && forall i :: 0 <= i < |ts| ==> r[i] == shortname(ts[i])
  {
    seq(|ts|, i requires 0 <= i < |ts| => shortname(ts[i]))
  }

  /** The label names no type when there are none; with several, as long as
      no short name holds a comma, splitting its inside at ", " gives back
      every short name in order. */
  lemma ReturnLabelLists<T>(retTypes: seq<T>, shortname: T -> string)
    ensures |retTypes| == 0 ==> ReturnLabel(retTypes, shortname) == "()"
    ensures |retTypes| >= 2 && (forall t :: t in retTypes ==> ',' !in shortname(t)) ==>
      var r := ReturnLabel(retTypes, shortname);
      |r| >= 2 && r[0] == '(' && r[|r| - 1] == ')'
      && SplitOn(r[1..|r| - 1], ", ") == ShortNames(retTypes, shortname)
  {
    if |retTypes| >= 2 && (forall t :: t in retTypes ==> ',' !in shortname(t)) {
      var names := ShortNames(retTypes, shortname);
      var inner := Join(names, ", ");
      var r := ReturnLabel(retTypes, shortname);
      assert r == "(" + inner + ")";
      assert r[1..|r| - 1] == inner;
      forall k | 0 <= k < |names| ensures ", "[0] !in names[k] {
        assert retTypes[k] in retTypes;
      }
      SplitJoin(names, ", ");
    }
  }

  // ---------------------------------------------------------------------
  // Methods called when the form loads

  /** A query method that takes no argument is called as soon as it is known:
      a Candid function whose first annotation is "query" and that has no
      argument types, or a protobuf method with the "query" annotation whose
      request type has no fields. */
  predicate IsAutoCalled<T>(d: MethodDesc<T>)
    ensures IsAutoCalled(d) && d.CandidFunc? ==> |d.argTypes| == 0 && "query" in d.annotations
    ensures IsAutoCalled(d) && d.ProtobufMethod? ==> d.requestFieldCount == 0
  {
    match d
    case CandidFunc(annotations, argTypes, _) =>
      |annotations| > 0 && annotations[0] == "query" && |argTypes| == 0
    case ProtobufMethod(annotation, _, fieldCount) =>
      annotation == Some("query") && fieldCount == 0
  }

  /** The names of the methods called on load, in the order they are listed. */
  function AutoCalls<T>(methods: seq<(string, MethodDesc<T>)>): (r: seq<string>)
    ensures |r| <= |methods|
    ensures forall n :: n in r <==> exists i :: 0 <= i < |methods| && methods[i].0 == n && IsAutoCalled(methods[i].1)
  {
    if methods == [] then []
    else
      var front, last := methods[..|methods| - 1], methods[|methods| - 1];
      AutoCalls(front) + (if IsAutoCalled(last.1) then [last.0] else [])
  }

  /** The loading messages dispatched before the load-time requests go out. */
  function LoadingMessages(names: seq<string>): (r: seq<Msg>)
    ensures |r| == |names|
    ensures forall i :: 0 <= i < |names| ==> r[i] == Loading(names[i], Bool(true))
  {
    seq(|names|, i requires 0 <= i < |names| => Loading(names[i], Bool(true)))
  }

  /** The loading messages of one more name. */
  lemma LoadingMessagesSnoc(names: seq<string>, k: nat)
    requires k < |names|
    ensures LoadingMessages(names[..k + 1]) == LoadingMessages(names[..k]) + [Loading(names[k], Bool(true))]
  {
  }

  lemma {:induction false} LastLoadingOfLoadingMessages(names: seq<string>, func: string, before: Option<Value>)
    ensures LastLoading(LoadingMessages(names), func, before) == if func in names then Some(Bool(true)) else before
    decreases |names|
  {
    if names != [] {
      var front := names[..|names| - 1];
      assert LoadingMessages(names)[..|names| - 1] == LoadingMessages(front);
      LastLoadingOfLoadingMessages(front, func, before);
      assert names == front + [names[|names| - 1]];
    }
  }

  lemma {:induction false} LoadingMessagesFor(names: seq<string>, func: string)
    requires func !in names
    ensures MessagesFor(LoadingMessages(names), func) == []
    decreases |names|
  {
    if names != [] {
      var front := names[..|names| - 1];
      assert LoadingMessages(names)[..|names| - 1] == LoadingMessages(front);
      LoadingMessagesFor(front, func);
    }
  }

  /** Once the form loads, every method called on load shows as loading and
      every other method's view is as it was. */
  lemma AutoCallsShowLoading<T>(s: State, methods: seq<(string, MethodDesc<T>)>)
    ensures forall i :: 0 <= i < |methods| && IsAutoCalled(methods[i].1) ==>
      ViewOf(Run(s, LoadingMessages(AutoCalls(methods))), methods[i].0).isLoading == Some(Bool(true))
    ensures forall f :: f !in AutoCalls(methods) ==>
      ViewOf(Run(s, LoadingMessages(AutoCalls(methods))), f) == ViewOf(s, f)
  {
    var names := AutoCalls(methods);
    var msgs := LoadingMessages(names);
    forall i | 0 <= i < |methods| && IsAutoCalled(methods[i].1)
      ensures ViewOf(Run(s, msgs), methods[i].0).isLoading == Some(Bool(true))
    {
      LoadingIsLastWritten(s, msgs, methods[i].0);
      LastLoadingOfLoadingMessages(names, methods[i].0, ViewOf(s, methods[i].0).isLoading);
    }
    forall f | f !in names ensures ViewOf(Run(s, msgs), f) == ViewOf(s, f) {
      ViewsAreIndependent(s, msgs, f);
      LoadingMessagesFor(names, f);
    }
  }

  // ---------------------------------------------------------------------
  // The validation gate of a call

  /** JavaScript truthiness: undefined, null, false, 0 and "" are false;
      every array and object, even an empty one, is true. */
  predicate Truthy(v: Value)
    ensures v.Arr? || v.Obj? ==> Truthy(v)
    ensures Truthy(v) ==> !v.Undefined? && !v.Null?
  {
    !(v.Undefined? || v.Null? || v == Bool(false) || v == Num(0) || v == Str(""))
  }

  /** errors.some(Boolean) */
  function AnyTruthy(errors: seq<Value>): (r: bool)
    ensures r <==> exists i :: 0 <= i < |errors| && Truthy(errors[i])
  {
    if errors == [] then false
    else Truthy(errors[|errors| - 1]) || AnyTruthy(errors[..|errors| - 1])
  }

  /** The part of an input tree stored under one argument position. */
  function Argument(inputs: Tree, i: nat): (r: Tree)
    ensures forall q :: q in r <==> [Index(i)] + q in inputs
    ensures forall q :: q in r ==> r[q] == inputs[[Index(i)] + q]
  {
    var below := set p | p in inputs && |p| >= 1 && p[0] == Index(i) :: p[1..];
    assert forall q :: q in below ==> [Index(i)] + q in inputs by {
      forall q | q in below ensures [Index(i)] + q in inputs {
        var p :| p in inputs && |p| >= 1 && p[0] == Index(i) && q == p[1..];
        assert p == [Index(i)] + q;
      }
    }
    assert forall q :: [Index(i)] + q in inputs ==> q in below by {
      forall q | [Index(i)] + q in inputs ensures q in below {
        assert ([Index(i)] + q)[1..] == q;
      }
    }
    map q | q in below :: inputs[[Index(i)] + q]
  }

  /** The [value, error] pairs the validator gives, one per argument: the
      request type against input 0 for a protobuf method, each argument type
      against its own input for a Candid function. */
  function Validated<T>(d: MethodDesc<T>, inputs: Tree, validate: (T, Tree) -> (Value, Value)): (r: seq<(Value, Value)>)
    ensures d.ProtobufMethod? ==> r == [validate(d.requestType, Argument(inputs, 0))]
    ensures d.CandidFunc? ==> (|r| == |d.argTypes|
      && forall i :: 0 <= i < |r| ==> r[i] == validate(d.argTypes[i], Argument(inputs, i)))
  {
    match d
    case ProtobufMethod(_, requestType, _) => [validate(requestType, Argument(inputs, 0))]
    case CandidFunc(_, argTypes, _) =>
      seq(|argTypes|, i requires 0 <= i < |argTypes| => validate(argTypes[i], Argument(inputs, i)))
  }

  function Args(validated: seq<(Value, Value)>): (r: seq<Value>)
    ensures |r| == |validated| && forall i :: 0 <= i < |r| ==> r[i] == validated[i].0
  {
    seq(|validated|, i requires 0 <= i < |validated| => validated[i].0)
  }

  function Errors(validated: seq<(Value, Value)>): (r: seq<Value>)
    ensures |r| == |validated| && forall i :: 0 <= i < |r| ==> r[i] == validated[i].1
  {
    seq(|validated|, i requires 0 <= i < |validated| => validated[i].1)
  }

  /** What a call of an existing method dispatches before its request goes
      out: the list of errors if any is truthy, and otherwise loading on and
      errors cleared. */
  function CallMessages(func: string, validated: seq<(Value, Value)>): (r: seq<Msg>)
    ensures |r| >= 1 && forall i :: 0 <= i < |r| ==> r[i].func == func && (r[i].Loading? || r[i].Error?)
    ensures |r| == 1 <==> AnyTruthy(Errors(validated))
  {
    if AnyTruthy(Errors(validated)) then [Error(func, Arr(Errors(validated)))]
    else [Loading(func, Bool(true)), Error(func, Null)]
  }

  /** How a request ended: it returned a value, or it threw an error with a message. */
  datatype CallOutcome = Returned(result: Value) | Threw(message: string)

  /** The payload of the output message: { res } or { err: message }. */
  function OutcomePayload(outcome: CallOutcome): (r: Value)
    ensures r.Obj? && |r.fields| == 1
    ensures outcome.Returned? ==> "res" in r.fields && r.fields["res"] == outcome.result
    ensures outcome.Threw? ==> "err" in r.fields && r.fields["err"] == Str(outcome.message)
  {
    match outcome
    case Returned(v) => Obj(map["res" := v])
    case Threw(message) => Obj(map["err" := Str(message)])
  }

  /** A call whose validation reports an error records the errors and leaves
      the method's loading flag, output, inputs and the history untouched. */
  lemma RejectedCallOnlyRecordsErrors(s: State, func: string, validated: seq<(Value, Value)>)
    requires AnyTruthy(Errors(validated))
    ensures var v := ViewOf(Run(s, CallMessages(func, validated)), func);
      v == ViewOf(s, func).(error := Some(Arr(Errors(validated))))
    ensures Run(s, CallMessages(func, validated)).history == s.history
    ensures forall f :: f != func ==> ViewOf(Run(s, CallMessages(func, validated)), f) == ViewOf(s, f)
  {
    var msgs := CallMessages(func, validated);
    assert msgs[..0] == [];
    ReduceIsLocal(s, msgs[0]);
  }

  /** A call that passes validation shows as loading with its errors cleared
      while the request is out; when it settles, loading is off, the outcome
      is the method's output and the last entry of the history. */
  lemma AcceptedCallLifecycle(s: State, func: string, validated: seq<(Value, Value)>, outcome: CallOutcome)
    requires !AnyTruthy(Errors(validated))
    ensures var pending := Run(s, CallMessages(func, validated));
      ViewOf(pending, func) == ViewOf(s, func).(isLoading := Some(Bool(true)), error := Some(Null))
      && pending.history == s.history
    ensures var done := Run(s, CallMessages(func, validated) + [Output(func, OutcomePayload(outcome))]);
      ViewOf(done, func) == ViewOf(s, func).(isLoading := Some(Bool(false)), error := Some(Null),
                                             output := Some(OutcomePayload(outcome)))
      && done.history == s.history + [OutcomePayload(outcome)]
    ensures forall f :: f != func ==>
      && ViewOf(Run(s, CallMessages(func, validated)), f) == ViewOf(s, f)
      && ViewOf(Run(s, CallMessages(func, validated) + [Output(func, OutcomePayload(outcome))]), f) == ViewOf(s, f)
  {
    var a, b, c := Loading(func, Bool(true)), Error(func, Null), Output(func, OutcomePayload(outcome));
    assert CallMessages(func, validated) == [a, b];
    assert [a][..0] == [] && [a, b][..1] == [a] && ([a, b] + [c])[..2] == [a, b];
    assert Run(s, [a]) == Reduce(s, a);
    assert Run(s, [a, b]) == Reduce(Reduce(s, a), b);
    LoadingEffect(s, func, Bool(true));
    ErrorEffect(Reduce(s, a), func, Null);
    OutputEffect(Run(s, [a, b]), func, OutcomePayload(outcome));
    ReduceIsLocal(s, a);
    ReduceIsLocal(Reduce(s, a), b);
    ReduceIsLocal(Run(s, [a, b]), c);
  }

  // ---------------------------------------------------------------------
  // The form

  /** The form holds the reducer's state; log is every message dispatched to it. */
  class CandidForm {
    var state: State
    ghost var log: seq<Msg>

    ghost predicate Valid()
      reads this
    {
      state == Run(Initial(), log)
    }

    constructor ()
      ensures Valid() && log == [] && state == Initial()
    {
      state := Initial();
      log := [];
    }

    method Dispatch(m: Msg)
      requires Valid()
      modifies this
      ensures Valid()
      ensures log == old(log) + [m] && state == Reduce(old(state), m)
    {
      state := Reduce(state, m);
      log := log + [m];
      assert log[..|log| - 1] == old(log);
    }

    /** The load-time calls: every method called on load is marked loading,
      in the order the interface gives the methods; the names whose requests then go out are returned. */
    method StartAutoCalls<T>(methods: seq<(string, MethodDesc<T>)>) returns (requested: seq<string>)
      requires Valid()
      modifies this
      ensures Valid()
      ensures requested == AutoCalls(methods)
      ensures log == old(log) + LoadingMessages(requested)
      ensures state == Run(old(state), LoadingMessages(requested))
    {
      requested := AutoCalls(methods);
      ghost var before := state;
      for k := 0 to |requested|
        invariant Valid()
        invariant log == old(log) + LoadingMessages(requested[..k])
        invariant state == Run(before, LoadingMessages(requested[..k]))
      {
        Dispatch(Loading(requested[k], Bool(true)));
        RunSnoc(before, LoadingMessages(requested[..k]), Loading(requested[k], Bool(true)));
        LoadingMessagesSnoc(requested, k);
      }
      assert requested[..|requested|] == requested;
    }

    /** A load-time Candid call settles: a returned value whose encoding is
      longer than 1000 bytes switches the display to "Raw" first. */
    method SettleAutoCall(func: string, outcome: CallOutcome, encodedLength: nat)
      requires Valid()
      modifies this
      ensures Valid()
      ensures var raw := if outcome.Returned? && encodedLength > 1000 then [OutputDisplay(func, Str("Raw"))] else [];
        log == old(log) + raw + [Output(func, OutcomePayload(outcome))]
        && state == Run(old(state), raw + [Output(func, OutcomePayload(outcome))])
    {
      ghost var s0 := state;
      ghost var raw: seq<Msg> := [];
      if outcome.Returned? && encodedLength > 1000 {
        Dispatch(OutputDisplay(func, Str("Raw")));
        raw := [OutputDisplay(func, Str("Raw"))];
        RunSnoc(s0, [], raw[0]);
        assert [] + raw == raw;
      }
      ghost var s1 := state;
      Dispatch(Output(func, OutcomePayload(outcome)));
      assert s1 == Run(s0, raw);
      RunSnoc(s0, raw, Output(func, OutcomePayload(outcome)));
    }

    /** A call from the form, up to the point where its request goes out.
      Nothing is dispatched for a method the actor does not have; otherwise
      the arguments are validated against the method's inputs and the request
      is returned only if no error is truthy. */
    method Call<T>(func: string, d: MethodDesc<T>, hasFunction: bool, validate: (T, Tree) -> (Value, Value))
      returns (request: Option<seq<Value>>)
      requires Valid()
      modifies this
      ensures Valid()
      ensures !hasFunction ==> request == None && log == old(log) && state == old(state)
      ensures hasFunction ==>
        var validated := Validated(d, InputsOf(old(state), func), validate);
        log == old(log) + CallMessages(func, validated)
        && state == Run(old(state), CallMessages(func, validated))
        && (request.Some? <==> !AnyTruthy(Errors(validated)))
        && (request.Some? ==> request.value == Args(validated))
    {
      if !hasFunction {
        return None;
      }
      var validated := Validated(d, InputsOf(state, func), validate);
      var errors := Errors(validated);
      ghost var before := log;
      if AnyTruthy(errors) {
        Dispatch(Error(func, Arr(errors)));
        request := None;
        assert log == before + CallMessages(func, validated);
      } else {
        Dispatch(Loading(func, Bool(true)));
        Dispatch(Error(func, Null));
        request := Some(Args(validated));
        assert log == before + CallMessages(func, validated);
      }
      RunAppend(Initial(), before, CallMessages(func, validated));
    }

    /** The request of a call settles: its outcome is dispatched as the output. */
    method Settle(func: string, outcome: CallOutcome)
      requires Valid()
      modifies this
      ensures Valid()
      ensures log == old(log) + [Output(func, OutcomePayload(outcome))]
      ensures state == Reduce(old(state), Output(func, OutcomePayload(outcome)))
    {
      Dispatch(Output(func, OutcomePayload(outcome)));
    }
  }
}
