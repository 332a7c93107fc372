/** The per-method state of the dynamic method-invocation form: one record of
    five dictionaries keyed by method name (loading flag, input tree, errors,
    last output, chosen output display) and the list of every output
    received. A single reducer applies the five kinds of message, each of
    which rebuilds the record and replaces one method's entries. */
module CandidState {
  import opened Wrappers

  // ---------------------------------------------------------------------
  // Values and input trees

  /** A JavaScript value as the reducer stores it; DeleteItem is the
      DELETE_ITEM sentinel an input editor sends to remove an item. */
  datatype Value =
    | Undefined
    | Null
    | Bool(b: bool)
    | Num(n: int)
    | Str(s: string)
    | Arr(items: seq<Value>)
    | Obj(fields: map<string, Value>)
    | DeleteItem

  /** One step of a path into an input tree: an array index or a property name. */
  datatype PathKey = Index(i: nat) | Prop(name: string)

  type Path = seq<PathKey>

  /** An input tree, given by its leaves: the value stored at each path. */
  type Tree = map<Path, Value>

  predicate IsPrefix(p: Path, q: Path) {
    |p| <= |q| && q[..|p|] == p
  }

  /** No leaf of the tree lies below another leaf. */
  ghost predicate WellFormedTree(t: Tree) {
    forall p, q :: p in t && q in t && p != q ==> !IsPrefix(p, q)
  }

  /** set(tree, path, value): value becomes the leaf at path; what was stored
      below path is replaced, and a leaf above path becomes an inner node. */
  function SetAt(t: Tree, path: Path, v: Value): (r: Tree)
    ensures path in r && r[path] == v
    ensures forall q :: q in r && q != path ==> q in t && r[q] == t[q]
    ensures forall q :: q in r && q != path ==> !IsPrefix(path, q) && !IsPrefix(q, path)
    ensures forall q :: q in t && !IsPrefix(path, q) && !IsPrefix(q, path) ==> q in r && r[q] == t[q]
  {
    (map q | q in t && !IsPrefix(path, q) && !IsPrefix(q, path) :: t[q])[path := v]
  }

  /** del(tree, path): the subtree at path is removed, all else is kept. */
  function DeleteAt(t: Tree, path: Path): (r: Tree)
    ensures forall q :: q in r <==> q in t && !IsPrefix(path, q)
    ensures forall q :: q in r ==> r[q] == t[q]
  {
    map q | q in t && !IsPrefix(path, q) :: t[q]
  }

  /** Setting a leaf keeps a tree well formed. */
  lemma SetKeepsTreeWellFormed(t: Tree, path: Path, v: Value)
    requires WellFormedTree(t)
    ensures WellFormedTree(SetAt(t, path, v))
  {
  }

  /** Deleting a subtree keeps a tree well formed. */
  lemma DeleteKeepsTreeWellFormed(t: Tree, path: Path)
    requires WellFormedTree(t)
    ensures WellFormedTree(DeleteAt(t, path))
  {
  }

  // ---------------------------------------------------------------------
  // State and messages

  datatype State = State(
    isLoading: map<string, Value>,
    inputs: map<string, Tree>,
    errors: map<string, Value>,
    outputs: map<string, Value>,
    outputDisplays: map<string, Value>,
    history: seq<Value>)

  /** The state the form starts from: every dictionary and the history empty. */
  function Initial(): State {
    State(map[], map[], map[], map[], map[], [])
  }

  /** The five kinds of message, each addressed to one method. */
  datatype Msg =
    | Loading(func: string, payload: Value)
    | OutputDisplay(func: string, payload: Value)
    | Output(func: string, payload: Value)
    | Input(func: string, path: Path, payload: Value)
    | Error(func: string, payload: Value)

  /** The input tree of a method; a method without one reads as the empty tree. */
  function InputsOf(s: State, func: string): Tree {
    if func in s.inputs then s.inputs[func] else map[]
  }

  /** The reducer. Only an output message changes the history, and it
      appends its payload. */
  function Reduce(s: State, m: Msg): (r: State)
    ensures r.history == if m.Output? then s.history + [m.payload] else s.history
  {
    match m
    case Loading(func, payload) =>
      s.(isLoading := s.isLoading[func := payload])
    case OutputDisplay(func, payload) =>
      s.(outputDisplays := s.outputDisplays[func := payload])
    case Output(func, payload) =>
      s.(isLoading := s.isLoading[func := Bool(false)],
         outputs := s.outputs[func := payload],
         history := s.history + [payload])
    case Input(func, path, payload) =>
      var data := if payload == DeleteItem then DeleteAt(InputsOf(s, func), path)
                  else SetAt(InputsOf(s, func), path, payload);
      s.(inputs := s.inputs[func := data])
    case Error(func, payload) =>
      s.(errors := s.errors[func := payload])
  }

  // ---------------------------------------------------------------------
  // One method's view

  /** What the form of one method reads from the state: its entry, if any,
      in each of the five dictionaries. */
  datatype View = View(
    isLoading: Option<Value>,
    inputs: Option<Tree>,
    error: Option<Value>,
    output: Option<Value>,
    outputDisplay: Option<Value>)

  function Lookup<V>(m: map<string, V>, k: string): Option<V> {
    if k in m then Some(m[k]) else None
  }

  function ViewOf(s: State, func: string): View {
    View(Lookup(s.isLoading, func), Lookup(s.inputs, func), Lookup(s.errors, func),
         Lookup(s.outputs, func), Lookup(s.outputDisplays, func))
  }

  /** Two dictionaries that agree on every lookup are equal. */
  lemma LookupsDetermineMap<V>(a: map<string, V>, b: map<string, V>)
    requires forall f :: Lookup(a, f) == Lookup(b, f)
    ensures a == b
  {
    assert forall f :: f in a <==> Lookup(a, f).Some?;
    assert forall f :: f in b <==> Lookup(b, f).Some?;
    assert a.Keys == b.Keys;
    forall f | f in a ensures a[f] == b[f] {
      assert Lookup(a, f) == Lookup(b, f);
    }
  }

  /** Two states with the same views of every method and the same history are equal. */
  lemma ViewsDetermineState(a: State, b: State)
    requires forall f :: ViewOf(a, f) == ViewOf(b, f)
    requires a.history == b.history
    ensures a == b
  {
    forall f ensures Lookup(a.isLoading, f) == Lookup(b.isLoading, f) && Lookup(a.inputs, f) == Lookup(b.inputs, f)
      && Lookup(a.errors, f) == Lookup(b.errors, f) && Lookup(a.outputs, f) == Lookup(b.outputs, f)
      && Lookup(a.outputDisplays, f) == Lookup(b.outputDisplays, f)
    {
      assert ViewOf(a, f) == ViewOf(b, f);
    }
    LookupsDetermineMap(a.isLoading, b.isLoading);
    LookupsDetermineMap(a.inputs, b.inputs);
    LookupsDetermineMap(a.errors, b.errors);
    LookupsDetermineMap(a.outputs, b.outputs);
    LookupsDetermineMap(a.outputDisplays, b.outputDisplays);
  }

  /** A message changes the view of no method but the one it is addressed to. */
  lemma ReduceIsLocal(s: State, m: Msg)
    ensures forall f :: f != m.func ==> ViewOf(Reduce(s, m), f) == ViewOf(s, f)
  {
  }

  /** loading: sets the method's loading flag to the payload; nothing else changes. */
  lemma LoadingEffect(s: State, func: string, payload: Value)
    ensures ViewOf(Reduce(s, Loading(func, payload)), func) == ViewOf(s, func).(isLoading := Some(payload))
    ensures Reduce(s, Loading(func, payload)).history == s.history
  {
  }

  /** outputDisplay: sets the method's display mode; nothing else changes. */
  lemma OutputDisplayEffect(s: State, func: string, payload: Value)
    ensures ViewOf(Reduce(s, OutputDisplay(func, payload)), func) == ViewOf(s, func).(outputDisplay := Some(payload))
    ensures Reduce(s, OutputDisplay(func, payload)).history == s.history
  {
  }

  /** output: stores the payload as the method's output, clears its loading
      flag and appends the payload to the history. */
  lemma OutputEffect(s: State, func: string, payload: Value)
    ensures ViewOf(Reduce(s, Output(func, payload)), func)
         == ViewOf(s, func).(isLoading := Some(Bool(false)), output := Some(payload))
    ensures Reduce(s, Output(func, payload)).history == s.history + [payload]
    ensures |Reduce(s, Output(func, payload)).history| == |s.history| + 1
  {
  }

  /** input: replaces the method's input tree by the old one with the path
      deleted (DELETE_ITEM) or set to the payload; nothing else changes. */
  lemma InputEffect(s: State, func: string, path: Path, payload: Value)
    ensures ViewOf(Reduce(s, Input(func, path, payload)), func)
         == ViewOf(s, func).(inputs := Some(if payload == DeleteItem then DeleteAt(InputsOf(s, func), path)
                                            else SetAt(InputsOf(s, func), path, payload)))
    ensures Reduce(s, Input(func, path, payload)).history == s.history
  {
  }

  /** error: sets the method's errors to the payload; nothing else changes. */
  lemma ErrorEffect(s: State, func: string, payload: Value)
    ensures ViewOf(Reduce(s, Error(func, payload)), func) == ViewOf(s, func).(error := Some(payload))
    ensures Reduce(s, Error(func, payload)).history == s.history
  {
  }

  // ---------------------------------------------------------------------
  // Sequences of messages

  /** The state after the messages are dispatched in order. */
  function Run(s: State, msgs: seq<Msg>): State
  {
    if msgs == [] then s else Reduce(Run(s, msgs[..|msgs| - 1]), msgs[|msgs| - 1])
  }

  /** The payloads of the output messages, in order. */
  function OutputPayloads(msgs: seq<Msg>): seq<Value>
  {
    if msgs == [] then []
    else OutputPayloads(msgs[..|msgs| - 1]) + (if msgs[|msgs| - 1].Output? then [msgs[|msgs| - 1].payload] else [])
  }

  /** The messages addressed to one method, in order. */
  function MessagesFor(msgs: seq<Msg>, func: string): seq<Msg>
  {
    if msgs == [] then []
    else MessagesFor(msgs[..|msgs| - 1], func) + (if msgs[|msgs| - 1].func == func then [msgs[|msgs| - 1]] else [])
  }

  /** A message acts on its method's view alone: two states that agree on that
      view still agree on it after the message. */
  lemma SameViewSameStep(a: State, b: State, m: Msg)
    requires ViewOf(a, m.func) == ViewOf(b, m.func)
    ensures ViewOf(Reduce(a, m), m.func) == ViewOf(Reduce(b, m), m.func)
  {
    if m.Input? {
      assert InputsOf(a, m.func) == InputsOf(b, m.func) by {
        assert ViewOf(a, m.func).inputs == ViewOf(b, m.func).inputs;
      }
    }
  }

  /** Dispatching one more message after a list. */
  lemma RunSnoc(s: State, msgs: seq<Msg>, m: Msg)
    ensures Run(s, msgs + [m]) == Reduce(Run(s, msgs), m)
  {
    assert (msgs + [m])[..|msgs|] == msgs;
  }

  /** Dispatching first one list and then another is dispatching both. */
  lemma {:induction false} RunAppend(s: State, a: seq<Msg>, b: seq<Msg>)
    ensures Run(s, a + b) == Run(Run(s, a), b)
    decreases |b|
  {
    if b == [] {
      assert a + b == a;
    } else {
      assert (a + b)[..|a + b| - 1] == a + b[..|b| - 1];
      RunAppend(s, a, b[..|b| - 1]);
    }
  }

  /** The history is the old history followed by the payload of every output
      message, in the order they were dispatched: it only ever grows at its end. */
  lemma {:induction false} HistoryIsOutputLog(s: State, msgs: seq<Msg>)
    ensures Run(s, msgs).history == s.history + OutputPayloads(msgs)
    decreases |msgs|
  {
    if msgs != [] {
      var front, last := msgs[..|msgs| - 1], msgs[|msgs| - 1];
      HistoryIsOutputLog(s, front);
      ReduceIsLocal(Run(s, front), last);
      assert Run(s, msgs).history == Reduce(Run(s, front), last).history;
    }
  }

  /** Each method's view depends only on the messages addressed to it: the
      methods' lifecycles are independent of each other. */
  lemma {:induction false} ViewsAreIndependent(s: State, msgs: seq<Msg>, func: string)
    ensures ViewOf(Run(s, msgs), func) == ViewOf(Run(s, MessagesFor(msgs, func)), func)
    decreases |msgs|
  {
    if msgs != [] {
      var front, last := msgs[..|msgs| - 1], msgs[|msgs| - 1];
      ViewsAreIndependent(s, front, func);
      if last.func == func {
        var a, b := Run(s, front), Run(s, MessagesFor(front, func));
        SameViewSameStep(a, b, last);
        RunAppend(s, MessagesFor(front, func), [last]);
        assert Run(b, [last]) == Reduce(Run(b, []), last);
        assert MessagesFor(msgs, func) == MessagesFor(front, func) + [last];
      } else {
        ReduceIsLocal(Run(s, front), last);
        assert MessagesFor(msgs, func) == MessagesFor(front, func);
      }
    }
  }

  /** The output a method shows is the payload of the last output message
      addressed to it, or what it showed before if there is none. */
  function LastOutput(msgs: seq<Msg>, func: string, before: Option<Value>): Option<Value>
  {
    if msgs == [] then before
    else if msgs[|msgs| - 1].Output? && msgs[|msgs| - 1].func == func then Some(msgs[|msgs| - 1].payload)
    else LastOutput(msgs[..|msgs| - 1], func, before)
  }

  /** The loading flag a method shows is set by its last loading message, or
      cleared by its last output message, whichever came later. */
  function LastLoading(msgs: seq<Msg>, func: string, before: Option<Value>): Option<Value>
  {
    if msgs == [] then before
    else
      var m := msgs[|msgs| - 1];
      if m.Loading? && m.func == func then Some(m.payload)
      else if m.Output? && m.func == func then Some(Bool(false))
      else LastLoading(msgs[..|msgs| - 1], func, before)
  }

  lemma {:induction false} OutputIsLastWritten(s: State, msgs: seq<Msg>, func: string)
    ensures ViewOf(Run(s, msgs), func).output == LastOutput(msgs, func, ViewOf(s, func).output)
    decreases |msgs|
  {
    if msgs != [] {
      OutputIsLastWritten(s, msgs[..|msgs| - 1], func);
      OutputStep(Run(s, msgs[..|msgs| - 1]), msgs[|msgs| - 1], func);
    }
  }

  lemma OutputStep(s: State, m: Msg, func: string)
    ensures ViewOf(Reduce(s, m), func).output
         == if m.Output? && m.func == func then Some(m.payload) else ViewOf(s, func).output
  {
  }

  lemma LoadingStep(s: State, m: Msg, func: string)
    ensures ViewOf(Reduce(s, m), func).isLoading
         == if m.Loading? && m.func == func then Some(m.payload)
            else if m.Output? && m.func == func then Some(Bool(false))
            else ViewOf(s, func).isLoading
  {
  }

  lemma {:induction false} LoadingIsLastWritten(s: State, msgs: seq<Msg>, func: string)
    ensures ViewOf(Run(s, msgs), func).isLoading == LastLoading(msgs, func, ViewOf(s, func).isLoading)
    decreases |msgs|
  {
    if msgs != [] {
      LoadingIsLastWritten(s, msgs[..|msgs| - 1], func);
      LoadingStep(Run(s, msgs[..|msgs| - 1]), msgs[|msgs| - 1], func);
    }
  }

  /** The methods the messages are addressed to. */
  function Addressees(msgs: seq<Msg>): set<string>
  {
    if msgs == [] then {} else Addressees(msgs[..|msgs| - 1]) + {msgs[|msgs| - 1].func}
  }

  /** The method has an entry in one of the dictionaries. */
  predicate HasEntry(s: State, func: string) {
    func in s.isLoading || func in s.inputs || func in s.errors || func in s.outputs || func in s.outputDisplays
  }

  /** A message gives its method an entry and no other method a new one. */
  lemma EntriesStep(s: State, m: Msg, func: string)
    ensures HasEntry(Reduce(s, m), func) <==> HasEntry(s, func) || func == m.func
  {
  }

  /** A method has an entry exactly when it had one before or was sent a message. */
  lemma {:induction false} EntriesOnlyForAddressees(s: State, msgs: seq<Msg>, func: string)
    ensures HasEntry(Run(s, msgs), func) <==> HasEntry(s, func) || func in Addressees(msgs)
    decreases |msgs|
  {
    if msgs != [] {
      var front := msgs[..|msgs| - 1];
      EntriesOnlyForAddressees(s, front, func);
      EntriesStep(Run(s, front), msgs[|msgs| - 1], func);
    }
  }

  /** Every input tree of the state is well formed. */
  ghost predicate InputsWellFormed(s: State) {
    forall f :: f in s.inputs ==> WellFormedTree(s.inputs[f])
  }

  /** Dispatching messages keeps every input tree well formed; in particular
      every input tree of a state reached from the initial one is. */
  lemma {:induction false} RunKeepsInputsWellFormed(s: State, msgs: seq<Msg>)
    requires InputsWellFormed(s)
    ensures InputsWellFormed(Run(s, msgs))
    decreases |msgs|
  {
    if msgs != [] {
      var front, m := msgs[..|msgs| - 1], msgs[|msgs| - 1];
      RunKeepsInputsWellFormed(s, front);
      var t := Run(s, front);
      if m.Input? {
        var tree := InputsOf(t, m.func);
        assert WellFormedTree(tree);
        if m.payload == DeleteItem {
          DeleteKeepsTreeWellFormed(tree, m.path);
        } else {
          SetKeepsTreeWellFormed(tree, m.path, m.payload);
        }
      }
    }
  }
}
