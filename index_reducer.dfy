/** The Todo slice of src/modules/index/IndexReducer.ts: its state, its five
    action creators, the reducer, and the two epics reduced to the follow-up
    action each one dispatches (the one-second delay is left out). */
module IndexReducer {
  import opened Wrappers
  import opened Todos
  import opened Guards

  const SET_TITLE := "boilerplate/Index/SET_TITLE"
  const SAVE_TODO := "boilerplate/Index/SAVE_TODO"
  const SAVE_TODO_SUCCESS := "boilerplate/Index/SAVE_TODO_SUCCESS"
  const SET_DONE := "boilerplate/Index/SET_DONE"
  const SET_DONE_SUCCESS := "boilerplate/Index/SET_DONE_SUCCESS"

  const IndexKinds: set<string> := {SET_TITLE, SAVE_TODO, SAVE_TODO_SUCCESS, SET_DONE, SET_DONE_SUCCESS}

  /** The type of an action that belongs to another slice. */
  type ForeignKind = k: string | k !in IndexKinds witness ""

  /** `IndexState`: the draft title, the list in display order, the loading flag. */
  datatype State = State(title: string, todos: seq<Todo>, loading: bool)

  /** `new IndexState()`, the state before any action. */
  const Initial := State("", [], false)

  datatype Action =
    | SetTitle(title: string)
    | SaveTodo
    | SaveTodoSuccess
    | SetDone(id: int)
    | SetDoneSuccess(id: int)
    | Other(kind: ForeignKind)

  // The five creators, each built with `makeAction(TYPE)` and the default prefix.

  const PayloadKey := "payload"

  const SetTitleCreator: Creator<string> :=
    Wrap(Wrapper(SET_TITLE, ""), (title: string) => map[TypeKey := Str(SET_TITLE), PayloadKey := Str(title)])
  const SaveTodoCreator: Creator<()> :=
    Wrap(Wrapper(SAVE_TODO, ""), (u: ()) => map[TypeKey := Str(SAVE_TODO)])
  const SaveTodoSuccessCreator: Creator<()> :=
    Wrap(Wrapper(SAVE_TODO_SUCCESS, ""), (u: ()) => map[TypeKey := Str(SAVE_TODO_SUCCESS)])
  const SetDoneCreator: Creator<int> :=
    Wrap(Wrapper(SET_DONE, ""), (i: int) => map[TypeKey := Str(SET_DONE), PayloadKey := Num(i)])
  const SetDoneSuccessCreator: Creator<int> :=
    Wrap(Wrapper(SET_DONE_SUCCESS, ""), (i: int) => map[TypeKey := Str(SET_DONE_SUCCESS), PayloadKey := Num(i)])

  /** The plain object that is dispatched for an action: the creator's result
      for the five kinds, and an object with only a foreign `type` otherwise.
      Each creator's result is exactly the object literal its `fn` builds,
      `{ type: TYPE }` or `{ type: TYPE, payload }`. */
  function Encode(a: Action): (o: JsObject)
    ensures a.SetTitle? ==> o == map[TypeKey := Str(SET_TITLE), PayloadKey := Str(a.title)]
    ensures a.SaveTodo? ==> o == map[TypeKey := Str(SAVE_TODO)]
    ensures a.SaveTodoSuccess? ==> o == map[TypeKey := Str(SAVE_TODO_SUCCESS)]
    ensures a.SetDone? ==> o == map[TypeKey := Str(SET_DONE), PayloadKey := Num(a.id)]
    ensures a.SetDoneSuccess? ==> o == map[TypeKey := Str(SET_DONE_SUCCESS), PayloadKey := Num(a.id)]
    ensures a.Other? ==> o == map[TypeKey := Str(a.kind)]
  {
    match a
    case SetTitle(t) => Invoke(SetTitleCreator, t)
    case SaveTodo => Invoke(SaveTodoCreator, ())
    case SaveTodoSuccess => Invoke(SaveTodoSuccessCreator, ())
    case SetDone(i) => Invoke(SetDoneCreator, i)
    case SetDoneSuccess(i) => Invoke(SetDoneSuccessCreator, i)
    case Other(k) => map[TypeKey := Str(k)]
  }

  /** The five type keys are pairwise different strings. */
  lemma KindsDistinct()
    ensures SET_TITLE != SAVE_TODO && SET_TITLE != SAVE_TODO_SUCCESS && SET_TITLE != SET_DONE && SET_TITLE != SET_DONE_SUCCESS
    ensures SAVE_TODO != SAVE_TODO_SUCCESS && SAVE_TODO != SET_DONE && SAVE_TODO != SET_DONE_SUCCESS
    ensures SAVE_TODO_SUCCESS != SET_DONE && SAVE_TODO_SUCCESS != SET_DONE_SUCCESS
    ensures SET_DONE != SET_DONE_SUCCESS
    ensures "" !in IndexKinds
  {
  }

  /** The reducer's `isAction` chain picks, for every dispatched object, the
      branch of the action's own kind and no other, and the payload arrives
      unchanged. This is why the chain is modelled as a `match` on Action. */
  lemma EncodeDispatch(a: Action)
    ensures IsAction(Encode(a), SetTitleCreator) <==> a.SetTitle?
    ensures IsAction(Encode(a), SaveTodoCreator) <==> a.SaveTodo?
    ensures IsAction(Encode(a), SaveTodoSuccessCreator) <==> a.SaveTodoSuccess?
    ensures IsAction(Encode(a), SetDoneCreator) <==> a.SetDone?
    ensures IsAction(Encode(a), SetDoneSuccessCreator) <==> a.SetDoneSuccess?
    ensures a.SetTitle? ==> Encode(a)[PayloadKey] == Str(a.title)
    ensures a.SetDone? || a.SetDoneSuccess? ==> Encode(a)[PayloadKey] == Num(a.id)
  {
    KindsDistinct();
    assert SetTitleCreator.tag == SET_TITLE && SaveTodoCreator.tag == SAVE_TODO;
    assert SaveTodoSuccessCreator.tag == SAVE_TODO_SUCCESS;
    assert SetDoneCreator.tag == SET_DONE && SetDoneSuccessCreator.tag == SET_DONE_SUCCESS;
    var o := Encode(a);
    assert TypeKey in o;
    match a
    case Other(k) =>
      assert o[TypeKey] == Str(k) && k !in IndexKinds;
    case SetTitle(t) =>
      assert o[TypeKey] == Str(SET_TITLE);
    case SaveTodo =>
      assert o[TypeKey] == Str(SAVE_TODO);
    case SaveTodoSuccess =>
      assert o[TypeKey] == Str(SAVE_TODO_SUCCESS);
    case SetDone(i) =>
      assert o[TypeKey] == Str(SET_DONE);
    case SetDoneSuccess(i) =>
      assert o[TypeKey] == Str(SET_DONE_SUCCESS);
  }

  /** `state.todos.map(t => (t.id === i ? t.setDone() : t))`: the same list,
      in the same order, with every todo whose identifier is `id` marked done. */
  function MarkDone(todos: seq<Todo>, id: int): (r: seq<Todo>)
    ensures |r| == |todos|
    ensures forall k :: 0 <= k < |todos| ==> r[k].id == todos[k].id && r[k].title == todos[k].title
    ensures forall k :: 0 <= k < |todos| ==> (r[k].done <==> todos[k].done || todos[k].id == id)
    ensures forall k :: 0 <= k < |todos| && todos[k].id != id ==> r[k] == todos[k]
  {
    if todos == [] then []
    else [if todos[0].id == id then Todos.SetDone(todos[0]) else todos[0]] + MarkDone(todos[1..], id)
  }

  /** `IndexReducer(state, action)`. */
  function Reduce(s: State, a: Action): (r: State)
    ensures a.SetTitle? ==> r.title == a.title && r.todos == s.todos && r.loading == s.loading
    ensures a.SaveTodo? || a.SetDone? ==> r.title == s.title && r.todos == s.todos && r.loading
    ensures a.SaveTodoSuccess? ==>
      && r.title == "" && !r.loading
      && |r.todos| == |s.todos| + 1
      && r.todos[..|s.todos|] == s.todos
      && r.todos[|s.todos|] == Todo(|s.todos| + 1, s.title, false)
    ensures a.SetDoneSuccess? ==>
      && r.title == s.title && !r.loading
      && |r.todos| == |s.todos|
      && (forall k :: 0 <= k < |s.todos| ==>
            r.todos[k].id == s.todos[k].id && r.todos[k].title == s.todos[k].title &&
            (r.todos[k].done <==> s.todos[k].done || s.todos[k].id == a.id))
      && (forall k :: 0 <= k < |s.todos| && s.todos[k].id != a.id ==> r.todos[k] == s.todos[k])
    ensures a.Other? ==> r == s
  {
    match a
    case SetTitle(t) => s.(title := t)
    case SaveTodo => s.(loading := true)
    case SaveTodoSuccess =>
      s.(title := "", todos := s.todos + [NewTodo(|s.todos| + 1, s.title)], loading := false)
    case SetDone(_) => s.(loading := true)
    case SetDoneSuccess(i) => s.(todos := MarkDone(s.todos, i), loading := false)
    case Other(_) => s
  }

  /** Dispatching a sequence of actions, in order. */
  function Run(s: State, actions: seq<Action>): (r: State)
    decreases |actions|
  {
    if actions == [] then s else Run(Reduce(s, actions[0]), actions[1..])
  }

  /** Each todo's identifier is its one-based position in the list. */
  predicate ConsecutiveIds(todos: seq<Todo>)
  {
    forall k :: 0 <= k < |todos| ==> todos[k].id == k + 1
  }

  lemma ReducePreservesConsecutiveIds(s: State, a: Action)
    requires ConsecutiveIds(s.todos)
    ensures ConsecutiveIds(Reduce(s, a).todos)
  {
  }

  lemma {:induction false} RunPreservesConsecutiveIds(s: State, actions: seq<Action>)
    requires ConsecutiveIds(s.todos)
    ensures ConsecutiveIds(Run(s, actions).todos)
    decreases |actions|
  {
    if actions != [] {
      ReducePreservesConsecutiveIds(s, actions[0]);
      RunPreservesConsecutiveIds(Reduce(s, actions[0]), actions[1..]);
    }
  }

  /** From the initial state, whatever is dispatched, the todos are numbered
      1, 2, 3, ... in list order, so no two todos share an identifier. */
  lemma ReachableIdsConsecutive(actions: seq<Action>)
    ensures ConsecutiveIds(Run(Initial, actions).todos)
    ensures forall j, k :: 0 <= j < k < |Run(Initial, actions).todos| ==>
      Run(Initial, actions).todos[j].id != Run(Initial, actions).todos[k].id
  {
    RunPreservesConsecutiveIds(Initial, actions);
  }

  /** Typing a title and saving it appends exactly one todo carrying that
      title and the next identifier, and clears the draft. */
  lemma SaveAfterSetTitle(s: State, t: string)
    ensures Run(s, [SetTitle(t), SaveTodo, SaveTodoSuccess]) ==
      State("", s.todos + [Todo(|s.todos| + 1, t, false)], false)
  {
    var s1 := Reduce(s, SetTitle(t));
    var s2 := Reduce(s1, SaveTodo);
    assert [SetTitle(t), SaveTodo, SaveTodoSuccess][1..] == [SaveTodo, SaveTodoSuccess];
    assert [SaveTodo, SaveTodoSuccess][1..] == [SaveTodoSuccess];
    assert Run(s, [SetTitle(t), SaveTodo, SaveTodoSuccess]) == Run(s2, [SaveTodoSuccess]);
  }

  lemma {:induction false} RunSplit(s: State, actions: seq<Action>)
    requires actions != []
    ensures Run(s, actions) == Reduce(Run(s, actions[..|actions| - 1]), actions[|actions| - 1])
    decreases |actions|
  {
    if |actions| > 1 {
      RunSplit(Reduce(s, actions[0]), actions[1..]);
      assert actions[1..][..|actions[1..]| - 1] == actions[..|actions| - 1][1..];
    }
  }

  /** The actions that start a simulated request, and those that finish one. */
  predicate IsRequest(a: Action) { a.SaveTodo? || a.SetDone? }

  predicate IsSuccess(a: Action) { a.SaveTodoSuccess? || a.SetDoneSuccess? }

  /** The loading flag after a run, read off the actions: true after the last
      request, false after the last success, the starting value when neither
      occurs. */
  function LastLoading(loading: bool, actions: seq<Action>): (busy: bool)
    decreases |actions|
  {
    if actions == [] then loading
    else if IsRequest(actions[|actions| - 1]) then true
    else if IsSuccess(actions[|actions| - 1]) then false
    else LastLoading(loading, actions[..|actions| - 1])
  }

  /** The draft title after a run, read off the actions: the last SetTitle
      since the last save, "" when a save came after every SetTitle, and the
      starting title when neither occurs. */
  function LastTitle(title: string, actions: seq<Action>): (draft: string)
    decreases |actions|
  {
    if actions == [] then title
    else if actions[|actions| - 1].SetTitle? then actions[|actions| - 1].title
    else if actions[|actions| - 1].SaveTodoSuccess? then ""
    else LastTitle(title, actions[..|actions| - 1])
  }

  /** Over any run, the loading flag and the draft title are those the
      reference functions read off the actions. */
  lemma {:induction false} RunMatchesReference(s: State, actions: seq<Action>)
    ensures Run(s, actions).loading == LastLoading(s.loading, actions)
    ensures Run(s, actions).title == LastTitle(s.title, actions)
    decreases |actions|
  {
    if actions != [] {
      RunSplit(s, actions);
      RunMatchesReference(s, actions[..|actions| - 1]);
    }
  }

  /** Some request occurs after which no success has been dispatched. */
  predicate PendingRequest(actions: seq<Action>)
  {
    exists i :: 0 <= i < |actions| && IsRequest(actions[i]) &&
      forall j :: i < j < |actions| ==> !IsSuccess(actions[j])
  }

  lemma {:induction false} LastLoadingFromIdle(actions: seq<Action>)
    ensures LastLoading(false, actions) <==> PendingRequest(actions)
    decreases |actions|
  {
    if actions != [] {
      var n := |actions| - 1;
      var prefix := actions[..n];
      LastLoadingFromIdle(prefix);
      if IsRequest(actions[n]) {
        assert IsRequest(actions[n]);
      } else if !IsSuccess(actions[n]) {
        if PendingRequest(prefix) {
          var i :| 0 <= i < |prefix| && IsRequest(prefix[i]) &&
            forall j :: i < j < |prefix| ==> !IsSuccess(prefix[j]);
          assert IsRequest(actions[i]);
          assert forall j :: i < j < |actions| ==> !IsSuccess(actions[j]) by {
            forall j | i < j < |actions| ensures !IsSuccess(actions[j]) {
              if j < n { assert actions[j] == prefix[j]; }
            }
          }
        }
        if PendingRequest(actions) {
          var i :| 0 <= i < |actions| && IsRequest(actions[i]) &&
            forall j :: i < j < |actions| ==> !IsSuccess(actions[j]);
          assert i < n;
          assert IsRequest(prefix[i]);
          assert forall j :: i < j < |prefix| ==> !IsSuccess(prefix[j]) by {
            forall j | i < j < |prefix| ensures !IsSuccess(prefix[j]) {
              assert prefix[j] == actions[j];
            }
          }
        }
      }
    }
  }

  /** From the initial state, the slice is loading exactly when a save or
      mark-done request has been dispatched with no success after it. */
  lemma LoadingIffRequestPending(actions: seq<Action>)
    ensures Run(Initial, actions).loading <==> PendingRequest(actions)
  {
    RunMatchesReference(Initial, actions);
    LastLoadingFromIdle(actions);
  }

  /** A save appends a todo titled with the draft as the actions before it
      left it, numbered after the todos already there. */
  lemma SavedTodoTitle(s: State, actions: seq<Action>)
    ensures var before := Run(s, actions);
      Run(s, actions + [SaveTodoSuccess]).todos == before.todos + [Todo(|before.todos| + 1, LastTitle(s.title, actions), false)]
  {
    RunSplit(s, actions + [SaveTodoSuccess]);
    assert (actions + [SaveTodoSuccess])[..|actions|] == actions;
    RunMatchesReference(s, actions);
  }

  /** Two clicks on Add before the first success: the first success takes
      the draft and clears it, so the second saves a todo with an empty title. */
  lemma DoubleSaveAddsUntitledTodo()
    ensures Run(Initial, [SetTitle("a"), SaveTodo, SaveTodo, SaveTodoSuccess, SaveTodoSuccess]).todos
      == [Todo(1, "a", false), Todo(2, "", false)]
  {
    var acts := [SetTitle("a"), SaveTodo, SaveTodo, SaveTodoSuccess, SaveTodoSuccess];
    assert acts[1..] == [SaveTodo, SaveTodo, SaveTodoSuccess, SaveTodoSuccess];
    assert acts[1..][1..] == [SaveTodo, SaveTodoSuccess, SaveTodoSuccess];
    assert acts[1..][1..][1..] == [SaveTodoSuccess, SaveTodoSuccess];
    assert acts[1..][1..][1..][1..] == [SaveTodoSuccess];
  }

  /** A success for an identifier no todo has only clears the loading flag. */
  lemma SetDoneSuccessWithoutMatch(s: State, i: int)
    requires forall k :: 0 <= k < |s.todos| ==> s.todos[k].id != i
    ensures Reduce(s, SetDoneSuccess(i)) == s.(loading := false)
  {
  }

  /** With consecutive identifiers, a success for identifier `i` marks the
      todo at position i-1 done and nothing else. */
  lemma SetDoneSuccessMarksOne(s: State, i: int)
    requires ConsecutiveIds(s.todos) && 1 <= i <= |s.todos|
    ensures Reduce(s, SetDoneSuccess(i)).todos == s.todos[i - 1 := Todos.SetDone(s.todos[i - 1])]
  {
  }

  /** `saveTodoEpic` and `setDoneEpic` with the delay removed: the follow-up
      action the epics dispatch for an action, if any. */
  function Epics(a: Action): (r: Option<Action>)
    ensures r.Some? <==> a.SaveTodo? || a.SetDone?
    ensures a.SaveTodo? ==> r == Some(SaveTodoSuccess)
    ensures a.SetDone? ==> r == Some(SetDoneSuccess(a.id))
  {
    match a
    case SaveTodo => Some(SaveTodoSuccess)
    case SetDone(i) => Some(SetDoneSuccess(i))
    case _ => None
  }

  /** A request followed by the follow-up its epic dispatches ends with the
      loading flag cleared and the same state the success alone would give. */
  lemma EpicCompletesRequest(s: State, a: Action)
    requires a.SaveTodo? || a.SetDone?
    ensures Reduce(Reduce(s, a), Epics(a).value) == Reduce(s, Epics(a).value)
    ensures !Reduce(Reduce(s, a), Epics(a).value).loading
  {
  }

  /** The lookup `t.id` on a Todo object at run time. The class stores its
      identifier under `number` (src/common/Todo.ts:8) and has no `id`
      property, so that lookup yields `undefined`. */
  function Property(t: Todo, name: string): (v: Option<Value>)
  {
    if name == "number" then Some(Num(t.id))
    else if name == "title" then Some(Str(t.title))
    else if name == "done" then Some(Bool(t.done))
    else None
  }

  /** The `map` of src/modules/index/IndexReducer.ts:60 as written, where
      `t.id` is always `undefined` and `payload` is `undefined` when None.
      JavaScript's `undefined === undefined` holds, so an undefined payload
      marks every todo done, and a numeric payload marks none. */
  function MarkDoneAsWritten(todos: seq<Todo>, payload: Option<Value>): (r: seq<Todo>)
    ensures |r| == |todos|
    ensures payload.Some? ==> r == todos
    ensures payload.None? ==> forall k :: 0 <= k < |todos| ==> r[k] == Todos.SetDone(todos[k])
  {
    if todos == [] then []
    else
      var t := todos[0];
      [if Property(t, "id") == payload then Todos.SetDone(t) else t] + MarkDoneAsWritten(todos[1..], payload)
  }

  /** A success built by the reducer's own creator for identifier 1, on one
      todo with identifier 1: as written the todo stays open. */
  lemma AsWrittenLeavesMatchingTodoOpen()
    ensures !MarkDoneAsWritten([Todo(1, "a", false)], Some(Num(1)))[0].done
    ensures MarkDone([Todo(1, "a", false)], 1)[0].done
  {
  }

  /** The path the application takes: the checkbox of a todo calls
      `setDone(todo.id)` (src/components/TodoComponent.tsx:15), whose payload is
      that todo's `id` property, `undefined`; the epic forwards it to
      `setDoneSuccess`. As written, every todo is then marked done, while the
      corrected map changes only the todos that share the clicked identifier. */
  lemma CheckboxMarksEveryTodoAsWritten(todos: seq<Todo>, k: int)
    requires 0 <= k < |todos|
    ensures forall j :: 0 <= j < |todos| ==> MarkDoneAsWritten(todos, Property(todos[k], "id"))[j].done
    ensures forall j :: 0 <= j < |todos| && todos[j].id != todos[k].id ==>
      MarkDone(todos, todos[k].id)[j] == todos[j]
  {
  }

  /** Two open todos, the first one's checkbox ticked: as written both end up
      done, corrected only the first. */
  lemma AsWrittenCheckboxMarksBoth()
    ensures MarkDoneAsWritten([Todo(1, "a", false), Todo(2, "b", false)], Property(Todo(1, "a", false), "id"))
      == [Todo(1, "a", true), Todo(2, "b", true)]
    ensures MarkDone([Todo(1, "a", false), Todo(2, "b", false)], 1) == [Todo(1, "a", true), Todo(2, "b", false)]
  {
  }

  /** The five type keys in the order their creators are made. */
  const IndexKeys: seq<string> := [SET_TITLE, SAVE_TODO, SAVE_TODO_SUCCESS, SET_DONE, SET_DONE_SUCCESS]

  /** The keys of the first `j` creators. */
  function RegisteredBefore(j: nat): (keys: set<string>)
    requires j <= |IndexKeys|
  {
    if j == 0 then {} else RegisteredBefore(j - 1) + {IndexKeys[j - 1]}
  }

  /** Module load: the five `makeAction(TYPE)` calls of lines 23-27, in order.
      The first one that finds its type already taken throws, after the
      earlier ones have recorded theirs. */
  method RegisterCreators(reg: Registry) returns (r: Result<seq<Wrapper>, string>)
    modifies reg
    ensures r.Success? <==> !reg.devMode || IndexKinds !! old(reg.devSet)
    ensures r.Success? ==>
      && r.value == [Wrapper(SET_TITLE, ""), Wrapper(SAVE_TODO, ""), Wrapper(SAVE_TODO_SUCCESS, ""),
                     Wrapper(SET_DONE, ""), Wrapper(SET_DONE_SUCCESS, "")]
      && reg.devSet == if reg.devMode then old(reg.devSet) + IndexKinds else old(reg.devSet)
    ensures r.Failure? ==> r.error == DuplicateTypeMessage
    ensures r.Failure? ==> reg.devMode
    ensures r.Failure? ==>
      exists j :: 0 <= j < |IndexKeys| && IndexKeys[j] in old(reg.devSet)
        && (forall i :: 0 <= i < j ==> IndexKeys[i] !in old(reg.devSet))
        && reg.devSet == old(reg.devSet) + RegisteredBefore(j)
  {
    KindsDistinct();
    assert RegisteredBefore(0) == {};
    assert RegisteredBefore(1) == {SET_TITLE};
    assert RegisteredBefore(2) == {SET_TITLE, SAVE_TODO};
    assert RegisteredBefore(3) == {SET_TITLE, SAVE_TODO, SAVE_TODO_SUCCESS};
    assert RegisteredBefore(4) == {SET_TITLE, SAVE_TODO, SAVE_TODO_SUCCESS, SET_DONE};
    var w1 := reg.MakeAction(SET_TITLE);
    if w1.Failure? { assert IndexKeys[0] in old(reg.devSet); return Failure(w1.error); }
    var w2 := reg.MakeAction(SAVE_TODO);
    if w2.Failure? { assert IndexKeys[1] in old(reg.devSet); return Failure(w2.error); }
    var w3 := reg.MakeAction(SAVE_TODO_SUCCESS);
    if w3.Failure? { assert IndexKeys[2] in old(reg.devSet); return Failure(w3.error); }
    var w4 := reg.MakeAction(SET_DONE);
    if w4.Failure? { assert IndexKeys[3] in old(reg.devSet); return Failure(w4.error); }
    var w5 := reg.MakeAction(SET_DONE_SUCCESS);
    if w5.Failure? { assert IndexKeys[4] in old(reg.devSet); return Failure(w5.error); }
    r := Success([w1.value, w2.value, w3.value, w4.value, w5.value]);
  }
}
