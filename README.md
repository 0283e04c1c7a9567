# Todo and story-client state slices, modelled in Dafny

This project models the state logic of a small React/Redux application: a
Todo list and a Hacker-News story client. The UI, routing and server are not
modelled. The modelled parts are:

- **Todos** (`todo.dfy`): the immutable todo item. It has a defaulting constructor (`done` is false unless given as true) and a `setDone` copy.
  The source stores the identifier in a field named `number`. The reducer, the todo component and the reducer's tests (src/modules/index/__specs__/IndexReducer.spec.ts:52,79) read `.id`. The model keeps one field, `id`, holding the constructor's first argument; see Findings.
- **Guards** (`guards.dfy`): `makeAction` and `isAction`. A dispatched action is a map from property names to values.
  - A wrapped creator overwrites `type` with its registered type. It is tagged with `typePrefix + type`.
  - `isAction` compares an action's `type` with that tag.
  - The development-mode registry `_devSet` is a class `Registry`. It holds a `set<string>` and a `devMode` flag, which stands for `NODE_ENV === 'development'`. A thrown error becomes a `Failure` result.
  - The registry stores each key with the key itself as its value. The source's duplicate test reads that value as a truth value, so the empty type `''` is never reported as a duplicate. The model keeps this behaviour.
- **IndexReducer** (`index_reducer.dfy`): the Todo slice `{title, todos, loading}`. The initial state is `Initial`.
  - The five creators are built with `Guards.Wrap`. `Encode` gives the object each action is dispatched as.
  - The reducer is a `match`. `EncodeDispatch` proves this is faithful: the source's `isAction` chain picks exactly the branch of the action's own kind.
  - The two epics, without their delay, become the follow-up action function `Epics`.
  - `RegisterCreators` models the five `makeAction` calls made when the module loads.
  - Over whole runs, the loading flag and the draft title are given by the reference functions `LastLoading` and `LastTitle`. A saved todo takes the draft as it stands when the success arrives: the last title set since the previous save. With two saves in flight, the second one therefore saves an empty title.
- **HNClientReducer** (`hn_client_reducer.dfy`): the story-client slice `{storyType, stories, loading}`.
  - The reducer handles `GET_STORIES` and `GET_STORIES_SUCCESS`. Every other action, `SET_STORY_TYPE` included, leaves the state as it was.
  - This version of the file has no pending-identifier queue, no fetch cap and no category change. The model follows the file.

Both reducers return new values. Every state and todo here is a Dafny datatype value, so "returns a fresh copy and leaves the old one alone" holds by construction.

## Model

| member | source | states |
|---|---|---|
| Todos.NewTodo | src/common/Todo.ts:7-10 | the constructor keeps the given identifier and title; `done` is true only when passed as true, so leaving it out gives false |
| Todos.SetDone | src/common/Todo.ts:16 | `setDone` returns a todo with the same identifier and title and `done` true, equal to constructing one with `done` true |
| Todos.SetDoneIdempotent | src/common/Todo.ts:16 | marking done twice equals marking done once |
| Todos.SetDoneFixesDone | src/common/Todo.ts:16 | `setDone` returns an equal todo exactly when the todo was already done |
| Guards.Wrap | src/redux/guards.ts:18-21 | a wrapped creator keeps `fn` and the registered type, and its tag is `typePrefix + type` |
| Guards.Invoke | src/redux/guards.ts:19 | a created action has `type` equal to the registered type whatever `fn` returned; it has `fn`'s properties plus `type`, and every property other than `type` is kept unchanged |
| Guards.InvokeOverridesType | src/redux/guards.ts:19 | for any `fn` and arguments, a wrapped creator's action carries the registered type and `fn`'s other properties |
| Guards.OwnActionIsActionIffNoPrefix | src/redux/guards.ts:18-29 | `isAction(c(args), c)` holds if and only if the prefix is empty: always with the default `''`, never with any other prefix |
| Guards.IsAction | src/redux/guards.ts:25-30 | `isAction` is a strict tag-equality test: an action without `type`, or whose `type` is not a string, never passes; one with a string `type` passes exactly when that string equals the creator's tag |
| Guards.Registry.constructor | src/redux/guards.ts:5 | the registry starts empty |
| Guards.Registry.MakeAction | src/redux/guards.ts:7-17 | fails exactly in development mode when the type is already recorded (non-empty), leaving the registry unchanged; otherwise returns the wrapper for (type, prefix), records the type in development mode and leaves the registry alone outside it |
| IndexReducer.KindsDistinct | src/modules/index/IndexReducer.ts:17-21 | the five type keys are pairwise different and none is empty |
| IndexReducer.Encode | src/modules/index/IndexReducer.ts:23-27 | the five creators (the `SetTitleCreator` … `SetDoneSuccessCreator` constants built with `Guards.Wrap`) yield exactly `{type: TYPE}` or `{type: TYPE, payload}` with their own type key and the argument as payload; a foreign action carries only its own `type` |
| IndexReducer.EncodeDispatch | src/modules/index/IndexReducer.ts:23-57 | for every dispatched action, each of the five `isAction` tests holds exactly for the action's own kind, and `setTitle`, `setDone` and `setDoneSuccess` pass their payload through unchanged |
| IndexReducer.MarkDone | src/modules/index/IndexReducer.ts:60 | the mapped list keeps length, order, identifiers and titles; a todo is done afterwards exactly when it was done or its identifier matches; non-matching todos are identical |
| IndexReducer.Reduce | src/modules/index/IndexReducer.ts:43-66 | SetTitle only sets the title. SaveTodo and SetDone only set loading. SaveTodoSuccess appends exactly one todo (id = old length + 1, the old title, not done) after the unchanged old todos, clears the title and loading. SetDoneSuccess keeps length, order, ids and titles, marks the matching todos done, keeps the others identical, keeps the title and clears loading. Any other action returns the state unchanged. The SetDoneSuccess branch uses the corrected comparison `MarkDone`, so it differs from line 60 as written (see Findings) |
| IndexReducer.ReducePreservesConsecutiveIds | src/modules/index/IndexReducer.ts:43-66 | if every todo's identifier is its one-based position, it still is after any action |
| IndexReducer.RunPreservesConsecutiveIds | src/modules/index/IndexReducer.ts:52 | the same invariant is kept over any sequence of dispatched actions |
| IndexReducer.ReachableIdsConsecutive | src/modules/index/IndexReducer.ts:11-15 | from the initial state (empty title, no todos, not loading), todos are numbered 1, 2, 3, … in list order after any actions, so identifiers are unique |
| IndexReducer.SaveAfterSetTitle | src/modules/index/IndexReducer.ts:44-54 | SetTitle(t), SaveTodo, SaveTodoSuccess appends `Todo(old length + 1, t, false)`, clears the title and leaves loading false |
| IndexReducer.RunMatchesReference | src/modules/index/IndexReducer.ts:43-66 | over any sequence of actions, the loading flag is true after the last request and false after the last success, and the draft title is the last one set since the last save ("" if a save came after it); the starting values hold when no such action occurs |
| IndexReducer.LastLoadingFromIdle | src/modules/index/IndexReducer.ts:46-61 | starting from not loading, the flag the actions leave is true if and only if some save or mark-done request has no success after it |
| IndexReducer.LoadingIffRequestPending | src/modules/index/IndexReducer.ts:11-15 | from the initial state, the slice is loading exactly when a save or mark-done request has been dispatched with no success after it |
| IndexReducer.SavedTodoTitle | src/modules/index/IndexReducer.ts:48-54 | after any run, a save appends one todo numbered after the existing ones and titled with the last title set since the previous save (or the starting draft, or "") |
| IndexReducer.DoubleSaveAddsUntitledTodo | src/modules/index/IndexReducer.ts:44-54 | setting "a" and clicking Add twice before the first success gives todos `[Todo(1, "a"), Todo(2, "")]`: the second save has an empty title |
| IndexReducer.SetDoneSuccessWithoutMatch | src/modules/index/IndexReducer.ts:57-62 | a success for an identifier no todo has changes nothing but the loading flag, which becomes false |
| IndexReducer.SetDoneSuccessMarksOne | src/modules/index/IndexReducer.ts:57-62 | with consecutive identifiers, a success for identifier i marks the todo at position i-1 done and changes no other todo |
| IndexReducer.Epics | src/modules/index/IndexReducer.ts:29-39 | the epics answer SaveTodo with SaveTodoSuccess and SetDone(i) with SetDoneSuccess(i) for the same i, and every other action with nothing |
| IndexReducer.EpicCompletesRequest | src/modules/index/IndexReducer.ts:29-39 | a request followed by its epic's follow-up gives the same state as the success alone, with loading false |
| IndexReducer.MarkDoneAsWritten | src/modules/index/IndexReducer.ts:60 | the `map` as written compares the always-undefined `id` property with the payload: a numeric payload leaves the list unchanged, an undefined payload marks every todo done; the length is kept either way |
| IndexReducer.AsWrittenLeavesMatchingTodoOpen | src/modules/index/IndexReducer.ts:60 | with the payload 1 that `setDoneSuccess(1)` carries, on `[Todo(1, "a")]`, the code as written leaves the todo open and the corrected map marks it done |
| IndexReducer.CheckboxMarksEveryTodoAsWritten | src/components/TodoComponent.tsx:15 | ticking any todo's checkbox sends that todo's `id` property (undefined) as payload, and the map as written then marks every todo done, while the corrected map leaves every todo with another identifier unchanged |
| IndexReducer.AsWrittenCheckboxMarksBoth | src/components/TodoComponent.tsx:15 | on two open todos, ticking the first marks both done as written, and only the first when corrected |
| IndexReducer.RegisterCreators | src/modules/index/IndexReducer.ts:23-27 | loading the module succeeds exactly when the registry is off or holds none of the five keys. On success it returns the five wrappers with the empty prefix and records all five keys in development mode. On failure the registry is in development mode, and there is a first key, in creation order, that was already recorded; the registry then holds exactly its old keys plus the keys created before that one |
| HNClientReducer.TypeOf | src/modules/hnClient/HNClientReducer.ts:19-48 | each creator's action carries its own type key, and a type key identifies the action kind; foreign actions carry none of the four keys |
| HNClientReducer.Reduce | src/modules/hnClient/HNClientReducer.ts:67-79 | the category never changes. GET_STORIES sets loading and keeps the stories. GET_STORIES_SUCCESS replaces the stories with exactly the payload and clears loading. Every other action, SET_STORY_TYPE and GET_STORY_IDS_SUCCESS included, returns the state unchanged |
| HNClientReducer.RunKeepsCategory | src/modules/hnClient/HNClientReducer.ts:67-79 | over any sequence of actions the category is unchanged, and the stories shown are those of the most recent success, or the starting ones when there was none |
| HNClientReducer.ReachableCategoryIsNew | src/modules/hnClient/HNClientReducer.ts:13-17 | starting from the initial state (NEW, no stories, not loading), the category stays NEW whatever is dispatched |
| HNClientReducer.RequestThenSuccess | src/modules/hnClient/HNClientReducer.ts:72-75 | a request followed by its success shows exactly the fetched stories, keeps the category and clears loading |

## Findings

| source | as written | input that shows it | evidently intended | confidence | as-written member | corrected member |
|---|---|---|---|---|---|---|
| src/modules/index/IndexReducer.ts:60 | compares `t.id`, but a Todo keeps its identifier under `number` (src/common/Todo.ts:8) and has no `id` property, so the comparison is `undefined === payload`. It never holds for a numeric payload. The application's own path sends an undefined payload: the checkbox calls `setDone(todo.id)` (src/components/TodoComponent.tsx:15, wired in src/modules/index/Index.tsx:55,69), the epic forwards it, and then the comparison holds for every todo | (1) todos `[Todo(1, "a")]`, action `setDoneSuccess(1)`: the todo stays open. (2) todos `[Todo(1, "a"), Todo(2, "b")]`, ticking the first checkbox: both todos become done | the todo whose identifier equals the payload is marked done and no other, as src/modules/index/__specs__/IndexReducer.spec.ts:78 expects | not executed; the comparison is also a TypeScript type error | IndexReducer.MarkDoneAsWritten, IndexReducer.AsWrittenLeavesMatchingTodoOpen, IndexReducer.AsWrittenCheckboxMarksBoth | IndexReducer.MarkDone |

## Left out

- The one-second `delay` of both epics and the rxjs stream machinery. Only the action each epic dispatches is modelled.
- `getStoryIdsEpic` (src/modules/hnClient/HNClientReducer.ts:56-63) is an HTTP request through rxjs `ajax`, and `BASE_URL` is not part of this model. In this version nothing dispatches GET_STORIES_SUCCESS. The epic's GET_STORY_IDS_SUCCESS is ignored by the reducer, which `HNClientReducer.Reduce` states.
- `setDoneEpic` maps with `isAction(action, setDone) && …`. After the `ofType(SET_DONE)` filter the test always holds, so its `false` result is not modelled.
- JavaScript numbers are modelled as unbounded integers. Fractional ids, `NaN` and precision loss above 2^53 are not modelled.
- IndexReducer.Reduce: actions are typed as the creators' signatures declare, with a string title and numeric identifiers. An undefined identifier, which the todo checkbox actually sends (see Findings), is modelled only by `MarkDoneAsWritten`. `Reduce` uses the corrected `MarkDone`, so on SetDoneSuccess it does not follow line 60 as written.
- Guards.Registry.MakeAction: `_devSet` is a plain `{}`, so names inherited from `Object.prototype` (such as `toString` or `constructor`) read as truthy, and the first registration of such a type throws. The model treats the registry as holding only the recorded keys.
- Guards.Registry.MakeAction: the thrown `Error` is modelled as a `Failure` result carrying its message.
- IndexReducer.Reduce: the reducer's `state = new IndexState()` default argument is modelled by the `Initial` constant, which callers pass explicitly.
- HNClientReducer.Reduce: likewise, the `state = new HNClientState()` default argument (src/modules/hnClient/HNClientReducer.ts:68) is modelled by `HNClientReducer.Initial`.
- `combineReducers`/`combineEpics` (src/redux/reducer.ts), the store, the server (`src/server.tsx`), all React components and the build configuration are library wiring, I/O or UI.
- The `StoryType` and `ItemType` enums are not part of this model. The categories are modelled as New, Top and Best, and a story's constant item-type tag is omitted.
