/** The immutable todo item of src/common/Todo.ts.

    Identifier naming: the source's constructor stores its first argument in a
    field called `number` (src/common/Todo.ts:8), while the reducer
    (src/modules/index/IndexReducer.ts:60), the todo component and the tests
    read `.id`. The model keeps ONE identifier field, `id`, holding the first
    constructor argument. What the source does at run time with the mismatch
    is modelled separately in IndexReducer (MarkDoneAsWritten). */
module Todos {
  import opened Wrappers

  datatype Todo = Todo(id: int, title: string, done: bool)

  /** `new Todo(id, title, done?)`: an absent `done` (or a falsy one) gives
      false, because the source stores `done || false`. */
  function NewTodo(id: int, title: string, done: Option<bool> := None): (t: Todo)
    ensures t.id == id && t.title == title
    ensures t.done <==> done == Some(true)
  {
    Todo(id, title, match done case Some(d) => d case None => false)
  }

  /** `setDone()`: a new todo with the same identifier and title, marked done.
      The receiver is a value and is left as it was. */
  function SetDone(t: Todo): (r: Todo)
    ensures r.id == t.id && r.title == t.title && r.done
    ensures r == NewTodo(t.id, t.title, Some(true))
  {
    Todo(t.id, t.title, true)
  }

  lemma SetDoneIdempotent(t: Todo)
    ensures SetDone(SetDone(t)) == SetDone(t)
  {
  }

  /** Marking a todo that is already done gives back an equal todo. */
  lemma SetDoneFixesDone(t: Todo)
    ensures SetDone(t) == t <==> t.done
  {
  }
}
