/** Action creators and type guards of src/redux/guards.ts.

    A plain JavaScript action object is modelled as a map from property names
    to values. `makeAction(type, typePrefix)` is a method of a Registry object
    that stands for the module-level dictionary `_devSet`; it returns a
    Wrapper, the curried function that turns a payload builder `fn` into a
    tagged Creator. */
module Guards {
  import opened Wrappers

  /** The JavaScript values that action properties hold in this application. */
  datatype Value = Str(str: string) | Num(num: int) | Bool(flag: bool) | Null

  type JsObject = map<string, Value>

  const TypeKey := "type"

  const DuplicateTypeMessage :=
    "Attempted creating an action with an existing type key. This is almost cetainly an error."

  /** What `makeAction(type, typePrefix)` returns: a function still waiting for `fn`. */
  datatype Wrapper = Wrapper(actionType: string, typePrefix: string)

  /** A wrapped action creator: it calls `fn`, then overwrites `type`, and it
      carries the tag `__actionType` that `isAction` compares against. */
  datatype Creator<!A> = Creator(fn: A -> JsObject, actionType: string, tag: string)

  /** Applying a Wrapper to `fn`. */
  function Wrap<A>(w: Wrapper, fn: A -> JsObject): (c: Creator<A>)
    ensures c.tag == w.typePrefix + w.actionType
    ensures c.actionType == w.actionType && c.fn == fn
  {
    Creator(fn, w.actionType, w.typePrefix + w.actionType)
  }

  /** Calling a wrapped creator: `{ ...fn(args), type }`. */
  function Invoke<A>(c: Creator<A>, args: A): (a: JsObject)
    ensures TypeKey in a && a[TypeKey] == Str(c.actionType)
    ensures a.Keys == c.fn(args).Keys + {TypeKey}
    ensures forall k :: k in c.fn(args) && k != TypeKey ==> k in a && a[k] == c.fn(args)[k]
  {
    c.fn(args)[TypeKey := Str(c.actionType)]
  }

  /** `isAction(action, creator)`: `action.type === creator.__actionType`.
      A missing or non-string `type` never equals a string tag. */
  predicate IsAction<A>(a: JsObject, c: Creator<A>)
    ensures TypeKey !in a ==> !IsAction(a, c)
    ensures TypeKey in a && !a[TypeKey].Str? ==> !IsAction(a, c)
    ensures TypeKey in a && a[TypeKey].Str? ==> (IsAction(a, c) <==> a[TypeKey].str == c.tag)
  {
    TypeKey in a && a[TypeKey] == Str(c.tag)
  }

  /** Whatever `fn` puts under `type`, the created action carries the
      registered type and every other property of `fn`'s result. */
  lemma InvokeOverridesType<A>(w: Wrapper, fn: A -> JsObject, args: A)
    ensures Invoke(Wrap(w, fn), args)[TypeKey] == Str(w.actionType)
    ensures forall k :: k in fn(args) && k != TypeKey ==> Invoke(Wrap(w, fn), args)[k] == fn(args)[k]
  {
  }

  /** A creator's own actions pass its guard exactly when the prefix is empty:
      with the default prefix `''` they always do, with any other they never do. */
  lemma OwnActionIsActionIffNoPrefix<A>(w: Wrapper, fn: A -> JsObject, args: A)
    ensures IsAction(Invoke(Wrap(w, fn), args), Wrap(w, fn)) <==> w.typePrefix == ""
  {
  }

  /** The development-mode registry `_devSet` of type keys. */
  class Registry {
    /** Stands for `process.env.NODE_ENV === 'development'`. */
    const devMode: bool
    /** The keys of `_devSet`. Each key is stored with itself as value. */
    var devSet: set<string>

    constructor (devMode: bool)
      ensures this.devMode == devMode && devSet == {}
    {
      this.devMode := devMode;
      devSet := {};
    }

    /** `_devSet[type]` is truthy: the key is present and its value, the
        type string itself, is not the empty string. */
    predicate Taken(actionType: string)
      reads this
    {
      actionType in devSet && actionType != ""
    }

    /** `makeAction(type, typePrefix)`. In development mode a type whose entry
        is truthy is refused (the source throws) and the registry is left as
        it was; otherwise the type is recorded. Outside development mode the
        registry is neither read nor written. */
    method MakeAction(actionType: string, typePrefix: string := "") returns (r: Result<Wrapper, string>)
      modifies this
      ensures r.Failure? <==> devMode && old(Taken(actionType))
      ensures r.Failure? ==> r.error == DuplicateTypeMessage && devSet == old(devSet)
      ensures r.Success? ==> r.value == Wrapper(actionType, typePrefix)
      ensures r.Success? ==> devSet == if devMode then old(devSet) + {actionType} else old(devSet)
    {
      if devMode {
        if Taken(actionType) {
          return Failure(DuplicateTypeMessage);
        }
        devSet := devSet + {actionType};
      }
      r := Success(Wrapper(actionType, typePrefix));
    }
  }
}
