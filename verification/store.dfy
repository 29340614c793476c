/** `eis(initialState)`: a store holding one state and a set of listeners,
    with `get`, `set`, `subscribe` and the handle `subscribe` returns. */
module Eis {
  import opened Values
  import opened Diagnostics
  import opened Json
  import opened Freezing
  import opened Cloning
  import opened Listeners

  /** What the state slot always holds, given that `g` clones have been made:
      a value with no `undefined` anywhere in it, deeply frozen, serializable
      when it is an object, and made of objects the store's own clones built. */
  predicate Stored(v: Val, g: nat) {
    && NoUndefined(v)
    && DeepFrozen(v)
    && (IsValidObject(v) ==> Serializable(v))
    && forall u :: u in Tokens(v) ==> u.Own? && u.gen < g
  }

  /** The store right after construction: its state, how many clones were
      made, and what was written to the console. */
  datatype Init = Init(state: Val, gen: nat, diags: seq<Diag>)

  /** Lines 2-7 of `eis`: undefined becomes null; an object is cloned and the
      clone frozen; anything else is kept as it is. */
  function Construct(init: Val): (r: Init)
    ensures Stored(r.state, r.gen)
    ensures init == Undefined ==> r.state == Null && r.diags == [InitError]
    ensures init != Undefined && !IsValidObject(init) ==> r.state == init && r.diags == []
    ensures IsValidObject(init) && Serializable(init) ==>
      && r.diags == []
      && IsValidObject(r.state)
      && r.state.tok == Own(0, [])
      && NoUndefined(r.state)
      && Stringify(r.state) == Stringify(init)
      && (IssuedBefore(init, 0) ==> Tokens(r.state) !! Tokens(init))
    ensures IsValidObject(init) && !Serializable(init) ==>
      r.state == Null && r.diags == [CloneError, FreezeTypeError]
  {
    var v := if init == Undefined then Null else init;
    var before := if init == Undefined then [InitError] else [];
    if IsValidObject(v) then
      var cloned := Clone(v, 0);
      FreezeKeepsData(cloned);
      assert Serializable(v) && IssuedBefore(v, 0) ==> Tokens(cloned) !! Tokens(v) by {
        if Serializable(v) && IssuedBefore(v, 0) {
          CloneSharesNothing(v, v, 0);
        }
      }
      Init(Freeze(cloned), 1, before + CloneLog(v) + FreezeLog(cloned))
    else
      Init(v, 0, before)
  }

  /** How `set` ends once `next` is known. */
  datatype Decision =
    | NoOpUndefined
    | NoOpSame
    | CloneFailed
    | Replace(next: Val, gen: nat)

  /** Lines 73-94 of `set`: the guards on `next` and the state it produces. */
  function Update(current: Val, g: nat, next: Val): (d: Decision)
    ensures d.NoOpUndefined? <==> next == Undefined
    ensures d.NoOpSame? <==> next != Undefined && SameValue(current, next)
    ensures d.CloneFailed? <==>
      next != Undefined && !SameValue(current, next) && IsValidObject(next) && !Serializable(next)
    ensures d.Replace? && !IsValidObject(next) ==> d.next == next && d.gen == g
    ensures d.Replace? && IsValidObject(next) ==>
      && d.gen == g + 1
      && IsValidObject(d.next)
      && DeepFrozen(d.next)
      && Serializable(d.next)
      && NoUndefined(d.next)
      && Stringify(d.next) == Stringify(next)
      && forall u :: u in Tokens(d.next) ==> u.Own? && u.gen == g
  {
    if next == Undefined then NoOpUndefined
    else if SameValue(current, next) then NoOpSame
    else if IsValidObject(next) then
      var cloned := Clone(next, g);
      if cloned == Null then CloneFailed
      else
        FreezeKeepsData(cloned);
        Replace(Freeze(cloned), g + 1)
    else Replace(next, g)
  }

  /** A replacement keeps the state invariant, is never `Object.is` the old
      state, and shares no object with the old state, nor with `next` when
      `next` was made before this clone. */
  lemma UpdateKeepsStored(current: Val, g: nat, next: Val)
    requires Stored(current, g)
    ensures var d := Update(current, g, next);
      d.Replace? ==>
        && Stored(d.next, d.gen)
        && g <= d.gen
        && !SameValue(current, d.next)
        && Tokens(d.next) !! Tokens(current)
        && (IssuedBefore(next, g) ==> Tokens(d.next) !! Tokens(next))
  {
    var d := Update(current, g, next);
    if d.Replace? && IsValidObject(next) {
      assert d.next.tok in Tokens(d.next);
      if IsValidObject(current) {
        assert current.tok in Tokens(current);
      }
      forall u | u in Tokens(d.next) ensures u !in Tokens(current) && (IssuedBefore(next, g) ==> u !in Tokens(next)) {
        assert u.gen == g;
      }
    }
  }

  /** `set(get())` is a no-op: the value read is the same reference as the state. */
  lemma SetOfGetIsNoOp(current: Val, g: nat)
    requires Stored(current, g)
    ensures Update(current, g, current) == NoOpSame
  {
  }

  /** Setting again the object a store was built from is not a no-op: the
      store holds a clone of it, which is a different object. */
  lemma ResetOfInitialIsNotNoOp(init: Val)
    requires IsValidObject(init) && Serializable(init) && IssuedBefore(init, 0)
    ensures var r := Construct(init); Update(r.state, r.gen, init).Replace?
  {
    assert init.tok in Tokens(init);
  }

  /** A listener as `subscribe` receives it: a function, or any other value. */
  datatype Listener = Callable(id: ListenerId) | NotCallable(v: Val)

  /** What `subscribe` hands back: the no-op function, or one that deletes `id`. */
  datatype Handle = NoopHandle | Remover(id: ListenerId)

  /** How `subscribe` ends: it returns a handle, or the instant call of the
      listener threw and the exception leaves `subscribe`. */
  datatype Subscription = Returned(handle: Handle) | Raised(listener: ListenerId)

  /** The two pieces of state the closures of `eis` share. */
  class Store {
    var state: Val
    var listeners: seq<ListenerId>
    /** The number of clones made so far: the next clone is clone number `gen`. */
    var gen: nat

    ghost predicate Valid()
      reads this
    {
      Stored(state, gen) && NoDup(listeners)
    }

    /** `set` after its first guard: the state and console afterwards, as `Update` decides. */
    ghost predicate Committed(before: Val, g: nat, next: Val, react: Behaviour,
                              calls: seq<Call>, diags: seq<Diag>, escaped: bool)
      reads this
    {
      match Update(before, g, next)
      case Replace(v, g2) =>
        && state == v && gen == g2
        && Delivered(calls, escaped, listeners, v, react) && diags == ListenerErrors(calls)
      case NoOpUndefined =>
        state == before && gen == g && calls == [] && diags == [NoOpUndefinedResult] && !escaped
      case NoOpSame =>
        state == before && gen == g && calls == [] && diags == [NoOpSameReference] && !escaped
      case CloneFailed =>
        state == before && gen == g && calls == [] && diags == [CloneError, SetError] && !escaped
    }

    /** `eis(init)`; what it writes to the console is `Construct(init).diags`. */
    constructor (init: Val)
      ensures Valid()
      ensures state == Construct(init).state && gen == Construct(init).gen && listeners == []
    {
      var r := Construct(init);
      state, gen, listeners := r.state, r.gen, [];
    }

    /** `get()`: the state, which is never undefined and is deeply frozen. */
    function Get(): (r: Val)
      reads this
      requires Valid()
      ensures Stored(r, gen)
    {
      state
    }

    /** Lines 73-96 of `set`, once `next` is known. When `escaped`, the
        TypeError of an unreportable listener throw leaves `set`, after the
        state has been replaced. */
    method Apply(next: Val, react: Behaviour) returns (calls: seq<Call>, diags: seq<Diag>, escaped: bool)
      requires Valid()
      modifies this
      ensures Valid() && listeners == old(listeners)
      ensures Committed(old(state), old(gen), next, react, calls, diags, escaped)
      ensures escaped ==> !SameValue(old(state), state) && EndsUnreportable(calls)
    {
      UpdateKeepsStored(state, gen, next);
      if next == Undefined {
        return [], [NoOpUndefinedResult], false;
      }
      if SameValue(state, next) {
        return [], [NoOpSameReference], false;
      }
      if IsValidObject(next) {
        var cloned := Clone(next, gen);
        if cloned == Null {
          return [], CloneLog(next) + [SetError], false;
        }
        state, gen := Freeze(cloned), gen + 1;
      } else {
        state := next;
      }
      calls, diags, escaped := Notify(listeners, state, react);
    }

    /** `set(value)` with a value that is not a function. */
    method SetValue(value: Val, react: Behaviour) returns (calls: seq<Call>, diags: seq<Diag>, escaped: bool)
      requires Valid()
      modifies this
      ensures Valid() && listeners == old(listeners)
      ensures value == Undefined ==>
        state == old(state) && gen == old(gen) && calls == [] && diags == [SetError] && !escaped
      ensures value != Undefined ==> Committed(old(state), old(gen), value, react, calls, diags, escaped)
    {
      if value == Undefined {
        return [], [SetError], false;
      }
      calls, diags, escaped := Apply(value, react);
    }

    /** `set(updater)`: the updater is given the current state and its result
      goes through the same guards. */
    method SetWith(updater: Val -> Val, react: Behaviour) returns (calls: seq<Call>, diags: seq<Diag>, escaped: bool)
      requires Valid()
      modifies this
      ensures Valid() && listeners == old(listeners)
      ensures Committed(old(state), old(gen), updater(old(state)), react, calls, diags, escaped)
    {
      var next := updater(state);
      calls, diags, escaped := Apply(next, react);
    }

    /** `subscribe(listener, instant)`. The instant call is not inside a
        `try`: any throw there leaves `subscribe`. */
    method Subscribe(listener: Listener, instant: bool, react: Behaviour)
      returns (s: Subscription, calls: seq<Call>, diags: seq<Diag>)
      requires Valid()
      modifies this`listeners
      ensures Valid()
      ensures listener.NotCallable? ==>
        listeners == old(listeners) && s == Returned(NoopHandle) && calls == [] && diags == [SubscribeError]
      ensures listener.Callable? ==>
        var id := listener.id;
        && listeners == Added(old(listeners), id)
        && diags == []
        && calls == (if instant then [Call(id, state, react(id, state))] else [])
        && s == (if instant && react(id, state) != Returns then Raised(id) else Returned(Remover(id)))
    {
      if listener.NotCallable? {
        return Returned(NoopHandle), [], [SubscribeError];
      }
      var id := listener.id;
      listeners := Added(listeners, id);
      calls, diags := [], [];
      if instant {
        var effect := react(id, state);
        calls := [Call(id, state, effect)];
        if effect != Returns {
          return Raised(id), calls, diags;
        }
      }
      s := Returned(Remover(id));
    }

    /** Calling a handle that `subscribe` returned; `deleted` is the result of
        `listeners.delete` (the no-op handle returns nothing, read as false). */
    method Unsubscribe(h: Handle) returns (deleted: bool)
      requires Valid()
      modifies this`listeners
      ensures Valid()
      ensures h.NoopHandle? ==> listeners == old(listeners) && !deleted
      ensures h.Remover? ==> listeners == Removed(old(listeners), h.id) && deleted == (h.id in old(listeners))
    {
      if h.NoopHandle? {
        return false;
      }
      deleted := h.id in listeners;
      listeners := Removed(listeners, h.id);
    }
  }
}
