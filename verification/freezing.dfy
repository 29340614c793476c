/** `_freeze`: the depth-first `Object.freeze` of a composite and of every
    composite reachable from it. The marking happens in place, so identities
    are kept; here the frozen value is returned. */
module Freezing {
  import opened Values
  import opened Diagnostics
  import opened Json

  /** The value `_freeze(v)` leaves behind: every reachable composite frozen,
      nothing else changed. A non-object is returned as it is. */
  function Freeze(v: Val): (r: Val)
    ensures DeepFrozen(r)
    ensures Thaw(r) == Thaw(v)
    ensures !IsValidObject(v) ==> r == v
  {
    match v
    case Arr(t, _, xs) =>
      var ys := seq(|xs|, i requires 0 <= i < |xs| => Freeze(xs[i]));
      assert Thaw(Arr(t, true, ys)).elems == Thaw(v).elems;
      Arr(t, true, ys)
    case Obj(t, _, m) =>
      var n := map k | k in m :: Freeze(m[k]);
      assert Thaw(Obj(t, true, n)).fields == Thaw(v).fields;
      Obj(t, true, n)
    case _ => v
  }

  /** What `_freeze(v)` writes to the console: a type error when `v` is not an object. */
  function FreezeLog(v: Val): (d: seq<Diag>)
    ensures d == [] || (d == [FreezeTypeError] && Freeze(v) == v)
    ensures d == [] <==> Tokens(v) != {}
  {
    if IsValidObject(v) then [] else [FreezeTypeError]
  }

  /** Freezing a value that is already deeply frozen changes nothing. */
  lemma {:induction false} FreezeOfFrozen(v: Val)
    requires DeepFrozen(v)
    ensures Freeze(v) == v
  {
    match v
    case Arr(t, f, xs) =>
      forall i | 0 <= i < |xs| ensures Freeze(xs[i]) == xs[i] {
        FreezeOfFrozen(xs[i]);
      }
      assert Freeze(v).elems == xs;
    case Obj(t, f, m) =>
      forall k | k in m ensures Freeze(m[k]) == m[k] {
        FreezeOfFrozen(m[k]);
      }
      assert Freeze(v).fields == m;
    case _ =>
  }

  /** Freezing twice is freezing once. */
  lemma FreezeIdempotent(v: Val)
    ensures Freeze(Freeze(v)) == Freeze(v)
  {
    FreezeOfFrozen(Freeze(v));
  }

  /** Freezing keeps every identity, every `undefined`, and the data
      `JSON.stringify` sees. */
  lemma FreezeKeepsData(v: Val)
    ensures Tokens(Freeze(v)) == Tokens(v)
    ensures NoUndefined(Freeze(v)) == NoUndefined(v)
    ensures Serializable(Freeze(v)) == Serializable(v)
    ensures Serializable(v) && v != Undefined ==>
      Freeze(v) != Undefined && Stringify(Freeze(v)) == Stringify(v)
  {
    ThawKeepsTokens(v);
    ThawKeepsTokens(Freeze(v));
    StringifyIgnoresFrozen(v);
    StringifyIgnoresFrozen(Freeze(v));
  }
}
