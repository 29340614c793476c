/** The values an eis store holds: JavaScript primitives and the two composite
    shapes (plain objects and arrays), each composite carrying its identity and
    its frozen mark. */
module Values {

  /** One step from a composite down to one of its members. */
  datatype Step = Index(i: nat) | Key(k: string)

  /** The identity of a composite, which `Object.is` compares.
      `Foreign(n)` is an object this store did not allocate (the caller's, or
      another store's); `Own(gen, path)` is the object that this store's clone
      number `gen` built at `path` below the clone's root. */
  datatype Token = Foreign(n: nat) | Own(gen: nat, path: seq<Step>)

  /** A JavaScript value as the store sees it. Numbers are integers here;
      `BigInt` is the primitive that `JSON.stringify` refuses to serialize. */
  datatype Val =
    | Undefined
    | Null
    | Bool(b: bool)
    | Num(n: int)
    | Str(s: string)
    | BigInt(n: int)
    | Arr(tok: Token, frozen: bool, elems: seq<Val>)
    | Obj(tok: Token, frozen: bool, fields: map<string, Val>)

  /** The identity of a listener function, which the listener Set compares. */
  type ListenerId = nat

  /** `_isValidObject`: not null and of type "object", i.e. a plain object or
      an array. These are exactly the values that carry an identity. */
  predicate IsValidObject(v: Val)
    ensures IsValidObject(v) <==> Tokens(v) != {}
  {
    assert v.Arr? || v.Obj? ==> v.tok in Tokens(v);
    v.Arr? || v.Obj?
  }

  /** `Object.is` on integers, strings and composites: composites are the same
      exactly when they are the same object; primitives when they are equal. */
  function SameValue(a: Val, b: Val): (r: bool)
    ensures a == b ==> r
    ensures r ==> IsValidObject(a) == IsValidObject(b)
    ensures r && !IsValidObject(a) ==> a == b
    ensures IsValidObject(a) && IsValidObject(b) ==> (r <==> a.tok == b.tok)
  {
    if IsValidObject(a) && IsValidObject(b) then
      a.tok == b.tok
    else if IsValidObject(a) || IsValidObject(b) then
      false
    else
      a == b
  }

  /** No `undefined` is reachable from `v`, `v` included. */
  predicate NoUndefined(v: Val) {
    match v
    case Undefined => false
    case Arr(_, _, xs) => forall i :: 0 <= i < |xs| ==> NoUndefined(xs[i])
    case Obj(_, _, m) => forall k :: k in m ==> NoUndefined(m[k])
    case _ => true
  }

  /** The identities of every composite reachable from `v`, `v` included. */
  function Tokens(v: Val): set<Token> {
    match v
    case Arr(t, _, xs) => {t} + (set i, u | 0 <= i < |xs| && u in Tokens(xs[i]) :: u)
    case Obj(t, _, m) => {t} + (set k, u | k in m && u in Tokens(m[k]) :: u)
    case _ => {}
  }

  /** Every composite reachable from `v` is frozen. */
  predicate DeepFrozen(v: Val) {
    match v
    case Arr(_, f, xs) => f && forall i :: 0 <= i < |xs| ==> DeepFrozen(xs[i])
    case Obj(_, f, m) => f && forall k :: k in m ==> DeepFrozen(m[k])
    case _ => true
  }

  /** `v` with every frozen mark cleared: its data and identities only. */
  function Thaw(v: Val): Val {
    match v
    case Arr(t, _, xs) => Arr(t, false, seq(|xs|, i requires 0 <= i < |xs| => Thaw(xs[i])))
    case Obj(t, _, m) => Obj(t, false, map k | k in m :: Thaw(m[k]))
    case _ => v
  }

  /** No composite reachable from `v` has an identity this store allocates
      from generation `g` on: `v` exists before the store's clone number `g`. */
  predicate IssuedBefore(v: Val, g: nat) {
    forall u :: u in Tokens(v) ==> u.Own? ==> u.gen < g
  }

  /** Clearing frozen marks keeps every identity, and every `undefined`. */
  lemma {:induction false} ThawKeepsTokens(v: Val)
    ensures Tokens(Thaw(v)) == Tokens(v)
    ensures NoUndefined(Thaw(v)) == NoUndefined(v)
  {
    match v
    case Arr(t, _, xs) =>
      var ys := seq(|xs|, i requires 0 <= i < |xs| => Thaw(xs[i]));
      forall i | 0 <= i < |xs|
        ensures Tokens(ys[i]) == Tokens(xs[i]) && NoUndefined(ys[i]) == NoUndefined(xs[i])
      {
        ThawKeepsTokens(xs[i]);
      }
    case Obj(t, _, m) =>
      var n := map k | k in m :: Thaw(m[k]);
      forall k | k in m
        ensures Tokens(n[k]) == Tokens(m[k]) && NoUndefined(n[k]) == NoUndefined(m[k])
      {
        ThawKeepsTokens(m[k]);
      }
    case _ =>
  }
}
