/** The JSON round trip behind `_clone`: `JSON.stringify` read as a JSON
    tree, and `JSON.parse` building fresh, unfrozen composites from it. */
module Json {
  import opened Values

  /** A JSON document as a tree; text layout and member order are not modelled. */
  datatype Json =
    | JNull
    | JBool(b: bool)
    | JNum(n: int)
    | JStr(s: string)
    | JArr(items: seq<Json>)
    | JObj(members: map<string, Json>)

  /** `JSON.stringify` does not throw on `v`: no BigInt is reachable from it. */
  predicate Serializable(v: Val)
    ensures v.BigInt? ==> !Serializable(v)
  {
    match v
    case BigInt(_) => false
    case Arr(_, _, xs) => forall i :: 0 <= i < |xs| ==> Serializable(xs[i])
    case Obj(_, _, m) => forall k :: k in m ==> Serializable(m[k])
    case _ => true
  }

  /** The document `JSON.stringify` writes for `v`: an undefined array element
      is written as null and an undefined member is left out. */
  function Stringify(v: Val): (r: Json)
    requires Serializable(v) && v != Undefined
    ensures v.Arr? <==> r.JArr?
    ensures v.Arr? ==> |r.items| == |v.elems|
    ensures v.Obj? <==> r.JObj?
    ensures v.Obj? ==> r.members.Keys == set k | k in v.fields && v.fields[k] != Undefined
  {
    match v
    case Null => JNull
    case Bool(b) => JBool(b)
    case Num(n) => JNum(n)
    case Str(s) => JStr(s)
    case Arr(_, _, xs) =>
      JArr(seq(|xs|, i requires 0 <= i < |xs| => if xs[i] == Undefined then JNull else Stringify(xs[i])))
    case Obj(_, _, m) =>
      JObj(map k | k in m && m[k] != Undefined :: Stringify(m[k]))
  }

  /** The value `JSON.parse` builds for `j` when it is the `g`-th clone of this
      store: every composite is a new, unfrozen object, named by its path. */
  function Parse(j: Json, g: nat, path: seq<Step>): (r: Val)
    ensures NoUndefined(r)
    ensures IsValidObject(r) <==> j.JArr? || j.JObj?
    ensures IsValidObject(r) ==> r.tok == Own(g, path) && !r.frozen
  {
    match j
    case JNull => Null
    case JBool(b) => Bool(b)
    case JNum(n) => Num(n)
    case JStr(s) => Str(s)
    case JArr(items) =>
      Arr(Own(g, path), false,
          seq(|items|, i requires 0 <= i < |items| => Parse(items[i], g, path + [Index(i)])))
    case JObj(ms) =>
      Obj(Own(g, path), false, map k | k in ms :: Parse(ms[k], g, path + [Key(k)]))
  }

  /** Parsing a document and writing it out again gives back the same document. */
  lemma {:induction false} StringifyParse(j: Json, g: nat, path: seq<Step>)
    ensures Serializable(Parse(j, g, path)) && Parse(j, g, path) != Undefined
    ensures Stringify(Parse(j, g, path)) == j
  {
    match j
    case JArr(items) =>
      var xs := Parse(j, g, path).elems;
      forall i | 0 <= i < |items|
        ensures Serializable(xs[i]) && xs[i] != Undefined && Stringify(xs[i]) == items[i]
      {
        StringifyParse(items[i], g, path + [Index(i)]);
      }
      assert Stringify(Parse(j, g, path)).items == items;
    case JObj(ms) =>
      var m := Parse(j, g, path).fields;
      forall k | k in ms
        ensures Serializable(m[k]) && m[k] != Undefined && Stringify(m[k]) == ms[k]
      {
        StringifyParse(ms[k], g, path + [Key(k)]);
      }
      assert Stringify(Parse(j, g, path)).members == ms;
    case _ =>
  }

  /** Every composite `JSON.parse` builds is new: its identity belongs to clone
      `g` and sits below `path`. */
  lemma {:induction false} ParseFresh(j: Json, g: nat, path: seq<Step>)
    ensures forall u :: u in Tokens(Parse(j, g, path)) ==> u.Own? && u.gen == g && path <= u.path
  {
    match j
    case JArr(items) =>
      var xs := Parse(j, g, path).elems;
      forall i | 0 <= i < |items|
        ensures forall u :: u in Tokens(xs[i]) ==> u.Own? && u.gen == g && path <= u.path
      {
        ParseFresh(items[i], g, path + [Index(i)]);
      }
    case JObj(ms) =>
      var m := Parse(j, g, path).fields;
      forall k | k in ms
        ensures forall u :: u in Tokens(m[k]) ==> u.Own? && u.gen == g && path <= u.path
      {
        ParseFresh(ms[k], g, path + [Key(k)]);
      }
    case _ =>
  }

  /** `JSON.parse` builds objects that are not frozen. */
  lemma {:induction false} ParseUnfrozen(j: Json, g: nat, path: seq<Step>)
    ensures Thaw(Parse(j, g, path)) == Parse(j, g, path)
  {
    match j
    case JArr(items) =>
      var xs := Parse(j, g, path).elems;
      forall i | 0 <= i < |items| ensures Thaw(xs[i]) == xs[i] {
        ParseUnfrozen(items[i], g, path + [Index(i)]);
      }
      assert Thaw(Parse(j, g, path)).elems == xs;
    case JObj(ms) =>
      var m := Parse(j, g, path).fields;
      forall k | k in ms ensures Thaw(m[k]) == m[k] {
        ParseUnfrozen(ms[k], g, path + [Key(k)]);
      }
      assert Thaw(Parse(j, g, path)).fields == m;
    case _ =>
  }

  /** `JSON.parse` builds a tree: two different members of a parsed composite
      share no object, and none of them contains the composite itself. */
  lemma ParseIsTree(j: Json, g: nat, path: seq<Step>)
    ensures var r := Parse(j, g, path);
      && (r.Arr? ==> forall i, i' :: 0 <= i < |r.elems| && 0 <= i' < |r.elems| && i != i' ==>
            Tokens(r.elems[i]) !! Tokens(r.elems[i']) && r.tok !in Tokens(r.elems[i]))
      && (r.Obj? ==> forall k, l :: k in r.fields && l in r.fields && k != l ==>
            Tokens(r.fields[k]) !! Tokens(r.fields[l]) && r.tok !in Tokens(r.fields[k]))
  {
    match j
    case JArr(items) =>
      var xs := Parse(j, g, path).elems;
      forall i | 0 <= i < |xs|
        ensures forall u :: u in Tokens(xs[i]) ==> u.Own? && |u.path| > |path| && u.path[|path|] == Index(i)
      {
        ParseFresh(items[i], g, path + [Index(i)]);
        forall u | u in Tokens(xs[i]) ensures u.Own? && |u.path| > |path| && u.path[|path|] == Index(i) {
          assert (path + [Index(i)])[|path|] == Index(i);
        }
      }
    case JObj(ms) =>
      var m := Parse(j, g, path).fields;
      forall k | k in m
        ensures forall u :: u in Tokens(m[k]) ==> u.Own? && |u.path| > |path| && u.path[|path|] == Key(k)
      {
        ParseFresh(ms[k], g, path + [Key(k)]);
        forall u | u in Tokens(m[k]) ensures u.Own? && |u.path| > |path| && u.path[|path|] == Key(k) {
          assert (path + [Key(k)])[|path|] == Key(k);
        }
      }
    case _ =>
  }

  /** Frozen marks play no part in serialization. */
  lemma {:induction false} StringifyIgnoresFrozen(v: Val)
    ensures Serializable(Thaw(v)) == Serializable(v)
    ensures Serializable(v) && v != Undefined ==> Stringify(Thaw(v)) == Stringify(v)
  {
    match v
    case Arr(t, _, xs) =>
      var ys := Thaw(v).elems;
      forall i | 0 <= i < |xs|
        ensures Serializable(ys[i]) == Serializable(xs[i]) && (ys[i] == Undefined <==> xs[i] == Undefined)
        ensures Serializable(xs[i]) && xs[i] != Undefined ==> Stringify(ys[i]) == Stringify(xs[i])
      {
        StringifyIgnoresFrozen(xs[i]);
      }
      if Serializable(v) {
        assert Stringify(Thaw(v)).items == Stringify(v).items;
      }
    case Obj(t, _, m) =>
      var n := Thaw(v).fields;
      forall k | k in m
        ensures Serializable(n[k]) == Serializable(m[k]) && (n[k] == Undefined <==> m[k] == Undefined)
        ensures Serializable(m[k]) && m[k] != Undefined ==> Stringify(n[k]) == Stringify(m[k])
      {
        StringifyIgnoresFrozen(m[k]);
      }
      if Serializable(v) {
        assert Stringify(Thaw(v)).members == Stringify(v).members;
      }
    case _ =>
  }
}
