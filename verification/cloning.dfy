/** `_clone`: a deep copy by `JSON.parse(JSON.stringify(v))`, which gives
    null when serialization throws. */
module Cloning {
  import opened Values
  import opened Diagnostics
  import opened Json

  /** `_clone(v)` when it is this store's clone number `g`. */
  function Clone(v: Val, g: nat): (r: Val)
    ensures !IsValidObject(v) ==> r == v
    ensures IsValidObject(v) && !Serializable(v) ==> r == Null
    ensures IsValidObject(v) && Serializable(v) ==>
      && IsValidObject(r)
      && Serializable(r)
      && Stringify(r) == Stringify(v)
      && Thaw(r) == r
      && NoUndefined(r)
      && r.tok == Own(g, [])
      && forall u :: u in Tokens(r) ==> u.Own? && u.gen == g
  {
    if !IsValidObject(v) then v
    else if Serializable(v) then
      var j := Stringify(v);
      StringifyParse(j, g, []);
      ParseFresh(j, g, []);
      ParseUnfrozen(j, g, []);
      Parse(j, g, [])
    else Null
  }

  /** What `_clone(v)` writes to the console: a clone error when serialization throws. */
  function CloneLog(v: Val): (d: seq<Diag>)
    ensures d == [] || d == [CloneError]
    ensures forall g :: d != [] <==> IsValidObject(v) && Clone(v, g) == Null
  {
    if IsValidObject(v) && !Serializable(v) then [CloneError] else []
  }

  /** A successful clone shares no object with its input when the input
      existed before this clone, nor with anything else that did. */
  lemma CloneSharesNothing(v: Val, w: Val, g: nat)
    requires IsValidObject(v) && Serializable(v)
    requires IssuedBefore(w, g)
    ensures Tokens(Clone(v, g)) !! Tokens(w)
  {
    forall u | u in Tokens(Clone(v, g)) ensures u !in Tokens(w) {
      assert u.Own? && u.gen == g;
    }
  }

  /** A clone is a tree: no two members of a cloned composite share an
      object, at any depth, and none of them contains the composite itself. */
  lemma CloneIsTree(v: Val, g: nat)
    requires IsValidObject(v) && Serializable(v)
    ensures var r := Clone(v, g);
      && (r.Arr? ==> forall i, j :: 0 <= i < |r.elems| && 0 <= j < |r.elems| && i != j ==>
            Tokens(r.elems[i]) !! Tokens(r.elems[j]) && r.tok !in Tokens(r.elems[i]))
      && (r.Obj? ==> forall k, l :: k in r.fields && l in r.fields && k != l ==>
            Tokens(r.fields[k]) !! Tokens(r.fields[l]) && r.tok !in Tokens(r.fields[k]))
  {
    ParseIsTree(Stringify(v), g, []);
  }
}
