/** The `listeners` Set of a store and `_notify`. A JavaScript Set keeps its
    members once each, in insertion order, and `forEach` visits them in that
    order, so the registry is a sequence without duplicates. */
module Listeners {
  import opened Values
  import opened Diagnostics

  /** How a call of a listener ends. The `catch` of `_notify` reads
      `err.message` inside a template literal: that works for an ordinary
      error (`ThrowsError`), but throws a new TypeError when the thrown value
      is null or undefined, or its message is a Symbol (`ThrowsUnreportable`). */
  datatype Effect = Returns | ThrowsError | ThrowsUnreportable

  /** How each listener ends when it is called with a given state. What a
      listener does besides is outside the store. */
  type Behaviour = (ListenerId, Val) -> Effect

  /** One listener invocation: who was called, with what, and how it ended. */
  datatype Call = Call(listener: ListenerId, arg: Val, effect: Effect)

  predicate NoDup(ls: seq<ListenerId>) {
    forall i, j :: 0 <= i < j < |ls| ==> ls[i] != ls[j]
  }

  /** `listeners.add(l)`: a listener already present keeps its place. */
  function Added(ls: seq<ListenerId>, l: ListenerId): (r: seq<ListenerId>)
    ensures l in r
    ensures forall x :: x in r <==> x in ls || x == l
    ensures ls <= r
    ensures NoDup(ls) ==> NoDup(r)
  {
    if l in ls then ls else ls + [l]
  }

  /** `listeners.delete(l)`: the others stay, in their order. */
  function Removed(ls: seq<ListenerId>, l: ListenerId): (r: seq<ListenerId>)
    ensures forall x :: x in r <==> x in ls && x != l
    ensures |r| <= |ls|
    ensures NoDup(ls) ==> NoDup(r)
  {
    if ls == [] then []
    else
      var rest := Removed(ls[1..], l);
      assert NoDup(ls) ==> NoDup(ls[1..]) && ls[0] !in ls[1..];
      if ls[0] == l then rest else [ls[0]] + rest
  }

  /** Deleting a registered listener takes out its one entry and nothing else. */
  lemma {:induction false} RemovedOnlyThatEntry(ls: seq<ListenerId>, i: nat)
    requires NoDup(ls) && i < |ls|
    ensures Removed(ls, ls[i]) == ls[..i] + ls[i + 1..]
  {
    var tail := ls[1..];
    NoDupTail(ls);
    if i == 0 {
      RemovedAbsent(tail, ls[0]);
      assert ls[..0] + ls[1..] == tail;
    } else {
      assert ls[0] != ls[i];
      assert tail[i - 1] == ls[i];
      RemovedOnlyThatEntry(tail, i - 1);
      assert Removed(ls, ls[i]) == [ls[0]] + Removed(tail, ls[i]);
      assert ls[..i] + ls[i + 1..] == [ls[0]] + (tail[..i - 1] + tail[i..]);
    }
  }

  /** The registry without its first listener has no duplicates, nor that listener. */
  lemma NoDupTail(ls: seq<ListenerId>)
    requires NoDup(ls) && ls != []
    ensures NoDup(ls[1..]) && ls[0] !in ls[1..]
  {
  }

  /** Deleting a listener that is not registered changes nothing. */
  lemma {:induction false} RemovedAbsent(ls: seq<ListenerId>, l: ListenerId)
    requires l !in ls
    ensures Removed(ls, l) == ls
  {
    if ls != [] {
      RemovedAbsent(ls[1..], l);
    }
  }

  /** Calling an unsubscribe handle again changes nothing. */
  lemma RemovedIdempotent(ls: seq<ListenerId>, l: ListenerId)
    ensures Removed(Removed(ls, l), l) == Removed(ls, l)
  {
    RemovedAbsent(Removed(ls, l), l);
  }

  /** Subscribing a new listener and then calling its handle restores the registry. */
  lemma RemovedUndoesAdded(ls: seq<ListenerId>, l: ListenerId)
    requires NoDup(ls) && l !in ls
    ensures Removed(Added(ls, l), l) == ls
  {
    var r := Added(ls, l);
    assert r == ls + [l] && r[|ls|] == l;
    RemovedOnlyThatEntry(r, |ls|);
    assert r[..|ls|] == ls;
  }

  /** `calls` calls the listeners of `ls` from the first, in order, each
      once, with `s`; no call but the last ended unreportably. */
  predicate CalledInOrder(calls: seq<Call>, ls: seq<ListenerId>, s: Val, react: Behaviour) {
    && |calls| <= |ls|
    && (forall i :: 0 <= i < |calls| ==> calls[i] == Call(ls[i], s, react(ls[i], s)))
    && forall i :: 0 <= i < |calls| - 1 ==> calls[i].effect != ThrowsUnreportable
  }

  /** The last of `calls` ended unreportably: its TypeError leaves the loop. */
  predicate EndsUnreportable(calls: seq<Call>) {
    |calls| > 0 && calls[|calls| - 1].effect == ThrowsUnreportable
  }

  /** What `_notify` does over `ls` with `s`: it calls the listeners in order
      until one ends unreportably (then `escaped`, and the TypeError leaves
      `_notify`) or all have been called. */
  predicate Delivered(calls: seq<Call>, escaped: bool, ls: seq<ListenerId>, s: Val, react: Behaviour) {
    && CalledInOrder(calls, ls, s, react)
    && (escaped <==> EndsUnreportable(calls))
    && (!escaped ==> |calls| == |ls|)
  }

  /** The listener errors written while making `calls`, in order: one per
      ordinary error; an unreportable throw writes nothing. */
  function ListenerErrors(calls: seq<Call>): seq<Diag> {
    if calls == [] then []
    else
      var last := calls[|calls| - 1];
      ListenerErrors(calls[..|calls| - 1]) + (if last.effect == ThrowsError then [ListenerError(last.listener)] else [])
  }

  /** `_notify`: call every listener with the state; a listener error is
      reported and the loop goes on, but a throw that cannot be reported ends
      `_notify` with `escaped`. */
  method Notify(ls: seq<ListenerId>, s: Val, react: Behaviour)
    returns (calls: seq<Call>, diags: seq<Diag>, escaped: bool)
    ensures Delivered(calls, escaped, ls, s, react)
    ensures diags == ListenerErrors(calls)
  {
    calls, diags, escaped := [], [], false;
    var i := 0;
    while i < |ls| && !escaped
      invariant 0 <= i <= |ls| && |calls| == i
      invariant CalledInOrder(calls, ls, s, react)
      invariant escaped <==> EndsUnreportable(calls)
      invariant diags == ListenerErrors(calls)
    {
      var l := ls[i];
      var effect := react(l, s);
      calls := calls + [Call(l, s, effect)];
      assert calls[..|calls| - 1] == calls[..i];
      if effect == ThrowsError {
        diags := diags + [ListenerError(l)];
      } else if effect == ThrowsUnreportable {
        escaped := true;
      }
      i := i + 1;
    }
  }

  /** A listener error is reported exactly for the listeners whose call threw an ordinary error. */
  lemma {:induction false} ListenerErrorsReportThrows(calls: seq<Call>, l: ListenerId)
    ensures ListenerError(l) in ListenerErrors(calls) <==>
      exists i :: 0 <= i < |calls| && calls[i].listener == l && calls[i].effect == ThrowsError
  {
    if calls != [] {
      var n := |calls| - 1;
      var front := calls[..n];
      ListenerErrorsReportThrows(front, l);
      if exists i :: 0 <= i < |calls| && calls[i].listener == l && calls[i].effect == ThrowsError {
        var i :| 0 <= i < |calls| && calls[i].listener == l && calls[i].effect == ThrowsError;
        if i < n {
          assert front[i] == calls[i];
        }
      }
      if ListenerError(l) in ListenerErrors(front) {
        var i :| 0 <= i < |front| && front[i].listener == l && front[i].effect == ThrowsError;
        assert calls[i] == front[i];
      }
    }
  }

  /** A listener error stops no other listener: two runs of `_notify` whose
      listeners throw unreportably in the same places call the same listeners,
      in the same order, with the same state, and escape alike, whatever
      ordinary errors the listeners throw. */
  lemma ThrowsAreIsolated(c1: seq<Call>, e1: bool, c2: seq<Call>, e2: bool,
                          ls: seq<ListenerId>, s: Val, r1: Behaviour, r2: Behaviour)
    requires Delivered(c1, e1, ls, s, r1) && Delivered(c2, e2, ls, s, r2)
    requires forall i :: 0 <= i < |ls| ==>
      (r1(ls[i], s) == ThrowsUnreportable <==> r2(ls[i], s) == ThrowsUnreportable)
    ensures |c1| == |c2| && e1 == e2
    ensures forall i :: 0 <= i < |c1| ==> c1[i].listener == c2[i].listener && c1[i].arg == c2[i].arg
  {
    if e1 {
      assert r2(ls[|c1| - 1], s) == ThrowsUnreportable;
    }
    if e2 {
      assert r1(ls[|c2| - 1], s) == ThrowsUnreportable;
    }
  }

  /** With no duplicate registrations and no escape, every registered
      listener is called exactly once, with the state. */
  lemma DeliveredOnce(calls: seq<Call>, ls: seq<ListenerId>, s: Val, react: Behaviour, l: ListenerId)
    requires Delivered(calls, false, ls, s, react) && NoDup(ls) && l in ls
    ensures exists i :: 0 <= i < |calls| && calls[i].listener == l && calls[i].arg == s
    ensures forall i, j :: 0 <= i < |calls| && 0 <= j < |calls| && calls[i].listener == l && calls[j].listener == l ==> i == j
  {
    var i :| 0 <= i < |ls| && ls[i] == l;
    assert calls[i].listener == l;
  }
}
