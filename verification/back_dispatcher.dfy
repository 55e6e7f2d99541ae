/**
 * The desktop back dispatcher: screens register back handlers on a stack, and a back
 * press invokes only the most recently registered one.
 */
module BackDispatcher {
  import opened Wrappers

  /** `remove(h)`: the list without its first element equal to `h`, or the list unchanged. */
  function RemoveFirst<H(==)>(s: seq<H>, h: H): (r: seq<H>)
    ensures h !in s ==> r == s
    ensures h in s ==> |r| == |s| - 1
  {
    if s == [] then []
    else if s[0] == h then s[1..]
    else [s[0]] + RemoveFirst(s[1..], h)
  }

  /** The index of the first element equal to `h`. */
  function FirstIndex<H(==)>(s: seq<H>, h: H): (i: nat)
    requires h in s
    ensures i < |s| && s[i] == h
    ensures forall j :: 0 <= j < i ==> s[j] != h
  {
    if s[0] == h then 0 else FirstIndex(s[1..], h) + 1
  }

  /** Removing cuts the list at the first occurrence of `h`, keeping the rest in order. */
  lemma {:induction false} RemoveFirstCuts<H>(s: seq<H>, h: H)
    requires h in s
    ensures RemoveFirst(s, h) == s[..FirstIndex(s, h)] + s[FirstIndex(s, h) + 1..]
  {
    if s[0] != h {
      RemoveFirstCuts(s[1..], h);
      assert s[1..][..FirstIndex(s[1..], h)] == s[1..FirstIndex(s, h)];
      assert s[1..][FirstIndex(s[1..], h) + 1..] == s[FirstIndex(s, h) + 1..];
    }
  }

  /** The handler a back press reaches: the last one, if any. */
  function Top<H>(s: seq<H>): (r: Option<H>)
    ensures r.None? <==> s == []
    ensures r.Some? ==> r.value == s[|s| - 1]
  {
    if s == [] then None else Some(s[|s| - 1])
  }

  /** Registering then unregistering a handler that was not registered restores the stack. */
  lemma {:induction false} RegisterUnregister<H>(s: seq<H>, h: H)
    requires h !in s
    ensures RemoveFirst(s + [h], h) == s
  {
    if s != [] {
      assert (s + [h])[1..] == s[1..] + [h];
      RegisterUnregister(s[1..], h);
    } else {
      assert s + [h] == [h];
    }
  }

  /**
   * A handler registered twice is unregistered from its earlier place: the later copy
   * stays on top and keeps receiving back presses.
   */
  lemma DuplicateKeepsLater<H>(s: seq<H>, h: H)
    requires h !in s
    ensures Top(RemoveFirst([h] + s + [h], h)) == Some(h)
  {
    assert ([h] + s + [h])[1..] == s + [h];
  }

  class Dispatcher<H(==)> {
    var handlers: seq<H>

    constructor ()
      ensures handlers == []
    {
      handlers := [];
    }

    /** `register`: the handler goes on top. */
    method Register(h: H)
      modifies this
      ensures handlers == old(handlers) + [h]
      ensures Top(handlers) == Some(h)
    {
      handlers := handlers + [h];
    }

    /** `unregister`: the first equal handler is removed; an absent one changes nothing. */
    method Unregister(h: H)
      modifies this
      ensures handlers == RemoveFirst(old(handlers), h)
      ensures h !in old(handlers) ==> handlers == old(handlers)
      ensures h in old(handlers) ==> |handlers| == |old(handlers)| - 1
    {
      handlers := RemoveFirst(handlers, h);
    }

    /**
     * `dispatch`: with no handler, reports unhandled and invokes nothing; otherwise
     * invokes the top handler only, reports handled, and leaves the stack as it was.
     */
    method Dispatch() returns (handled: bool, invoked: Option<H>)
      ensures handled <==> handlers != []
      ensures invoked == Top(handlers)
      ensures handled ==> invoked == Some(handlers[|handlers| - 1])
    {
      if handlers != [] {
        invoked := Some(handlers[|handlers| - 1]);
        handled := true;
      } else {
        invoked := None;
        handled := false;
      }
    }
  }

  /** Last in, first out: a back press right after `register(h)` invokes `h`. */
  method RegisterThenDispatch<H(==)>(d: Dispatcher<H>, h: H) returns (handled: bool, invoked: Option<H>)
    modifies d
    ensures d.handlers == old(d.handlers) + [h]
    ensures handled && invoked == Some(h)
  {
    d.Register(h);
    handled, invoked := d.Dispatch();
  }
}
