/**
 * The abandon behaviour shared by the requests that can be abandoned
 * (section 4.11 of RFC 4511): a one-shot flag, and the listeners told once
 * when it is set. The listeners hang off a `java.util.Observable`, which
 * calls the most recently added observer first.
 */
module AbstractAbandonableRequest {

  /** An `AbandonListener`, known by its identity. */
  type Listener = int

  /** The sequence in the opposite order. */
  function Reversed(s: seq<Listener>): (r: seq<Listener>)
    ensures |r| == |s|
    ensures forall i :: 0 <= i < |s| ==> r[i] == s[|s| - 1 - i]
  {
    if s == [] then [] else [s[|s| - 1]] + Reversed(s[..|s| - 1])
  }

  /** Every registered listener is told exactly as many times as it was added. */
  lemma {:induction false} ReversedCountsEach(s: seq<Listener>)
    ensures multiset(Reversed(s)) == multiset(s)
  {
    if s != [] {
      var front, last := s[..|s| - 1], s[|s| - 1];
      ReversedCountsEach(front);
      assert Reversed(s) == [last] + Reversed(front);
      assert multiset(Reversed(s)) == multiset{last} + multiset(Reversed(front));
      assert s == front + [last];
      assert multiset(s) == multiset(front) + multiset{last};
    }
  }

  class AbstractAbandonableRequest {
    var abandoned: bool
    /** The listeners registered and not yet dropped (the observable's observers). */
    var observers: seq<Listener>
    /** The `requestAbandoned` calls made so far, in the order they were made. */
    var notified: seq<Listener>

    /** No listener hears anything before the request is abandoned. */
    predicate Valid()
      reads this
    {
      !abandoned ==> notified == []
    }

    /** A new request is not abandoned and has no listener. */
    constructor ()
      ensures !abandoned && observers == [] && notified == [] && Valid()
    {
      abandoned := false;
      observers := [];
      notified := [];
    }

    /**
     * `abandon`: the first call sets the flag, tells every registered listener
     * once and drops them all; any later call does nothing.
     */
    method Abandon()
      requires Valid()
      modifies this
      ensures Valid() && abandoned
      ensures old(abandoned) ==> observers == old(observers) && notified == old(notified)
      ensures !old(abandoned) ==> notified == Reversed(old(observers)) && observers == []
      ensures !old(abandoned) ==> multiset(notified) == multiset(old(observers))
    {
      if abandoned {
        return;
      }
      abandoned := true;
      ReversedCountsEach(observers);
      notified := notified + Reversed(observers);
      observers := [];
    }

    /** `isAbandoned`: while it is false no listener has been told anything. */
    predicate IsAbandoned()
      reads this
      ensures Valid() && !IsAbandoned() ==> notified == []
    {
      abandoned
    }

    /** `addAbandonListener`: the listener is registered; the flag does not change. */
    method AddAbandonListener(listener: Listener) returns (self: AbstractAbandonableRequest)
      requires Valid()
      modifies this`observers
      ensures Valid() && self == this
      ensures observers == old(observers) + [listener]
    {
      observers := observers + [listener];
      self := this;
    }
  }

  /**
   * The life of a request: listeners added, the request abandoned twice, a
   * latecomer added after that. Each early listener hears of it once, and the
   * latecomer never does.
   */
  method AbandonLifecycle(early: seq<Listener>, latecomer: Listener) returns (request: AbstractAbandonableRequest)
    requires latecomer !in early
    ensures request.abandoned && multiset(request.notified) == multiset(early)
    ensures latecomer !in request.notified
  {
    request := new AbstractAbandonableRequest();
    for i := 0 to |early|
      invariant request.Valid() && !request.abandoned && request.observers == early[..i]
    {
      var _ := request.AddAbandonListener(early[i]);
      assert early[..i + 1] == early[..i] + [early[i]];
    }
    assert early[..|early|] == early;
    request.Abandon();
    request.Abandon();
    var _ := request.AddAbandonListener(latecomer);
    request.Abandon();
    assert latecomer !in multiset(early);
  }
}
