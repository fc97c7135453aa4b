/**
  `RevealOnScroll`: a wrapper that becomes visible the first time its element
  intersects the viewport, then stops observing.  Only the boolean
  `isIntersecting` of each observer callback is modelled.
*/
module Reveal {

  datatype RevealState = RevealState(isVisible: bool, observing: bool)

  datatype ObserverEvent =
    | Entry(isIntersecting: bool)   // an observer callback, delivered only while observing
    | Unmount                       // the effect's cleanup

  /** The state after mount: hidden, and observing when the element is attached. */
  function Mounted(refAttached: bool): RevealState {
    RevealState(false, refAttached)
  }

  function Step(s: RevealState, e: ObserverEvent): RevealState {
    match e
    case Entry(isIntersecting) =>
      if s.observing && isIntersecting then RevealState(true, false) else s
    case Unmount =>
      s.(observing := false)
  }

  function Run(s: RevealState, events: seq<ObserverEvent>): RevealState
    decreases |events|
  {
    if events == [] then s else Run(Step(s, events[0]), events[1..])
  }

  class RevealOnScroll {
    var isVisible: bool
    var observing: bool

    function State(): RevealState
      reads this
    {
      RevealState(isVisible, observing)
    }

    /** Mount: hidden; the observer watches the element if it is attached. */
    constructor (refAttached: bool)
      ensures State() == Mounted(refAttached)
    {
      isVisible := false;
      observing := refAttached;
    }

    /** An observer callback: an intersecting entry reveals the element and
        disconnects the observer; any other entry changes nothing. */
    method OnEntry(isIntersecting: bool)
      modifies this
      ensures State() == Step(old(State()), Entry(isIntersecting))
      ensures old(observing) && isIntersecting ==> isVisible && !observing
      ensures !isIntersecting ==> State() == old(State())
    {
      if observing && isIntersecting {
        isVisible := true;
        observing := false;
      }
    }

    /** Unmount disconnects the observer and leaves `isVisible` as it was. */
    method Unmount()
      modifies this
      ensures State() == Step(old(State()), ObserverEvent.Unmount)
      ensures !observing && isVisible == old(isVisible)
    {
      observing := false;
    }
  }

  /** Once visible, always visible. */
  lemma {:induction false} VisibleStaysVisible(s: RevealState, events: seq<ObserverEvent>)
    requires s.isVisible
    ensures Run(s, events).isVisible
    decreases |events|
  {
    if events != [] {
      VisibleStaysVisible(Step(s, events[0]), events[1..]);
    }
  }

  /** A disconnected observer delivers nothing, so the state is final. */
  lemma {:induction false} DisconnectedIsFinal(s: RevealState, events: seq<ObserverEvent>)
    requires !s.observing
    ensures Run(s, events) == s
    decreases |events|
  {
    if events != [] {
      DisconnectedIsFinal(Step(s, events[0]), events[1..]);
    }
  }

  /** Steps that flip `isVisible` from false to true. */
  function Reveals(s: RevealState, events: seq<ObserverEvent>): nat
    decreases |events|
  {
    if events == [] then 0
    else
      var next := Step(s, events[0]);
      (if !s.isVisible && next.isVisible then 1 else 0) + Reveals(next, events[1..])
  }

  lemma {:induction false} NoRevealOnceVisible(s: RevealState, events: seq<ObserverEvent>)
    requires s.isVisible
    ensures Reveals(s, events) == 0
    decreases |events|
  {
    if events != [] {
      NoRevealOnceVisible(Step(s, events[0]), events[1..]);
    }
  }

  /** The enter animation is triggered at most once, whatever the events. */
  lemma {:induction false} RevealsAtMostOnce(s: RevealState, events: seq<ObserverEvent>)
    ensures Reveals(s, events) <= 1
    decreases |events|
  {
    if events != [] {
      var next := Step(s, events[0]);
      if !s.isVisible && next.isVisible {
        NoRevealOnceVisible(next, events[1..]);
      } else {
        RevealsAtMostOnce(next, events[1..]);
      }
    }
  }

  /** Some intersecting entry arrives before any unmount. */
  predicate IntersectsBeforeUnmount(events: seq<ObserverEvent>) {
    exists i | 0 <= i < |events| :: events[i] == Entry(true) && Unmount !in events[..i]
  }

  /** From mount, the element ends up visible exactly when it is attached and an
      intersecting entry arrives before unmount; the first observation counts,
      so an element already on screen at mount reveals without any scroll. */
  lemma {:induction false} VisibleIffIntersected(refAttached: bool, events: seq<ObserverEvent>)
    ensures Run(Mounted(refAttached), events).isVisible <==>
      refAttached && IntersectsBeforeUnmount(events)
  {
    if !refAttached {
      DisconnectedIsFinal(Mounted(false), events);
    } else {
      WatchingUntilHit(events);
    }
  }

  lemma {:induction false} WatchingUntilHit(events: seq<ObserverEvent>)
    ensures Run(Mounted(true), events).isVisible <==> IntersectsBeforeUnmount(events)
    decreases |events|
  {
    var s := Mounted(true);
    if events != [] {
      var e := events[0];
      var rest := events[1..];
      if e == Entry(true) {
        VisibleStaysVisible(Step(s, e), rest);
        assert events[..0] == [];
      } else if e == Unmount {
        DisconnectedIsFinal(Step(s, e), rest);
        forall i | 0 <= i < |events| && events[i] == Entry(true)
          ensures Unmount in events[..i]
        {
          assert events[..i][0] == Unmount;
        }
      } else {
        assert Step(s, e) == s;
        WatchingUntilHit(rest);
        if IntersectsBeforeUnmount(rest) {
          var i :| 0 <= i < |rest| && rest[i] == Entry(true) && Unmount !in rest[..i];
          assert events[..i + 1] == [e] + rest[..i];
          assert events[i + 1] == Entry(true);
        }
        if IntersectsBeforeUnmount(events) {
          var i :| 0 <= i < |events| && events[i] == Entry(true) && Unmount !in events[..i];
          assert i > 0;
          assert rest[..i - 1] == events[1..i];
          assert rest[i - 1] == Entry(true);
        }
      }
    }
  }
}
