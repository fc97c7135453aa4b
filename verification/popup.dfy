/**
  The developer-credit popup: two independent flags, `showDevPopup` and
  `minimizeDevPopup`, set by two timers armed at mount (4000 ms and 9000 ms)
  and by the popup's own two buttons.  A timer fires at most once and never
  after it was cleared; a button can be clicked only while it is rendered.
*/
module Popup {

  const ShowDelayMs := 4000
  const MinimizeDelayMs := 9000

  datatype PopupState = PopupState(
    showDevPopup: bool,
    minimizeDevPopup: bool,
    showTimerArmed: bool,
    minimizeTimerArmed: bool,
    mounted: bool)

  datatype PopupEvent =
    | ShowTimerFires
    | MinimizeTimerFires
    | CloseClick      // the X button of the full popup
    | ExpandClick     // the round icon of the minimized popup
    | Unmount         // the effect's cleanup: both timers cleared

  /** What is on screen. */
  datatype View = Nothing | Full | Icon

  /** Both flags false, both timers armed. */
  const Mounted := PopupState(false, false, true, true, true)

  function ViewOf(s: PopupState): View {
    if !s.mounted || !s.showDevPopup then Nothing
    else if s.minimizeDevPopup then Icon
    else Full
  }

  /** The effect of one event; a timer that is not armed and a button that is
      not rendered deliver nothing. */
  function Step(s: PopupState, e: PopupEvent): PopupState {
    match e
    case ShowTimerFires =>
      if s.showTimerArmed then s.(showDevPopup := true, showTimerArmed := false) else s
    case MinimizeTimerFires =>
      if s.minimizeTimerArmed then s.(minimizeDevPopup := true, minimizeTimerArmed := false) else s
    case CloseClick =>
      if ViewOf(s) == Full then s.(minimizeDevPopup := true) else s
    case ExpandClick =>
      if ViewOf(s) == Icon then s.(minimizeDevPopup := false) else s
    case Unmount =>
      s.(showTimerArmed := false, minimizeTimerArmed := false, mounted := false)
  }

  function Run(s: PopupState, events: seq<PopupEvent>): PopupState
    decreases |events|
  {
    if events == [] then s else Run(Step(s, events[0]), events[1..])
  }

  class DevPopup {
    var showDevPopup: bool
    var minimizeDevPopup: bool
    var showTimerArmed: bool
    var minimizeTimerArmed: bool
    var mounted: bool

    function State(): PopupState
      reads this
    {
      PopupState(showDevPopup, minimizeDevPopup, showTimerArmed, minimizeTimerArmed, mounted)
    }

    /** Mounting: both flags false, both timers armed. */
    constructor ()
      ensures State() == Mounted
      ensures ViewOf(State()) == Nothing
    {
      showDevPopup, minimizeDevPopup := false, false;
      showTimerArmed, minimizeTimerArmed := true, true;
      mounted := true;
    }

    /** The 4000 ms timer: shows the popup. */
    method OnShowTimer()
      modifies this
      ensures State() == Step(old(State()), ShowTimerFires)
      ensures old(showTimerArmed) ==> showDevPopup && !showTimerArmed
      ensures minimizeDevPopup == old(minimizeDevPopup)
    {
      if showTimerArmed {
        showDevPopup := true;
        showTimerArmed := false;
      }
    }

    /** The 9000 ms timer: minimizes the popup, whatever the user did before. */
    method OnMinimizeTimer()
      modifies this
      ensures State() == Step(old(State()), MinimizeTimerFires)
      ensures old(minimizeTimerArmed) ==> minimizeDevPopup && !minimizeTimerArmed
      ensures showDevPopup == old(showDevPopup)
    {
      if minimizeTimerArmed {
        minimizeDevPopup := true;
        minimizeTimerArmed := false;
      }
    }

    /** A click on the X of the full popup. */
    method OnCloseClick()
      modifies this
      ensures State() == Step(old(State()), CloseClick)
      ensures old(ViewOf(State())) == Full ==> ViewOf(State()) == Icon
      ensures showDevPopup == old(showDevPopup)
    {
      if mounted && showDevPopup && !minimizeDevPopup {
        minimizeDevPopup := true;
      }
    }

    /** A click on the minimized icon. */
    method OnExpandClick()
      modifies this
      ensures State() == Step(old(State()), ExpandClick)
      ensures old(ViewOf(State())) == Icon ==> ViewOf(State()) == Full
      ensures showDevPopup == old(showDevPopup)
    {
      if mounted && showDevPopup && minimizeDevPopup {
        minimizeDevPopup := false;
      }
    }

    /** The effect's cleanup: both timers cleared, both flags kept. */
    method OnUnmount()
      modifies this
      ensures State() == Step(old(State()), Unmount)
      ensures !showTimerArmed && !minimizeTimerArmed && !mounted
      ensures showDevPopup == old(showDevPopup) && minimizeDevPopup == old(minimizeDevPopup)
    {
      showTimerArmed, minimizeTimerArmed := false, false;
      mounted := false;
    }
  }

  /** Only the show timer changes `showDevPopup`, and only to true. */
  lemma OnlyShowTimerShows(s: PopupState, e: PopupEvent)
    ensures Step(s, e).showDevPopup == (s.showDevPopup || (e == ShowTimerFires && s.showTimerArmed))
  {
  }

  /** Once shown, the popup stays shown: Hidden is never entered again. */
  lemma {:induction false} ShownStaysShown(s: PopupState, events: seq<PopupEvent>)
    requires s.showDevPopup
    ensures Run(s, events).showDevPopup
    decreases |events|
  {
    if events != [] {
      OnlyShowTimerShows(s, events[0]);
      ShownStaysShown(Step(s, events[0]), events[1..]);
    }
  }

  /** While `showDevPopup` is false nothing is rendered, whatever `minimizeDevPopup` holds. */
  lemma HiddenRendersNothing(s: PopupState)
    requires !s.showDevPopup
    ensures ViewOf(s) == Nothing
  {
  }

  /** The minimize timer and the close click both set `minimizeDevPopup`; on a
      popup already minimized they change neither flag nor what is on screen. */
  lemma MinimizeIsIdempotent(s: PopupState, e: PopupEvent)
    requires e == MinimizeTimerFires || e == CloseClick
    ensures e == MinimizeTimerFires && s.minimizeTimerArmed ==> Step(s, e).minimizeDevPopup
    ensures e == CloseClick && ViewOf(s) == Full ==> ViewOf(Step(s, e)) == Icon
    ensures s.minimizeDevPopup ==>
      && Step(s, e).minimizeDevPopup
      && Step(s, e).showDevPopup == s.showDevPopup
      && ViewOf(Step(s, e)) == ViewOf(s)
  {
  }

  /** The expand click clears `minimizeDevPopup`, bringing back the full popup. */
  lemma ExpandRestores(s: PopupState)
    requires ViewOf(s) == Icon
    ensures !Step(s, ExpandClick).minimizeDevPopup && ViewOf(Step(s, ExpandClick)) == Full
  {
  }

  /** A late minimize timer collapses the popup even after the user closed and
      re-expanded it. */
  lemma LateTimerCollapses(s: PopupState)
    requires s.minimizeTimerArmed && ViewOf(s) == Full
    ensures ViewOf(Run(s, [CloseClick, ExpandClick, MinimizeTimerFires])) == Icon
  {
    var s1 := Step(s, CloseClick);
    var s2 := Step(s1, ExpandClick);
    assert ViewOf(s1) == Icon && ViewOf(s2) == Full;
    assert Run(s, [CloseClick, ExpandClick, MinimizeTimerFires]) == Step(s2, MinimizeTimerFires) by {
      assert [CloseClick, ExpandClick, MinimizeTimerFires][1..] == [ExpandClick, MinimizeTimerFires];
      assert [ExpandClick, MinimizeTimerFires][1..] == [MinimizeTimerFires];
    }
  }

  /** After unmount no event changes anything: no timer can fire and no button is on screen. */
  lemma {:induction false} FrozenAfterUnmount(s: PopupState, events: seq<PopupEvent>)
    ensures Run(Step(s, Unmount), events) == Step(s, Unmount)
    decreases |events|
  {
    if events != [] {
      FrozenAfterUnmount(s, events[1..]);
    }
  }

  /** The timer events due `t` ms after mount, in the order they fire. */
  function TimerEventsBy(t: nat): seq<PopupEvent> {
    (if t >= ShowDelayMs then [ShowTimerFires] else [])
    + (if t >= MinimizeDelayMs then [MinimizeTimerFires] else [])
  }

  /** Without user action: nothing before 4000 ms, the full popup from 4000 ms,
      the icon from 9000 ms on. */
  lemma Timeline(t: nat)
    ensures ViewOf(Run(Mounted, TimerEventsBy(t))) ==
      if t < ShowDelayMs then Nothing else if t < MinimizeDelayMs then Full else Icon
  {
    var evs := TimerEventsBy(t);
    if t >= MinimizeDelayMs {
      assert evs == [ShowTimerFires, MinimizeTimerFires];
      var s1 := Step(Mounted, ShowTimerFires);
      assert Run(Mounted, evs) == Run(s1, [MinimizeTimerFires]);
      assert Run(s1, [MinimizeTimerFires]) == Step(s1, MinimizeTimerFires);
    } else if t >= ShowDelayMs {
      assert evs == [ShowTimerFires];
    }
  }

  /** A user who minimizes at 5000 ms sees no change when the 9000 ms timer fires. */
  lemma DismissBeforeTimer()
    ensures ViewOf(Run(Mounted, [ShowTimerFires, CloseClick])) == Icon
    ensures ViewOf(Run(Mounted, [ShowTimerFires, CloseClick, MinimizeTimerFires])) == Icon
  {
    var s1 := Step(Mounted, ShowTimerFires);
    var s2 := Step(s1, CloseClick);
    assert [ShowTimerFires, CloseClick][1..] == [CloseClick];
    assert [ShowTimerFires, CloseClick, MinimizeTimerFires][1..] == [CloseClick, MinimizeTimerFires];
    assert [CloseClick, MinimizeTimerFires][1..] == [MinimizeTimerFires];
  }
}
