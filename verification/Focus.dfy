// Which window the compositor has in focus, as the label bar follows it from events.
module Focus {
  import opened Text

  datatype Window = Window(id: nat, title: string)

  datatype Event =
    | WindowsChanged(windows: seq<Window>, focused: Option<nat>)
    | WindowOpenedOrChanged(window: Window, isFocused: bool)
    | WindowClosed(id: nat)
    | WindowFocusChanged(focused: Option<nat>)
    | Other

  datatype FocusId = Unknown | Nobody | Known(id: nat)

  /** What is shown: nothing known yet, no focus, or a window. */
  datatype Shown = ShowUnknown | ShowNone | ShowWindow(window: Window)

  datatype State = State(windows: map<nat, Window>, focus: FocusId)

  const INIT := State(map[], Unknown)

  function Snapshot(windows: seq<Window>): map<nat, Window> {
    if windows == [] then map[]
    else
      var w := windows[|windows| - 1];
      Snapshot(windows[..|windows| - 1])[w.id := w]
  }

  function FocusOf(id: Option<nat>): FocusId { if id.Some? then Known(id.value) else Nobody }

  function Step(s: State, e: Event): State {
    match e
    case WindowsChanged(windows, focused) => State(Snapshot(windows), FocusOf(focused))
    case WindowOpenedOrChanged(w, isFocused) => State(s.windows[w.id := w], if isFocused then Known(w.id) else s.focus)
    case WindowClosed(id) => State(s.windows - {id}, if s.focus == Known(id) then Nobody else s.focus)
    case WindowFocusChanged(focused) => s.(focus := FocusOf(focused))
    case Other => s
  }

  function After(s: State, events: seq<Event>): State {
    if events == [] then s else Step(After(s, events[..|events| - 1]), events[|events| - 1])
  }

  function Show(s: State): Shown {
    match s.focus
    case Unknown => ShowUnknown
    case Nobody => ShowNone
    case Known(id) => if id in s.windows then ShowWindow(s.windows[id]) else ShowNone
  }

  // ---- properties of every sequence of events ----

  /** The event says something about the focus as a whole. */
  predicate Informs(e: Event) {
    e.WindowsChanged? || e.WindowFocusChanged? || (e.WindowOpenedOrChanged? && e.isFocused)
  }

  predicate SomeInforms(events: seq<Event>) { exists e :: e in events && Informs(e) }

  lemma InformsSnoc(events: seq<Event>, e: Event)
    ensures SomeInforms(events + [e]) <==> SomeInforms(events) || Informs(e)
  {
    hide Informs;
    if SomeInforms(events) {
      var d :| d in events && Informs(d);
      assert d in events + [e];
    }
    if Informs(e) { assert e in events + [e]; }
  }

  lemma StepUnknown(s: State, e: Event)
    ensures Step(s, e).focus == Unknown <==> s.focus == Unknown && !Informs(e)
  {
  }

  lemma ShowUnknownIff(s: State)
    ensures Show(s) == ShowUnknown <==> s.focus == Unknown
  {
  }

  /** The focus is unknown exactly while no event has informed about it. */
  lemma {:induction false} UnknownIff(events: seq<Event>)
    ensures Show(After(INIT, events)) == ShowUnknown <==> !SomeInforms(events)
  {
    hide SomeInforms, Informs, Step, Show;
    ShowUnknownIff(After(INIT, events));
    if events == [] {
      NoneInforms();
    } else {
      var init, last := events[..|events| - 1], events[|events| - 1];
      assert events == init + [last];
      UnknownIff(init);
      ShowUnknownIff(After(INIT, init));
      InformsSnoc(init, last);
      StepUnknown(After(INIT, init), last);
    }
  }

  lemma NoneInforms()
    ensures !SomeInforms([])
  {
  }

  lemma {:induction false} SnapshotIds(windows: seq<Window>)
    ensures forall id :: id in Snapshot(windows) ==> Snapshot(windows)[id].id == id && Snapshot(windows)[id] in windows
  {
    if windows != [] { SnapshotIds(windows[..|windows| - 1]); }
  }

  predicate ById(windows: map<nat, Window>) { forall id :: id in windows ==> windows[id].id == id }

  lemma StepKeepsById(s: State, e: Event)
    requires ById(s.windows)
    ensures ById(Step(s, e).windows)
  {
    if e.WindowsChanged? { SnapshotIds(e.windows); }
  }

  lemma {:induction false} WindowsById(events: seq<Event>)
    ensures ById(After(INIT, events).windows)
  {
    if events != [] {
      WindowsById(events[..|events| - 1]);
      StepKeepsById(After(INIT, events[..|events| - 1]), events[|events| - 1]);
    }
  }

  /** A window that is shown is in the map, under its own id, which is the one last named. */
  lemma ShownIsPresent(events: seq<Event>)
    ensures var s := After(INIT, events);
      Show(s).ShowWindow? ==>
        var w := Show(s).window; w.id in s.windows && s.windows[w.id] == w && s.focus == Known(w.id)
  {
    WindowsById(events);
  }

  predicate Names(e: Event, id: nat) {
    match e
    case WindowsChanged(_, focused) => focused == Some(id)
    case WindowOpenedOrChanged(w, isFocused) => isFocused && w.id == id
    case WindowFocusChanged(focused) => focused == Some(id)
    case _ => false
  }

  // ---- the focus and the windows, read off the events ----

  /** The event takes the focus from window `id`: it gives it to another or to none, or closes the window. */
  predicate Takes(e: Event, id: nat) { (Informs(e) && !Names(e, id)) || e == WindowClosed(id) }

  /** Some event named `id` as focused, and none since has taken the focus from it. */
  ghost predicate Holds(events: seq<Event>, id: nat) {
    exists i :: 0 <= i < |events| && Names(events[i], id) && forall j :: i < j < |events| ==> !Takes(events[j], id)
  }

  lemma HoldsSnoc(events: seq<Event>, e: Event, id: nat)
    ensures Holds(events + [e], id) <==> Names(e, id) || (Holds(events, id) && !Takes(e, id))
  {
    hide Names, Takes;
    var all := events + [e];
    if Names(e, id) { assert all[|events|] == e; }
    if Holds(events, id) && !Takes(e, id) {
      var i :| 0 <= i < |events| && Names(events[i], id) && forall j :: i < j < |events| ==> !Takes(events[j], id);
      assert all[i] == events[i];
    }
    if Holds(all, id) && !Names(e, id) {
      var i :| 0 <= i < |all| && Names(all[i], id) && forall j :: i < j < |all| ==> !Takes(all[j], id);
      assert all[i] == events[i] && !Takes(all[|events|], id);
      forall j | i < j < |events| ensures !Takes(events[j], id) { assert all[j] == events[j]; }
    }
  }

  /** The focus is on a window exactly when some event put it there and none since has taken it away; closing
      another window, or opening one without focus, does not. */
  lemma {:induction false} FocusIff(events: seq<Event>, id: nat)
    ensures After(INIT, events).focus == Known(id) <==> Holds(events, id)
  {
    if events != [] {
      var init, last := events[..|events| - 1], events[|events| - 1];
      assert events == init + [last];
      FocusIff(init, id);
      HoldsSnoc(init, last, id);
      hide Holds;
    }
  }

  /** `w` is the last window of its id in a snapshot. */
  ghost predicate LastOf(windows: seq<Window>, w: Window) {
    exists k :: 0 <= k < |windows| && windows[k] == w && forall l :: k < l < |windows| ==> windows[l].id != w.id
  }

  lemma {:induction false} SnapshotIff(windows: seq<Window>, w: Window)
    ensures w.id in Snapshot(windows) && Snapshot(windows)[w.id] == w <==> LastOf(windows, w)
  {
    if windows != [] {
      var n := |windows| - 1;
      var init, last := windows[..n], windows[n];
      SnapshotIff(init, w);
      if LastOf(init, w) && last.id != w.id {
        var k :| 0 <= k < n && init[k] == w && forall l :: k < l < n ==> init[l].id != w.id;
        assert windows[k] == w;
        forall l | k < l <= n ensures windows[l].id != w.id { if l < n { assert init[l] == windows[l]; } }
      }
      if LastOf(windows, w) && last.id != w.id {
        var k :| 0 <= k <= n && windows[k] == w && forall l :: k < l <= n ==> windows[l].id != w.id;
        assert init[k] == w;
      }
    }
  }

  /** The event brings window `w` as it is. */
  ghost predicate Brings(e: Event, w: Window) {
    (e.WindowOpenedOrChanged? && e.window == w) || (e.WindowsChanged? && LastOf(e.windows, w))
  }

  /** The event says what window `id` is, or that it is not. */
  predicate Touches(e: Event, id: nat) {
    e.WindowsChanged? || e == WindowClosed(id) || (e.WindowOpenedOrChanged? && e.window.id == id)
  }

  ghost predicate Present(events: seq<Event>, w: Window) {
    exists i :: 0 <= i < |events| && Brings(events[i], w) && forall j :: i < j < |events| ==> !Touches(events[j], w.id)
  }

  lemma PresentSnoc(events: seq<Event>, e: Event, w: Window)
    ensures Present(events + [e], w) <==> Brings(e, w) || (Present(events, w) && !Touches(e, w.id))
  {
    hide Brings, Touches;
    var all := events + [e];
    if Brings(e, w) { assert all[|events|] == e; }
    if Present(events, w) && !Touches(e, w.id) {
      var i :| 0 <= i < |events| && Brings(events[i], w) && forall j :: i < j < |events| ==> !Touches(events[j], w.id);
      assert all[i] == events[i];
    }
    if Present(all, w) && !Brings(e, w) {
      var i :| 0 <= i < |all| && Brings(all[i], w) && forall j :: i < j < |all| ==> !Touches(all[j], w.id);
      assert all[i] == events[i] && !Touches(all[|events|], w.id);
      forall j | i < j < |events| ensures !Touches(events[j], w.id) { assert all[j] == events[j]; }
    }
  }

  /** The map holds a window exactly as the last event about that id brought it. */
  lemma {:induction false} WindowIff(events: seq<Event>, w: Window)
    ensures w.id in After(INIT, events).windows && After(INIT, events).windows[w.id] == w <==> Present(events, w)
  {
    if events != [] {
      var init, last := events[..|events| - 1], events[|events| - 1];
      assert events == init + [last];
      WindowIff(init, w);
      PresentSnoc(init, last, w);
      if last.WindowsChanged? { SnapshotIff(last.windows, w); }
      hide Present, LastOf;
    }
  }

  /** What the bar shows: a window exactly when it is present and holds the focus. */
  lemma ShownIff(events: seq<Event>, w: Window)
    ensures Show(After(INIT, events)) == ShowWindow(w) <==> Holds(events, w.id) && Present(events, w)
  {
    FocusIff(events, w.id);
    WindowIff(events, w);
    WindowsById(events);
    hide Holds, Present, After;
  }

  lemma {:induction false} AfterConcat(s: State, a: seq<Event>, b: seq<Event>)
    ensures After(s, a + b) == After(After(s, a), b)
  {
    if b == [] {
      assert a + b == a;
    } else {
      AfterConcat(s, a, b[..|b| - 1]);
      assert (a + b)[..|a + b| - 1] == a + b[..|b| - 1];
    }
  }

  lemma {:induction false} ClosedIsNotFocused(s: State, id: nat, later: seq<Event>)
    requires s.focus != Known(id) && forall e :: e in later ==> !Names(e, id)
    ensures After(s, later).focus != Known(id)
  {
    if later != [] {
      var init, last := later[..|later| - 1], later[|later| - 1];
      assert last in later && forall e :: e in init ==> e in later;
      ClosedIsNotFocused(s, id, init);
    }
  }

  /** A closed id is neither in focus nor shown until an event names it as focused again. */
  lemma ClosedStaysGone(before: seq<Event>, id: nat, later: seq<Event>)
    requires forall e :: e in later ==> !Names(e, id)
    ensures var s := After(INIT, before + [WindowClosed(id)] + later);
      s.focus != Known(id) && (Show(s).ShowWindow? ==> Show(s).window.id != id)
  {
    var events := before + [WindowClosed(id)];
    AfterConcat(INIT, events, later);
    assert events[..|before|] == before;
    ClosedIsNotFocused(After(INIT, events), id, later);
    ShownIsPresent(events + later);
  }

  /** After a snapshot nothing of the earlier history matters. */
  lemma SnapshotForgets(s: State, t: State, windows: seq<Window>, focused: Option<nat>, later: seq<Event>)
    ensures After(s, [WindowsChanged(windows, focused)] + later) == After(t, [WindowsChanged(windows, focused)] + later)
  {
    var snapshot := [WindowsChanged(windows, focused)];
    AfterConcat(s, snapshot, later);
    AfterConcat(t, snapshot, later);
    assert snapshot[..0] == [];
  }

  /** It does not matter whether a window's opening or its focus arrives first. */
  lemma FocusAndOpeningCommute(s: State, w: Window, isFocused: bool, later: seq<Event>)
    ensures After(s, [WindowFocusChanged(Some(w.id)), WindowOpenedOrChanged(w, isFocused)] + later)
      == After(s, [WindowOpenedOrChanged(w, isFocused), WindowFocusChanged(Some(w.id))] + later)
  {
    var focus, open := WindowFocusChanged(Some(w.id)), WindowOpenedOrChanged(w, isFocused);
    AfterConcat(s, [focus, open], later);
    AfterConcat(s, [open, focus], later);
    AfterConcat(s, [focus], [open]);
    AfterConcat(s, [open], [focus]);
    assert [focus] + [open] == [focus, open] && [open] + [focus] == [open, focus];
    assert After(s, [focus]) == Step(s, focus) && After(s, [open]) == Step(s, open);
    assert After(Step(s, focus), [open]) == Step(Step(s, focus), open);
    assert After(Step(s, open), [focus]) == Step(Step(s, open), focus);
  }

  // ---- the map itself ----

  class WindowMap {
    var windows: map<nat, Window>
    var focus: FocusId

    ghost function Abstract(): State
      reads this
    {
      State(windows, focus)
    }

    constructor ()
      ensures Abstract() == INIT
    {
      windows, focus := map[], Unknown;
    }

    method Apply(e: Event)
      modifies this
      ensures Abstract() == Step(old(Abstract()), e)
    {
      match e
      case WindowsChanged(ws, focused) =>
        windows := map[];
        for i := 0 to |ws|
          invariant windows == Snapshot(ws[..i]) && focus == old(focus)
        {
          assert ws[..i + 1][..i] == ws[..i];
          windows := windows[ws[i].id := ws[i]];
        }
        assert ws[..|ws|] == ws;
        focus := if focused.Some? then Known(focused.value) else Nobody;
      case WindowOpenedOrChanged(w, isFocused) =>
        windows := windows[w.id := w];
        if isFocused { focus := Known(w.id); }
      case WindowClosed(id) =>
        windows := windows - {id};
        if focus == Known(id) { focus := Nobody; }
      case WindowFocusChanged(focused) =>
        focus := if focused.Some? then Known(focused.value) else Nobody;
      case Other =>
    }

    method Focused() returns (r: Shown)
      ensures r == Show(Abstract())
    {
      match focus
      case Unknown => return ShowUnknown;
      case Nobody => return ShowNone;
      case Known(id) =>
        if id in windows { return ShowWindow(windows[id]); }
        return ShowNone;
    }
  }
}
