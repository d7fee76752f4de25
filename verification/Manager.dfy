// The manager's request bookkeeping: which request is in flight in which slot, which replies have
// gone stale, and which of them may be shown. Request ids grow, so "requested after" is `>` on ids.
module Manager {
  import opened Text

  datatype Kind = List | Describe(space: string) | NetStatus | Profiles | Action

  /** What a finished action still has to do. */
  datatype Intent = Creates(space: string) | AsksPassphrase | Plain

  datatype Pending = Pending(id: nat, intent: Intent)

  /** A reply as the views read it; `spaces` is the list of a well-formed answer to `list`. */
  datatype Reply = Failed(code: string) | Ok(spaces: Option<seq<string>>)

  const LOG_LINES := 200
  const LINE_CHARS := 1024

  /** The requests: 0 is an empty slot; `inflight` are those whose final reply has not been handled. */
  datatype Slots = Slots(
    nextId: nat, inflight: map<nat, Kind>,
    list: nat, listAgain: bool,
    detail: nat, detailRequest: Option<(string, nat)>,
    net: nat,
    profiles: nat, profilesAgain: bool,
    pending: Option<Pending>)

  datatype View = View(selected: Option<string>, epoch: nat, detailVisible: bool,
                       connected: bool, spaces: seq<string>, pendingSelect: Option<string>)

  /** The request behind what each page shows, and the moments a reply is judged against: the last id
      issued before the last successful action was processed, and before the selection last changed. */
  datatype Shown = Shown(list: nat, detail: nat, detailSpace: Option<string>, profiles: nat,
                         mutation: nat, selection: nat)

  /** The operation log, and everything reported for the action so far. */
  datatype Log = Log(lines: seq<string>, history: seq<string>)

  datatype State = State(slots: Slots, view: View, shown: Shown, log: Log, closed: bool)

  const BLANK := State(Slots(0, map[], 0, false, 0, None, 0, 0, false, None),
                       View(None, 0, false, false, [], None), Shown(0, 0, None, 0, 0, 0), Log([], []), false)

  // ---- requests ----

  function Send(k: Slots, kind: Kind): Slots {
    k.(nextId := k.nextId + 1, inflight := k.inflight[k.nextId + 1 := kind])
  }

  function AskList(k: Slots): Slots {
    if k.list != 0 then k else Send(k, List).(list := k.nextId + 1)
  }

  function AskDetail(k: Slots, space: string, epoch: nat): Slots {
    if k.detail != 0 then k
    else Send(k, Describe(space)).(detail := k.nextId + 1, detailRequest := Some((space, epoch)))
  }

  function AskNet(k: Slots): Slots {
    if k.net != 0 then k else Send(k, NetStatus).(net := k.nextId + 1)
  }

  function AskProfiles(k: Slots): Slots {
    if k.profiles != 0 then k else Send(k, Profiles).(profiles := k.nextId + 1)
  }

  function AskAction(k: Slots, intent: Intent): Slots {
    Send(k, Action).(pending := Some(Pending(k.nextId + 1, intent)))
  }

  function RefreshListStep(s: State): State {
    if s.closed then s else s.(slots := AskList(s.slots))
  }

  function RefreshDetailStep(s: State, space: string): State {
    if s.closed || !s.view.connected then s else s.(slots := AskDetail(s.slots, space, s.view.epoch))
  }

  function RefreshSelected(s: State): State {
    match s.view.selected
    case Some(space) => RefreshDetailStep(s, space)
    case None => s
  }

  function RefreshNetStep(s: State): State {
    if s.closed then s else s.(slots := AskNet(s.slots))
  }

  function RequestProfilesStep(s: State): State {
    if s.closed then s else s.(slots := AskProfiles(s.slots))
  }

  function SendActionStep(s: State, intent: Intent): State {
    if s.closed || !s.view.connected || s.slots.pending.Some? then s
    else s.(slots := AskAction(s.slots, intent), log := Log([], []))
  }

  // ---- selection ----

  function ChangeSelection(s: State, target: Option<string>): State {
    s.(view := s.view.(selected := target, epoch := s.view.epoch + 1, detailVisible := false),
       shown := s.shown.(selection := s.slots.nextId))
  }

  function SelectSpaceStep(s: State, target: Option<string>): State {
    var changed := s.view.selected != target;
    var t := if changed then ChangeSelection(s, target) else s;
    if target.Some? && target.value in s.view.spaces then
      if changed || !t.view.detailVisible then RefreshDetailStep(t, target.value) else t
    else
      t.(view := t.view.(detailVisible := false))
  }

  /** The selection survives a filter that keeps it; otherwise the first row kept takes over. */
  function Target(v: View, visible: seq<string>): Option<string> {
    if v.selected.Some? && v.selected.value in visible then v.selected
    else if visible == [] then None
    else Some(visible[0])
  }

  // ---- replies ----

  function Disconnected(s: State): State {
    s.(view := s.view.(connected := false, epoch := s.view.epoch + 1, spaces := []))
  }

  function Connected(s: State, rows: seq<string>): State {
    s.(view := s.view.(connected := true, spaces := rows))
  }

  function RenderSpacesStep(s: State, reply: Reply, visible: seq<string>): State {
    if reply.Failed? || reply.spaces.None? then
      SelectSpaceStep(Disconnected(s), None)
    else
      var rows := reply.spaces.value;
      var t := Connected(s, rows);
      if t.view.pendingSelect.Some? && t.view.pendingSelect.value in rows then
        var c := ChangeSelection(t, t.view.pendingSelect);
        var u := c.(view := c.view.(pendingSelect := None));
        SelectSpaceStep(u, Target(u.view, rows))
      else
        SelectSpaceStep(t, Target(t.view, visible))
  }

  function ListTaken(k: Slots): Slots {
    k.(inflight := k.inflight - {k.list}, list := 0, listAgain := false)
  }

  function DetailTaken(k: Slots): Slots {
    k.(inflight := k.inflight - {k.detail}, detail := 0, detailRequest := None)
  }

  function NetTaken(k: Slots): Slots { k.(inflight := k.inflight - {k.net}, net := 0) }

  function ProfilesTaken(k: Slots): Slots {
    k.(inflight := k.inflight - {k.profiles}, profiles := 0, profilesAgain := false)
  }

  function ActionTaken(k: Slots): Slots
    requires k.pending.Some?
  {
    k.(inflight := k.inflight - {k.pending.value.id}, pending := None)
  }

  function ListDone(s: State, reply: Reply, visible: seq<string>): State {
    var t := s.(slots := ListTaken(s.slots));
    if s.slots.listAgain then RefreshListStep(t)
    else RenderSpacesStep(t.(shown := t.shown.(list := s.slots.list)), reply, visible)
  }

  predicate DetailIsCurrent(s: State) {
    var request := s.slots.detailRequest;
    request.Some? && s.view.selected == Some(request.value.0) && request.value.1 == s.view.epoch
  }

  function DetailDone(s: State, reply: Reply): State {
    var t := s.(slots := DetailTaken(s.slots));
    if !s.view.connected then t
    else if DetailIsCurrent(s) then
      t.(view := t.view.(detailVisible := reply.Ok?),
         shown := t.shown.(detail := s.slots.detail, detailSpace := s.view.selected))
    else RefreshSelected(t)
  }

  function ProfilesDone(s: State): State {
    var t := s.(slots := ProfilesTaken(s.slots));
    if s.slots.profilesAgain then RequestProfilesStep(t)
    else t.(shown := t.shown.(profiles := s.slots.profiles))
  }

  /** A success outdates every view: the epoch moves, and what is in flight is asked for again. */
  function Outdate(s: State, intent: Intent): State {
    s.(view := s.view.(epoch := s.view.epoch + 1,
                       pendingSelect := if intent.Creates? then Some(intent.space) else s.view.pendingSelect),
       shown := s.shown.(mutation := s.slots.nextId))
  }

  function ListOnceMore(s: State): State {
    if s.slots.list != 0 then s.(slots := s.slots.(listAgain := true)) else RefreshListStep(s)
  }

  function ProfilesOnceMore(s: State): State {
    if s.slots.profiles != 0 then s.(slots := s.slots.(profilesAgain := true)) else RequestProfilesStep(s)
  }

  function ActionSucceeds(s: State, intent: Intent): State {
    ProfilesOnceMore(RefreshSelected(ListOnceMore(Outdate(s, intent))))
  }

  function Append(log: Log, text: seq<string>): Log {
    Log(Tail(log.lines + Truncated(text), LOG_LINES), log.history + Truncated(text))
  }

  function ActionDone(s: State, reply: Reply, message: seq<string>): State
    requires s.slots.pending.Some?
  {
    var t := s.(slots := ActionTaken(s.slots), log := Append(s.log, message));
    if reply.Ok? then ActionSucceeds(t, s.slots.pending.value.intent) else t
  }

  predicate IsAction(k: Slots, id: nat) { k.pending.Some? && k.pending.value.id == id }

  /** `message` is what the status line says, split into lines; `visible` the rows the filter keeps. */
  function HandleDoneStep(s: State, id: nat, reply: Reply, visible: seq<string>, message: seq<string>): State {
    if id == 0 || s.closed then s
    else if id == s.slots.list then ListDone(s, reply, visible)
    else if id == s.slots.detail then DetailDone(s, reply)
    else if id == s.slots.net then s.(slots := NetTaken(s.slots))
    else if id == s.slots.profiles then ProfilesDone(s)
    else if IsAction(s.slots, id) then ActionDone(s, reply, message)
    else s
  }

  function HandleProgressStep(s: State, id: nat, text: seq<string>): State {
    if IsAction(s.slots, id) then s.(log := Append(s.log, text)) else s
  }

  function Tail<T>(xs: seq<T>, n: nat): seq<T> {
    if |xs| <= n then xs else xs[|xs| - n..]
  }

  function Cut(line: string): string { if |line| <= LINE_CHARS then line else line[..LINE_CHARS] }

  function Truncated(text: seq<string>): (r: seq<string>)
    ensures |r| == |text|
    ensures forall i :: 0 <= i < |text| ==> r[i] <= text[i] && |r[i]| == if |text[i]| < 1024 then |text[i]| else 1024
  {
    seq(|text|, i requires 0 <= i < |text| => Cut(text[i]))
  }

  // ---- every event, in any order ----

  datatype Event =
    | PollList | PollNet | PollProfiles | PollDetail
    | UserAction(intent: Intent)
    | UserSelects(target: Option<string>)
    | UserFilters(visible: seq<string>)
    | Progress(id: nat, text: seq<string>)
    | Done(id: nat, reply: Reply, visible: seq<string>, message: seq<string>)
    | Closes

  /** A row can be selected only while it is listed; a filter keeps listed rows; a final reply answers
      a request that is in flight. */
  predicate Enabled(s: State, e: Event) {
    match e
    case UserSelects(target) => target.Some? ==> target.value in s.view.spaces
    case UserFilters(visible) => forall v :: v in visible ==> v in s.view.spaces
    case Done(id, reply, visible, _) => id in s.slots.inflight && FilterOf(reply, visible)
    case _ => true
  }

  predicate FilterOf(reply: Reply, visible: seq<string>) {
    reply.Ok? && reply.spaces.Some? ==> forall v :: v in visible ==> v in reply.spaces.value
  }

  function Apply(s: State, e: Event): State {
    match e
    case PollList => RefreshListStep(s)
    case PollNet => RefreshNetStep(s)
    case PollProfiles => RequestProfilesStep(s)
    case PollDetail => RefreshSelected(s)
    case UserAction(intent) => SendActionStep(s, intent)
    case UserSelects(target) => SelectSpaceStep(s, target)
    case UserFilters(visible) => SelectSpaceStep(s, Target(s.view, visible))
    case Progress(id, text) => HandleProgressStep(s, id, text)
    case Done(id, reply, visible, message) => HandleDoneStep(s, id, reply, visible, message)
    case Closes => s.(closed := true)
  }

  const INIT := RefreshListStep(BLANK)

  predicate Possible(s: State, events: seq<Event>)
    decreases |events|
  {
    events == [] || (Enabled(s, events[0]) && Possible(Apply(s, events[0]), events[1..]))
  }

  function After(s: State, events: seq<Event>): State
    decreases |events|
  {
    if events == [] then s else After(Apply(s, events[0]), events[1..])
  }

  // ---- invariants ----

  predicate InSlot(k: Slots, id: nat) {
    id != 0 && (id == k.list || id == k.detail || id == k.net || id == k.profiles || IsAction(k, id))
  }

  predicate Apart(a: nat, b: nat) { a != b || a == 0 }

  predicate SlotsApart(k: Slots) {
    && Apart(k.list, k.detail) && Apart(k.list, k.net) && Apart(k.list, k.profiles)
    && Apart(k.detail, k.net) && Apart(k.detail, k.profiles) && Apart(k.net, k.profiles)
    && (k.pending.Some? ==> var p := k.pending.value.id;
        p != 0 && p != k.list && p != k.detail && p != k.net && p != k.profiles)
  }

  predicate Sent(k: Slots, id: nat, kind: Kind) { id <= k.nextId && id in k.inflight && k.inflight[id] == kind }

  /** A request is in flight exactly when it sits in a slot, in one slot only, the slot of its kind. */
  ghost predicate SlotInv(k: Slots) {
    && SlotsApart(k)
    && (forall id :: id in k.inflight ==> InSlot(k, id))
    && (k.list != 0 ==> Sent(k, k.list, List))
    && (k.detail != 0 <==> k.detailRequest.Some?)
    && (k.detail != 0 ==> Sent(k, k.detail, Describe(k.detailRequest.value.0)))
    && (k.net != 0 ==> Sent(k, k.net, NetStatus))
    && (k.profiles != 0 ==> Sent(k, k.profiles, Profiles))
    && (k.pending.Some? ==> Sent(k, k.pending.value.id, Action))
  }

  /** What is in flight and not marked stale was requested after the last mutation and selection. */
  predicate FreshInv(k: Slots, epoch: nat, shown: Shown) {
    && shown.mutation <= k.nextId && shown.selection <= k.nextId
    && (k.listAgain ==> k.list != 0) && (k.profilesAgain ==> k.profiles != 0)
    && (k.list != 0 && !k.listAgain ==> k.list > shown.mutation)
    && (k.profiles != 0 && !k.profilesAgain ==> k.profiles > shown.mutation)
    && (k.detailRequest.Some? ==>
          && k.detailRequest.value.1 <= epoch
          && (k.detailRequest.value.1 == epoch ==> k.detail > shown.mutation && k.detail > shown.selection))
  }

  predicate SelectionInv(v: View) {
    v.selected.Some? ==> v.connected && v.selected.value in v.spaces
  }

  predicate ListedInv(v: View) { v.spaces != [] ==> v.connected }

  ghost predicate Core(s: State) {
    SlotInv(s.slots) && FreshInv(s.slots, s.view.epoch, s.shown) && SelectionInv(s.view) && ListedInv(s.view)
  }

  /** Nothing stays stale: each page shows a fresh reply or has a request on its way. */
  predicate ListLive(s: State) { s.closed || s.slots.list != 0 || s.shown.list > s.shown.mutation }

  predicate ProfilesLive(s: State) {
    s.closed || s.shown.mutation == 0 || s.slots.profiles != 0 || s.shown.profiles > s.shown.mutation
  }

  predicate DetailSettled(v: View, shown: Shown) {
    shown.detailSpace == v.selected && shown.detail > shown.mutation && shown.detail > shown.selection
  }

  predicate DetailLive(s: State) {
    s.closed || s.view.selected.None? || s.slots.detail != 0 || DetailSettled(s.view, s.shown)
  }

  predicate LogInv(log: Log) { log.lines == Tail(log.history, LOG_LINES) }

  ghost predicate Inv(s: State) { Core(s) && ListLive(s) && ProfilesLive(s) && DetailLive(s) && LogInv(s.log) }

  // ---- each handler keeps them ----

  lemma AskListKeeps(k: Slots)
    requires SlotInv(k)
    ensures SlotInv(AskList(k))
  {
  }

  lemma AskDetailKeeps(k: Slots, space: string, epoch: nat)
    requires SlotInv(k)
    ensures SlotInv(AskDetail(k, space, epoch))
  {
  }

  lemma AskNetKeeps(k: Slots)
    requires SlotInv(k)
    ensures SlotInv(AskNet(k))
  {
  }

  lemma AskProfilesKeeps(k: Slots)
    requires SlotInv(k)
    ensures SlotInv(AskProfiles(k))
  {
  }

  lemma AskActionKeeps(k: Slots, intent: Intent)
    requires SlotInv(k) && k.pending.None?
    ensures SlotInv(AskAction(k, intent))
  {
  }

  lemma ListTakenKeeps(k: Slots)
    requires SlotInv(k) && k.list != 0
    ensures SlotInv(ListTaken(k))
  {
  }

  lemma DetailTakenKeeps(k: Slots)
    requires SlotInv(k) && k.detail != 0
    ensures SlotInv(DetailTaken(k))
  {
  }

  lemma NetTakenKeeps(k: Slots)
    requires SlotInv(k) && k.net != 0
    ensures SlotInv(NetTaken(k))
  {
  }

  lemma ProfilesTakenKeeps(k: Slots)
    requires SlotInv(k) && k.profiles != 0
    ensures SlotInv(ProfilesTaken(k))
  {
  }

  lemma ActionTakenKeeps(k: Slots)
    requires SlotInv(k) && k.pending.Some?
    ensures SlotInv(ActionTaken(k))
  {
  }

  lemma RefreshListKeeps(s: State)
    requires Core(s)
    ensures Core(RefreshListStep(s)) && ListLive(RefreshListStep(s))
  {
    AskListKeeps(s.slots);
    hide SlotInv;
  }

  lemma RefreshSelectedKeeps(s: State)
    requires Core(s)
    ensures Core(RefreshSelected(s)) && DetailLive(RefreshSelected(s))
  {
    if s.view.selected.Some? { AskDetailKeeps(s.slots, s.view.selected.value, s.view.epoch); }
    hide SlotInv;
  }

  lemma RequestProfilesKeeps(s: State)
    requires Core(s)
    ensures Core(RequestProfilesStep(s)) && ProfilesLive(RequestProfilesStep(s))
  {
    AskProfilesKeeps(s.slots);
    hide SlotInv;
  }

  lemma ChangeSelectionKeeps(s: State, target: Option<string>)
    requires SlotInv(s.slots) && FreshInv(s.slots, s.view.epoch, s.shown) && ListedInv(s.view)
    requires target.Some? ==> s.view.connected && target.value in s.view.spaces
    ensures Core(ChangeSelection(s, target))
  {
    hide SlotInv;
  }

  lemma SelectSpaceKeeps(s: State, target: Option<string>)
    requires SlotInv(s.slots) && FreshInv(s.slots, s.view.epoch, s.shown) && ListedInv(s.view)
    requires target.Some? ==> s.view.connected && target.value in s.view.spaces
    requires s.view.selected == target ==> DetailLive(s)
    ensures Core(SelectSpaceStep(s, target)) && DetailLive(SelectSpaceStep(s, target))
  {
    hide SlotInv;
    var t := if s.view.selected != target then ChangeSelection(s, target) else s;
    ChangeSelectionKeeps(s, target);
    assert Core(t);
    if target.Some? { RefreshSelectedKeeps(t); }
  }

  /** What choosing a row leaves alone. */
  lemma SelectSpaceFrame(s: State, target: Option<string>)
    ensures var t := SelectSpaceStep(s, target);
      && t.closed == s.closed && t.log == s.log
      && t.shown == s.shown.(selection := t.shown.selection)
      && t.slots.list == s.slots.list && t.slots.profiles == s.slots.profiles
  {
  }

  lemma RenderSpacesFrame(s: State, reply: Reply, visible: seq<string>)
    ensures var t := RenderSpacesStep(s, reply, visible);
      && t.closed == s.closed && t.log == s.log
      && t.shown == s.shown.(selection := t.shown.selection)
      && t.slots.list == s.slots.list && t.slots.profiles == s.slots.profiles
  {
    hide SelectSpaceStep, Target;
    if reply.Failed? || reply.spaces.None? {
      SelectSpaceFrame(Disconnected(s), None);
    } else {
      var rows := reply.spaces.value;
      var t := Connected(s, rows);
      var c := ChangeSelection(t, t.view.pendingSelect);
      var u := c.(view := c.view.(pendingSelect := None));
      SelectSpaceFrame(u, Target(u.view, rows));
      SelectSpaceFrame(t, Target(t.view, visible));
    }
  }

  lemma RenderSpacesKeeps(s: State, reply: Reply, visible: seq<string>)
    requires Core(s) && DetailLive(s) && FilterOf(reply, visible)
    ensures Core(RenderSpacesStep(s, reply, visible)) && DetailLive(RenderSpacesStep(s, reply, visible))
  {
    hide SlotInv, SelectSpaceStep;
    if reply.Failed? || reply.spaces.None? {
      SelectSpaceKeeps(Disconnected(s), None);
    } else {
      var rows := reply.spaces.value;
      var t := Connected(s, rows);
      if t.view.pendingSelect.Some? && t.view.pendingSelect.value in rows {
        var c := ChangeSelection(t, t.view.pendingSelect);
        ChangeSelectionKeeps(t, t.view.pendingSelect);
        var u := c.(view := c.view.(pendingSelect := None));
        assert Target(u.view, rows) == u.view.selected;
        RefreshSelectedKeeps(u);
        SelectJustChosen(u);
      } else {
        SelectSpaceKeeps(t, Target(t.view, visible));
      }
    }
  }

  /** A freshly created space is selected before its details are on screen, so they are asked for. */
  lemma SelectJustChosen(s: State)
    requires s.view.selected.Some? && s.view.selected.value in s.view.spaces && !s.view.detailVisible
    ensures SelectSpaceStep(s, s.view.selected) == RefreshSelected(s)
  {
  }

  lemma ListDoneKeeps(s: State, reply: Reply, visible: seq<string>)
    requires Inv(s) && s.slots.list != 0 && !s.closed && FilterOf(reply, visible)
    ensures Inv(ListDone(s, reply, visible))
  {
    ListTakenKeeps(s.slots);
    hide SlotInv, RenderSpacesStep;
    var t := s.(slots := ListTaken(s.slots));
    if s.slots.listAgain {
      RefreshListKeeps(t);
    } else {
      var u := t.(shown := t.shown.(list := s.slots.list));
      RenderSpacesKeeps(u, reply, visible);
      RenderSpacesFrame(u, reply, visible);
    }
  }

  lemma DetailDoneKeeps(s: State, reply: Reply)
    requires Inv(s) && s.slots.detail != 0 && !s.closed
    ensures Inv(DetailDone(s, reply))
  {
    DetailTakenKeeps(s.slots);
    hide SlotInv;
    RefreshSelectedKeeps(s.(slots := DetailTaken(s.slots)));
  }

  lemma ProfilesDoneKeeps(s: State)
    requires Inv(s) && s.slots.profiles != 0 && !s.closed
    ensures Inv(ProfilesDone(s))
  {
    ProfilesTakenKeeps(s.slots);
    hide SlotInv;
    RequestProfilesKeeps(s.(slots := ProfilesTaken(s.slots)));
  }

  lemma TailAppend<T>(xs: seq<T>, ys: seq<T>, n: nat)
    ensures Tail(Tail(xs, n) + ys, n) == Tail(xs + ys, n)
  {
    if |xs| > n {
      assert Tail(xs, n) + ys == (xs + ys)[|xs| - n..];
    }
  }

  /** After a success every reply still on its way is marked stale. */
  function MarkStale(s: State, intent: Intent): State {
    s.(view := s.view.(epoch := s.view.epoch + 1,
                       pendingSelect := if intent.Creates? then Some(intent.space) else s.view.pendingSelect),
       shown := s.shown.(mutation := s.slots.nextId),
       slots := s.slots.(listAgain := s.slots.listAgain || s.slots.list != 0,
                         profilesAgain := s.slots.profilesAgain || s.slots.profiles != 0))
  }

  lemma ActionSucceedsRefreshes(s: State, intent: Intent)
    requires FreshInv(s.slots, s.view.epoch, s.shown)
    ensures ActionSucceeds(s, intent) == RequestProfilesStep(RefreshSelected(RefreshListStep(MarkStale(s, intent))))
  {
  }

  lemma ActionSucceedsKeeps(s: State, intent: Intent)
    requires Core(s) && LogInv(s.log) && !s.closed
    ensures Inv(ActionSucceeds(s, intent))
  {
    var a := MarkStale(s, intent);
    assert Core(a);
    hide SlotInv;
    ActionSucceedsRefreshes(s, intent);
    var b := RefreshListStep(a);
    var c := RefreshSelected(b);
    var d := RequestProfilesStep(c);
    RefreshListKeeps(a);
    RefreshSelectedKeeps(b);
    RequestProfilesKeeps(c);
    assert d.slots.list != 0 && d.slots.detail == c.slots.detail && d.view == c.view && d.shown == c.shown;
    assert d.log == s.log;
  }

  lemma ActionDoneKeeps(s: State, reply: Reply, message: seq<string>)
    requires Inv(s) && s.slots.pending.Some? && !s.closed
    ensures Inv(ActionDone(s, reply, message))
  {
    ActionTakenKeeps(s.slots);
    hide SlotInv, ActionSucceeds;
    var t := s.(slots := ActionTaken(s.slots), log := Append(s.log, message));
    TailAppend(s.log.history, Truncated(message), LOG_LINES);
    ActionSucceedsKeeps(t, s.slots.pending.value.intent);
  }

  lemma DoneKeepsInv(s: State, id: nat, reply: Reply, visible: seq<string>, message: seq<string>)
    requires Inv(s) && FilterOf(reply, visible)
    ensures Inv(HandleDoneStep(s, id, reply, visible, message))
  {
    if id != 0 && !s.closed {
      hide Inv, ListDone, DetailDone, ProfilesDone, ActionDone;
      if id == s.slots.list { ListDoneKeeps(s, reply, visible); }
      else if id == s.slots.detail { DetailDoneKeeps(s, reply); }
      else if id == s.slots.net { NetDoneKeeps(s); }
      else if id == s.slots.profiles { ProfilesDoneKeeps(s); }
      else if IsAction(s.slots, id) { ActionDoneKeeps(s, reply, message); }
    }
  }

  lemma NetDoneKeeps(s: State)
    requires Inv(s) && s.slots.net != 0
    ensures Inv(s.(slots := NetTaken(s.slots)))
  {
    NetTakenKeeps(s.slots);
    hide SlotInv;
  }

  lemma SendActionKeeps(s: State, intent: Intent)
    requires Inv(s)
    ensures Inv(SendActionStep(s, intent))
  {
    if s.slots.pending.None? { AskActionKeeps(s.slots, intent); }
    hide SlotInv;
  }

  lemma ChoiceKeeps(s: State, target: Option<string>)
    requires Inv(s) && (target.Some? ==> target.value in s.view.spaces)
    ensures Inv(SelectSpaceStep(s, target))
  {
    SelectSpaceKeeps(s, target);
    SelectSpaceFrame(s, target);
    hide SlotInv, SelectSpaceStep;
  }

  lemma EventKeepsInv(s: State, e: Event)
    requires Inv(s) && Enabled(s, e)
    ensures Inv(Apply(s, e))
  {
    hide SlotInv, SelectSpaceStep, HandleDoneStep, SendActionStep;
    match e
    case PollList => RefreshListKeeps(s);
    case PollNet => AskNetKeeps(s.slots);
    case PollProfiles => RequestProfilesKeeps(s);
    case PollDetail => RefreshSelectedKeeps(s);
    case UserAction(intent) => SendActionKeeps(s, intent);
    case UserSelects(target) => ChoiceKeeps(s, target);
    case UserFilters(visible) => ChoiceKeeps(s, Target(s.view, visible));
    case Progress(id, text) => TailAppend(s.log.history, Truncated(text), LOG_LINES);
    case Done(id, reply, visible, message) => DoneKeepsInv(s, id, reply, visible, message);
    case Closes =>
  }

  lemma {:induction false} RunKeepsInv(s: State, events: seq<Event>)
    requires Inv(s) && Possible(s, events)
    ensures Inv(After(s, events))
    decreases |events|
  {
    hide Inv;
    if events != [] {
      EventKeepsInv(s, events[0]);
      RunKeepsInv(Apply(s, events[0]), events[1..]);
    }
  }

  lemma InitInv()
    ensures Inv(INIT)
  {
    RefreshListKeeps(BLANK);
  }

  // ---- what every run of events guarantees ----

  predicate SamePurpose(a: Kind, b: Kind) { a == b || (a.Describe? && b.Describe?) }

  /** How many of the five slots a reply matches. */
  function Matches(k: Slots, id: nat): nat {
    (if id == k.list then 1 else 0) + (if id == k.detail then 1 else 0) + (if id == k.net then 1 else 0)
    + (if id == k.profiles then 1 else 0) + (if IsAction(k, id) then 1 else 0)
  }

  /** At most one request of a kind is outstanding, and each final reply matches exactly one slot. */
  lemma OneSlotPerReply(events: seq<Event>)
    requires Possible(INIT, events)
    ensures var k := After(INIT, events).slots;
      && (forall id :: id in k.inflight ==> Matches(k, id) == 1)
      && (forall a, b :: a in k.inflight && b in k.inflight && SamePurpose(k.inflight[a], k.inflight[b]) ==> a == b)
  {
    InitInv();
    RunKeepsInv(INIT, events);
    var k := After(INIT, events).slots;
    forall id | id in k.inflight ensures Matches(k, id) == 1 { assert InSlot(k, id); }
    forall a, b | a in k.inflight && b in k.inflight && SamePurpose(k.inflight[a], k.inflight[b]) ensures a == b {
      assert InSlot(k, a) && InSlot(k, b);
    }
  }

  // ---- what the events alone say ----

  lemma {:induction false} AfterSnoc(s: State, events: seq<Event>, e: Event)
    ensures After(s, events + [e]) == Apply(After(s, events), e)
    ensures Possible(s, events + [e]) <==> Possible(s, events) && Enabled(After(s, events), e)
    decreases |events|
  {
    hide Apply, Enabled;
    if events == [] {
      assert [] + [e] == [e] && [e][1..] == [];
    } else {
      AfterSnoc(Apply(s, events[0]), events[1..], e);
      assert (events + [e])[1..] == events[1..] + [e];
    }
  }

  function Past(events: seq<Event>): seq<Event>
    requires events != []
  {
    events[..|events| - 1]
  }

  function Newest(events: seq<Event>): Event
    requires events != []
  {
    events[|events| - 1]
  }

  lemma LastEvent(events: seq<Event>)
    requires events != [] && Possible(INIT, events)
    ensures After(INIT, events) == Apply(After(INIT, Past(events)), Newest(events))
    ensures Possible(INIT, Past(events)) && Enabled(After(INIT, Past(events)), Newest(events))
  {
    hide After, Possible, Apply, Enabled, INIT;
    AfterSnoc(INIT, Past(events), Newest(events));
    assert Past(events) + [Newest(events)] == events;
  }

  lemma Reached(events: seq<Event>)
    requires Possible(INIT, events)
    ensures Inv(After(INIT, events))
  {
    InitInv();
    RunKeepsInv(INIT, events);
  }

  /** The event is the final reply of the pending action, and it is a success. */
  predicate Succeeds(s: State, e: Event) { e.Done? && e.reply.Ok? && !s.closed && IsAction(s.slots, e.id) }

  /** The last id issued before the last successful action was processed; 0 before any. */
  function LastSuccess(events: seq<Event>): nat
    decreases |events|
  {
    if events == [] then 0
    else
      var s := After(INIT, Past(events));
      if Succeeds(s, Newest(events)) then s.slots.nextId else LastSuccess(Past(events))
  }

  /** The last id issued before the selection last changed. */
  function LastMove(events: seq<Event>): nat
    decreases |events|
  {
    if events == [] then 0
    else
      var s := After(INIT, Past(events));
      if Apply(s, Newest(events)).view.selected != s.view.selected then s.slots.nextId else LastMove(Past(events))
  }

  /** The final reply to request `n` that arrived last while the window was open. */
  function ReplyTo(events: seq<Event>, n: nat): Option<Reply>
    decreases |events|
  {
    if events == [] then None
    else
      var e := Newest(events);
      if e.Done? && e.id == n && !After(INIT, Past(events)).closed then Some(e.reply) else ReplyTo(Past(events), n)
  }

  predicate Accepts(s: State, e: Event) {
    e.UserAction? && !s.closed && s.view.connected && s.slots.pending.None?
  }

  /** What the action accepted last was to do. */
  function LastIntent(events: seq<Event>): Intent
    decreases |events|
  {
    if events == [] then Plain
    else if Accepts(After(INIT, Past(events)), Newest(events)) then Newest(events).intent
    else LastIntent(Past(events))
  }

  /** Everything reported for the action accepted last: its progress, then its final message. */
  function Reported(events: seq<Event>): seq<string>
    decreases |events|
  {
    if events == [] then []
    else
      var s, e := After(INIT, Past(events)), Newest(events);
      if Accepts(s, e) then []
      else if e.Progress? && IsAction(s.slots, e.id) then Reported(Past(events)) + Truncated(e.text)
      else if e.Done? && !s.closed && IsAction(s.slots, e.id) then Reported(Past(events)) + Truncated(e.message)
      else Reported(Past(events))
  }

  /** The event is a list reply that is put on screen. */
  predicate ShowsList(s: State, e: Event) {
    e.Done? && !s.closed && e.id != 0 && e.id == s.slots.list && !s.slots.listAgain
  }

  predicate WellFormed(reply: Reply) { reply.Ok? && reply.spaces.Some? }

  function Rows(reply: Reply): seq<string> { if WellFormed(reply) then reply.spaces.value else [] }

  /** The space created last, until a list that has it is put on screen. */
  function Wanted(events: seq<Event>): Option<string>
    decreases |events|
  {
    if events == [] then None
    else
      var s, e, before := After(INIT, Past(events)), Newest(events), Wanted(Past(events));
      if Succeeds(s, e) && LastIntent(Past(events)).Creates? then Some(LastIntent(Past(events)).space)
      else if ShowsList(s, e) && before.Some? && before.value in Rows(e.reply) then None
      else before
  }

  // ---- single events ----

  lemma ActionIsInNoOtherSlot(s: State, id: nat)
    requires Inv(s) && IsAction(s.slots, id)
    ensures id != 0 && id != s.slots.list && id != s.slots.detail && id != s.slots.net && id != s.slots.profiles
  {
  }

  lemma ActionDoneIs(s: State, e: Event)
    requires Inv(s) && e.Done? && !s.closed && IsAction(s.slots, e.id)
    ensures Apply(s, e) == ActionDone(s, e.reply, e.message)
  {
    ActionIsInNoOtherSlot(s, e.id);
    hide Inv, ActionDone;
  }

  /** What a finished action does: a success asks for the list and the profiles, or for either once more if it
      is on its way, and for the details of the selection, and outdates what is shown; a failure leaves all
      that alone. */
  lemma ActionEnds(s: State, e: Event)
    requires Inv(s) && e.Done? && !s.closed && IsAction(s.slots, e.id)
    ensures var t := Apply(s, e); var k := s.slots;
      if e.reply.Ok? then
        && t.slots.list != 0 && (k.list != 0 ==> t.slots.list == k.list && t.slots.listAgain)
        && (k.list == 0 ==> t.slots.list > k.nextId && !t.slots.listAgain)
        && t.slots.profiles != 0 && (k.profiles != 0 ==> t.slots.profiles == k.profiles && t.slots.profilesAgain)
        && (k.profiles == 0 ==> t.slots.profiles > k.nextId && !t.slots.profilesAgain)
        && (s.view.selected.Some? ==> t.slots.detail != 0)
        && t.view.epoch == s.view.epoch + 1 && t.view.selected == s.view.selected
      else
        t == s.(slots := k.(inflight := k.inflight - {e.id}, pending := None), log := t.log)
  {
    hide SlotInv;
    ActionDoneIs(s, e);
    var t := s.(slots := ActionTaken(s.slots), log := Append(s.log, e.message));
    if e.reply.Ok? {
      assert FreshInv(t.slots, t.view.epoch, t.shown);
      ActionSucceedsRefreshes(t, s.slots.pending.value.intent);
    }
  }

  /** Polling: a page that has no request on its way gets one, and only then. */
  lemma PollAsks(s: State, e: Event)
    requires e.PollList? || e.PollNet? || e.PollProfiles?
    ensures var t := Apply(s, e);
      var slot := if e.PollList? then s.slots.list else if e.PollNet? then s.slots.net else s.slots.profiles;
      var now := if e.PollList? then t.slots.list else if e.PollNet? then t.slots.net else t.slots.profiles;
      var kind := if e.PollList? then List else if e.PollNet? then NetStatus else Profiles;
      if s.closed || slot != 0 then t == s
      else
        && now == s.slots.nextId + 1 == t.slots.nextId
        && t.slots.inflight == s.slots.inflight[now := kind]
        && t.view == s.view && t.shown == s.shown
  {
  }

  /** The details of the selection are polled in the same way, with the epoch of the moment. */
  lemma PollAsksDetail(s: State)
    ensures var t := Apply(s, PollDetail);
      if s.closed || !s.view.connected || s.view.selected.None? || s.slots.detail != 0 then t == s
      else
        && t.slots.detail == s.slots.nextId + 1 == t.slots.nextId
        && t.slots.inflight == s.slots.inflight[t.slots.detail := Describe(s.view.selected.value)]
        && t.slots.detailRequest == Some((s.view.selected.value, s.view.epoch))
        && t.view == s.view && t.shown == s.shown
  {
  }

  /** An action is sent exactly when the window is open and connected and no other is pending. */
  lemma ActionSent(s: State, e: Event)
    requires e.UserAction?
    ensures var t := Apply(s, e);
      if !Accepts(s, e) then t == s
      else
        && t.slots.pending == Some(Pending(s.slots.nextId + 1, e.intent)) && t.slots.nextId == s.slots.nextId + 1
        && t.slots.inflight == s.slots.inflight[t.slots.nextId := Action]
        && t.view == s.view && t.shown == s.shown
  {
  }

  /** A closed window sends nothing and shows nothing new. */
  lemma ClosedIsQuiet(s: State, e: Event)
    requires s.closed && Enabled(s, e)
    ensures var t := Apply(s, e);
      t.closed && t.slots == s.slots && t.view.spaces == s.view.spaces && t.shown.list == s.shown.list
      && t.shown.detail == s.shown.detail && t.shown.profiles == s.shown.profiles
  {
  }

  /** Closing closes, and nothing opens a window again. */
  lemma ClosedIff(s: State, e: Event)
    requires Inv(s) && Enabled(s, e)
    ensures Apply(s, e).closed <==> s.closed || e.Closes?
    ensures e.Closes? ==> Apply(s, e) == s.(closed := true)
  {
    hide SelectSpaceStep, RenderSpacesStep, ActionDone, Target;
    match e
    case UserSelects(target) => SelectSpaceFrame(s, target);
    case UserFilters(visible) => SelectSpaceFrame(s, Target(s.view, visible));
    case Done(id, reply, visible, _) =>
      if !s.closed {
        if IsAction(s.slots, id) {
          ActionIsInNoOtherSlot(s, id);
          ActionKeepsSelection(s, e);
        } else if id != 0 && id == s.slots.list && !s.slots.listAgain {
          RenderSpacesFrame(s.(slots := ListTaken(s.slots), shown := s.shown.(list := s.slots.list)), reply, visible);
        }
      }
    case _ =>
  }

  /** A list that cannot be shown leaves no connection, no rows and no selection, and outdates the details asked for. */
  lemma Disconnects(s: State, e: Event)
    requires Inv(s) && Enabled(s, e) && ShowsList(s, e) && !WellFormed(e.reply)
    ensures var t := Apply(s, e);
      && !t.view.connected && t.view.spaces == [] && t.view.selected == None && !t.view.detailVisible
      && t.view.epoch > s.view.epoch
      && (s.view.selected == None ==> t.view.epoch == s.view.epoch + 1)
  {
    hide SlotInv, FreshInv;
  }

  /** Which row is selected after an event. */
  lemma SelectionIs(s: State, e: Event)
    requires Inv(s) && Enabled(s, e)
    ensures var t := Apply(s, e);
      if e.UserSelects? then t.view.selected == e.target
      else if e.UserFilters? then Follows(s.view.selected, e.visible, t.view.selected)
      else if !ShowsList(s, e) then t.view.selected == s.view.selected
      else if !WellFormed(e.reply) then t.view.selected == None
      else if s.view.pendingSelect.Some? && s.view.pendingSelect.value in Rows(e.reply)
      then t.view.selected == s.view.pendingSelect
      else Follows(s.view.selected, e.visible, t.view.selected)
  {
    hide SelectSpaceStep, RenderSpacesStep, ActionDone, Target;
    match e
    case UserSelects(target) => SelectSpaceSelects(s, target);
    case UserFilters(visible) =>
      SelectSpaceSelects(s, Target(s.view, visible));
      TargetFollows(s.view, visible);
    case Done(id, reply, visible, _) =>
      if !s.closed {
        if IsAction(s.slots, id) {
          ActionDoneIs(s, e);
          ActionKeepsSelection(s, e);
        } else if id != 0 && id == s.slots.list && !s.slots.listAgain {
          RenderSelects(s.(slots := ListTaken(s.slots), shown := s.shown.(list := s.slots.list)), reply, visible);
        }
      }
    case _ =>
  }

  lemma TargetFollows(v: View, visible: seq<string>)
    ensures Follows(v.selected, visible, Target(v, visible))
  {
  }

  /** What selecting a row does to the view. */
  lemma SelectSpaceSelects(s: State, target: Option<string>)
    ensures var t := SelectSpaceStep(s, target);
      && t.view.selected == target && t.view.spaces == s.view.spaces && t.view.connected == s.view.connected
      && t.view.pendingSelect == s.view.pendingSelect
      && t.shown.selection == (if target != s.view.selected then s.slots.nextId else s.shown.selection)
      && (target == s.view.selected && (target.Some? ==> target.value in s.view.spaces) ==>
            t.view.detailVisible == (target.Some? && s.view.detailVisible))
  {
  }

  /** And what putting a list on screen does. */
  lemma RenderSelects(s: State, reply: Reply, visible: seq<string>)
    requires FilterOf(reply, visible)
    ensures var t := RenderSpacesStep(s, reply, visible);
      && t.view.spaces == Rows(reply) && t.view.connected == WellFormed(reply)
      && var picked := s.view.pendingSelect.Some? && s.view.pendingSelect.value in Rows(reply);
         && t.view.pendingSelect == (if picked then None else s.view.pendingSelect)
         && (if !WellFormed(reply) then t.view.selected == None
             else if picked then t.view.selected == s.view.pendingSelect
             else Follows(s.view.selected, visible, t.view.selected))
         && t.shown.selection ==
            (if picked || t.view.selected != s.view.selected then s.slots.nextId else s.shown.selection)
         && (!picked && t.view.selected == s.view.selected && t.view.selected.Some? ==>
               t.view.detailVisible == s.view.detailVisible)
  {
    hide SelectSpaceStep, Target;
    if !WellFormed(reply) {
      SelectSpaceSelects(Disconnected(s), None);
    } else {
      var rows := reply.spaces.value;
      var t := Connected(s, rows);
      if t.view.pendingSelect.Some? && t.view.pendingSelect.value in rows {
        var c := ChangeSelection(t, t.view.pendingSelect);
        var u := c.(view := c.view.(pendingSelect := None));
        TargetFollows(u.view, rows);
        SelectSpaceSelects(u, Target(u.view, rows));
      } else {
        TargetFollows(t.view, visible);
        SelectSpaceSelects(t, Target(t.view, visible));
      }
    }
  }

  /** A selection that is still visible stays; otherwise the first visible row takes over, if there is one. */
  predicate Follows(before: Option<string>, visible: seq<string>, after: Option<string>) {
    && (before.Some? && before.value in visible ==> after == before)
    && (after != before ==> if visible == [] then after == None else after == Some(visible[0]))
    && (after.Some? ==> after.value in visible)
    && (visible != [] ==> after.Some?)
  }

  lemma ActionKeepsSelection(s: State, e: Event)
    requires s.slots.pending.Some? && e.Done?
    ensures var t := ActionDone(s, e.reply, e.message);
      && t.view.selected == s.view.selected && t.view.spaces == s.view.spaces
      && t.view.connected == s.view.connected && t.view.detailVisible == s.view.detailVisible
      && t.closed == s.closed
      && t.shown == (if e.reply.Ok? then s.shown.(mutation := s.slots.nextId) else s.shown)
      && t.view.pendingSelect ==
         (if e.reply.Ok? && s.slots.pending.value.intent.Creates? then Some(s.slots.pending.value.intent.space)
          else s.view.pendingSelect)
      && t.log == Append(s.log, e.message)
      && t.slots.pending.None?
  {
    hide Append;
  }

  /** What an event does to the record of what is shown, and to what is on screen. */
  lemma EventEffects(s: State, e: Event)
    requires Inv(s) && Enabled(s, e)
    ensures var t := Apply(s, e);
      && t.shown.mutation == (if Succeeds(s, e) then s.slots.nextId else s.shown.mutation)
      && t.shown.list == (if ShowsList(s, e) then e.id else s.shown.list)
      && t.view.spaces == (if ShowsList(s, e) then Rows(e.reply) else s.view.spaces)
      && t.view.connected == (if ShowsList(s, e) then WellFormed(e.reply) else s.view.connected)
  {
    hide SelectSpaceStep, RenderSpacesStep, ActionDone, Target;
    match e
    case UserSelects(target) =>
      SelectSpaceSelects(s, target);
      SelectSpaceFrame(s, target);
    case UserFilters(visible) =>
      SelectSpaceSelects(s, Target(s.view, visible));
      SelectSpaceFrame(s, Target(s.view, visible));
    case Done(id, reply, visible, _) => DoneEffects(s, e);
    case _ =>
  }

  lemma DoneEffects(s: State, e: Event)
    requires Inv(s) && Enabled(s, e) && e.Done?
    ensures var t := Apply(s, e);
      && t.shown.mutation == (if Succeeds(s, e) then s.slots.nextId else s.shown.mutation)
      && t.shown.list == (if ShowsList(s, e) then e.id else s.shown.list)
      && t.view.spaces == (if ShowsList(s, e) then Rows(e.reply) else s.view.spaces)
      && t.view.connected == (if ShowsList(s, e) then WellFormed(e.reply) else s.view.connected)
      && t.view.pendingSelect ==
         (if Succeeds(s, e) && s.slots.pending.value.intent.Creates? then Some(s.slots.pending.value.intent.space)
          else if ShowsList(s, e) && s.view.pendingSelect.Some? && s.view.pendingSelect.value in Rows(e.reply)
          then None
          else s.view.pendingSelect)
  {
    hide SelectSpaceStep, RenderSpacesStep, ActionDone, Target, Inv;
    if !s.closed {
      if IsAction(s.slots, e.id) {
        ActionIsInNoOtherSlot(s, e.id);
        ActionKeepsSelection(s, e);
      } else if e.id != 0 && e.id == s.slots.list && !s.slots.listAgain {
        var t := s.(slots := ListTaken(s.slots), shown := s.shown.(list := s.slots.list));
        RenderSelects(t, e.reply, e.visible);
        RenderSpacesFrame(t, e.reply, e.visible);
      }
    }
  }

  lemma WantedEffects(s: State, e: Event)
    requires Inv(s) && Enabled(s, e)
    ensures Apply(s, e).view.pendingSelect ==
      if Succeeds(s, e) && s.slots.pending.value.intent.Creates? then Some(s.slots.pending.value.intent.space)
      else if ShowsList(s, e) && s.view.pendingSelect.Some? && s.view.pendingSelect.value in Rows(e.reply) then None
      else s.view.pendingSelect
  {
    hide SelectSpaceStep, RenderSpacesStep, ActionDone, Target;
    match e
    case UserSelects(target) => SelectSpaceSelects(s, target);
    case UserFilters(visible) => SelectSpaceSelects(s, Target(s.view, visible));
    case Done(id, reply, visible, _) => DoneEffects(s, e);
    case _ =>
  }

  lemma LogEffects(s: State, e: Event)
    requires Inv(s) && Enabled(s, e)
    ensures var t := Apply(s, e);
      && t.log == (if Accepts(s, e) then Log([], [])
                   else if e.Progress? && IsAction(s.slots, e.id) then Append(s.log, e.text)
                   else if e.Done? && !s.closed && IsAction(s.slots, e.id) then Append(s.log, e.message)
                   else s.log)
      && t.slots.pending == (if Accepts(s, e) then Some(Pending(s.slots.nextId + 1, e.intent))
                             else if e.Done? && !s.closed && IsAction(s.slots, e.id) then None
                             else s.slots.pending)
  {
    hide SelectSpaceStep, RenderSpacesStep, ActionDone, Target, Append;
    match e
    case UserSelects(target) => SelectSpaceKeepsAction(s, target);
    case UserFilters(visible) => SelectSpaceKeepsAction(s, Target(s.view, visible));
    case Done(id, reply, visible, _) =>
      if !s.closed {
        if IsAction(s.slots, id) {
          ActionIsInNoOtherSlot(s, id);
          ActionKeepsSelection(s, e);
        } else if id != 0 && id == s.slots.list && !s.slots.listAgain {
          var t := s.(slots := ListTaken(s.slots), shown := s.shown.(list := s.slots.list));
          RenderKeepsAction(t, reply, visible);
        }
      }
    case _ =>
  }

  lemma SelectSpaceKeepsAction(s: State, target: Option<string>)
    ensures var t := SelectSpaceStep(s, target); t.log == s.log && t.slots.pending == s.slots.pending
  {
  }

  lemma RenderKeepsAction(s: State, reply: Reply, visible: seq<string>)
    ensures var t := RenderSpacesStep(s, reply, visible); t.log == s.log && t.slots.pending == s.slots.pending
  {
    hide SelectSpaceStep, Target;
    if !WellFormed(reply) {
      SelectSpaceKeepsAction(Disconnected(s), None);
    } else {
      var rows := reply.spaces.value;
      var t := Connected(s, rows);
      var c := ChangeSelection(t, t.view.pendingSelect);
      var u := c.(view := c.view.(pendingSelect := None));
      SelectSpaceKeepsAction(u, Target(u.view, rows));
      SelectSpaceKeepsAction(t, Target(t.view, visible));
    }
  }

  // ---- what is recorded is what the events say ----

  lemma {:induction false} MutationIsLastSuccess(events: seq<Event>)
    requires Possible(INIT, events)
    ensures After(INIT, events).shown.mutation == LastSuccess(events)
    decreases |events|
  {
    if events != [] {
      hide Apply, Enabled, Succeeds, Inv, After, Possible;
      LastEvent(events);
      MutationIsLastSuccess(Past(events));
      Reached(Past(events));
      EventEffects(After(INIT, Past(events)), Newest(events));
    } else {
      assert After(INIT, events) == INIT;
    }
  }

  /** The intent the pending action carries is the one it was accepted with. */
  lemma {:induction false} PendingIsLastIntent(events: seq<Event>)
    requires Possible(INIT, events)
    ensures After(INIT, events).slots.pending.Some? ==>
      After(INIT, events).slots.pending.value.intent == LastIntent(events)
    decreases |events|
  {
    if events != [] {
      hide Apply, Enabled, Accepts, Inv, After, Possible, IsAction;
      LastEvent(events);
      PendingIsLastIntent(Past(events));
      Reached(Past(events));
      LogEffects(After(INIT, Past(events)), Newest(events));
    } else {
      assert After(INIT, events) == INIT;
    }
  }

  lemma {:induction false} HistoryIsReported(events: seq<Event>)
    requires Possible(INIT, events)
    ensures After(INIT, events).log.history == Reported(events)
    decreases |events|
  {
    if events != [] {
      hide Apply, Enabled, Accepts, Inv, After, Possible, IsAction, Truncated, Tail;
      LastEvent(events);
      HistoryIsReported(Past(events));
      Reached(Past(events));
      LogEffects(After(INIT, Past(events)), Newest(events));
    } else {
      assert After(INIT, events) == INIT;
    }
  }

  lemma {:induction false} PendingSelectIsWanted(events: seq<Event>)
    requires Possible(INIT, events)
    ensures After(INIT, events).view.pendingSelect == Wanted(events)
    decreases |events|
  {
    if events != [] {
      hide Apply, Enabled, Inv, After, Possible, ShowsList, Rows, LastIntent;
      LastEvent(events);
      PendingSelectIsWanted(Past(events));
      PendingIsLastIntent(Past(events));
      Reached(Past(events));
      WantedEffects(After(INIT, Past(events)), Newest(events));
    } else {
      assert After(INIT, events) == INIT;
    }
  }

  // ---- what is on screen ----

  /** The event is a detail reply that is put on screen. */
  predicate ShowsDetail(s: State, e: Event) {
    e.Done? && !s.closed && e.id != 0 && e.id == s.slots.detail && s.view.connected && DetailIsCurrent(s)
  }

  lemma SelectionMark(s: State, target: Option<string>)
    requires s.shown.detail <= s.slots.nextId && (target.Some? ==> target.value in s.view.spaces)
    ensures var t := SelectSpaceStep(s, target);
      && (t.view.selected.Some? && DetailSettled(t.view, t.shown) ==>
            t.view.selected == s.view.selected && DetailSettled(s.view, s.shown)
            && t.view.detailVisible == s.view.detailVisible)
  {
    SelectSpaceSelects(s, target);
    SelectSpaceFrame(s, target);
    hide SelectSpaceStep;
  }

  lemma RenderMark(s: State, reply: Reply, visible: seq<string>)
    requires s.shown.detail <= s.slots.nextId && FilterOf(reply, visible)
    ensures var t := RenderSpacesStep(s, reply, visible);
      && (t.view.selected.Some? && DetailSettled(t.view, t.shown) ==>
            t.view.selected == s.view.selected && DetailSettled(s.view, s.shown)
            && t.view.detailVisible == s.view.detailVisible)
  {
    RenderSelects(s, reply, visible);
    RenderSpacesFrame(s, reply, visible);
    hide RenderSpacesStep, Follows;
  }

  /** A detail that is current after an event was put on screen by it, or was current before. */
  lemma DetailEffects(s: State, e: Event)
    requires Inv(s) && Enabled(s, e) && s.shown.detail <= s.slots.nextId
    ensures var t := Apply(s, e);
      && t.shown.detail == (if ShowsDetail(s, e) then e.id else s.shown.detail)
      && (if ShowsDetail(s, e) then t.view.detailVisible == e.reply.Ok?
          else t.view.selected.Some? && DetailSettled(t.view, t.shown) ==>
            t.view.selected == s.view.selected && DetailSettled(s.view, s.shown)
            && t.view.detailVisible == s.view.detailVisible)
  {
    hide SelectSpaceStep, RenderSpacesStep, ActionDone, Target;
    match e
    case UserSelects(target) =>
      SelectionMark(s, target);
      SelectSpaceFrame(s, target);
    case UserFilters(visible) =>
      TargetListed(s.view, visible);
      SelectionMark(s, Target(s.view, visible));
      SelectSpaceFrame(s, Target(s.view, visible));
    case Done(id, reply, visible, _) => DoneDetailEffects(s, e);
    case _ =>
  }

  lemma TargetListed(v: View, visible: seq<string>)
    requires forall x :: x in visible ==> x in v.spaces
    ensures Target(v, visible).Some? ==> Target(v, visible).value in v.spaces
  {
  }

  lemma DoneDetailEffects(s: State, e: Event)
    requires Inv(s) && Enabled(s, e) && s.shown.detail <= s.slots.nextId && e.Done?
    ensures var t := Apply(s, e);
      && t.shown.detail == (if ShowsDetail(s, e) then e.id else s.shown.detail)
      && (if ShowsDetail(s, e) then t.view.detailVisible == e.reply.Ok?
          else t.view.selected.Some? && DetailSettled(t.view, t.shown) ==>
            t.view.selected == s.view.selected && DetailSettled(s.view, s.shown)
            && t.view.detailVisible == s.view.detailVisible)
  {
    hide SelectSpaceStep, RenderSpacesStep, ActionDone, Target;
    if !s.closed {
      if IsAction(s.slots, e.id) {
        ActionIsInNoOtherSlot(s, e.id);
        ActionKeepsSelection(s, e);
      } else if e.id != 0 && e.id == s.slots.list && !s.slots.listAgain {
        var t := s.(slots := ListTaken(s.slots), shown := s.shown.(list := s.slots.list));
        RenderMark(t, e.reply, e.visible);
        RenderSpacesFrame(t, e.reply, e.visible);
      }
    }
  }

  /** Requests of `j` that `k` could have issued were in flight in `k`. */
  ghost predicate Newer(k: Slots, j: Slots) {
    j.nextId >= k.nextId && forall id :: id in j.inflight && id <= k.nextId ==> id in k.inflight
  }

  lemma NewerTrans(k: Slots, j: Slots, i: Slots)
    requires Newer(k, j) && Newer(j, i)
    ensures Newer(k, i)
  {
  }

  lemma RefreshesNewer(s: State)
    ensures Newer(s.slots, RefreshListStep(s).slots) && Newer(s.slots, RefreshSelected(s).slots)
    ensures Newer(s.slots, RequestProfilesStep(s).slots)
    ensures Newer(s.slots, ListOnceMore(s).slots) && Newer(s.slots, ProfilesOnceMore(s).slots)
  {
  }

  lemma SelectSpaceNewer(s: State, target: Option<string>)
    ensures Newer(s.slots, SelectSpaceStep(s, target).slots)
  {
  }

  lemma RenderNewer(s: State, reply: Reply, visible: seq<string>)
    ensures Newer(s.slots, RenderSpacesStep(s, reply, visible).slots)
  {
    hide SelectSpaceStep, Target, Newer;
    if !WellFormed(reply) {
      SelectSpaceNewer(Disconnected(s), None);
    } else {
      var rows := reply.spaces.value;
      var t := Connected(s, rows);
      var c := ChangeSelection(t, t.view.pendingSelect);
      var u := c.(view := c.view.(pendingSelect := None));
      SelectSpaceNewer(u, Target(u.view, rows));
      SelectSpaceNewer(t, Target(t.view, visible));
    }
  }

  lemma SuccessNewer(s: State, intent: Intent)
    ensures Newer(s.slots, ActionSucceeds(s, intent).slots)
  {
    var a := Outdate(s, intent);
    assert a.slots == s.slots;
    hide ListOnceMore, RefreshSelected, ProfilesOnceMore, Outdate, Newer;
    RefreshesNewer(a);
    RefreshesNewer(ListOnceMore(a));
    RefreshesNewer(RefreshSelected(ListOnceMore(a)));
    NewerTrans(s.slots, ListOnceMore(a).slots, RefreshSelected(ListOnceMore(a)).slots);
    NewerTrans(s.slots, RefreshSelected(ListOnceMore(a)).slots, ActionSucceeds(s, intent).slots);
  }

  /** The slots once the reply to `id` is taken out. */
  function Without(k: Slots, id: nat): Slots { k.(inflight := k.inflight - {id}) }

  lemma SameFlight(k: Slots, l: Slots, j: Slots)
    requires k.nextId == l.nextId && k.inflight == l.inflight && Newer(k, j)
    ensures Newer(l, j)
  {
  }

  lemma DoneNewer(s: State, e: Event)
    requires Inv(s) && Enabled(s, e) && e.Done? && !s.closed
    ensures Newer(Without(s.slots, e.id), Apply(s, e).slots)
  {
    assert InSlot(s.slots, e.id);
    hide Inv, RenderSpacesStep, ActionSucceeds, RefreshListStep, RefreshSelected, RequestProfilesStep, Newer, InSlot;
    var id, k, t := e.id, s.slots, Apply(s, e).slots;
    if id == k.list {
      var taken := s.(slots := ListTaken(k));
      RefreshesNewer(taken);
      RenderNewer(taken.(shown := taken.shown.(list := k.list)), e.reply, e.visible);
      SameFlight(ListTaken(k), Without(k, id), t);
    } else if id == k.detail {
      RefreshesNewer(s.(slots := DetailTaken(k)));
      NewerSelf(DetailTaken(k));
      SameFlight(DetailTaken(k), Without(k, id), t);
    } else if id == k.net {
      NewerSelf(NetTaken(k));
      SameFlight(NetTaken(k), Without(k, id), t);
    } else if id == k.profiles {
      RefreshesNewer(s.(slots := ProfilesTaken(k)));
      NewerSelf(ProfilesTaken(k));
      SameFlight(ProfilesTaken(k), Without(k, id), t);
    } else {
      var taken := s.(slots := ActionTaken(k), log := Append(s.log, e.message));
      SuccessNewer(taken, k.pending.value.intent);
      NewerSelf(ActionTaken(k));
      SameFlight(ActionTaken(k), Without(k, id), t);
    }
  }

  lemma NewerSelf(k: Slots)
    ensures Newer(k, k)
  {
  }

  lemma OtherNewer(s: State, e: Event)
    requires !e.Done?
    ensures Newer(s.slots, Apply(s, e).slots)
  {
    hide SelectSpaceStep, Target;
    match e
    case UserSelects(target) => SelectSpaceNewer(s, target);
    case UserFilters(visible) => SelectSpaceNewer(s, Target(s.view, visible));
    case _ =>
  }

  /** What is shown has been answered, so it is no longer in flight. */
  predicate Answered(s: State) {
    && s.shown.list <= s.slots.nextId && s.shown.detail <= s.slots.nextId
    && s.shown.list !in s.slots.inflight && s.shown.detail !in s.slots.inflight
  }

  lemma AnsweredStep(s: State, e: Event)
    requires Inv(s) && Enabled(s, e) && Answered(s)
    ensures Answered(Apply(s, e))
  {
    EventEffects(s, e);
    DetailEffects(s, e);
    if s.closed {
      ClosedIsQuiet(s, e);
    } else {
      if e.Done? { DoneNewer(s, e); } else { OtherNewer(s, e); }
      IssuedId(s, e);
      hide Apply, Inv, Enabled;
    }
  }

  lemma IssuedId(s: State, e: Event)
    requires Inv(s) && Enabled(s, e)
    ensures e.Done? ==> e.id <= s.slots.nextId && e.id != 0
  {
    if e.Done? { assert InSlot(s.slots, e.id); }
  }

  lemma {:induction false} RunAnswered(events: seq<Event>)
    requires Possible(INIT, events)
    ensures Answered(After(INIT, events))
    decreases |events|
  {
    if events != [] {
      hide Apply, Enabled, Inv, After, Possible, Answered;
      LastEvent(events);
      RunAnswered(Past(events));
      Reached(Past(events));
      AnsweredStep(After(INIT, Past(events)), Newest(events));
    } else {
      assert After(INIT, events) == INIT;
    }
  }

  /** The list on screen is the reply to the request it is recorded under. */
  predicate ListFrom(s: State, reply: Option<Reply>) {
    if s.shown.list == 0 then s.view.spaces == [] && !s.view.connected
    else reply.Some? && s.view.spaces == Rows(reply.value) && s.view.connected == WellFormed(reply.value)
  }

  /** Details that are current are those of the reply they are recorded under. */
  predicate DetailFrom(s: State, reply: Option<Reply>) {
    s.view.selected.Some? && DetailSettled(s.view, s.shown) ==>
      reply.Some? && s.view.detailVisible == reply.value.Ok?
  }

  /** On every run the list on screen is the reply to the request it is recorded under, and so are the details
      while they are current. */
  lemma {:induction false} ScreenIsReplies(events: seq<Event>)
    requires Possible(INIT, events)
    ensures var s := After(INIT, events);
      ListFrom(s, ReplyTo(events, s.shown.list)) && DetailFrom(s, ReplyTo(events, s.shown.detail))
    decreases |events|
  {
    if events == [] {
      assert After(INIT, events) == INIT;
    } else {
      hide Apply, Enabled, Inv, After, Possible, Rows, WellFormed, DetailSettled, Answered, INIT;
      LastEvent(events);
      ScreenIsReplies(Past(events));
      Reached(Past(events));
      RunAnswered(Past(events));
      ScreenStep(After(INIT, Past(events)), Newest(events), events);
    }
  }

  lemma ScreenStep(s: State, e: Event, events: seq<Event>)
    requires events != [] && s == After(INIT, Past(events)) && e == Newest(events)
    requires Inv(s) && Enabled(s, e) && Answered(s)
    requires ListFrom(s, ReplyTo(Past(events), s.shown.list))
    requires DetailFrom(s, ReplyTo(Past(events), s.shown.detail))
    ensures var t := Apply(s, e);
      ListFrom(t, ReplyTo(events, t.shown.list)) && DetailFrom(t, ReplyTo(events, t.shown.detail))
  {
    EventEffects(s, e);
    DetailEffects(s, e);
    IssuedId(s, e);
    assert e.Done? ==> e.id in s.slots.inflight;
    hide Apply, Inv, Enabled, After, Possible, Rows, WellFormed, DetailSettled, INIT;
  }

  lemma {:induction false} MoveIsRecorded(events: seq<Event>)
    requires Possible(INIT, events)
    ensures LastMove(events) <= After(INIT, events).shown.selection
    decreases |events|
  {
    if events != [] {
      hide Apply, Enabled, Inv, After, Possible;
      LastEvent(events);
      MoveIsRecorded(Past(events));
      Reached(Past(events));
      MoveEffects(After(INIT, Past(events)), Newest(events));
    }
  }

  lemma MoveEffects(s: State, e: Event)
    requires Inv(s) && Enabled(s, e)
    ensures var t := Apply(s, e);
      || t.shown.selection == s.slots.nextId
      || (t.shown.selection == s.shown.selection && t.view.selected == s.view.selected)
    ensures s.shown.selection <= s.slots.nextId
  {
    hide SelectSpaceStep, RenderSpacesStep, ActionDone, Target;
    match e
    case UserSelects(target) => SelectSpaceSelects(s, target);
    case UserFilters(visible) => SelectSpaceSelects(s, Target(s.view, visible));
    case Done(id, reply, visible, _) =>
      if !s.closed {
        if IsAction(s.slots, id) {
          ActionIsInNoOtherSlot(s, id);
          ActionKeepsSelection(s, e);
        } else if id != 0 && id == s.slots.list && !s.slots.listAgain {
          RenderSelects(s.(slots := ListTaken(s.slots), shown := s.shown.(list := s.slots.list)), reply, visible);
        }
      }
    case _ =>
  }

  // ---- nothing stale ----

  lemma ShownChanges(s: State, e: Event)
    requires Inv(s) && Enabled(s, e)
    ensures var t := Apply(s, e);
      && (t.shown.list != s.shown.list ==>
            t.shown.list > t.shown.mutation && Sent(s.slots, t.shown.list, List))
      && (t.shown.profiles != s.shown.profiles ==>
            t.shown.profiles > t.shown.mutation && Sent(s.slots, t.shown.profiles, Profiles))
      && (t.shown.detail != s.shown.detail ==>
            && t.view.selected.Some? && Sent(s.slots, t.shown.detail, Describe(t.view.selected.value))
            && DetailSettled(t.view, t.shown))
  {
    hide SelectSpaceStep, RenderSpacesStep, ActionSucceeds;
    match e
    case UserSelects(target) => SelectSpaceFrame(s, target);
    case UserFilters(visible) => SelectSpaceFrame(s, Target(s.view, visible));
    case Done(id, reply, visible, message) =>
      if id != 0 && !s.closed {
        if id == s.slots.list {
          var t := s.(slots := ListTaken(s.slots), shown := s.shown.(list := s.slots.list));
          RenderSpacesFrame(t, reply, visible);
        } else if IsAction(s.slots, id) {
          var t := s.(slots := ActionTaken(s.slots), log := Append(s.log, message));
          ActionSucceedsRefreshes(t, s.slots.pending.value.intent);
        }
      }
    case _ =>
  }

  /** Whatever a reply puts on screen was requested after every successful action processed so far; a
      detail, moreover, describes the current selection and was requested after it was made. */
  lemma NothingStaleIsShown(events: seq<Event>, e: Event)
    requires Possible(INIT, events + [e])
    ensures var s, t := After(INIT, events), After(INIT, events + [e]);
      && (t.shown.list != s.shown.list ==>
            t.shown.list > LastSuccess(events + [e]) && Sent(s.slots, t.shown.list, List))
      && (t.shown.profiles != s.shown.profiles ==>
            t.shown.profiles > LastSuccess(events + [e]) && Sent(s.slots, t.shown.profiles, Profiles))
      && (t.shown.detail != s.shown.detail ==>
            && t.view.selected.Some? && Sent(s.slots, t.shown.detail, Describe(t.view.selected.value))
            && t.shown.detailSpace == t.view.selected
            && t.shown.detail > LastSuccess(events + [e]) && t.shown.detail > LastMove(events + [e]))
  {
    hide After, Possible, Apply, Inv, Enabled, Sent, INIT;
    AfterSnoc(INIT, events, e);
    Reached(events);
    ShownChanges(After(INIT, events), e);
    MutationIsLastSuccess(events + [e]);
    MoveIsRecorded(events + [e]);
  }

  /** And nothing stays stale: once no request is in flight, the list, the profiles and the details on
      screen all postdate the last successful action, and the details are those of the selection. */
  lemma NothingStaysStale(events: seq<Event>)
    requires Possible(INIT, events)
    requires After(INIT, events).slots.inflight == map[] && !After(INIT, events).closed
    ensures var s := After(INIT, events);
      && s.shown.list > LastSuccess(events)
      && (LastSuccess(events) > 0 ==> s.shown.profiles > LastSuccess(events))
      && (s.view.selected.Some? ==>
            && s.view.selected.value in s.view.spaces && s.shown.detailSpace == s.view.selected
            && s.shown.detail > LastSuccess(events) && s.shown.detail > LastMove(events))
  {
    hide After, Possible, INIT;
    Reached(events);
    MutationIsLastSuccess(events);
    MoveIsRecorded(events);
  }

  /** A space just created is selected as soon as a list that has it is put on screen. */
  lemma CreatedIsSelected(events: seq<Event>, e: Event)
    requires Possible(INIT, events + [e]) && ShowsList(After(INIT, events), e)
    requires Wanted(events).Some? && Wanted(events).value in Rows(e.reply)
    ensures After(INIT, events + [e]).view.selected == Wanted(events)
  {
    hide After, Possible, Apply, Inv, Enabled, INIT, Wanted, Follows;
    AfterSnoc(INIT, events, e);
    Reached(events);
    PendingSelectIsWanted(events);
    SelectionIs(After(INIT, events), e);
  }

  /** The operation log shows the last 200 lines reported for the action, each cut to 1024 characters. */
  lemma LogIsTheTail(events: seq<Event>)
    requires Possible(INIT, events)
    ensures var all := Reported(events);
      After(INIT, events).log.lines == all[if |all| <= 200 then 0 else |all| - 200..]
  {
    hide After, Possible, INIT, Reported;
    Reached(events);
    HistoryIsReported(events);
  }

  // ---- the window's own cells ----

  class Ui {
    var nextId: nat
    var latestList: nat
    var listAgain: bool
    var latestDetail: nat
    var detailRequest: Option<(string, nat)>
    var latestNet: nat
    var latestProfiles: nat
    var profilesAgain: bool
    var pendingAction: Option<Pending>
    var selected: Option<string>
    var pendingSelect: Option<string>
    var selectionEpoch: nat
    var detailVisible: bool
    var connected: bool
    var closed: bool
    var currentSpaces: seq<string>
    var progressLines: seq<string>
    ghost var inflight: map<nat, Kind>
    ghost var shown: Shown
    ghost var history: seq<string>

    ghost function Abstract(): State
      reads this
    {
      State(Slots(nextId, inflight, latestList, listAgain, latestDetail, detailRequest, latestNet,
                  latestProfiles, profilesAgain, pendingAction),
            View(selected, selectionEpoch, detailVisible, connected, currentSpaces, pendingSelect),
            shown, Log(progressLines, history), closed)
    }

    constructor ()
      ensures Abstract() == INIT && Inv(Abstract())
    {
      nextId, latestList, listAgain, latestDetail, detailRequest := 0, 0, false, 0, None;
      latestNet, latestProfiles, profilesAgain, pendingAction := 0, 0, false, None;
      selected, pendingSelect, selectionEpoch, detailVisible := None, None, 0, false;
      connected, closed, currentSpaces, progressLines := false, false, [], [];
      inflight, shown, history := map[], Shown(0, 0, None, 0, 0, 0), [];
      new;
      RefreshList();
      InitInv();
    }

    method Request(kind: Kind) returns (id: nat)
      modifies this`nextId, this`inflight
      ensures id == old(nextId) + 1 == nextId && inflight == old(inflight)[id := kind]
    {
      nextId := nextId + 1;
      id := nextId;
      inflight := inflight[id := kind];
    }

    method RefreshList()
      modifies this
      ensures Abstract() == RefreshListStep(old(Abstract()))
    {
      if closed || latestList != 0 { return; }
      latestList := Request(List);
    }

    method RefreshDetail(space: string)
      modifies this
      ensures Abstract() == RefreshDetailStep(old(Abstract()), space)
    {
      if closed || !connected || latestDetail != 0 { return; }
      latestDetail := Request(Describe(space));
      detailRequest := Some((space, selectionEpoch));
    }

    method RefreshNet()
      modifies this
      ensures Abstract() == RefreshNetStep(old(Abstract()))
    {
      if closed || latestNet != 0 { return; }
      latestNet := Request(NetStatus);
    }

    method RequestProfiles()
      modifies this
      ensures Abstract() == RequestProfilesStep(old(Abstract()))
    {
      if closed || latestProfiles != 0 { return; }
      latestProfiles := Request(Profiles);
    }

    method SendAction(intent: Intent)
      modifies this
      ensures Abstract() == SendActionStep(old(Abstract()), intent)
    {
      if closed || !connected || pendingAction.Some? { return; }
      var id := Request(Action);
      pendingAction := Some(Pending(id, intent));
      progressLines, history := [], [];
    }

    method MoveSelection(target: Option<string>)
      modifies this`selected, this`selectionEpoch, this`detailVisible, this`shown
      ensures Abstract() == ChangeSelection(old(Abstract()), target)
    {
      selectionEpoch := selectionEpoch + 1;
      selected := target;
      detailVisible := false;
      shown := shown.(selection := nextId);
    }

    method SelectSpace(target: Option<string>)
      modifies this
      ensures Abstract() == SelectSpaceStep(old(Abstract()), target)
    {
      var changed := selected != target;
      if changed { MoveSelection(target); }
      if target.Some? && target.value in currentSpaces {
        if changed || !detailVisible { RefreshDetail(target.value); }
      } else {
        detailVisible := false;
      }
    }

    method FilterSpaces(visible: seq<string>)
      modifies this
      ensures Abstract() == SelectSpaceStep(old(Abstract()), Target(old(Abstract()).view, visible))
    {
      var target := selected;
      if !(selected.Some? && selected.value in visible) {
        target := if visible == [] then None else Some(visible[0]);
      }
      SelectSpace(target);
    }

    method RenderSpaces(reply: Reply, visible: seq<string>)
      modifies this
      ensures Abstract() == RenderSpacesStep(old(Abstract()), reply, visible)
    {
      if reply.Failed? || reply.spaces.None? {
        ShowUnavailable();
      } else {
        ShowRows(reply.spaces.value, visible);
      }
    }

    method ShowUnavailable()
      modifies this
      ensures Abstract() == SelectSpaceStep(Disconnected(old(Abstract())), None)
    {
      hide SelectSpaceStep;
      connected := false;
      selectionEpoch := selectionEpoch + 1;
      currentSpaces := [];
      SelectSpace(None);
    }

    method ShowRows(rows: seq<string>, visible: seq<string>)
      modifies this
      ensures Abstract() == RenderSpacesStep(old(Abstract()), Ok(Some(rows)), visible)
    {
      hide SelectSpaceStep, ChangeSelection, Target;
      connected := true;
      currentSpaces := rows;
      if pendingSelect.Some? && pendingSelect.value in rows {
        MoveSelection(pendingSelect);
        pendingSelect := None;
        FilterSpaces(rows);
      } else {
        FilterSpaces(visible);
      }
    }

    method HandleListDone(reply: Reply, visible: seq<string>)
      modifies this
      ensures Abstract() == ListDone(old(Abstract()), reply, visible)
    {
      hide RefreshListStep, RenderSpacesStep;
      ghost var id := latestList;
      inflight := inflight - {latestList};
      latestList := 0;
      var again := listAgain;
      listAgain := false;
      if again {
        RefreshList();
      } else {
        shown := shown.(list := id);
        RenderSpaces(reply, visible);
      }
    }

    method HandleDetailDone(reply: Reply)
      modifies this
      ensures Abstract() == DetailDone(old(Abstract()), reply)
    {
      ghost var id := latestDetail;
      inflight := inflight - {latestDetail};
      latestDetail := 0;
      var request := detailRequest;
      detailRequest := None;
      var current := request.Some? && selected == Some(request.value.0) && request.value.1 == selectionEpoch;
      if current && connected {
        detailVisible := reply.Ok?;
        shown := shown.(detail := id, detailSpace := selected);
      } else if connected {
        RefreshSelection();
      }
    }

    method HandleProfilesDone()
      modifies this
      ensures Abstract() == ProfilesDone(old(Abstract()))
    {
      ghost var id := latestProfiles;
      inflight := inflight - {latestProfiles};
      latestProfiles := 0;
      var again := profilesAgain;
      profilesAgain := false;
      if again { RequestProfiles(); } else { shown := shown.(profiles := id); }
    }

    method HandleSuccess(intent: Intent)
      modifies this
      ensures Abstract() == ActionSucceeds(old(Abstract()), intent)
    {
      hide RefreshSelected, ListOnceMore, ProfilesOnceMore;
      if intent.Creates? { pendingSelect := Some(intent.space); }
      selectionEpoch := selectionEpoch + 1;
      shown := shown.(mutation := nextId);
      RefreshListOnceMore();
      RefreshSelection();
      RequestProfilesOnceMore();
    }

    method RefreshListOnceMore()
      modifies this
      ensures Abstract() == ListOnceMore(old(Abstract()))
    {
      if latestList != 0 { listAgain := true; } else { RefreshList(); }
    }

    method RequestProfilesOnceMore()
      modifies this
      ensures Abstract() == ProfilesOnceMore(old(Abstract()))
    {
      if latestProfiles != 0 { profilesAgain := true; } else { RequestProfiles(); }
    }

    method RefreshSelection()
      modifies this
      ensures Abstract() == RefreshSelected(old(Abstract()))
    {
      if selected.Some? { RefreshDetail(selected.value); }
    }

    method HandleActionDone(reply: Reply, message: seq<string>)
      requires pendingAction.Some? && |progressLines| <= LOG_LINES
      modifies this
      ensures Abstract() == ActionDone(old(Abstract()), reply, message)
    {
      hide ActionSucceeds, Append;
      var action := pendingAction.value;
      inflight := inflight - {action.id};
      pendingAction := None;
      AppendProgress(message);
      if reply.Ok? { HandleSuccess(action.intent); }
    }

    method HandleDone(id: nat, reply: Reply, visible: seq<string>, message: seq<string>)
      requires Inv(Abstract()) && Enabled(Abstract(), Done(id, reply, visible, message))
      modifies this
      ensures Abstract() == Apply(old(Abstract()), Done(id, reply, visible, message))
      ensures Inv(Abstract())
    {
      EventKeepsInv(Abstract(), Done(id, reply, visible, message));
      hide Inv, ListDone, DetailDone, ProfilesDone, ActionDone;
      if id == 0 || closed { return; }
      if id == latestList { HandleListDone(reply, visible); return; }
      if id == latestDetail { HandleDetailDone(reply); return; }
      if id == latestNet {
        inflight := inflight - {latestNet};
        latestNet := 0;
        return;
      }
      if id == latestProfiles { HandleProfilesDone(); return; }
      if pendingAction.Some? && pendingAction.value.id == id { HandleActionDone(reply, message); }
    }

    /** Keeps a bounded queue: each line is cut and pushed, and the oldest falls out. */
    method AppendProgress(text: seq<string>)
      requires |progressLines| <= LOG_LINES
      modifies this`progressLines, this`history
      ensures Log(progressLines, history) == Append(Log(old(progressLines), old(history)), text)
    {
      ghost var was := progressLines;
      var i := 0;
      while i < |text|
        invariant 0 <= i <= |text|
        invariant progressLines == Tail(was + Truncated(text[..i]), LOG_LINES)
        invariant history == old(history)
      {
        assert Truncated(text[..i + 1]) == Truncated(text[..i]) + [Cut(text[i])];
        assert was + Truncated(text[..i + 1]) == (was + Truncated(text[..i])) + [Cut(text[i])];
        TailAppend(was + Truncated(text[..i]), [Cut(text[i])], LOG_LINES);
        progressLines := progressLines + [Cut(text[i])];
        if |progressLines| > LOG_LINES { progressLines := progressLines[1..]; }
        i := i + 1;
      }
      assert text[..i] == text;
      history := history + Truncated(text);
    }

    method HandleProgress(id: nat, text: seq<string>)
      requires Inv(Abstract())
      modifies this`progressLines, this`history
      ensures Abstract() == HandleProgressStep(old(Abstract()), id, text)
    {
      if pendingAction.Some? && pendingAction.value.id == id { AppendProgress(text); }
    }
  }
}
