// How the manager's worker threads hand replies to the window: one bounded channel, into which any
// number of workers push droppable progress and one terminal update each.
module Delivery {
  import opened Text
  import Session

  const CAPACITY := 128

  const MAX_TEXT := 1024

  /** None when the call failed; the texts of errors are not modelled. */
  type Reply = Option<Session.Reply>

  datatype Update =
    | Progress(id: nat, text: string)
    | Done(id: nat, reply: Reply)

  /** What a worker has said so far, and its reply once it has finished. */
  datatype Worker = Worker(said: seq<string>, reply: Option<Reply>)

  /** `taken` is what the window has received so far. */
  datatype State = State(queue: seq<Update>, taken: seq<Update>, workers: map<nat, Worker>)

  datatype Step =
    | Launch(id: nat)
    | Say(id: nat, text: string)
    | Finish(id: nat, reply: Reply)
    | Take

  function Cut(text: string): (r: string)
    ensures r <= text && |r| == if |text| < 1024 then |text| else 1024
  {
    if |text| <= MAX_TEXT then text else text[..MAX_TEXT]
  }

  function CutAll(texts: seq<string>): seq<string> {
    if texts == [] then [] else CutAll(texts[..|texts| - 1]) + [Cut(texts[|texts| - 1])]
  }

  predicate HasRoom(s: State) { |s.queue| < CAPACITY }

  /** A worker speaks only until it finishes, and its last push waits for room. */
  predicate Enabled(s: State, step: Step) {
    match step
    case Launch(id) => id !in s.workers
    case Say(id, _) => id in s.workers && s.workers[id].reply.None?
    case Finish(id, _) => id in s.workers && s.workers[id].reply.None? && HasRoom(s)
    case Take => s.queue != []
  }

  function Apply(s: State, step: Step): State
    requires Enabled(s, step)
  {
    match step
    case Launch(id) => s.(workers := s.workers[id := Worker([], None)])
    case Say(id, text) =>
      var t := s.(workers := s.workers[id := s.workers[id].(said := s.workers[id].said + [text])]);
      if HasRoom(s) then t.(queue := s.queue + [Progress(id, Cut(text))]) else t
    case Finish(id, reply) =>
      s.(workers := s.workers[id := s.workers[id].(reply := Some(reply))], queue := s.queue + [Done(id, reply)])
    case Take => s.(queue := s.queue[1..], taken := s.taken + [s.queue[0]])
  }

  predicate Possible(s: State, steps: seq<Step>)
    decreases |steps|
  {
    steps == [] || (Enabled(s, steps[0]) && Possible(Apply(s, steps[0]), steps[1..]))
  }

  function After(s: State, steps: seq<Step>): State
    requires Possible(s, steps)
    decreases |steps|
  {
    if steps == [] then s else After(Apply(s, steps[0]), steps[1..])
  }

  /** A worker that was launched can speak, and finish once there is room; one that has finished can do neither. */
  lemma WorkerTurns(s: State, step: Step, text: string, reply: Reply)
    requires Enabled(s, step) && !step.Take?
    ensures var t := Apply(s, step);
      && (Enabled(t, Say(step.id, text)) <==> !step.Finish?)
      && (Enabled(t, Finish(step.id, reply)) <==> !step.Finish? && HasRoom(t))
      && !Enabled(t, Launch(step.id))
  {
  }

  // ---- what one request's updates look like ----

  /** The updates of one request, in order. */
  function Of(id: nat, updates: seq<Update>): seq<Update> {
    if updates == [] then []
    else
      var last := updates[|updates| - 1];
      Of(id, updates[..|updates| - 1]) + if last.id == id then [last] else []
  }

  function Texts(updates: seq<Update>): seq<string> {
    if updates == [] then []
    else
      var last := updates[|updates| - 1];
      Texts(updates[..|updates| - 1]) + if last.Progress? then [last.text] else []
  }

  predicate Subsequence<T(==)>(a: seq<T>, b: seq<T>)
    decreases |b|
  {
    a == [] || (b != [] &&
      (Subsequence(a, b[..|b| - 1]) || (a[|a| - 1] == b[|b| - 1] && Subsequence(a[..|a| - 1], b[..|b| - 1]))))
  }

  predicate OnlyProgress(updates: seq<Update>) {
    forall i :: 0 <= i < |updates| ==> updates[i].Progress?
  }

  /** Progress in the order it was said, with gaps, then the reply if the worker has finished. */
  predicate Faithful(id: nat, seen: seq<Update>, w: Worker) {
    if w.reply.None? then OnlyProgress(seen) && Subsequence(Texts(seen), CutAll(w.said))
    else
      && seen != [] && seen[|seen| - 1] == Done(id, w.reply.value)
      && var before := seen[..|seen| - 1]; OnlyProgress(before) && Subsequence(Texts(before), CutAll(w.said))
  }

  /** Everything pushed so far: what the window took and what still waits. */
  function Pushed(s: State): seq<Update> { s.taken + s.queue }

  predicate InvFor(s: State, id: nat) {
    var seen := Of(id, Pushed(s));
    if id in s.workers then Faithful(id, seen, s.workers[id]) else seen == []
  }

  ghost predicate Inv(s: State) { |s.queue| <= CAPACITY && forall id :: InvFor(s, id) }

  lemma OfAppend(id: nat, updates: seq<Update>, u: Update)
    ensures Of(id, updates + [u]) == if u.id == id then Of(id, updates) + [u] else Of(id, updates)
  {
    assert (updates + [u])[..|updates|] == updates;
  }

  lemma TextsAppend(updates: seq<Update>, text: string, id: nat)
    ensures Texts(updates + [Progress(id, text)]) == Texts(updates) + [text]
  {
    assert (updates + [Progress(id, text)])[..|updates|] == updates;
  }

  lemma SubsequenceAppend<T>(a: seq<T>, b: seq<T>, x: T)
    requires Subsequence(a, b)
    ensures Subsequence(a, b + [x]) && Subsequence(a + [x], b + [x])
  {
    assert (b + [x])[..|b|] == b && (a + [x])[..|a|] == a;
  }

  lemma CutAllAppend(texts: seq<string>, text: string)
    ensures CutAll(texts + [text]) == CutAll(texts) + [Cut(text)]
  {
    assert (texts + [text])[..|texts|] == texts;
  }

  lemma SayKeeps(s: State, id: nat, text: string, other: nat)
    requires Enabled(s, Say(id, text)) && InvFor(s, other)
    ensures InvFor(Apply(s, Say(id, text)), other)
  {
    hide Of, Texts, CutAll, Subsequence;
    var t := Apply(s, Say(id, text));
    var u: Update := Progress(id, Cut(text));
    if HasRoom(s) {
      assert Pushed(t) == Pushed(s) + [u];
      OfAppend(other, Pushed(s), u);
    }
    if other == id {
      var seen := Of(id, Pushed(s));
      CutAllAppend(s.workers[id].said, text);
      TextsAppend(seen, Cut(text), id);
      SubsequenceAppend(Texts(seen), CutAll(s.workers[id].said), Cut(text));
    }
  }

  lemma FinishKeeps(s: State, id: nat, reply: Reply, other: nat)
    requires Enabled(s, Finish(id, reply)) && InvFor(s, other)
    ensures InvFor(Apply(s, Finish(id, reply)), other)
  {
    hide Of, Texts, CutAll, Subsequence;
    var t, u := Apply(s, Finish(id, reply)), Done(id, reply);
    assert Pushed(t) == Pushed(s) + [u];
    OfAppend(other, Pushed(s), u);
    if other == id {
      var seen := Of(id, Pushed(s));
      assert (seen + [u])[..|seen|] == seen;
    }
  }

  lemma StepKeeps(s: State, step: Step, other: nat)
    requires Enabled(s, step) && InvFor(s, other)
    ensures InvFor(Apply(s, step), other)
  {
    hide Of, Faithful;
    match step
    case Launch(id) =>
      if other == id { LaunchFaithful(id); }
    case Say(id, text) => SayKeeps(s, id, text, other);
    case Finish(id, reply) => FinishKeeps(s, id, reply, other);
    case Take => assert Pushed(Apply(s, step)) == Pushed(s);
  }

  lemma LaunchFaithful(id: nat)
    ensures Faithful(id, [], Worker([], None))
  {
  }

  lemma {:induction false} RunKeepsInv(s: State, steps: seq<Step>)
    requires Inv(s) && Possible(s, steps)
    ensures Inv(After(s, steps))
    decreases |steps|
  {
    if steps != [] {
      forall id ensures InvFor(Apply(s, steps[0]), id) { StepKeeps(s, steps[0], id); }
      hide InvFor;
      RunKeepsInv(Apply(s, steps[0]), steps[1..]);
    }
  }

  // ---- what a worker has said, read off the steps ----

  /** The texts one worker has reported, in order. */
  function SaidIn(steps: seq<Step>, id: nat): seq<string> {
    if steps == [] then []
    else (if steps[0].Say? && steps[0].id == id then [steps[0].text] else []) + SaidIn(steps[1..], id)
  }

  /** The reply it finished with, if it has. */
  function ReplyIn(steps: seq<Step>, id: nat): Option<Reply> {
    if steps == [] then None
    else if steps[0].Finish? && steps[0].id == id then Some(steps[0].reply)
    else ReplyIn(steps[1..], id)
  }

  function SaidBefore(s: State, id: nat): seq<string> { if id in s.workers then s.workers[id].said else [] }

  function RepliedBefore(s: State, id: nat): Option<Reply> { if id in s.workers then s.workers[id].reply else None }

  lemma WorkerStep(s: State, step: Step, id: nat)
    requires Enabled(s, step)
    ensures var t := Apply(s, step);
      && SaidBefore(t, id) == SaidBefore(s, id) + (if step.Say? && step.id == id then [step.text] else [])
      && RepliedBefore(t, id) ==
         (if step.Finish? && step.id == id then Some(step.reply) else RepliedBefore(s, id))
      && (step.Finish? && step.id == id ==> RepliedBefore(s, id).None?)
  {
  }

  lemma {:induction false} WorkerIs(s: State, steps: seq<Step>, id: nat)
    requires Possible(s, steps)
    ensures var t := After(s, steps);
      && SaidBefore(t, id) == SaidBefore(s, id) + SaidIn(steps, id)
      && RepliedBefore(t, id) == (if RepliedBefore(s, id).Some? then RepliedBefore(s, id) else ReplyIn(steps, id))
    decreases |steps|
  {
    if steps != [] {
      WorkerStep(s, steps[0], id);
      hide SaidBefore, RepliedBefore, Enabled, Apply;
      WorkerIs(Apply(s, steps[0]), steps[1..], id);
    }
  }

  const IDLE := State([], [], map[])

  /**
   * Over every interleaving of workers and window: a request's updates are its progress in order with
   * gaps, then its reply exactly once and last, and the reply is there as soon as the worker is done.
   */
  lemma DoneOnceAndLast(steps: seq<Step>, id: nat)
    requires Possible(IDLE, steps)
    ensures |After(IDLE, steps).queue| <= 128
    ensures Faithful(id, Of(id, Pushed(After(IDLE, steps))), Worker(SaidIn(steps, id), ReplyIn(steps, id)))
  {
    hide Of, Faithful, Possible, After;
    NothingPushed();
    RunKeepsInv(IDLE, steps);
    WorkerIs(IDLE, steps, id);
    var t := After(IDLE, steps);
    assert InvFor(t, id);
    assert [] + SaidIn(steps, id) == SaidIn(steps, id);
    if id in t.workers {
      assert t.workers[id] == Worker(SaidIn(steps, id), ReplyIn(steps, id));
    } else {
      LaunchFaithful(id);
    }
  }

  lemma NothingPushed()
    ensures Inv(IDLE)
  {
  }

  // ---- when nothing is dropped ----

  /** Each time this worker speaks, the channel has room. */
  predicate RoomWhenever(s: State, steps: seq<Step>, id: nat)
    requires Possible(s, steps)
    decreases |steps|
  {
    steps != [] ==>
      && (steps[0].Say? && steps[0].id == id ==> HasRoom(s))
      && RoomWhenever(Apply(s, steps[0]), steps[1..], id)
  }

  predicate Complete(s: State, id: nat) {
    Texts(Of(id, Pushed(s))) == if id in s.workers then CutAll(s.workers[id].said) else []
  }

  lemma StepKeepsComplete(s: State, step: Step, id: nat)
    requires Enabled(s, step) && Complete(s, id)
    requires step.Say? && step.id == id ==> HasRoom(s)
    ensures Complete(Apply(s, step), id)
  {
    hide Of, Texts, CutAll;
    var seen, t := Of(id, Pushed(s)), Apply(s, step);
    match step
    case Launch(_) => assert CutAll([]) == [] by { CutAllOfNone(); }
    case Say(other, text) =>
      if HasRoom(s) {
        assert Pushed(t) == Pushed(s) + [Progress(other, Cut(text))];
        OfAppend(id, Pushed(s), Progress(other, Cut(text)));
      }
      if other == id {
        TextsAppend(seen, Cut(text), id);
        CutAllAppend(s.workers[id].said, text);
      }
    case Finish(other, reply) =>
      assert Pushed(t) == Pushed(s) + [Done(other, reply)];
      OfAppend(id, Pushed(s), Done(other, reply));
      if other == id { TextsOfDone(seen, id, reply); }
    case Take => assert Pushed(t) == Pushed(s);
  }

  lemma CutAllOfNone()
    ensures CutAll([]) == []
  {
  }

  lemma TextsOfDone(updates: seq<Update>, id: nat, reply: Reply)
    ensures Texts(updates + [Done(id, reply)]) == Texts(updates)
  {
    assert (updates + [Done(id, reply)])[..|updates|] == updates;
  }

  /** Only a full channel loses progress: with room at every push, all of it arrives, cut to length. */
  lemma {:induction false} NothingLostWithRoom(s: State, steps: seq<Step>, id: nat)
    requires Possible(s, steps) && RoomWhenever(s, steps, id) && Complete(s, id)
    ensures Complete(After(s, steps), id)
    decreases |steps|
  {
    hide Complete;
    if steps != [] {
      StepKeepsComplete(s, steps[0], id);
      NothingLostWithRoom(Apply(s, steps[0]), steps[1..], id);
    }
  }

  /** From the start: with room whenever it speaks, all that a worker says arrives, in order. */
  lemma EverythingArrives(steps: seq<Step>, id: nat)
    requires Possible(IDLE, steps) && RoomWhenever(IDLE, steps, id)
    ensures Texts(Of(id, Pushed(After(IDLE, steps)))) == CutAll(SaidIn(steps, id))
  {
    NothingSaid(id);
    hide Of, Texts, Possible, After, RoomWhenever;
    NothingLostWithRoom(IDLE, steps, id);
    WorkerIs(IDLE, steps, id);
    assert [] + SaidIn(steps, id) == SaidIn(steps, id);
    CutAllOfNone();
  }

  lemma NothingSaid(id: nat)
    ensures Complete(IDLE, id)
  {
  }

  // ---- the channel ----

  class Channel {
    var queue: seq<Update>
    ghost var taken: seq<Update>
    ghost var workers: map<nat, Worker>

    ghost function Abstract(): State
      reads this
    {
      State(queue, taken, workers)
    }

    constructor ()
      ensures Abstract() == State([], [], map[])
    {
      queue, taken, workers := [], [], map[];
    }

    /** A worker's progress callback: `try_send`, whose refusal is ignored. */
    method OnProgress(id: nat, text: string)
      requires Enabled(Abstract(), Say(id, text))
      modifies this
      ensures Abstract() == Apply(old(Abstract()), Say(id, text))
    {
      workers := workers[id := workers[id].(said := workers[id].said + [text])];
      if |queue| < CAPACITY {
        queue := queue + [Progress(id, if |text| <= MAX_TEXT then text else text[..MAX_TEXT])];
      }
    }

    /** The terminal push: `send`, which returns once there was room. */
    method SendDone(id: nat, reply: Reply)
      requires Enabled(Abstract(), Finish(id, reply))
      modifies this
      ensures Abstract() == Apply(old(Abstract()), Finish(id, reply))
    {
      workers := workers[id := workers[id].(reply := Some(reply))];
      queue := queue + [Done(id, reply)];
    }

    method Receive() returns (u: Option<Update>)
      modifies this
      ensures old(queue) == [] ==> u == None && Abstract() == old(Abstract())
      ensures old(queue) != [] ==> u == Some(old(queue[0])) && Abstract() == Apply(old(Abstract()), Take)
    {
      if queue == [] { return None; }
      u := Some(queue[0]);
      taken := taken + [queue[0]];
      queue := queue[1..];
    }
  }
}
