// The GUI broker: one proxy process per space, shared by all connections of that space and counted
// by leases. Every method below runs under the broker's mutex and is one atomic step; between steps
// proxies die and sockets come and go.
module ProxyBroker {
  import opened Text

  datatype Proxy = Proxy(child: nat, leases: nat, cid: nat)

  /** How the outside answers an attempt to start a proxy. */
  datatype Answer = NoDirectory | NoProcess | NoSocket | Up

  datatype State = State(
    started: map<string, Proxy>,
    spawned: nat,                 // processes spawned so far, numbered from 0
    alive: set<nat>,
    reaped: set<nat>,             // killed and waited for
    abandoned: set<nat>,          // dropped because no socket appeared
    sockets: set<string>,         // spaces whose socket file exists
    holders: multiset<string>)    // connections holding a lease, by space

  datatype Step =
    | Ensure(id: string, cid: nat, answer: Answer)
    | Release(holder: string)
    | Reap(gone: set<nat>)
    | ProcessExits(child: nat)
    | SocketChanges(space: string, present: bool)

  const INIT := State(map[], 0, {}, {}, {}, {}, multiset{})

  // ---- one step ----

  /** The recorded proxy lives and its socket is there: a new connection joins it. */
  predicate Usable(s: State, id: string) {
    id in s.started && s.started[id].child in s.alive && id in s.sockets
  }

  predicate Succeeds(s: State, id: string, answer: Answer) { Usable(s, id) || answer == Up }

  function Count(s: State, id: string): nat { if id in s.started then s.started[id].leases else 0 }

  /** Forgets the record of `id`, after killing and waiting for its process. */
  function Discard(s: State, id: string): State {
    if id !in s.started then s
    else s.(started := s.started - {id}, alive := s.alive - {s.started[id].child},
            reaped := s.reaped + {s.started[id].child})
  }

  function Spawn(s: State): State { s.(spawned := s.spawned + 1, alive := s.alive + {s.spawned}) }

  function Restart(s: State, id: string, cid: nat, carried: nat, answer: Answer): State {
    match answer
    case NoDirectory => s
    case NoProcess => s.(sockets := s.sockets - {id})
    case NoSocket => Spawn(s).(abandoned := s.abandoned + {s.spawned}, sockets := s.sockets - {id})
    case Up => Spawn(s).(started := s.started[id := Proxy(s.spawned, carried + 1, cid)],
                         sockets := s.sockets + {id}, holders := s.holders + multiset{id})
  }

  function EnsureStep(s: State, id: string, cid: nat, answer: Answer): State {
    if Usable(s, id) then
      s.(started := s.started[id := s.started[id].(leases := s.started[id].leases + 1)],
         holders := s.holders + multiset{id})
    else
      Restart(Discard(s, id), id, cid, Count(s, id), answer)
  }

  function ReleaseStep(s: State, id: string): State {
    var left := s.(holders := s.holders - multiset{id});
    if id !in s.started then left
    else if s.started[id].leases > 1 then
      left.(started := s.started[id := s.started[id].(leases := s.started[id].leases - 1)])
    else
      DropProxies(left, {id})
  }

  function DeadIds(s: State, gone: set<nat>): set<string> {
    set id | id in s.started && s.started[id].cid in gone
  }

  function ChildrenOf(s: State, ids: set<string>): set<nat> {
    set id | id in ids && id in s.started :: s.started[id].child
  }

  /** Records, processes and sockets go together. */
  function DropProxies(s: State, ids: set<string>): State {
    s.(started := s.started - ids, sockets := s.sockets - ids,
       alive := s.alive - ChildrenOf(s, ids), reaped := s.reaped + ChildrenOf(s, ids))
  }

  function ReapStep(s: State, gone: set<nat>): State { DropProxies(s, DeadIds(s, gone)) }

  /** A lease is released by the connection that holds it; only a running process can exit. */
  predicate Enabled(s: State, step: Step) {
    match step
    case Release(id) => id in s.holders
    case ProcessExits(c) => c in s.alive
    case _ => true
  }

  function Apply(s: State, step: Step): State {
    match step
    case Ensure(id, cid, answer) => EnsureStep(s, id, cid, answer)
    case Release(id) => ReleaseStep(s, id)
    case Reap(gone) => ReapStep(s, gone)
    case ProcessExits(c) => s.(alive := s.alive - {c})
    case SocketChanges(id, present) => s.(sockets := if present then s.sockets + {id} else s.sockets - {id})
  }

  // ---- runs: any interleaving of steps of any number of connections ----

  function After(s: State, steps: seq<Step>): State
    decreases |steps|
  {
    if steps == [] then s else After(Apply(s, steps[0]), steps[1..])
  }

  predicate Possible(s: State, steps: seq<Step>)
    decreases |steps|
  {
    steps == [] || (Enabled(s, steps[0]) && Possible(Apply(s, steps[0]), steps[1..]))
  }

  predicate Recorded(s: State, c: nat) { exists id :: id in s.started && s.started[id].child == c }

  /** Each process is in exactly one place: reaped, abandoned, or recorded for one space. */
  ghost predicate ProcessInv(s: State) {
    && (forall id :: id in s.started ==>
          s.started[id].child < s.spawned && s.started[id].child !in s.reaped && s.started[id].child !in s.abandoned)
    && (forall a, b :: a in s.started && b in s.started && s.started[a].child == s.started[b].child ==> a == b)
    && (forall c :: c in s.alive || c in s.reaped || c in s.abandoned ==> c < s.spawned)
    && (forall c :: c in s.reaped ==> c !in s.abandoned && c !in s.alive)
    && (forall c: nat :: c < s.spawned ==> c in s.reaped || c in s.abandoned || Recorded(s, c))
  }

  predicate Leased(s: State, id: string) { id in s.started ==> 1 <= s.started[id].leases <= s.holders[id] }

  ghost predicate LeaseInv(s: State) {
    forall id :: Leased(s, id)
  }

  ghost predicate Inv(s: State) { ProcessInv(s) && LeaseInv(s) }

  lemma SameChildrenKeepProcesses(s: State, t: State)
    requires ProcessInv(s)
    requires t.started.Keys == s.started.Keys
    requires forall id :: id in s.started ==> t.started[id].child == s.started[id].child
    requires t.spawned == s.spawned && t.alive <= s.alive && t.reaped == s.reaped && t.abandoned == s.abandoned
    ensures ProcessInv(t)
  {
    forall c: nat | c < t.spawned ensures c in t.reaped || c in t.abandoned || Recorded(t, c) {
      if Recorded(s, c) {
        var id :| id in s.started && s.started[id].child == c;
        assert id in t.started && t.started[id].child == c;
      }
    }
  }

  lemma DiscardingKeepsProcesses(s: State, ids: set<string>, t: State)
    requires ProcessInv(s) && ids <= s.started.Keys
    requires t.started == s.started - ids && t.spawned == s.spawned && t.abandoned == s.abandoned
    requires t.alive == s.alive - ChildrenOf(s, ids) && t.reaped == s.reaped + ChildrenOf(s, ids)
    ensures ProcessInv(t)
  {
    forall c: nat | c < t.spawned ensures c in t.reaped || c in t.abandoned || Recorded(t, c) {
      if Recorded(s, c) {
        var id :| id in s.started && s.started[id].child == c;
        if id !in ids { assert id in t.started && t.started[id].child == c; }
      }
    }
  }

  lemma DiscardKeepsProcesses(s: State, id: string)
    requires ProcessInv(s)
    ensures ProcessInv(Discard(s, id))
  {
    if id in s.started {
      assert ChildrenOf(s, {id}) == {s.started[id].child};
      DiscardingKeepsProcesses(s, {id}, Discard(s, id));
    }
  }

  lemma SpawnKeepsProcesses(s: State, t: State)
    requires ProcessInv(s)
    requires t.spawned == s.spawned + 1 && t.alive == s.alive + {s.spawned} && t.reaped == s.reaped
    requires t.started == s.started && t.abandoned == s.abandoned + {s.spawned}
    ensures ProcessInv(t)
  {
    forall c: nat | c < t.spawned ensures c in t.reaped || c in t.abandoned || Recorded(t, c) {
      if c < s.spawned && Recorded(s, c) {
        var a :| a in s.started && s.started[a].child == c;
        assert t.started[a].child == c;
      }
    }
  }

  lemma RecordKeepsProcesses(s: State, t: State, id: string, proxy: Proxy)
    requires ProcessInv(s) && id !in s.started && proxy.child == s.spawned
    requires t.spawned == s.spawned + 1 && t.alive == s.alive + {s.spawned} && t.reaped == s.reaped
    requires t.started == s.started[id := proxy] && t.abandoned == s.abandoned
    ensures ProcessInv(t)
  {
    forall c: nat | c < t.spawned ensures c in t.reaped || c in t.abandoned || Recorded(t, c) {
      if c < s.spawned {
        if Recorded(s, c) {
          var a :| a in s.started && s.started[a].child == c;
          assert t.started[a].child == c;
        }
      } else {
        assert t.started[id].child == c;
      }
    }
  }

  lemma RestartKeepsProcesses(s: State, id: string, cid: nat, carried: nat, answer: Answer)
    requires ProcessInv(s) && id !in s.started
    ensures ProcessInv(Restart(s, id, cid, carried, answer))
  {
    var t := Restart(s, id, cid, carried, answer);
    match answer
    case NoDirectory =>
    case NoProcess => SameChildrenKeepProcesses(s, t);
    case NoSocket => SpawnKeepsProcesses(s, t);
    case Up => RecordKeepsProcesses(s, t, id, t.started[id]);
  }

  lemma StepKeepsProcesses(s: State, step: Step)
    requires ProcessInv(s)
    ensures ProcessInv(Apply(s, step))
  {
    var t := Apply(s, step);
    match step
    case Ensure(id, cid, answer) =>
      if Usable(s, id) {
        SameChildrenKeepProcesses(s, t);
      } else {
        DiscardKeepsProcesses(s, id);
        RestartKeepsProcesses(Discard(s, id), id, cid, Count(s, id), answer);
      }
    case Release(id) =>
      if id in s.started && s.started[id].leases <= 1 {
        assert ChildrenOf(s.(holders := t.holders), {id}) == ChildrenOf(s, {id});
        DiscardingKeepsProcesses(s, {id}, t);
      } else {
        SameChildrenKeepProcesses(s, t);
      }
    case Reap(gone) => DiscardingKeepsProcesses(s, DeadIds(s, gone), t);
    case ProcessExits(_) => SameChildrenKeepProcesses(s, t);
    case SocketChanges(_, _) => SameChildrenKeepProcesses(s, t);
  }

  lemma EnsureKeepsLeases(s: State, space: string, cid: nat, answer: Answer, id: string)
    requires LeaseInv(s)
    ensures Leased(EnsureStep(s, space, cid, answer), id)
  {
    assert Leased(s, id) && Leased(s, space);
  }

  lemma ReleaseKeepsLeases(s: State, space: string, id: string)
    requires LeaseInv(s) && space in s.holders
    ensures Leased(ReleaseStep(s, space), id)
  {
    hide ChildrenOf;
    assert Leased(s, id) && Leased(s, space);
  }

  lemma DropKeepsLeases(s: State, ids: set<string>, id: string)
    requires LeaseInv(s)
    ensures Leased(DropProxies(s, ids), id)
  {
    hide ChildrenOf;
    assert Leased(s, id);
  }

  lemma StepKeepsLeases(s: State, step: Step, id: string)
    requires LeaseInv(s) && Enabled(s, step)
    ensures Leased(Apply(s, step), id)
  {
    hide EnsureStep, ReleaseStep, DropProxies;
    match step
    case Ensure(space, cid, answer) => EnsureKeepsLeases(s, space, cid, answer, id);
    case Release(space) => ReleaseKeepsLeases(s, space, id);
    case Reap(gone) => DropKeepsLeases(s, DeadIds(s, gone), id);
    case ProcessExits(_) => assert Leased(s, id);
    case SocketChanges(_, _) => assert Leased(s, id);
  }

  lemma StepKeepsInv(s: State, step: Step)
    requires Inv(s) && Enabled(s, step)
    ensures Inv(Apply(s, step))
  {
    StepKeepsProcesses(s, step);
    hide ProcessInv, Apply;
    forall id ensures Leased(Apply(s, step), id) {
      StepKeepsLeases(s, step, id);
    }
  }

  lemma InitInv(id: string)
    ensures Inv(INIT) && Count(INIT, id) == INIT.holders[id]
  {
  }

  lemma {:induction false} RunKeepsInv(s: State, steps: seq<Step>)
    requires Inv(s) && Possible(s, steps)
    ensures Inv(After(s, steps))
    decreases |steps|
  {
    hide Inv;
    if steps != [] {
      StepKeepsInv(s, steps[0]);
      RunKeepsInv(Apply(s, steps[0]), steps[1..]);
    }
  }

  /** On every interleaving a recorded proxy has between one lease and one per connection: the
      saturating subtraction never saturates, and a space without connections has no proxy. */
  lemma LeasesNeverExceedConnections(steps: seq<Step>)
    requires Possible(INIT, steps)
    ensures var s := After(INIT, steps);
      && (forall id :: id in s.started ==> 1 <= s.started[id].leases <= s.holders[id])
      && (forall id :: id !in s.holders ==> id !in s.started)
  {
    InitInv("");
    RunKeepsInv(INIT, steps);
    hide After, ProcessInv;
    var s := After(INIT, steps);
    forall id ensures Leased(s, id) && (id !in s.holders ==> id !in s.started) {
      assert LeaseInv(s);
    }
  }

  // ---- the exact count ----

  /** The two events that forget leases still held: a watchdog reap, and a failed restart. */
  predicate Forgets(s: State, step: Step, id: string) {
    && id in s.started
    && match step
       case Reap(gone) => s.started[id].cid in gone
       case Ensure(space, _, answer) => space == id && !Succeeds(s, id, answer)
       case _ => false
  }

  lemma ExactEnsure(s: State, space: string, cid: nat, answer: Answer, id: string)
    requires LeaseInv(s) && Count(s, id) == s.holders[id]
    ensures var t := EnsureStep(s, space, cid, answer);
      Count(t, id) == t.holders[id] <==> !Forgets(s, Ensure(space, cid, answer), id)
  {
    if id == space && id in s.started { assert Leased(s, id); }
  }

  lemma ExactRelease(s: State, space: string, id: string)
    requires LeaseInv(s) && space in s.holders && Count(s, id) == s.holders[id]
    ensures var t := ReleaseStep(s, space); Count(t, id) == t.holders[id]
  {
    hide ChildrenOf;
    if id == space && id in s.started { assert Leased(s, id); }
  }

  lemma ExactReap(s: State, gone: set<nat>, id: string)
    requires LeaseInv(s) && Count(s, id) == s.holders[id]
    ensures var t := ReapStep(s, gone);
      Count(t, id) == t.holders[id] <==> !Forgets(s, Reap(gone), id)
  {
    hide ChildrenOf;
    assert id in DeadIds(s, gone) <==> id in s.started && s.started[id].cid in gone;
    if id in s.started { assert Leased(s, id); }
  }

  /** One step keeps the count exact precisely when it is not one of those two events. */
  lemma ExactStep(s: State, step: Step, id: string)
    requires LeaseInv(s) && Enabled(s, step) && Count(s, id) == s.holders[id]
    ensures Count(Apply(s, step), id) == Apply(s, step).holders[id] <==> !Forgets(s, step, id)
  {
    hide LeaseInv, EnsureStep, ReleaseStep, ReapStep;
    match step
    case Ensure(space, cid, answer) => ExactEnsure(s, space, cid, answer, id);
    case Release(space) => ExactRelease(s, space, id);
    case Reap(gone) => ExactReap(s, gone, id);
    case ProcessExits(_) =>
    case SocketChanges(_, _) =>
  }

  predicate NeverForgets(s: State, steps: seq<Step>, id: string)
    decreases |steps|
  {
    steps == [] || (!Forgets(s, steps[0], id) && NeverForgets(Apply(s, steps[0]), steps[1..], id))
  }

  /** From any moment the count is exact (no connections at all, say), it stays exact until one of the
      two events hits that very space, across any number of restarts. */
  lemma {:induction false} CountStaysExact(s: State, steps: seq<Step>, id: string)
    requires Inv(s) && Possible(s, steps)
    requires Count(s, id) == s.holders[id] && NeverForgets(s, steps, id)
    ensures Count(After(s, steps), id) == After(s, steps).holders[id]
    decreases |steps|
  {
    if steps != [] {
      ExactStep(s, steps[0], id);
      StepKeepsInv(s, steps[0]);
      hide Inv, Count, Apply;
      CountStaysExact(Apply(s, steps[0]), steps[1..], id);
    }
  }

  /** A plain reference count: a proxy exists while a connection does. */
  predicate PlainCount(s: State, id: string) {
    Count(s, id) == s.holders[id] && (id in s.started <==> id in s.holders)
  }

  /** The process is killed by the release of the last connection and by no earlier one. */
  predicate LastReleaseKills(s: State, id: string) {
    id in s.started && id in s.holders ==>
      var t := ReleaseStep(s, id);
      if s.holders[id] > 1 then id in t.started && t.reaped == s.reaped
      else id !in t.started && t.reaped == s.reaped + {s.started[id].child}
  }

  /** On runs that spare this space the two events the broker is that plain reference count. */
  lemma RefinesReferenceCount(steps: seq<Step>, id: string)
    requires Possible(INIT, steps) && NeverForgets(INIT, steps, id)
    ensures PlainCount(After(INIT, steps), id) && LastReleaseKills(After(INIT, steps), id)
  {
    InitInv(id);
    hide After, Possible, NeverForgets, Count, ReleaseStep, ProcessInv, LeaseInv, INIT, PlainCount, LastReleaseKills;
    CountStaysExact(INIT, steps, id);
    RunKeepsInv(INIT, steps);
    ExactIsPlain(After(INIT, steps), id);
  }

  lemma ExactIsPlain(s: State, id: string)
    requires LeaseInv(s) && Count(s, id) == s.holders[id]
    ensures PlainCount(s, id) && LastReleaseKills(s, id)
  {
    assert Leased(s, id);
    if id in s.started {
      assert ChildrenOf(s.(holders := s.holders - multiset{id}), {id}) == {s.started[id].child};
    }
  }

  /** Without that hypothesis the claim is false: after a reap, a lease of the old proxy releases the
      new one and kills it under the connection that started it. */
  lemma OrphanedLeaseKillsNewProxy()
    ensures exists steps, id ::
      && Possible(INIT, steps)
      && var s := After(INIT, steps);
         s.holders[id] == 2 && id in s.started && Usable(s, id) && id !in ReleaseStep(s, id).started
  {
    var e := Ensure("a", 3, Up);
    var s1, s2 := Apply(INIT, e), Apply(Apply(INIT, e), Reap({3}));
    assert s2.started == map[] by { assert DeadIds(s1, {3}) == {"a"}; }
    var steps := [e, Reap({3}), e];
    assert steps[1..] == [Reap({3}), e] && steps[1..][1..] == [e] && steps[1..][1..][1..] == [];
    var s3 := Apply(s2, e);
    assert After(s2, [e]) == s3 && Possible(s2, [e]);
    assert After(INIT, steps) == s3 && Possible(INIT, steps);
    assert s3.holders["a"] == 2 && Usable(s3, "a") && s3.started["a"].leases == 1;
  }

  // ---- conservation of processes ----

  /** Every process ever spawned has been killed and waited for, is recorded for exactly one space, or
      timed out waiting for its socket, and never two of these. */
  lemma ProcessesAreConserved(steps: seq<Step>)
    requires Possible(INIT, steps)
    ensures var s := After(INIT, steps);
      && s.spawned == |s.reaped| + |s.started| + |s.abandoned|
      && s.reaped !! s.abandoned !! ChildrenOf(s, s.started.Keys)
  {
    var s := After(INIT, steps);
    RunKeepsInv(INIT, steps);
    CountProcesses(s);
  }

  lemma CountProcesses(s: State)
    requires ProcessInv(s)
    ensures s.spawned == |s.reaped| + |s.started| + |s.abandoned|
    ensures s.reaped !! s.abandoned !! ChildrenOf(s, s.started.Keys)
  {
    var recorded := ChildrenOf(s, s.started.Keys);
    assert Below(s.spawned) == s.reaped + s.abandoned + recorded by {
      forall c: nat | c < s.spawned ensures c in s.reaped + s.abandoned + recorded {
        if c !in s.reaped && c !in s.abandoned { assert Recorded(s, c); }
      }
    }
    RecordedSize(s, s.started.Keys);
    assert |s.reaped + s.abandoned + recorded| == |s.reaped + s.abandoned| + |recorded|;
  }

  lemma {:induction false} RecordedSize(s: State, ids: set<string>)
    requires ProcessInv(s) && ids <= s.started.Keys
    ensures |ChildrenOf(s, ids)| == |ids|
  {
    if ids != {} {
      var a :| a in ids;
      RecordedSize(s, ids - {a});
      assert ChildrenOf(s, ids) == ChildrenOf(s, ids - {a}) + {s.started[a].child};
    }
  }

  lemma SameRecord(s: State, t: State, c: nat)
    requires t.started.Keys == s.started.Keys
    requires forall id :: id in s.started ==> t.started[id].child == s.started[id].child
    ensures Recorded(s, c) <==> Recorded(t, c)
  {
    if Recorded(s, c) {
      var id :| id in s.started && s.started[id].child == c;
      assert t.started[id].child == c;
    }
    if Recorded(t, c) {
      var id :| id in t.started && t.started[id].child == c;
      assert s.started[id].child == c;
    }
  }

  lemma DropReaps(s: State, ids: set<string>, c: nat)
    requires ProcessInv(s)
    ensures var t := DropProxies(s, ids); c in t.reaped <==> c in s.reaped || (Recorded(s, c) && !Recorded(t, c))
  {
    var t := DropProxies(s, ids);
    if c in ChildrenOf(s, ids) {
      var id :| id in ids && id in s.started && s.started[id].child == c;
      assert Recorded(s, c);
    } else if Recorded(s, c) {
      var id :| id in s.started && s.started[id].child == c;
      assert id in t.started && t.started[id].child == c;
    }
  }

  lemma EnsureReaps(s: State, id: string, cid: nat, answer: Answer, c: nat)
    requires ProcessInv(s)
    ensures var t := EnsureStep(s, id, cid, answer);
      c in t.reaped <==> c in s.reaped || (Recorded(s, c) && !Recorded(t, c))
  {
    var t := EnsureStep(s, id, cid, answer);
    if Usable(s, id) {
      SameRecord(s, t, c);
    } else {
      if id in s.started { assert Recorded(s, s.started[id].child); }
      forall a | a in s.started && a != id ensures a in t.started && t.started[a] == s.started[a] {}
      if Recorded(s, c) {
        var a :| a in s.started && s.started[a].child == c;
        if a != id { assert t.started[a].child == c; }
      }
    }
  }

  lemma ReleaseReaps(s: State, space: string, c: nat)
    requires ProcessInv(s)
    ensures var t := ReleaseStep(s, space);
      c in t.reaped <==> c in s.reaped || (Recorded(s, c) && !Recorded(t, c))
  {
    var left, t := s.(holders := s.holders - multiset{space}), ReleaseStep(s, space);
    SameRecord(s, left, c);
    if space in s.started && s.started[space].leases <= 1 {
      DropReaps(left, {space}, c);
    } else {
      SameRecord(s, t, c);
    }
  }

  lemma ReapedIff(s: State, step: Step, c: nat)
    requires ProcessInv(s)
    ensures var t := Apply(s, step); c in t.reaped <==> c in s.reaped || (Recorded(s, c) && !Recorded(t, c))
  {
    hide ProcessInv, Recorded, EnsureStep, ReleaseStep, DropProxies;
    match step
    case Ensure(id, cid, answer) => EnsureReaps(s, id, cid, answer, c);
    case Release(id) => ReleaseReaps(s, id, c);
    case Reap(gone) => DropReaps(s, DeadIds(s, gone), c);
    case ProcessExits(_) => SameRecord(s, Apply(s, step), c);
    case SocketChanges(_, _) => SameRecord(s, Apply(s, step), c);
  }

  /** A process that leaves the record has been killed and waited for, and nothing else ever is. */
  lemma LeavingIsReaped(s: State, step: Step, c: nat)
    requires ProcessInv(s)
    ensures var t := Apply(s, step);
      && (c in t.reaped <==> c in s.reaped || (Recorded(s, c) && !Recorded(t, c)))
      && (c in t.reaped ==> c !in t.alive)
  {
    ReapedIff(s, step, c);
    StepKeepsProcesses(s, step);
    hide Apply, Recorded;
  }

  /** A process is dropped unkilled only when it was just spawned for a space without a usable proxy and no
      socket appeared; and no step spawns more than one. */
  lemma DroppedIffNoSocket(s: State, step: Step)
    ensures var t := Apply(s, step);
      var spawns := step.Ensure? && !Usable(s, step.id) && step.answer in {NoSocket, Up};
      && t.spawned == s.spawned + (if spawns then 1 else 0)
      && t.abandoned == s.abandoned + (if spawns && step.answer == NoSocket then {s.spawned} else {})
  {
    hide DeadIds, ChildrenOf;
  }

  /** The record of `id` has gone or passed to another process. */
  predicate Ends(s: State, t: State, id: string)
    requires id in s.started
  {
    !(id in t.started && t.started[id].child == s.started[id].child)
  }

  predicate Starts(s: State, t: State, id: string) {
    id in t.started && (id in s.started ==> t.started[id].child != s.started[id].child)
  }

  lemma EnsureRecords(s: State, space: string, cid: nat, answer: Answer, id: string)
    requires ProcessInv(s)
    ensures var t := EnsureStep(s, space, cid, answer);
      && (id in s.started ==> (Ends(s, t, id) <==> space == id && !Usable(s, id)))
      && (Starts(s, t, id) <==> space == id && !Usable(s, id) && answer == Up)
      && (Starts(s, t, id) ==> t.started[id].child == s.spawned && t.started[id].cid == cid && Usable(t, id))
  {
    if id in s.started { assert s.started[id].child < s.spawned; }
    hide ProcessInv;
  }

  lemma DropRecords(s: State, ids: set<string>, id: string)
    ensures var t := DropProxies(s, ids); !Starts(s, t, id) && (id in s.started ==> (Ends(s, t, id) <==> id in ids))
  {
    hide ChildrenOf;
  }

  lemma ReleaseRecords(s: State, space: string, id: string)
    ensures var t := ReleaseStep(s, space);
      && !Starts(s, t, id)
      && (id in s.started ==> (Ends(s, t, id) <==> space == id && s.started[id].leases <= 1))
  {
    hide ChildrenOf;
    DropRecords(s.(holders := s.holders - multiset{space}), {space}, id);
  }

  /** When a space's process stops being recorded for it: its last lease is released, its cid is found gone, or
      a connection finds it unusable. */
  lemma RecordEndsIff(s: State, step: Step, id: string)
    requires ProcessInv(s) && id in s.started
    ensures Ends(s, Apply(s, step), id) <==>
      || (step == Release(id) && s.started[id].leases <= 1)
      || (step.Reap? && s.started[id].cid in step.gone)
      || (step.Ensure? && step.id == id && !Usable(s, id))
  {
    hide EnsureStep, ReleaseStep, DropProxies, Usable, ProcessInv;
    match step
    case Ensure(space, cid, answer) => EnsureRecords(s, space, cid, answer, id);
    case Release(space) => ReleaseRecords(s, space, id);
    case Reap(gone) => DropRecords(s, DeadIds(s, gone), id);
    case ProcessExits(_) =>
    case SocketChanges(_, _) =>
  }

  /** And when one starts: a connection without a usable proxy got it, just spawned, under its cid. */
  lemma RecordStartsIff(s: State, step: Step, id: string)
    requires ProcessInv(s)
    ensures Starts(s, Apply(s, step), id) <==> step.Ensure? && step.id == id && !Usable(s, id) && step.answer == Up
    ensures Starts(s, Apply(s, step), id) ==>
      var t := Apply(s, step); t.started[id].child == s.spawned && t.started[id].cid == step.cid && Usable(t, id)
  {
    hide EnsureStep, ReleaseStep, DropProxies, Usable, ProcessInv;
    match step
    case Ensure(space, cid, answer) => EnsureRecords(s, space, cid, answer, id);
    case Release(space) => ReleaseRecords(s, space, id);
    case Reap(gone) => DropRecords(s, DeadIds(s, gone), id);
    case ProcessExits(_) =>
    case SocketChanges(_, _) =>
  }

  /** What stays of a record that stays: the process and the cid. */
  lemma RecordStays(s: State, step: Step, id: string)
    requires id in s.started && id in Apply(s, step).started
    requires Apply(s, step).started[id].child == s.started[id].child && s.started[id].child < s.spawned
    ensures Apply(s, step).started[id].cid == s.started[id].cid
  {
    hide ChildrenOf;
  }

  /** A process dies only by exiting, or killed as it leaves the record. */
  lemma DiesIff(s: State, step: Step, c: nat)
    requires ProcessInv(s) && c in s.alive
    ensures c !in Apply(s, step).alive <==>
      step == ProcessExits(c) || (Recorded(s, c) && !Recorded(Apply(s, step), c))
  {
    LeavingIsReaped(s, step, c);
    if step != ProcessExits(c) { KilledIsReaped(s, step, c); }
  }

  lemma KilledIsReaped(s: State, step: Step, c: nat)
    requires ProcessInv(s) && c in s.alive && step != ProcessExits(c)
    ensures c !in Apply(s, step).alive ==> c in Apply(s, step).reaped
  {
  }

  /** Where a socket is after a step: a start removes a stale one and succeeds only with a new one, and a
      released or reaped proxy takes its own along. */
  lemma SocketIff(s: State, step: Step, id: string)
    ensures var t := Apply(s, step);
      id in t.sockets <==>
        if step.SocketChanges? && step.space == id then step.present
        else if step.Ensure? && step.id == id && !Usable(s, id) then
          step.answer == Up || (step.answer == NoDirectory && id in s.sockets)
        else id in s.sockets && !((step.Release? || step.Reap?) && id in s.started && id !in t.started)
  {
    hide ChildrenOf;
  }

  // ---- and over runs ----

  /** The processes that were spawned for a connection and never showed a socket, read off the steps. */
  function Unanswered(s: State, steps: seq<Step>): set<nat>
    decreases |steps|
  {
    if steps == [] then {}
    else
      (if steps[0].Ensure? && !Usable(s, steps[0].id) && steps[0].answer == NoSocket then {s.spawned} else {})
      + Unanswered(Apply(s, steps[0]), steps[1..])
  }

  lemma {:induction false} AbandonedAre(s: State, steps: seq<Step>)
    ensures After(s, steps).abandoned == s.abandoned + Unanswered(s, steps)
    decreases |steps|
  {
    if steps != [] {
      DroppedIffNoSocket(s, steps[0]);
      hide Apply, Usable;
      AbandonedAre(Apply(s, steps[0]), steps[1..]);
    }
  }

  lemma {:induction false} ReapedStays(s: State, steps: seq<Step>, c: nat)
    requires ProcessInv(s) && c in s.reaped
    ensures c in After(s, steps).reaped && c !in After(s, steps).alive
    decreases |steps|
  {
    if steps != [] {
      LeavingIsReaped(s, steps[0], c);
      StepKeepsProcesses(s, steps[0]);
      hide Apply, ProcessInv, Recorded;
      ReapedStays(Apply(s, steps[0]), steps[1..], c);
    }
  }

  /** Over any run: a process once recorded for a space is recorded still, or was killed and waited for; one
      was dropped unkilled exactly if it was spawned and no socket appeared. */
  lemma RecordedEndsReaped(s: State, steps: seq<Step>, c: nat)
    requires ProcessInv(s) && Recorded(s, c)
    ensures Recorded(After(s, steps), c) || (c in After(s, steps).reaped && c !in After(s, steps).alive)
    ensures After(s, steps).abandoned == s.abandoned + Unanswered(s, steps)
    decreases |steps|
  {
    AbandonedAre(s, steps);
    RecordedOrReaped(s, steps, c);
  }

  lemma {:induction false} RecordedOrReaped(s: State, steps: seq<Step>, c: nat)
    requires ProcessInv(s) && Recorded(s, c)
    ensures Recorded(After(s, steps), c) || (c in After(s, steps).reaped && c !in After(s, steps).alive)
    decreases |steps|
  {
    if steps != [] {
      LeavingIsReaped(s, steps[0], c);
      StepKeepsProcesses(s, steps[0]);
      hide Apply, ProcessInv, Recorded;
      var t := Apply(s, steps[0]);
      if Recorded(t, c) { RecordedOrReaped(t, steps[1..], c); } else { ReapedStays(t, steps[1..], c); }
    }
  }

  lemma DropNone(s: State)
    ensures DropProxies(s, {}) == s
  {
    assert s.started - {} == s.started;
  }

  lemma DropOneMore(s: State, done: set<string>, id: string)
    requires id in s.started && id !in done
    ensures id in DropProxies(s, done).started
    ensures DropProxies(DropProxies(s, done), {id}) == DropProxies(s, done + {id})
  {
    var t := DropProxies(s, done);
    assert t.started - {id} == s.started - (done + {id});
    assert ChildrenOf(t, {id}) == {s.started[id].child};
    assert ChildrenOf(s, done + {id}) == ChildrenOf(s, done) + {s.started[id].child};
  }

  // ---- the broker itself ----

  class Broker {
    var started: map<string, Proxy>
    // the processes and sockets the broker acts on
    var spawned: nat
    var alive: set<nat>
    var reaped: set<nat>
    var abandoned: set<nat>
    var sockets: set<string>
    ghost var holders: multiset<string>

    ghost function Abstract(): State
      reads this
    {
      State(started, spawned, alive, reaped, abandoned, sockets, holders)
    }

    constructor ()
      ensures Abstract() == INIT && Inv(Abstract())
    {
      started, spawned, alive, reaped, abandoned, sockets, holders := map[], 0, {}, {}, {}, {}, multiset{};
    }

    /** Kills what still runs, and waits in any case so that no zombie stays. */
    method KillAndWait(child: nat)
      modifies this`alive, this`reaped
      ensures alive == old(alive) - {child} && reaped == old(reaped) + {child}
    {
      alive := alive - {child};
      reaped := reaped + {child};
    }

    method EnsureProxy(id: string, cid: nat, answer: Answer) returns (ok: bool)
      requires Inv(Abstract())
      modifies this
      ensures Abstract() == Apply(old(Abstract()), Ensure(id, cid, answer))
      ensures Inv(Abstract())
      // a connection that got Ok has a live proxy behind a socket, one that got Err has left none
      ensures ok == Succeeds(old(Abstract()), id, answer)
      ensures if ok then Usable(Abstract(), id) else id !in started
    {
      StepKeepsInv(Abstract(), Ensure(id, cid, answer));
      hide Inv;
      ghost var was := Abstract();
      var carried := 0;
      if id in started {
        var proxy := started[id];
        var running := proxy.child in alive;
        if running && id in sockets {
          started := started[id := proxy.(leases := proxy.leases + 1)];
          holders := holders + multiset{id};
          return true;
        }
        started := started - {id};
        carried := proxy.leases;
        KillAndWait(proxy.child);
      }
      assert Abstract() == Discard(was, id);
      ok := StartProxy(id, cid, carried, answer);
    }

    method StartProxy(id: string, cid: nat, carried: nat, answer: Answer) returns (ok: bool)
      requires id !in started
      modifies this
      ensures Abstract() == Restart(old(Abstract()), id, cid, carried, answer)
      ensures ok == (answer == Up)
      ensures if ok then Usable(Abstract(), id) else id !in started
    {
      if answer == NoDirectory { return false; }
      sockets := sockets - {id};
      if answer == NoProcess { return false; }
      var child := spawned;
      spawned, alive := spawned + 1, alive + {child};
      if answer == NoSocket {
        abandoned := abandoned + {child};
        return false;
      }
      sockets := sockets + {id};
      started := started[id := Proxy(child, carried + 1, cid)];
      holders := holders + multiset{id};
      return true;
    }

    method ReleaseProxy(id: string)
      requires Inv(Abstract()) && id in holders
      modifies this
      ensures Abstract() == Apply(old(Abstract()), Release(id))
      ensures Inv(Abstract())
    {
      StepKeepsInv(Abstract(), Release(id));
      assert Leased(Abstract(), id);
      hide Inv;
      holders := holders - multiset{id};
      if id !in started { return; }
      var proxy := started[id];
      var left := if proxy.leases == 0 then 0 else proxy.leases - 1;
      if left > 0 {
        started := started[id := proxy.(leases := left)];
        return;
      }
      DropProxy(id);
    }

    method DropProxy(id: string)
      requires id in started
      modifies this
      ensures Abstract() == DropProxies(old(Abstract()), {id})
    {
      assert ChildrenOf(Abstract(), {id}) == {started[id].child};
      var proxy := started[id];
      started := started - {id};
      KillAndWait(proxy.child);
      sockets := sockets - {id};
    }

    /** `gone` are the CIDs whose probe reports that the device is absent. */
    method ReapDeadProxies(gone: set<nat>)
      requires Inv(Abstract())
      modifies this
      ensures Abstract() == Apply(old(Abstract()), Reap(gone))
      ensures Inv(Abstract())
    {
      StepKeepsInv(Abstract(), Reap(gone));
      hide Inv, DropProxies;
      ghost var was := Abstract();
      var dead := set id | id in started && started[id].cid in gone;
      var rest := dead;
      ghost var done: set<string> := {};
      DropNone(was);
      while rest != {}
        invariant rest + done == dead == DeadIds(was, gone) && rest !! done
        invariant Abstract() == DropProxies(was, done)
      {
        var id :| id in rest;
        DropOneMore(was, done, id);
        DropProxy(id);
        rest, done := rest - {id}, done + {id};
      }
    }
  }
}
