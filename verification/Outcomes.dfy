// What each operation of the daemon answers and does, in terms of the space, what the host answered, and
// nothing else.
module Outcomes {
  import opened Text
  import Registry
  import Store
  import opened Lifecycle
  import opened LifecycleProofs
  import opened ImageProofs

  // ---- stopping ----

  /** Which of its answers a stop gives. */
  lemma StopOutcome(s: State, q: Step)
    requires q.Stop?
    ensures var r := Apply(s, q).1; var stored := q.id in s.disk.configs;
      && (r == Ok <==> stored && q.seen && s.disk.configs[q.id].cid in s.net.links && q.deleted && q.written)
      && (r == Err(SpaceNotFound) <==> !stored)
      && (r == Err(SpaceStopped) <==> stored && !q.seen)
      && (r == Ok || r in {Err(SpaceNotFound), Err(SpaceStopped), Err(Internal)})
      && (r == Err(SpaceNotFound) || r == Err(SpaceStopped) ==> Apply(s, q).0 == s)
  {
  }

  /** What a stop that is not refused does, whatever fails: the process it knows of is dead if it held the
      handle or `kill` worked, nobody else's is, and the link is gone if it could be deleted. */
  lemma StopEffects(s: State, q: Step)
    requires Inv(s) && q.Stop? && q.id in s.disk.configs && q.seen
    ensures var t, cid := Apply(s, q).0, s.disk.configs[q.id].cid;
      && t.disk == s.disk && t.published == s.published
      && t.procs.spawned == s.procs.spawned
      && t.procs.pids == s.procs.pids - {q.id} && t.procs.handles == s.procs.handles - {q.id}
      && (forall pid :: pid in t.procs.alive <==>
            && pid in s.procs.alive
            && !(q.id in s.procs.handles && s.procs.handles[q.id] == pid)
            && !(q.id in s.procs.pids && s.procs.pids[q.id] == pid && q.killed))
      && (forall c :: c in t.net.links <==> c in s.net.links && !(c == cid && q.deleted))
      && (forall c :: c in t.net.links ==> t.net.links[c] == s.net.links[c])
  {
    hide CidInv, LinkInv;
    assert q.id !in s.procs.handles ==> s.procs.handles - {q.id} == s.procs.handles;
  }

  /** At any moment of any run, stopping a space whose recorded QEMU runs and is held, and whose link is there,
      answers Ok and ends that process and that link, if the host does what it is asked. */
  lemma StopWorks(steps: seq<Step>, q: Step)
    requires Possible(INIT, steps) && q.Stop? && Enabled(After(INIT, steps), q)
    requires Live(After(INIT, steps), q.id) && q.id in After(INIT, steps).procs.handles && q.deleted && q.written
    ensures var s := After(INIT, steps); q.id in s.disk.configs
    ensures var s, t := After(INIT, steps), Apply(After(INIT, steps), q).0; var cid := s.disk.configs[q.id].cid;
      cid in s.net.links ==>
        && Apply(s, q).1 == Ok && s.procs.pids[q.id] !in t.procs.alive && q.id !in t.procs.pids
        && cid !in t.net.links
  {
    InitInv();
    RunKeepsInv(INIT, steps);
    hide After, Possible, INIT, CidInv, LinkInv;
  }

  // ---- starting ----

  /** The space is stored and the passphrase is given exactly if it is encrypted. */
  predicate Fits(s: State, id: string, passphrase: Passphrase) {
    id in s.disk.configs && (s.disk.configs[id].encrypted <==> passphrase != Absent)
  }

  /** Which refusal an operation on an existing space gives before it does anything, and only then. */
  lemma Refusals(s: State, q: Step)
    requires q.Start? || q.ResetSystem? || q.ResetAll? || q.UpdateImage?
    ensures var r := Apply(s, q).1;
      && (q.id !in s.disk.configs ==> r == Err(SpaceNotFound))
      && (q.id in s.disk.configs && !Fits(s, q.id, q.passphrase) ==> r == Err(BadRequest))
      && (Fits(s, q.id, q.passphrase) && q.seen ==> r == Err(SpaceRunning))
      && (!Fits(s, q.id, q.passphrase) || q.seen ==> Apply(s, q).0 == s)
  {
    hide WriteVolumes, VolumesOk, DeleteTap, MakeTap, Launch;
  }

  /** When a start answers Ok, and what it says otherwise. */
  lemma StartOutcome(s: State, q: Step)
    requires q.Start? && Fits(s, q.id, q.passphrase) && !q.seen
    ensures var r := Apply(s, q).1; var cid := s.disk.configs[q.id].cid;
      var linked := (cid in s.net.links ==> q.reaped) && q.tap == TapUp && (q.passphrase != Absent ==> q.secret);
      && (q.refusal.Some? ==> Apply(s, q) == (s, Err(q.refusal.value)))
      && (r == Ok <==> q.refusal.None? && linked && q.spawn == Lives)
      && (q.refusal.None? && !linked ==> r == Err(Internal))
      && (q.refusal.None? && linked && q.spawn == NotSpawned ==> r == Err(Internal))
      && (q.refusal.None? && linked && (q.spawn.DiesAtOnce? || q.spawn.DiesWaiting?) ==>
            r == Err(if q.spawn.wrongPassphrase then WrongPassphrase else Internal))
  {
    hide DeleteTap, MakeTap;
  }

  /** A start that answers Ok has spawned one process and recorded it, on a link of its own, and changed nothing
      of any other space. */
  lemma StartEffects(s: State, q: Step)
    requires q.Start? && Apply(s, q).1 == Ok
    ensures var t, pid := Apply(s, q).0, s.procs.spawned;
      && t.disk == s.disk && t.published == s.published
      && t.procs.spawned == pid + 1 && t.procs.alive == s.procs.alive + {pid}
      && t.procs.pids == s.procs.pids[q.id := pid] && t.procs.handles == s.procs.handles[q.id := pid]
      && q.id in s.disk.configs && s.disk.configs[q.id].cid in t.net.links
      && t.net.links[s.disk.configs[q.id].cid] == Link(true, s.net.serial)
      && forall c :: c != s.disk.configs[q.id].cid ==>
           (c in t.net.links <==> c in s.net.links) && (c in t.net.links ==> t.net.links[c] == s.net.links[c])
  {
  }

  /** One that fails leaves no process more alive and no file changed, and no link of its own if it could take it
      down again. */
  lemma FailedStart(s: State, q: Step)
    requires q.Start? && Apply(s, q).1 != Ok
    ensures var t := Apply(s, q).0;
      && t.disk == s.disk && t.published == s.published && t.procs.alive == s.procs.alive
      && (q.id in t.procs.pids ==> q.id in s.procs.pids && t.procs.pids[q.id] == s.procs.pids[q.id])
      && (q.undone && q.tap != TapHalfMade && t.net != s.net ==>
            q.id in s.disk.configs && s.disk.configs[q.id].cid !in t.net.links)
  {
  }

  /** What a start leaves of the process's records: nothing of a QEMU that died, and in every other failure what
      was there before. */
  lemma FailedStartRecords(s: State, q: Step)
    requires q.Start? && Apply(s, q).1 != Ok
    ensures var p, t := s.procs, Apply(s, q).0.procs;
      var spawned := Fits(s, q.id, q.passphrase) && !q.seen && q.refusal.None?
        && (s.disk.configs[q.id].cid in s.net.links ==> q.reaped) && q.tap == TapUp
        && (q.passphrase != Absent ==> q.secret) && q.spawn != NotSpawned;
      if !spawned then t == p
      else
        && t.spawned == p.spawned + 1 && t.pids == p.pids - {q.id} && t.alive == p.alive
        && t.handles == if q.spawn.DiesWaiting? then p.handles - {q.id} else p.handles
  {
    hide DeleteTap, MakeTap;
  }

  /** What happens outside: a process exits, a link comes or goes, the daemon restarts and holds no process any
      more; each changes that and nothing else. */
  lemma Outside(s: State, step: Step)
    requires !Operation(step)
    ensures var t := Apply(s, step).0;
      && t.disk == s.disk && t.published == s.published
      && t.procs.spawned == s.procs.spawned && t.procs.pids == s.procs.pids
      && (forall pid :: pid in t.procs.alive <==> pid in s.procs.alive && step != Exits(pid))
      && (forall id :: id in t.procs.handles <==> id in s.procs.handles && step != DaemonRestarts)
      && (forall c :: c in t.net.links <==> step == LinkAppears(c) || (c in s.net.links && step != LinkVanishes(c)))
      && (forall c :: c in t.net.links && t.net.links[c].mine ==> c in s.net.links && t.net.links[c] == s.net.links[c])
  {
  }

  // ---- images ----

  lemma ResetSystemOutcome(s: State, q: Step)
    requires q.ResetSystem? && Fits(s, q.id, q.passphrase) && !q.seen
    ensures var r := Apply(s, q).1;
      && (r == Ok <==> (q.passphrase != Absent ==> q.secret) && q.overlay == Rebuilt(true))
      && (r != Ok ==> r == Err(Internal))
  {
  }

  lemma ResetAllOutcome(s: State, q: Step)
    requires q.ResetAll? && Fits(s, q.id, q.passphrase) && !q.seen
    ensures var r, v := Apply(s, q).1, q.volumes;
      && (q.refusal.Some? ==> Apply(s, q) == (s, Err(q.refusal.value)))
      && (r == Ok <==> q.refusal.None? && (q.passphrase != Absent ==> v.secret) && v.overlay == Rebuilt(true)
                       && (v.hasData ==> v.data == Rebuilt(true)))
      && (q.refusal.None? && r != Ok ==> r == Err(Internal))
  {
    hide WriteVolumes;
  }

  /** An update says Ok when the recorded image is `latest` already, doing nothing, or when it has both rebuilt
      the overlay and recorded the digest. */
  lemma UpdateOutcome(s: State, q: Step)
    requires q.UpdateImage? && Fits(s, q.id, q.passphrase) && !q.seen
    ensures var r := Apply(s, q).1; var current := q.latest == Some(s.disk.configs[q.id].digest);
      && (r == Ok <==> current || (q.latest.Some? && q.complete && (q.passphrase != Absent ==> q.secret)
                                   && q.overlay == Rebuilt(true) && q.written))
      && (r == Err(TemplateNotFound) <==> q.latest.None? || (!current && !q.complete))
      && (r == Ok || r == Err(TemplateNotFound) || r == Err(Internal))
      && (current || r == Err(TemplateNotFound) ==> Apply(s, q).0 == s)
      && (r == Ok ==> q.id in Apply(s, q).0.disk.configs
                      && Apply(s, q).0.disk.configs[q.id] == s.disk.configs[q.id].(digest := q.latest.value))
  {
    hide WriteVolumes;
    if q.latest.Some? {
      var v := Volumes(q.secret, q.overlay, false, q.overlay);
      VolumesKeepConfigs(s.disk, q.id, q.latest.value, q.passphrase, v);
    }
  }

  // ---- creating and destroying ----

  lemma CreateOutcome(s: State, q: Step)
    requires q.Create?
    ensures var r, v := Apply(s, q).1, q.volumes;
      var refused := q.passphrase == Empty || q.id == "miyori-net" || q.id in s.disk.configs || q.refusal.Some?;
      && (q.passphrase == Empty || q.id == "miyori-net" ==> r == Err(BadRequest))
      && (q.passphrase != Empty && q.id != "miyori-net" && q.id in s.disk.configs ==> r == Err(SpaceExists))
      && (q.passphrase != Empty && q.id != "miyori-net" && q.id !in s.disk.configs && q.refusal.Some? ==>
            r == Err(q.refusal.value))
      && (refused || !q.stored ==> Apply(s, q).0 == s)
      && (!refused ==> (r == Ok || r == Err(Internal)))
      && (!refused ==> (r == Ok <==>
            && q.stored && (q.passphrase == Given ==> v.secret) && v.overlay == Rebuilt(true)
            && (v.hasData ==> v.data == Rebuilt(true)) && q.refresh == Applied))
  {
    hide WriteVolumes, View, RemoveFiles;
  }

  lemma DestroyOutcome(s: State, q: Step)
    requires q.Destroy?
    ensures var r := Apply(s, q).1; var stored := q.id in s.disk.configs;
      && (r == Err(SpaceNotFound) <==> !stored)
      && (r == Err(SpaceRunning) <==> stored && q.seen)
      && (r == Ok <==> stored && !q.seen && (s.disk.configs[q.id].cid in s.net.links ==> q.deleted)
                       && q.removal == Removed && q.refresh == Applied)
      && (r == Ok || r in {Err(SpaceNotFound), Err(SpaceRunning), Err(Internal)})
      && (!stored || q.seen ==> Apply(s, q).0 == s)
      && (stored && s.disk.configs[q.id].cid in s.net.links && !q.deleted ==> Apply(s, q).0 == s)
  {
    hide View, RemoveFiles, DeleteTap;
  }

  // ---- other spaces ----

  /** No two spaces record or hold the same process. */
  predicate OwnInv(p: Procs) {
    && (forall id :: id in p.pids ==> p.pids[id] < p.spawned)
    && (forall id :: id in p.handles ==> p.handles[id] < p.spawned)
    && (forall a, b :: a in p.pids && b in p.pids && p.pids[a] == p.pids[b] ==> a == b)
    && (forall a, b :: a in p.handles && b in p.pids && p.handles[a] == p.pids[b] ==> a == b)
  }

  lemma StepKeepsOwners(s: State, step: Step)
    requires OwnInv(s.procs)
    ensures OwnInv(Apply(s, step).0.procs)
  {
    hide WriteVolumes, View, RemoveFiles, DeleteTap, MakeTap;
  }

  lemma {:induction false} RunKeepsOwners(s: State, steps: seq<Step>)
    requires OwnInv(s.procs)
    ensures OwnInv(After(s, steps).procs)
    decreases |steps|
  {
    if steps != [] {
      StepKeepsOwners(s, steps[0]);
      hide OwnInv, Apply;
      RunKeepsOwners(Apply(s, steps[0]).0, steps[1..]);
    }
  }

  /** An operation of the daemon, as against what happens outside it. */
  predicate Operation(step: Step) {
    !step.Exits? && !step.LinkAppears? && !step.LinkVanishes? && !step.DaemonRestarts?
  }

  predicate SameLink(n: Net, m: Net, cid: nat) {
    (cid in n.links <==> cid in m.links) && (cid in n.links ==> n.links[cid] == m.links[cid])
  }

  /** No operation on one space touches the process or the link of another, whatever fails. */
  lemma OthersRunOn(steps: seq<Step>, q: Step, id: string)
    requires Possible(INIT, steps) && Enabled(After(INIT, steps), q) && Operation(q) && !Concerns(q, id)
    requires id in After(INIT, steps).disk.configs
    ensures var s, t := After(INIT, steps), Apply(After(INIT, steps), q).0;
      && SameAt(s.procs.pids, t.procs.pids, id) && SameAt(s.procs.handles, t.procs.handles, id)
      && (Live(s, id) <==> Live(t, id)) && SameLink(s.net, t.net, s.disk.configs[id].cid)
  {
    InitInv();
    RunKeepsInv(INIT, steps);
    RunKeepsOwners(INIT, steps);
    hide After, Possible, INIT, Enabled;
    OtherKept(After(INIT, steps), q, id);
  }

  predicate Undisturbed(s: State, t: State, id: string)
    requires id in s.disk.configs
  {
    && SameAt(s.procs.pids, t.procs.pids, id) && SameAt(s.procs.handles, t.procs.handles, id)
    && (Live(s, id) <==> Live(t, id)) && SameLink(s.net, t.net, s.disk.configs[id].cid)
  }

  lemma StartProcs(s: State, q: Step, id: string)
    requires OwnInv(s.procs) && q.Start? && q.id != id
    ensures var t := Apply(s, q).0;
      && SameAt(s.procs.pids, t.procs.pids, id) && SameAt(s.procs.handles, t.procs.handles, id)
      && (Live(s, id) <==> Live(t, id))
  {
    if id in s.procs.pids { assert s.procs.pids[id] != s.procs.spawned; }
    hide OwnInv, MakeTap, DeleteTap, Checks;
  }

  lemma StartLinks(s: State, q: Step, cid: nat)
    requires q.Start? && (q.id in s.disk.configs ==> s.disk.configs[q.id].cid != cid)
    ensures SameLink(s.net, Apply(s, q).0.net, cid)
  {
    hide Live;
  }

  lemma StartUndisturbed(s: State, q: Step, id: string)
    requires CidInv(s.disk.configs) && OwnInv(s.procs) && q.Start? && q.id != id && id in s.disk.configs
    ensures Undisturbed(s, Apply(s, q).0, id)
  {
    hide Apply, OwnInv, Live;
    StartProcs(s, q, id);
    StartLinks(s, q, s.disk.configs[id].cid);
  }

  lemma StopUndisturbed(s: State, q: Step, id: string)
    requires CidInv(s.disk.configs) && OwnInv(s.procs) && q.Stop? && q.id != id && id in s.disk.configs
    ensures Undisturbed(s, Apply(s, q).0, id)
  {
    if q.id in s.disk.configs { assert s.disk.configs[q.id].cid != s.disk.configs[id].cid; }
    hide CidInv;
  }

  lemma DestroyUndisturbed(s: State, q: Step, id: string)
    requires CidInv(s.disk.configs) && q.Destroy? && q.id != id && id in s.disk.configs
    ensures Undisturbed(s, Apply(s, q).0, id)
  {
    if q.id in s.disk.configs { assert s.disk.configs[q.id].cid != s.disk.configs[id].cid; }
    hide CidInv, View, RemoveFiles;
  }

  lemma FilesUndisturbed(s: State, q: Step, id: string)
    requires (q.Create? || q.ResetSystem? || q.ResetAll? || q.UpdateImage?) && id in s.disk.configs
    ensures Undisturbed(s, Apply(s, q).0, id)
  {
    hide WriteVolumes, View, RemoveFiles, VolumesOk;
  }

  lemma OtherKept(s: State, q: Step, id: string)
    requires Inv(s) && OwnInv(s.procs) && Operation(q) && !Concerns(q, id) && id in s.disk.configs
    ensures Undisturbed(s, Apply(s, q).0, id)
  {
    hide Apply, Undisturbed, CidInv, LinkInv, ProcInv, OwnInv;
    if q.Start? { StartUndisturbed(s, q, id); }
    else if q.Stop? { StopUndisturbed(s, q, id); }
    else if q.Destroy? { DestroyUndisturbed(s, q, id); }
    else { FilesUndisturbed(s, q, id); }
  }

  // ---- a whole life ----

  /** The host does all it is asked to. */
  function GoodCreate(id: string, passphrase: Passphrase, digest: string, cid: nat, hasData: bool): Step {
    Create(id, passphrase, digest, cid, None, true, Volumes(true, Rebuilt(true), hasData, Rebuilt(true)), Applied,
           Removed)
  }

  function GoodStart(id: string, passphrase: Passphrase): Step {
    Start(id, passphrase, false, None, true, TapUp, true, Lives, true)
  }

  function GoodStop(id: string): Step { Stop(id, true, true, true, true) }

  function GoodDestroy(id: string): Step { Destroy(id, false, true, Removed, Applied) }

  /** From any moment of any run: a new space can be created, started, stopped and destroyed, each answering Ok,
      and afterwards no config, process or link is left of it and its cid is free again. */
  lemma WholeLife(steps: seq<Step>, id: string, passphrase: Passphrase, digest: string, cid: nat, hasData: bool)
    requires Possible(INIT, steps) && Allocatable(After(INIT, steps), cid)
    requires id !in After(INIT, steps).disk.configs && id != "miyori-net" && passphrase != Empty
    ensures var s := After(INIT, steps);
      var s1 := Apply(s, GoodCreate(id, passphrase, digest, cid, hasData)).0;
      var s2 := Apply(s1, GoodStart(id, passphrase)).0;
      var s3 := Apply(s2, GoodStop(id)).0;
      var s4 := Apply(s3, GoodDestroy(id)).0;
      && Apply(s, GoodCreate(id, passphrase, digest, cid, hasData)).1 == Ok
      && Apply(s1, GoodStart(id, passphrase)).1 == Ok && Live(s2, id)
      && Apply(s2, GoodStop(id)).1 == Ok && Apply(s3, GoodDestroy(id)).1 == Ok
      && s4.disk.configs == s.disk.configs && s4.procs.alive == s.procs.alive && s4.net.links == s.net.links
      && Allocatable(s4, cid)
  {
    InitInv();
    RunKeepsInv(INIT, steps);
    hide After, Possible, INIT;
    Life(After(INIT, steps), id, passphrase, digest, cid, hasData);
  }

  lemma Life(s: State, id: string, passphrase: Passphrase, digest: string, cid: nat, hasData: bool)
    requires Inv(s) && Allocatable(s, cid)
    requires id !in s.disk.configs && id != "miyori-net" && passphrase != Empty
    ensures var s1 := Apply(s, GoodCreate(id, passphrase, digest, cid, hasData)).0;
      var s2 := Apply(s1, GoodStart(id, passphrase)).0;
      var s3 := Apply(s2, GoodStop(id)).0;
      var s4 := Apply(s3, GoodDestroy(id)).0;
      && Apply(s, GoodCreate(id, passphrase, digest, cid, hasData)).1 == Ok
      && Apply(s1, GoodStart(id, passphrase)).1 == Ok && Live(s2, id)
      && Apply(s2, GoodStop(id)).1 == Ok && Apply(s3, GoodDestroy(id)).1 == Ok
      && s4.disk.configs == s.disk.configs && s4.procs.alive == s.procs.alive && s4.net.links == s.net.links
      && Allocatable(s4, cid)
  {
    hide LinkInv, View, Store.Candidate;
  }
}
