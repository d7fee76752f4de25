// What every run of the daemon keeps: distinct cids, links that belong to spaces, recorded processes;
// and what single operations promise.
module LifecycleProofs {
  import opened Text
  import Registry
  import Store
  import opened Lifecycle

  // ---- the invariant ----

  predicate CidInv(configs: map<string, Config>) {
    && (forall id :: id in configs ==> Store.Candidate(configs[id].cid))
    && (forall a, b :: a in configs && b in configs && configs[a].cid == configs[b].cid ==> a == b)
  }

  /** Every link the daemon made belongs to a stored space. */
  predicate LinkInv(configs: map<string, Config>, net: Net) {
    forall cid :: cid in net.links && net.links[cid].mine ==>
      CidUsed(configs, cid) && net.links[cid].serial < net.serial
  }

  predicate ProcInv(configs: map<string, Config>, p: Procs) {
    && (forall id :: id in p.pids ==> p.pids[id] < p.spawned)
    && (forall pid :: pid in p.alive ==> pid < p.spawned)
    && (forall id :: id in p.pids && p.pids[id] in p.alive ==> id in configs)
    && (forall id :: id in p.pids && id in p.handles ==> p.handles[id] == p.pids[id])
  }

  predicate Inv(s: State) {
    CidInv(s.disk.configs) && LinkInv(s.disk.configs, s.net) && ProcInv(s.disk.configs, s.procs)
  }

  predicate SameAt<V(==)>(m: map<string, V>, n: map<string, V>, id: string) {
    (id in m <==> id in n) && (id in m ==> m[id] == n[id])
  }

  // ---- configs come and go ----

  lemma VolumesKeepConfigs(d: Disk, id: string, digest: string, passphrase: Passphrase, v: Volumes)
    ensures WriteVolumes(d, id, digest, passphrase, v).configs == d.configs
  {
    hide WriteImage;
  }

  /** The disk of a creation that got as far as the volumes, before any rollback. */
  function CreateDisk(s: State, q: Step): Disk
    requires q.Create?
  {
    var made := s.disk.(configs := s.disk.configs[q.id := Config(q.cid, q.digest, q.passphrase == Given)]);
    WriteVolumes(made, q.id, q.digest, q.passphrase, q.volumes)
  }

  lemma AddConfig(configs: map<string, Config>, net: Net, p: Procs, id: string, c: Config)
    requires CidInv(configs) && LinkInv(configs, net) && ProcInv(configs, p)
    requires id !in configs && Store.Candidate(c.cid) && !CidUsed(configs, c.cid)
    ensures var t := configs[id := c]; CidInv(t) && LinkInv(t, net) && ProcInv(t, p)
  {
    hide Store.Candidate;
    var t := configs[id := c];
    forall x | x in configs ensures configs[x].cid != c.cid { assert !CidUsed(configs, c.cid); }
    forall cid | CidUsed(configs, cid) ensures CidUsed(t, cid) {
      var x :| x in configs && configs[x].cid == cid;
      assert x in t && t[x].cid == cid;
    }
  }

  /** A config may go once no link of its cid is the daemon's and its pid file names no live process. */
  lemma DropConfig(configs: map<string, Config>, net: Net, p: Procs, id: string)
    requires CidInv(configs) && LinkInv(configs, net) && ProcInv(configs, p)
    requires id in configs ==> configs[id].cid !in net.links
    requires id in p.pids ==> p.pids[id] !in p.alive
    ensures var t := Remove(configs, id); CidInv(t) && LinkInv(t, net) && ProcInv(t, p)
  {
    hide Store.Candidate;
    var t := Remove(configs, id);
    forall cid | cid in net.links && net.links[cid].mine ensures CidUsed(t, cid) {
      var x :| x in configs && configs[x].cid == cid;
      assert x in t && t[x].cid == cid;
    }
  }

  lemma RemoveConfigs(d: Disk, net: Net, p: Procs, id: string, removal: Removal)
    requires CidInv(d.configs) && LinkInv(d.configs, net) && ProcInv(d.configs, p)
    requires id in d.configs ==> d.configs[id].cid !in net.links
    requires id in p.pids ==> p.pids[id] !in p.alive
    ensures var t := RemoveFiles(d, id, removal).configs; CidInv(t) && LinkInv(t, net) && ProcInv(t, p)
  {
    hide CidInv, LinkInv, ProcInv;
    DropConfig(d.configs, net, p, id);
  }

  lemma CreateKeeps(s: State, q: Step)
    requires Inv(s) && q.Create? && Enabled(s, q)
    ensures Inv(CreateStep(s, q).0)
  {
    hide CidInv, LinkInv, ProcInv, WriteVolumes, VolumesOk, RemoveFiles, View;
    if q.passphrase != Empty && q.id !in s.disk.configs {
      NotLive(s, q.id);
      var c := Config(q.cid, q.digest, q.passphrase == Given);
      var made := s.disk.(configs := s.disk.configs[q.id := c]);
      VolumesKeepConfigs(made, q.id, q.digest, q.passphrase, q.volumes);
      AddConfig(s.disk.configs, s.net, s.procs, q.id, c);
      RemoveConfigs(CreateDisk(s, q), s.net, s.procs, q.id, q.removal);
    }
  }

  lemma NotLive(s: State, id: string)
    requires ProcInv(s.disk.configs, s.procs) && id !in s.disk.configs
    ensures !Live(s, id)
  {
  }

  lemma ResetKeeps(s: State, q: Step)
    requires Inv(s) && (q.ResetSystem? || q.ResetAll?)
    ensures Inv(Apply(s, q).0)
  {
    hide CidInv, LinkInv, ProcInv, WriteVolumes;
    if Checks(s, q.id, q.passphrase, q.seen).None? {
      var v := if q.ResetAll? then q.volumes else Volumes(q.secret, q.overlay, false, q.overlay);
      VolumesKeepConfigs(s.disk, q.id, s.disk.configs[q.id].digest, q.passphrase, v);
    }
  }

  /** Only the digest of one space changes. */
  predicate SameButDigest(c: map<string, Config>, d: map<string, Config>) {
    c.Keys == d.Keys && forall id :: id in c ==> d[id] == c[id].(digest := d[id].digest)
  }

  lemma DigestsDoNotMatter(c: map<string, Config>, d: map<string, Config>, net: Net, p: Procs)
    requires SameButDigest(c, d) && CidInv(c) && LinkInv(c, net) && ProcInv(c, p)
    ensures CidInv(d) && LinkInv(d, net) && ProcInv(d, p)
  {
    hide Store.Candidate;
    forall cid | CidUsed(c, cid) ensures CidUsed(d, cid) {
      var x :| x in c && c[x].cid == cid;
      assert x in d && d[x].cid == cid;
    }
  }

  lemma UpdateKeeps(s: State, q: Step)
    requires Inv(s) && q.UpdateImage?
    ensures Inv(UpdateImageStep(s, q).0)
  {
    hide CidInv, LinkInv, ProcInv, WriteVolumes;
    if Checks(s, q.id, q.passphrase, q.seen).None? && q.latest.Some? {
      var digest := q.latest.value;
      VolumesKeepConfigs(s.disk, q.id, digest, q.passphrase, Volumes(q.secret, q.overlay, false, q.overlay));
      var c := s.disk.configs[q.id].(digest := digest);
      DigestsDoNotMatter(s.disk.configs, s.disk.configs[q.id := c], s.net, s.procs);
    }
  }

  // ---- links and processes ----

  lemma DeleteTapKeeps(configs: map<string, Config>, net: Net, cid: nat, works: bool)
    requires LinkInv(configs, net)
    ensures LinkInv(configs, DeleteTap(net, cid, works))
    ensures DeleteTap(net, cid, works).serial == net.serial
    ensures works ==> cid !in DeleteTap(net, cid, works).links
  {
  }

  lemma MakeTapKeeps(configs: map<string, Config>, net: Net, cid: nat, tap: TapResult)
    requires LinkInv(configs, net) && CidUsed(configs, cid)
    ensures LinkInv(configs, MakeTap(net, cid, tap))
  {
    hide CidUsed;
  }

  lemma StartLinks(s: State, q: Step)
    requires LinkInv(s.disk.configs, s.net) && q.Start?
    ensures LinkInv(s.disk.configs, StartStep(s, q).0.net)
  {
    hide LinkInv, DeleteTap, MakeTap;
    if Checks(s, q.id, q.passphrase, q.seen).None? {
      var cid := s.disk.configs[q.id].cid;
      assert CidUsed(s.disk.configs, cid);
      DeleteTapKeeps(s.disk.configs, s.net, cid, true);
      var net := MakeTap(DeleteTap(s.net, cid, true), cid, q.tap);
      MakeTapKeeps(s.disk.configs, DeleteTap(s.net, cid, true), cid, q.tap);
      DeleteTapKeeps(s.disk.configs, net, cid, q.undone);
    }
  }

  lemma StartProcs(s: State, q: Step)
    requires ProcInv(s.disk.configs, s.procs) && q.Start?
    ensures ProcInv(s.disk.configs, StartStep(s, q).0.procs)
  {
    hide DeleteTap, MakeTap;
  }

  lemma StartKeeps(s: State, q: Step)
    requires Inv(s) && q.Start?
    ensures Inv(StartStep(s, q).0)
  {
    StartLinks(s, q);
    StartProcs(s, q);
    hide CidInv, LinkInv, ProcInv, DeleteTap, MakeTap;
  }

  lemma KillKeeps(configs: map<string, Config>, p: Procs, id: string, killed: bool)
    requires ProcInv(configs, p)
    ensures ProcInv(configs, KillAndReap(p, id, killed))
  {
  }

  lemma StopKeeps(s: State, q: Step)
    requires Inv(s) && q.Stop?
    ensures Inv(StopStep(s, q).0)
  {
    hide CidInv, LinkInv, ProcInv, DeleteTap, KillAndReap;
    if q.id in s.disk.configs {
      KillKeeps(s.disk.configs, s.procs, q.id, q.killed);
      DeleteTapKeeps(s.disk.configs, s.net, s.disk.configs[q.id].cid, q.deleted);
    }
  }

  lemma DestroyKeeps(s: State, q: Step)
    requires Inv(s) && q.Destroy? && Enabled(s, q)
    ensures Inv(DestroyStep(s, q).0)
  {
    hide CidInv, LinkInv, ProcInv, DeleteTap, RemoveFiles, View;
    if q.id in s.disk.configs && !q.seen {
      var cid := s.disk.configs[q.id].cid;
      DeleteTapKeeps(s.disk.configs, s.net, cid, true);
      RemoveConfigs(s.disk, DeleteTap(s.net, cid, true), s.procs, q.id, q.removal);
    }
  }

  lemma StepKeepsInv(s: State, step: Step)
    requires Inv(s) && Enabled(s, step)
    ensures Inv(Apply(s, step).0)
  {
    hide CreateStep, StartStep, StopStep, ResetSystemStep, ResetAllStep, UpdateImageStep, DestroyStep,
      CidInv, CidUsed;
    match step
    case Create(_, _, _, _, _, _, _, _, _) => CreateKeeps(s, step);
    case Start(_, _, _, _, _, _, _, _, _) => StartKeeps(s, step);
    case Stop(_, _, _, _, _) => StopKeeps(s, step);
    case ResetSystem(_, _, _, _, _) => ResetKeeps(s, step);
    case ResetAll(_, _, _, _, _) => ResetKeeps(s, step);
    case UpdateImage(_, _, _, _, _, _, _, _) => UpdateKeeps(s, step);
    case Destroy(_, _, _, _, _) => DestroyKeeps(s, step);
    case Exits(_) =>
    case LinkAppears(_) =>
    case LinkVanishes(_) =>
    case DaemonRestarts =>
  }

  lemma {:induction false} RunKeepsInv(s: State, steps: seq<Step>)
    requires Inv(s) && Possible(s, steps)
    ensures Inv(After(s, steps))
    decreases |steps|
  {
    hide Inv;
    if steps != [] {
      StepKeepsInv(s, steps[0]);
      RunKeepsInv(Apply(s, steps[0]).0, steps[1..]);
    }
  }

  lemma InitInv()
    ensures Inv(INIT)
  {
  }

  // ---- cids and links ----

  /** On every run each link the daemon made belongs to a stored space, whatever failed on the way. */
  lemma LinksBelongToSpaces(steps: seq<Step>, cid: nat)
    requires Possible(INIT, steps)
    ensures var s := After(INIT, steps); cid in s.net.links && s.net.links[cid].mine ==> CidUsed(s.disk.configs, cid)
  {
    InitInv();
    RunKeepsInv(INIT, steps);
    hide After, Possible, CidUsed;
  }

  /** Once `destroy` has answered Ok, its cid can be allocated again, at any moment of any run. */
  lemma DestroyFreesCid(steps: seq<Step>, q: Step)
    requires Possible(INIT, steps) && q.Destroy? && DestroyStep(After(INIT, steps), q).1 == Ok
    ensures var s := After(INIT, steps);
      q.id in s.disk.configs && Allocatable(DestroyStep(s, q).0, s.disk.configs[q.id].cid)
  {
    InitInv();
    RunKeepsInv(INIT, steps);
    hide After, Possible, INIT, LinkInv, ProcInv, Store.Candidate;
    var s := After(INIT, steps);
    var cid, t := s.disk.configs[q.id].cid, DestroyStep(s, q).0;
    assert t.disk.configs == Remove(s.disk.configs, q.id);
    assert forall x :: x in t.disk.configs ==> t.disk.configs[x].cid != cid;
    assert cid !in DeleteTap(s.net, cid, true).links;
  }

  /** A process is started, at any moment of any run, only once whatever was left under the space's cid has
      been removed; and a space that starts gets a link younger than every link the daemon made before. */
  lemma StartUsesFreshLink(steps: seq<Step>, q: Step)
    requires Possible(INIT, steps) && q.Start?
    ensures var s := After(INIT, steps);
      StartStep(s, q).0.procs.spawned != s.procs.spawned ==>
        q.id in s.disk.configs && (s.disk.configs[q.id].cid in s.net.links ==> q.reaped)
    ensures var s := After(INIT, steps);
      StartStep(s, q).1 == Ok ==>
        && q.id in s.disk.configs && Live(StartStep(s, q).0, q.id)
        && var links, cid := StartStep(s, q).0.net.links, s.disk.configs[q.id].cid;
           && cid in links && links[cid].mine
           && forall c :: c in s.net.links && s.net.links[c].mine ==> s.net.links[c].serial < links[cid].serial
  {
    InitInv();
    RunKeepsInv(INIT, steps);
    hide After, Possible, INIT, CidInv, ProcInv, CidUsed;
  }

  // ---- what single operations promise ----

  /** The create gets past everything that refuses it, as far as the volumes. */
  predicate Passed(s: State, q: Step)
    requires q.Create?
  {
    && q.passphrase != Empty && q.id != Registry.MIYORI_NET && q.id !in s.disk.configs
    && q.refusal.None? && q.stored
  }

  predicate CreateOk(q: Step)
    requires q.Create?
  {
    VolumesOk(q.passphrase, q.volumes) && q.refresh == Applied
  }

  /** Only a passphrase that fits the space's encryption gets anything done. */
  lemma PassphraseRule(s: State, step: Step)
    requires step.Start? || step.ResetSystem? || step.ResetAll? || step.UpdateImage?
    ensures step.id in s.disk.configs && !Matches(s.disk.configs[step.id].encrypted, step.passphrase) ==>
      Apply(s, step) == (s, Err(BadRequest))
    ensures Apply(s, step).1 == Ok ==>
      step.id in s.disk.configs && Matches(s.disk.configs[step.id].encrypted, step.passphrase)
  {
    hide WriteVolumes, VolumesOk, DeleteTap, MakeTap;
  }

  /** A stop that answers Ok has removed the pid file and the link, and has killed the recorded process
      whenever it held its handle or `kill` worked. */
  lemma StopEndsSpace(s: State, q: Step)
    requires Inv(s) && q.Stop? && StopStep(s, q).1 == Ok
    ensures var t := StopStep(s, q).0;
      && q.id in s.disk.configs && t.disk == s.disk && t.published == s.published
      && q.id !in t.procs.pids && s.disk.configs[q.id].cid !in t.net.links
      && (q.id in s.procs.pids && (q.id in s.procs.handles || q.killed) ==> s.procs.pids[q.id] !in t.procs.alive)
  {
    hide CidInv, LinkInv;
  }

  /** A destroy that answers Ok leaves nothing of the space and touches no other. */
  lemma DestroyRemovesSpace(s: State, q: Step, id: string)
    requires q.Destroy? && DestroyStep(s, q).1 == Ok
    ensures var d := DestroyStep(s, q).0.disk;
      if id == q.id then id !in d.configs && id !in d.overlays && id !in d.datas
      else
        && SameAt(s.disk.configs, d.configs, id) && SameAt(s.disk.overlays, d.overlays, id)
        && SameAt(s.disk.datas, d.datas, id)
  {
    hide View;
  }
}
