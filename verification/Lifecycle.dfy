// The life of spaces under the daemon's operations. Every operation holds the daemon's lock, so it is
// one step; what the host answers to each of its actions is part of the step. Between steps QEMU
// processes exit, links come and go and the daemon restarts.
module Lifecycle {
  import opened Text
  import Registry
  import Store

  // ---- state ----

  /** What the daemon's files say of a space. */
  datatype Config = Config(cid: nat, digest: string, encrypted: bool)

  /** A disk image: the template it is based on ("" for a data volume) and whether it is encrypted. */
  datatype Volume = Intact(base: string, encrypted: bool) | Damaged

  datatype Disk = Disk(configs: map<string, Config>, overlays: map<string, Volume>, datas: map<string, Volume>)

  /** A network link named after a cid; `mine` if the daemon made it, as its `serial`-th. */
  datatype Link = Link(mine: bool, serial: nat)

  datatype Net = Net(links: map<nat, Link>, serial: nat)

  /** QEMU processes, numbered as spawned; pid files outlive the daemon, handles do not. */
  datatype Procs = Procs(spawned: nat, alive: set<nat>, pids: map<string, nat>, handles: map<string, nat>)

  /** What the broker's registry and the bridge rules were last made of: cids by id. */
  datatype Published = Published(registry: map<string, nat>, rules: map<string, nat>)

  datatype State = State(disk: Disk, net: Net, procs: Procs, published: Published)

  const INIT :=
    State(Disk(map[], map[], map[]), Net(map[], 0), Procs(0, {}, map[], map[]), Published(map[], map[]))

  // ---- what the host answers ----

  /** How `qemu-img` and the change of ownership after it end. A failed `qemu-img` may leave anything. */
  datatype Image = Rebuilt(owned: bool) | FailedNew | FailedOld | FailedGone | FailedDamaged

  datatype Removal = Removed | Partly(configGone: bool, overlayGone: bool, dataGone: bool)

  datatype Refresh = Applied | RulesFailed | WriteFailed

  datatype TapResult = TapUp | TapHalfMade | TapFailed

  datatype Spawn = NotSpawned | DiesAtOnce(wrongPassphrase: bool) | DiesWaiting(wrongPassphrase: bool) | Lives

  datatype Passphrase = Absent | Empty | Given

  datatype Code = BadRequest | SpaceNotFound | SpaceExists | ProfileNotFound | TemplateNotFound
    | SpaceRunning | SpaceStopped | NoBridge | WrongPassphrase | Internal

  datatype Reply = Ok | Err(code: Code)

  /** What `create_volumes` runs into: the secret file, the overlay, and the data volume if there is one. */
  datatype Volumes = Volumes(secret: bool, overlay: Image, hasData: bool, data: Image)

  datatype Step =
    | Create(id: string, passphrase: Passphrase, digest: string, cid: nat, refusal: Option<Code>, stored: bool,
             volumes: Volumes, refresh: Refresh, removal: Removal)
    | Start(id: string, passphrase: Passphrase, seen: bool, refusal: Option<Code>, reaped: bool, tap: TapResult,
            secret: bool, spawn: Spawn, undone: bool)
    | Stop(id: string, seen: bool, killed: bool, deleted: bool, written: bool)
    | ResetSystem(id: string, passphrase: Passphrase, seen: bool, secret: bool, overlay: Image)
    | ResetAll(id: string, passphrase: Passphrase, seen: bool, refusal: Option<Code>, volumes: Volumes)
    | UpdateImage(id: string, passphrase: Passphrase, seen: bool, latest: Option<string>, complete: bool,
                  secret: bool, overlay: Image, written: bool)
    | Destroy(id: string, seen: bool, deleted: bool, removal: Removal, refresh: Refresh)
    // the world outside
    | Exits(pid: nat)
    | LinkAppears(cid: nat)
    | LinkVanishes(cid: nat)
    | DaemonRestarts

  // ---- the parts of operations ----

  function Remove<K, V>(m: map<K, V>, k: K): map<K, V> { m - {k} }

  function WriteImage(volumes: map<string, Volume>, id: string, made: Volume, image: Image): map<string, Volume> {
    match image
    case Rebuilt(_) => volumes[id := made]
    case FailedNew => volumes[id := made]
    case FailedOld => volumes
    case FailedGone => Remove(volumes, id)
    case FailedDamaged => volumes[id := Damaged]
  }

  predicate ImageOk(image: Image) { image.Rebuilt? && image.owned }

  /** The overlay is rebuilt on `digest`, then the data volume if the profile has one. */
  function WriteVolumes(disk: Disk, id: string, digest: string, passphrase: Passphrase, v: Volumes): Disk {
    var encrypted := passphrase != Absent;
    if encrypted && !v.secret then disk
    else
      var d := disk.(overlays := WriteImage(disk.overlays, id, Intact(digest, encrypted), v.overlay));
      if !ImageOk(v.overlay) || !v.hasData then d
      else d.(datas := WriteImage(d.datas, id, Intact("", encrypted), v.data))
  }

  predicate VolumesOk(passphrase: Passphrase, v: Volumes) {
    (passphrase != Absent ==> v.secret) && ImageOk(v.overlay) && (v.hasData ==> ImageOk(v.data))
  }

  function RemoveFiles(disk: Disk, id: string, removal: Removal): Disk {
    match removal
    case Removed => Disk(Remove(disk.configs, id), Remove(disk.overlays, id), Remove(disk.datas, id))
    case Partly(c, o, d) =>
      Disk(if c then Remove(disk.configs, id) else disk.configs,
           if o then Remove(disk.overlays, id) else disk.overlays,
           if d then Remove(disk.datas, id) else disk.datas)
  }

  /** Removing a space's directory, which may fail halfway. */
  function RemoveSpace(s: State, id: string, removal: Removal): State {
    s.(disk := RemoveFiles(s.disk, id, removal))
  }

  function View(configs: map<string, Config>): map<string, nat> { map id | id in configs :: configs[id].cid }

  function Publish(s: State, refresh: Refresh): State {
    var view := View(s.disk.configs);
    match refresh
    case Applied => s.(published := Published(view, view))
    case RulesFailed => s.(published := s.published.(registry := view))
    case WriteFailed => s
  }

  function DeleteTap(net: Net, cid: nat, works: bool): Net {
    if cid in net.links && works then net.(links := Remove(net.links, cid)) else net
  }

  function MakeTap(net: Net, cid: nat, tap: TapResult): Net {
    if tap == TapFailed then net else Net(net.links[cid := Link(true, net.serial)], net.serial + 1)
  }

  function KillAndReap(p: Procs, id: string, killed: bool): Procs {
    var q := p.(pids := Remove(p.pids, id));
    if id in p.handles then q.(alive := p.alive - {p.handles[id]}, handles := Remove(p.handles, id))
    else if id in p.pids && killed then q.(alive := p.alive - {p.pids[id]})
    else q
  }

  // ---- operations ----

  function CreateStep(s: State, q: Step): (State, Reply)
    requires q.Create?
  {
    if q.passphrase == Empty || q.id == Registry.MIYORI_NET then (s, Err(BadRequest))
    else if q.id in s.disk.configs then (s, Err(SpaceExists))
    else if q.refusal.Some? then (s, Err(q.refusal.value))
    else if !q.stored then (s, Err(Internal))
    else
      var made := s.disk.(configs := s.disk.configs[q.id := Config(q.cid, q.digest, q.passphrase == Given)]);
      var t := s.(disk := WriteVolumes(made, q.id, q.digest, q.passphrase, q.volumes));
      if !VolumesOk(q.passphrase, q.volumes) then (RemoveSpace(t, q.id, q.removal), Err(Internal))
      else
        var u := Publish(t, q.refresh);
        if q.refresh == Applied then (u, Ok) else (RemoveSpace(u, q.id, q.removal), Err(Internal))
  }

  /** The rule of every operation that takes a passphrase. */
  predicate Matches(encrypted: bool, passphrase: Passphrase) { encrypted <==> passphrase != Absent }

  /** What all operations on an existing space check first. */
  function Checks(s: State, id: string, passphrase: Passphrase, seen: bool): Option<Code> {
    if id !in s.disk.configs then Some(SpaceNotFound)
    else if !Matches(s.disk.configs[id].encrypted, passphrase) then Some(BadRequest)
    else if seen then Some(SpaceRunning)
    else None
  }

  function StartStep(s: State, q: Step): (State, Reply)
    requires q.Start?
  {
    var refused := Checks(s, q.id, q.passphrase, q.seen);
    if refused.Some? then (s, Err(refused.value))
    else if q.refusal.Some? then (s, Err(q.refusal.value))
    else
      var cid := s.disk.configs[q.id].cid;
      if cid in s.net.links && !q.reaped then (s, Err(Internal))
      else
        var up := s.(net := MakeTap(DeleteTap(s.net, cid, true), cid, q.tap));
        if q.tap != TapUp then (up, Err(Internal))
        else if q.passphrase != Absent && !q.secret then (up.(net := DeleteTap(up.net, cid, q.undone)), Err(Internal))
        else Launch(up, q, cid)
  }

  function Launch(s: State, q: Step, cid: nat): (State, Reply)
    requires q.Start?
  {
    var down := s.(net := DeleteTap(s.net, cid, q.undone));
    var pid := s.procs.spawned;
    match q.spawn
    case NotSpawned => (down, Err(Internal))
    case DiesAtOnce(wrong) =>
      (down.(procs := s.procs.(spawned := pid + 1, pids := Remove(s.procs.pids, q.id))), DeathReply(wrong))
    case DiesWaiting(wrong) =>
      (down.(procs := s.procs.(spawned := pid + 1, pids := Remove(s.procs.pids, q.id),
                               handles := Remove(s.procs.handles, q.id))), DeathReply(wrong))
    case Lives =>
      (s.(procs := Procs(pid + 1, s.procs.alive + {pid}, s.procs.pids[q.id := pid], s.procs.handles[q.id := pid])), Ok)
  }

  function DeathReply(wrongPassphrase: bool): Reply { Err(if wrongPassphrase then WrongPassphrase else Internal) }

  function StopStep(s: State, q: Step): (State, Reply)
    requires q.Stop?
  {
    if q.id !in s.disk.configs then (s, Err(SpaceNotFound))
    else if !q.seen then (s, Err(SpaceStopped))
    else
      var cid := s.disk.configs[q.id].cid;
      var t := s.(procs := KillAndReap(s.procs, q.id, q.killed), net := DeleteTap(s.net, cid, q.deleted));
      (t, if cid in s.net.links && q.deleted && q.written then Ok else Err(Internal))
  }

  /** Rebuilds the overlay of a space on `digest`. */
  function Rebuild(s: State, id: string, digest: string, passphrase: Passphrase, secret: bool, overlay: Image): State {
    s.(disk := WriteVolumes(s.disk, id, digest, passphrase, Volumes(secret, overlay, false, overlay)))
  }

  predicate RebuildOk(passphrase: Passphrase, secret: bool, overlay: Image) {
    (passphrase != Absent ==> secret) && ImageOk(overlay)
  }

  function ResetSystemStep(s: State, q: Step): (State, Reply)
    requires q.ResetSystem?
  {
    var refused := Checks(s, q.id, q.passphrase, q.seen);
    if refused.Some? then (s, Err(refused.value))
    else
      (Rebuild(s, q.id, s.disk.configs[q.id].digest, q.passphrase, q.secret, q.overlay),
       if RebuildOk(q.passphrase, q.secret, q.overlay) then Ok else Err(Internal))
  }

  function ResetAllStep(s: State, q: Step): (State, Reply)
    requires q.ResetAll?
  {
    var refused := Checks(s, q.id, q.passphrase, q.seen);
    if refused.Some? then (s, Err(refused.value))
    else if q.refusal.Some? then (s, Err(q.refusal.value))
    else
      (s.(disk := WriteVolumes(s.disk, q.id, s.disk.configs[q.id].digest, q.passphrase, q.volumes)),
       if VolumesOk(q.passphrase, q.volumes) then Ok else Err(Internal))
  }

  function UpdateImageStep(s: State, q: Step): (State, Reply)
    requires q.UpdateImage?
  {
    var refused := Checks(s, q.id, q.passphrase, q.seen);
    if refused.Some? then (s, Err(refused.value))
    else if q.latest.None? then (s, Err(TemplateNotFound))
    else
      var c, digest := s.disk.configs[q.id], q.latest.value;
      if digest == c.digest then (s, Ok)
      else if !q.complete then (s, Err(TemplateNotFound))
      else
        var t := Rebuild(s, q.id, digest, q.passphrase, q.secret, q.overlay);
        if !RebuildOk(q.passphrase, q.secret, q.overlay) then (t, Err(Internal))
        else if !q.written then (t, Err(Internal))
        else (t.(disk := t.disk.(configs := t.disk.configs[q.id := c.(digest := digest)])), Ok)
  }

  function DestroyStep(s: State, q: Step): (State, Reply)
    requires q.Destroy?
  {
    if q.id !in s.disk.configs then (s, Err(SpaceNotFound))
    else if q.seen then (s, Err(SpaceRunning))
    else
      var cid := s.disk.configs[q.id].cid;
      if cid in s.net.links && !q.deleted then (s, Err(Internal))
      else
        var t := RemoveSpace(s.(net := DeleteTap(s.net, cid, true)), q.id, q.removal);
        if q.removal != Removed then (t, Err(Internal))
        else (Publish(t, q.refresh), if q.refresh == Applied then Ok else Err(Internal))
  }

  function Apply(s: State, step: Step): (State, Reply) {
    match step
    case Create(_, _, _, _, _, _, _, _, _) => CreateStep(s, step)
    case Start(_, _, _, _, _, _, _, _, _) => StartStep(s, step)
    case Stop(_, _, _, _, _) => StopStep(s, step)
    case ResetSystem(_, _, _, _, _) => ResetSystemStep(s, step)
    case ResetAll(_, _, _, _, _) => ResetAllStep(s, step)
    case UpdateImage(_, _, _, _, _, _, _, _) => UpdateImageStep(s, step)
    case Destroy(_, _, _, _, _) => DestroyStep(s, step)
    case Exits(pid) => (s.(procs := s.procs.(alive := s.procs.alive - {pid})), Ok)
    case LinkAppears(cid) => (s.(net := s.net.(links := s.net.links[cid := Link(false, 0)])), Ok)
    case LinkVanishes(cid) => (s.(net := s.net.(links := Remove(s.net.links, cid))), Ok)
    case DaemonRestarts => (s.(procs := s.procs.(handles := map[])), Ok)
  }

  // ---- what steps can happen ----

  /** The pid file of the space names a process that runs. */
  predicate Live(s: State, id: string) { id in s.procs.pids && s.procs.pids[id] in s.procs.alive }

  predicate CidUsed(configs: map<string, Config>, cid: nat) { exists id :: id in configs && configs[id].cid == cid }

  /** What the store's allocator may return: see Store.LeastFree. */
  predicate Allocatable(s: State, cid: nat) {
    Store.Candidate(cid) && !CidUsed(s.disk.configs, cid) && cid !in s.net.links
  }

  /** A live recorded QEMU is always seen as running; the converse is not assumed. */
  predicate Enabled(s: State, step: Step) {
    match step
    case Create(_, _, _, cid, _, _, _, _, _) => Allocatable(s, cid)
    case Start(id, _, seen, _, _, _, _, _, _) => Live(s, id) ==> seen
    case Stop(id, seen, _, _, _) => Live(s, id) ==> seen
    case ResetSystem(id, _, seen, _, _) => Live(s, id) ==> seen
    case ResetAll(id, _, seen, _, _) => Live(s, id) ==> seen
    case UpdateImage(id, _, seen, _, _, _, _, _) => Live(s, id) ==> seen
    case Destroy(id, seen, _, _, _) => Live(s, id) ==> seen
    case LinkAppears(cid) => cid !in s.net.links
    case _ => true
  }

  predicate Possible(s: State, steps: seq<Step>)
    decreases |steps|
  {
    steps == [] || (Enabled(s, steps[0]) && Possible(Apply(s, steps[0]).0, steps[1..]))
  }

  function After(s: State, steps: seq<Step>): State
    decreases |steps|
  {
    if steps == [] then s else After(Apply(s, steps[0]).0, steps[1..])
  }
}
