// The daemon's operations as they act, one effect after another. What the host answers to each effect
// comes with the step; every method is proved against the step function of the same operation.
module Operations {
  import opened Text
  import Registry
  import opened Lifecycle
  import opened LifecycleProofs

  class Daemon {
    // files
    var configs: map<string, Config>
    var overlays: map<string, Volume>
    var datas: map<string, Volume>
    // links on the host
    var links: map<nat, Link>
    var serial: nat
    // processes, pid files and the handles kept in memory
    var spawned: nat
    var alive: set<nat>
    var pids: map<string, nat>
    var handles: map<string, nat>
    // what was last published
    var registry: map<string, nat>
    var rules: map<string, nat>

    ghost function Abstract(): State
      reads this
    {
      State(Disk(configs, overlays, datas), Net(links, serial), Procs(spawned, alive, pids, handles),
            Published(registry, rules))
    }

    constructor ()
      ensures Abstract() == INIT && Inv(Abstract())
    {
      configs, overlays, datas, links, serial := map[], map[], map[], map[], 0;
      spawned, alive, pids, handles, registry, rules := 0, {}, map[], map[], map[], map[];
      new;
      InitInv();
    }

    // ---- effects ----

    method QemuImg(volumes: map<string, Volume>, id: string, made: Volume, image: Image)
      returns (r: map<string, Volume>, ok: bool)
      ensures r == WriteImage(volumes, id, made, image)
      ensures ok == ImageOk(image)
    {
      match image
      case Rebuilt(owned) => return volumes[id := made], owned;
      case FailedNew => return volumes[id := made], false;
      case FailedOld => return volumes, false;
      case FailedGone => return volumes - {id}, false;
      case FailedDamaged => return volumes[id := Damaged], false;
    }

    method CreateVolumes(id: string, digest: string, passphrase: Passphrase, v: Volumes) returns (ok: bool)
      modifies this`overlays, this`datas
      ensures Abstract() == old(Abstract()).(disk := WriteVolumes(old(Abstract()).disk, id, digest, passphrase, v))
      ensures ok == VolumesOk(passphrase, v)
    {
      hide WriteImage;
      var encrypted := passphrase != Absent;
      if encrypted && !v.secret { return false; }
      overlays, ok := QemuImg(overlays, id, Intact(digest, encrypted), v.overlay);
      if !ok { return; }
      if v.hasData {
        datas, ok := QemuImg(datas, id, Intact("", encrypted), v.data);
      }
    }

    method RebuildOverlay(id: string, digest: string, passphrase: Passphrase, secret: bool, overlay: Image)
      returns (ok: bool)
      modifies this`overlays, this`datas
      ensures Abstract() == Rebuild(old(Abstract()), id, digest, passphrase, secret, overlay)
      ensures ok == RebuildOk(passphrase, secret, overlay)
    {
      hide WriteVolumes;
      ok := CreateVolumes(id, digest, passphrase, Volumes(secret, overlay, false, overlay));
    }

    method RemoveDirectory(id: string, removal: Removal) returns (ok: bool)
      modifies this`configs, this`overlays, this`datas
      ensures Abstract() == RemoveSpace(old(Abstract()), id, removal)
      ensures ok == (removal == Removed)
    {
      match removal
      case Removed =>
        configs, overlays, datas := configs - {id}, overlays - {id}, datas - {id};
        return true;
      case Partly(configGone, overlayGone, dataGone) =>
        if configGone { configs := configs - {id}; }
        if overlayGone { overlays := overlays - {id}; }
        if dataGone { datas := datas - {id}; }
        return false;
    }

    /** Writes the registry, then applies the rules. */
    method RefreshNet(refresh: Refresh) returns (ok: bool)
      modifies this`registry, this`rules
      ensures Abstract() == Publish(old(Abstract()), refresh)
      ensures ok == (refresh == Applied)
    {
      var view := map id | id in configs :: configs[id].cid;
      if refresh == WriteFailed { return false; }
      registry := view;
      if refresh == RulesFailed { return false; }
      rules := view;
      return true;
    }

    method DelLink(cid: nat, works: bool) returns (ok: bool)
      modifies this`links
      ensures Abstract() == old(Abstract()).(net := DeleteTap(old(Abstract()).net, cid, works))
      ensures ok == (cid in old(links) && works)
    {
      ok := cid in links && works;
      if ok { links := links - {cid}; }
    }

    method AddLink(cid: nat, tap: TapResult) returns (ok: bool)
      modifies this`links, this`serial
      ensures Abstract() == old(Abstract()).(net := MakeTap(old(Abstract()).net, cid, tap))
      ensures ok == (tap == TapUp)
    {
      if tap == TapFailed { return false; }
      links, serial := links[cid := Link(true, serial)], serial + 1;
      return tap == TapUp;
    }

    method Kill(id: string, killed: bool)
      modifies this`alive, this`pids, this`handles
      ensures Abstract() == old(Abstract()).(procs := KillAndReap(old(Abstract()).procs, id, killed))
    {
      if id in handles {
        alive, handles := alive - {handles[id]}, handles - {id};
      } else if id in pids && killed {
        alive := alive - {pids[id]};
      }
      pids := pids - {id};
    }

    // ---- operations ----

    method CreateSpace(q: Step) returns (reply: Reply)
      requires q.Create? && Inv(Abstract()) && Enabled(Abstract(), q)
      modifies this
      ensures (Abstract(), reply) == Apply(old(Abstract()), q)
      ensures Inv(Abstract())
    {
      StepKeepsInv(Abstract(), q);
      hide Inv, WriteVolumes, VolumesOk, RemoveFiles, View, Enabled;
      if q.passphrase == Empty { return Err(BadRequest); }
      if q.id == Registry.MIYORI_NET { return Err(BadRequest); }
      if q.id in configs { return Err(SpaceExists); }
      if q.refusal.Some? { return Err(q.refusal.value); }
      if !q.stored { return Err(Internal); }
      configs := configs[q.id := Config(q.cid, q.digest, q.passphrase == Given)];
      var ok := CreateVolumes(q.id, q.digest, q.passphrase, q.volumes);
      if ok { ok := RefreshNet(q.refresh); }
      if !ok {
        var _ := RemoveDirectory(q.id, q.removal);
        return Err(Internal);
      }
      return Ok;
    }

    /** The order of the checks on an existing space. */
    method Refused(id: string, passphrase: Passphrase, seen: bool) returns (r: Option<Code>)
      ensures r == Checks(Abstract(), id, passphrase, seen)
    {
      if id !in configs { return Some(SpaceNotFound); }
      if configs[id].encrypted && passphrase == Absent { return Some(BadRequest); }
      if !configs[id].encrypted && passphrase != Absent { return Some(BadRequest); }
      if seen { return Some(SpaceRunning); }
      return None;
    }

    method StartSpace(q: Step) returns (reply: Reply)
      requires q.Start? && Inv(Abstract()) && Enabled(Abstract(), q)
      modifies this
      ensures (Abstract(), reply) == Apply(old(Abstract()), q)
      ensures Inv(Abstract())
    {
      StepKeepsInv(Abstract(), q);
      hide Inv, Enabled, Launch, MakeTap;
      var refused := Refused(q.id, q.passphrase, q.seen);
      if refused.Some? { return Err(refused.value); }
      var space := configs[q.id];
      if q.refusal.Some? { return Err(q.refusal.value); }
      if space.cid in links {
        var gone := DelLink(space.cid, q.reaped);
        if !gone { return Err(Internal); }
      }
      var up := AddLink(space.cid, q.tap);
      if !up { return Err(Internal); }
      if q.passphrase != Absent && !q.secret {
        var _ := DelLink(space.cid, q.undone);
        return Err(Internal);
      }
      reply := SpawnQemu(q, space.cid);
    }

    /** Starts QEMU and waits for its guest; a process that dies takes its link and pid file with it. */
    method SpawnQemu(q: Step, cid: nat) returns (reply: Reply)
      requires q.Start?
      modifies this
      ensures (Abstract(), reply) == Launch(old(Abstract()), q, cid)
    {
      hide DeleteTap;
      if q.spawn == NotSpawned {
        var _ := DelLink(cid, q.undone);
        return Err(Internal);
      }
      var child := spawned;
      spawned := spawned + 1;
      pids := pids[q.id := child];
      if q.spawn.DiesAtOnce? {
        var _ := DelLink(cid, q.undone);
        pids := pids - {q.id};
        assert pids == Remove(old(pids), q.id);
        return DeathReply(q.spawn.wrongPassphrase);
      }
      handles := handles[q.id := child];
      if q.spawn.DiesWaiting? {
        handles, pids := handles - {q.id}, pids - {q.id};
        assert pids == Remove(old(pids), q.id) && handles == Remove(old(handles), q.id);
        var _ := DelLink(cid, q.undone);
        return DeathReply(q.spawn.wrongPassphrase);
      }
      alive := alive + {child};
      return Ok;
    }

    method StopSpace(q: Step) returns (reply: Reply)
      requires q.Stop? && Inv(Abstract()) && Enabled(Abstract(), q)
      modifies this
      ensures (Abstract(), reply) == Apply(old(Abstract()), q)
      ensures Inv(Abstract())
    {
      StepKeepsInv(Abstract(), q);
      hide Inv, Enabled, KillAndReap, DeleteTap;
      if q.id !in configs { return Err(SpaceNotFound); }
      if !q.seen { return Err(SpaceStopped); }
      Kill(q.id, q.killed);
      var ok := DelLink(configs[q.id].cid, q.deleted);
      if !ok { return Err(Internal); }
      // the clean-shutdown mark, which is not part of this state
      if !q.written { return Err(Internal); }
      return Ok;
    }

    method ResetSystemOverlay(q: Step) returns (reply: Reply)
      requires q.ResetSystem? && Inv(Abstract()) && Enabled(Abstract(), q)
      modifies this
      ensures (Abstract(), reply) == Apply(old(Abstract()), q)
      ensures Inv(Abstract())
    {
      StepKeepsInv(Abstract(), q);
      hide Inv, Enabled, Rebuild;
      var refused := Refused(q.id, q.passphrase, q.seen);
      if refused.Some? { return Err(refused.value); }
      var ok := RebuildOverlay(q.id, configs[q.id].digest, q.passphrase, q.secret, q.overlay);
      return if ok then Ok else Err(Internal);
    }

    method ResetAllVolumes(q: Step) returns (reply: Reply)
      requires q.ResetAll? && Inv(Abstract()) && Enabled(Abstract(), q)
      modifies this
      ensures (Abstract(), reply) == Apply(old(Abstract()), q)
      ensures Inv(Abstract())
    {
      StepKeepsInv(Abstract(), q);
      hide Inv, Enabled, WriteVolumes, VolumesOk;
      var refused := Refused(q.id, q.passphrase, q.seen);
      if refused.Some? { return Err(refused.value); }
      if q.refusal.Some? { return Err(q.refusal.value); }
      var ok := CreateVolumes(q.id, configs[q.id].digest, q.passphrase, q.volumes);
      return if ok then Ok else Err(Internal);
    }

    method UpdateSpaceImage(q: Step) returns (reply: Reply)
      requires q.UpdateImage? && Inv(Abstract()) && Enabled(Abstract(), q)
      modifies this
      ensures (Abstract(), reply) == Apply(old(Abstract()), q)
      ensures Inv(Abstract())
    {
      StepKeepsInv(Abstract(), q);
      hide Inv, Enabled, WriteVolumes;
      var refused := Refused(q.id, q.passphrase, q.seen);
      if refused.Some? { return Err(refused.value); }
      if q.latest.None? { return Err(TemplateNotFound); }
      var digest := q.latest.value;
      if digest == configs[q.id].digest { return Ok; }
      if !q.complete { return Err(TemplateNotFound); }
      // the overlay changes before the digest
      var ok := RebuildOverlay(q.id, digest, q.passphrase, q.secret, q.overlay);
      if !ok { return Err(Internal); }
      if !q.written { return Err(Internal); }
      configs := configs[q.id := configs[q.id].(digest := digest)];
      return Ok;
    }

    method DestroySpace(q: Step) returns (reply: Reply)
      requires q.Destroy? && Inv(Abstract()) && Enabled(Abstract(), q)
      modifies this
      ensures (Abstract(), reply) == Apply(old(Abstract()), q)
      ensures Inv(Abstract())
    {
      StepKeepsInv(Abstract(), q);
      hide Inv, Enabled, RemoveFiles, View;
      if q.id !in configs { return Err(SpaceNotFound); }
      if q.seen { return Err(SpaceRunning); }
      var cid := configs[q.id].cid;
      if cid in links {
        var gone := DelLink(cid, q.deleted);
        if !gone { return Err(Internal); }
      }
      var removed := RemoveDirectory(q.id, q.removal);
      if !removed { return Err(Internal); }
      var ok := RefreshNet(q.refresh);
      return if ok then Ok else Err(Internal);
    }
  }
}
