/**
 * The class of plugin/src/approval-watcher.ts with its two in-memory maps and
 * its file, each method tied to the steps it takes in the machine of module
 * Watcher.  The clock readings a method makes are its parameters.
 */
module WatcherCode {
  import opened Watcher

  /** The file, which outlives the process. */
  class Storage {
    var file: File

    constructor (file: File)
      ensures this.file == file
    {
      this.file := file;
    }
  }

  /** Deleting stale routes while walking the map. */
  method SweepTracked(m: map<Id, Entry>, cutoff: int) returns (r: map<Id, Entry>, changed: bool)
    ensures r == FreshTracked(m, cutoff)
    ensures changed <==> r != m
  {
    r, changed := m, false;
    var todo := m.Keys;
    while todo != {}
      invariant todo <= m.Keys
      invariant forall id :: id in r <==> id in m && (id in todo || m[id].createdAt >= cutoff)
      invariant forall id :: id in r ==> r[id] == m[id]
      invariant changed <==> exists id :: id in m && id !in todo && m[id].createdAt < cutoff
      decreases todo
    {
      var id :| id in todo;
      if r[id].createdAt < cutoff {
        r := r - {id};
        changed := true;
      }
      todo := todo - {id};
    }
    assert r == FreshTracked(m, cutoff);
    if changed {
      var id :| id in m && m[id].createdAt < cutoff;
      assert id !in r;
    } else {
      assert r == m;
    }
  }

  /** The same for the tombstones. */
  method SweepNotified(m: map<Id, int>, cutoff: int) returns (r: map<Id, int>, changed: bool)
    ensures r == FreshNotified(m, cutoff)
    ensures changed <==> r != m
  {
    r, changed := m, false;
    var todo := m.Keys;
    while todo != {}
      invariant todo <= m.Keys
      invariant forall id :: id in r <==> id in m && (id in todo || m[id] >= cutoff)
      invariant forall id :: id in r ==> r[id] == m[id]
      invariant changed <==> exists id :: id in m && id !in todo && m[id] < cutoff
      decreases todo
    {
      var id :| id in todo;
      if r[id] < cutoff {
        r := r - {id};
        changed := true;
      }
      todo := todo - {id};
    }
    assert r == FreshNotified(m, cutoff);
    if changed {
      var id :| id in m && m[id] < cutoff;
      assert id !in r;
    } else {
      assert r == m;
    }
  }

  /** Rebuilding the routes from the file. */
  method LoadTracked(source: map<Id, Entry>, cutoff: int) returns (next: map<Id, Entry>)
    ensures next == Routable(source, cutoff)
  {
    next := map[];
    var todo := source.Keys;
    while todo != {}
      invariant todo <= source.Keys
      invariant forall id :: id in next <==>
        id in source && id !in todo && source[id].sessionKey != "" && source[id].createdAt >= cutoff
      invariant forall id :: id in next ==> next[id] == source[id]
      decreases todo
    {
      var id :| id in todo;
      todo := todo - {id};
      if source[id].sessionKey == "" || source[id].createdAt < cutoff {
        continue;
      }
      next := next[id := source[id]];
    }
    assert next == Routable(source, cutoff);
  }

  method LoadNotified(source: map<Id, int>, cutoff: int) returns (next: map<Id, int>)
    ensures next == FreshNotified(source, cutoff)
  {
    next := map[];
    var todo := source.Keys;
    while todo != {}
      invariant todo <= source.Keys
      invariant forall id :: id in next <==> id in source && id !in todo && source[id] >= cutoff
      invariant forall id :: id in next ==> next[id] == source[id]
      decreases todo
    {
      var id :| id in todo;
      todo := todo - {id};
      if source[id] < cutoff {
        continue;
      }
      next := next[id := source[id]];
    }
    assert next == FreshNotified(source, cutoff);
  }

  class ApprovalWatcher {
    var sessionMap: map<Id, Entry>
    var notified: map<Id, int>
    const storage: Storage

    ghost function Mem(): (m: Memory)
      reads this
    {
      Memory(sessionMap, notified)
    }

    /** The machine's world, as far as this object shows it between two calls. */
    ghost predicate Shows(w: World)
      reads this, storage
    {
      w.file == storage.file && w.process == Up(Mem(), Idle)
    }

    /** Construction, then setStoragePath, which loads the file once. */
    constructor (storage: Storage, now: int, ghost before: World)
      requires before.clock == now && before.file == storage.file && before.process == Down
      ensures this.storage == storage
      ensures Shows(Exec(before, Start))
    {
      this.storage := storage;
      sessionMap, notified := map[], map[];
      new;
      LoadPersistedMap(now);
    }

    method LoadPersistedMap(now: int)
      modifies this
      ensures Mem() == Loaded(old(Mem()), storage.file, now)
    {
      match storage.file
      case Missing =>
      case Garbled =>
      case Flat(t) =>
        sessionMap := LoadTracked(t, now - TRACKED_TTL);
        notified := map[];
      case Full(t, n) =>
        sessionMap := LoadTracked(t, now - TRACKED_TTL);
        notified := LoadNotified(n, now - NOTIFIED_TTL);
    }

    /** Staging and renaming a temporary file replaces the content in one step. */
    method PersistMap()
      modifies storage
      ensures storage.file == Saved(Mem())
    {
      storage.file := Full(sessionMap, notified);
    }

    method TrackApproval(id: Id, sessionKey: string, context: string, now: int, ghost before: World)
      requires Shows(before) && before.clock == now
      modifies this, storage
      ensures Shows(Exec(Exec(before, Track(id, sessionKey, context)), Continue(true)))
    {
      sessionMap := sessionMap[id := Entry(sessionKey, context, now)];
      PersistMap();
    }

    /** One tick of the five-minute timer. */
    method Cleanup(now: int, ghost before: World)
      requires Shows(before) && before.clock == now
      modifies this, storage
      ensures Shows(Exec(Exec(before, Sweep), Continue(true)))
    {
      var stale, buried;
      sessionMap, stale := SweepTracked(sessionMap, now - TRACKED_TTL);
      notified, buried := SweepNotified(notified, now - NOTIFIED_TTL);
      if stale || buried {
        PersistMap();
      }
    }

    /**
     * Claiming: `now` is read for the memory claim or the tombstone test,
     * `then1` for the age test of the route on disk, `then2` for the
     * tombstone written there.
     */
    method ClaimApproval(id: Id, now: int, then1: int, then2: int)
      returns (claim: seq<Claim>, alreadyNotified: bool)
      requires now <= then1 <= then2 && id !in notified
      modifies this, storage
      ensures |claim| <= 1
      ensures alreadyNotified <==> id !in old(sessionMap) && BuriedOnDisk(old(storage.file), id, now)
      ensures claim != [] <==>
        id in old(sessionMap) || (!alreadyNotified && RoutableOnDisk(old(storage.file), id, then1))
      ensures claim != [] ==>
        && claim[0].id == id
        && Mem() == Marked(old(Mem()), id, claim[0].at)
        && (id in old(sessionMap) ==>
          claim[0] == Claim(id, old(sessionMap)[id], now) && storage.file == Saved(Mem()))
        && (id !in old(sessionMap) ==>
          && claim[0] == Claim(id, old(storage.file).tracked[id], then2)
          && storage.file == Full(old(storage.file).tracked - {id}, old(storage.file).notified[id := then2]))
      ensures claim == [] ==>
        && storage.file == old(storage.file) && sessionMap == old(sessionMap)
        && notified == if alreadyNotified then old(notified)[id := storage.file.notified[id]] else old(notified)
    {
      claim, alreadyNotified := [], false;
      if id in sessionMap {
        claim := [Claim(id, sessionMap[id], now)];
        notified := notified[id := now];
        sessionMap := sessionMap - {id};
        PersistMap();
        return;
      }
      if !storage.file.Full? {
        return;
      }
      var file := storage.file;
      if id in file.notified && file.notified[id] >= now - NOTIFIED_TTL {
        notified := notified[id := file.notified[id]];
        return [], true;
      }
      if id !in file.tracked || file.tracked[id].sessionKey == "" {
        return;
      }
      if file.tracked[id].createdAt < then1 - TRACKED_TTL {
        return;
      }
      storage.file := Full(file.tracked - {id}, file.notified[id := then2]);
      notified := notified[id := then2];
      sessionMap := sessionMap - {id};
      return [Claim(id, file.tracked[id], then2)], false;
    }

    /**
     * A resolved event, from the stream or from polling: exactly the machine's
     * steps up to the next idle point, with the announcements it makes.
     */
    method OnApprovalResolved(id: Id, now: int, then1: int, then2: int, agent: bool, ghost before: World)
      returns (announced: seq<Claim>)
      requires Shows(before) && before.clock == now <= then1 <= then2
      modifies this, storage
      ensures
        var step := Exec(before, Resolved(id, then1 - now, then2 - then1));
        var after := Exec(Exec(step, Continue(agent)), Continue(agent));
        Shows(after) && after.runs == before.runs + announced
    {
      announced := [];
      if id in notified {
        return;
      }
      var claim, alreadyNotified := ClaimApproval(id, now, then1, then2);
      if alreadyNotified || claim == [] {
        return;
      }
      if agent {
        announced := claim;
      }
    }
  }
}
