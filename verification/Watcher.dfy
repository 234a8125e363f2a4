/**
 * The approval notifier of plugin/src/approval-watcher.ts as a machine that
 * may lose its memory between any two effects.
 *
 * The watcher remembers which session waits for which approval (`tracked`)
 * and which approvals it has announced (`notified`, the tombstones).  Both
 * halves are kept in memory and in one file that is replaced atomically.  An
 * approval is claimed by writing a tombstone, and announced only afterwards.
 */
module Watcher {

  const TRACKED_TTL: int := 24 * 60 * 60 * 1000
  const NOTIFIED_TTL: int := 30 * 24 * 60 * 60 * 1000

  /** The number the backend gave the approval. */
  datatype Id = Id(number: int)

  datatype Entry = Entry(sessionKey: string, context: string, createdAt: int)

  datatype Memory = Memory(tracked: map<Id, Entry>, notified: map<Id, int>)

  /** Flat is the older layout, in which the whole file is the tracked map. */
  datatype File =
    | Missing
    | Garbled
    | Flat(tracked: map<Id, Entry>)
    | Full(tracked: map<Id, Entry>, notified: map<Id, int>)

  datatype Claim = Claim(id: Id, entry: Entry, at: int)

  /**
   * Where the single JavaScript thread stands between two effects: saving its
   * memory; having claimed in memory but not yet on disk; having claimed on
   * disk but not yet in memory; or about to announce.
   */
  datatype Pc =
    | Idle
    | Saving
    | Claimed(claim: Claim)
    | Recovered(claim: Claim)
    | Announcing(claim: Claim)

  datatype Process = Down | Up(mem: Memory, pc: Pc)

  datatype World = World(clock: int, file: File, process: Process, runs: seq<Claim>, given: set<(Id, Entry)>)

  datatype Action =
    | Tick(ms: nat)
    | Crash
    | Start
    | Track(id: Id, sessionKey: string, context: string)
    | Sweep
    | Resolved(id: Id, pause: nat, pause': nat)
    | Continue(agent: bool)

  // ---- The operations on values ----

  function FreshTracked(m: map<Id, Entry>, cutoff: int): (r: map<Id, Entry>)
  {
    map id | id in m && m[id].createdAt >= cutoff :: m[id]
  }

  function Routable(m: map<Id, Entry>, cutoff: int): (r: map<Id, Entry>)
  {
    map id | id in m && m[id].sessionKey != "" && m[id].createdAt >= cutoff :: m[id]
  }

  function FreshNotified(m: map<Id, int>, cutoff: int): (r: map<Id, int>)
  {
    map id | id in m && m[id] >= cutoff :: m[id]
  }

  function Loaded(blank: Memory, file: File, now: int): (r: Memory)
  {
    match file
    case Missing => blank
    case Garbled => blank
    case Flat(t) => Memory(Routable(t, now - TRACKED_TTL), map[])
    case Full(t, n) => Memory(Routable(t, now - TRACKED_TTL), FreshNotified(n, now - NOTIFIED_TTL))
  }

  function Tracked(mem: Memory, id: Id, entry: Entry): (r: Memory)
  {
    mem.(tracked := mem.tracked[id := entry])
  }

  function Swept(mem: Memory, now: int): (r: Memory)
  {
    Memory(FreshTracked(mem.tracked, now - TRACKED_TTL), FreshNotified(mem.notified, now - NOTIFIED_TTL))
  }

  /** Memory once the id is claimed: the route is gone and the tombstone is there. */
  function Marked(mem: Memory, id: Id, at: int): (r: Memory)
  {
    Memory(mem.tracked - {id}, mem.notified[id := at])
  }

  function Saved(mem: Memory): (r: File) { Full(mem.tracked, mem.notified) }

  predicate BuriedOnDisk(file: File, id: Id, now: int)
  {
    file.Full? && id in file.notified && file.notified[id] >= now - NOTIFIED_TTL
  }

  predicate RoutableOnDisk(file: File, id: Id, now: int)
  {
    file.Full? && id in file.tracked && file.tracked[id].sessionKey != ""
    && file.tracked[id].createdAt >= now - TRACKED_TTL
  }

  // ---- Steps ----

  /** One resolved event: a live one, or one found by polling after a reconnect. */
  function OnResolved(w: World, mem: Memory, id: Id, then1: int, then2: int): (w': World)
  {
    if id in mem.notified then w
    else if id in mem.tracked then
      w.(process := Up(Marked(mem, id, w.clock), Claimed(Claim(id, mem.tracked[id], w.clock))))
    else if BuriedOnDisk(w.file, id, w.clock) then
      w.(process := Up(mem.(notified := mem.notified[id := w.file.notified[id]]), Idle))
    else if RoutableOnDisk(w.file, id, then1) then
      w.(clock := then2,
         file := Full(w.file.tracked - {id}, w.file.notified[id := then2]),
         process := Up(mem, Recovered(Claim(id, w.file.tracked[id], then2))))
    else w
  }

  function OnContinue(w: World, mem: Memory, pc: Pc, agent: bool): (w': World)
  {
    match pc
    case Idle => w
    case Saving => w.(file := Saved(mem), process := Up(mem, Idle))
    case Claimed(c) => w.(file := Saved(mem), process := Up(mem, Announcing(c)))
    case Recovered(c) => w.(process := Up(Marked(mem, c.id, c.at), Announcing(c)))
    case Announcing(c) =>
      w.(process := Up(mem, Idle), runs := if agent then w.runs + [c] else w.runs)
  }

  function OnTrack(w: World, mem: Memory, id: Id, entry: Entry): (w': World)
  {
    w.(process := Up(Tracked(mem, id, entry), Saving), given := w.given + {(id, entry)})
  }

  function OnSweep(w: World, mem: Memory): (w': World)
  {
    w.(process := Up(Swept(mem, w.clock), if Swept(mem, w.clock) == mem then Idle else Saving))
  }

  const BLANK: Memory := Memory(map[], map[])

  function Exec(w: World, a: Action): (w': World)
  {
    match a
    case Tick(ms) => w.(clock := w.clock + ms)
    case Crash => w.(process := Down)
    case Start => if w.process.Down? then w.(process := Up(Loaded(BLANK, w.file, w.clock), Idle)) else w
    case Track(id, sessionKey, context) =>
      if w.process.Up? && w.process.pc.Idle?
      then OnTrack(w, w.process.mem, id, Entry(sessionKey, context, w.clock)) else w
    case Sweep =>
      if w.process.Up? && w.process.pc.Idle? then OnSweep(w, w.process.mem) else w
    case Resolved(id, pause, pause') =>
      if w.process.Up? && w.process.pc.Idle?
      then OnResolved(w, w.process.mem, id, w.clock + pause, w.clock + pause + pause') else w
    case Continue(agent) =>
      if w.process.Up? then OnContinue(w, w.process.mem, w.process.pc, agent) else w
  }

  function ExecAll(w: World, actions: seq<Action>): (w': World)
  {
    if actions == [] then w else Exec(ExecAll(w, actions[..|actions| - 1]), actions[|actions| - 1])
  }

  function FileEntries(file: File): (r: map<Id, Entry>)
  {
    if file.Flat? || file.Full? then file.tracked else map[]
  }

  /** Any file may be found at first; nothing has been announced. */
  function Begin(clock: int, file: File): (w: World)
  {
    World(clock, file, Down, [], set id | id in FileEntries(file) :: (id, FileEntries(file)[id]))
  }

  // ---- What every step keeps ----

  /** Two announcements of one approval lie more than the retention time apart. */
  predicate Apart(earlier: Claim, later: Claim)
  {
    earlier.id == later.id ==> later.at - earlier.at > NOTIFIED_TTL
  }

  ghost predicate AllApart(runs: seq<Claim>)
  {
    forall i, j :: 0 <= i < j < |runs| ==> Apart(runs[i], runs[j])
  }

  ghost predicate After(runs: seq<Claim>, c: Claim)
  {
    forall i :: 0 <= i < |runs| ==> Apart(runs[i], c)
  }

  /** A tombstone for the claim that will not be dropped before the claim's time is up. */
  predicate Buries(notified: map<Id, int>, c: Claim)
  {
    c.id in notified && notified[c.id] >= c.at
  }

  predicate Young(clock: int, c: Claim) { c.at >= clock - NOTIFIED_TTL }

  ghost predicate BuriesYoung(notified: map<Id, int>, clock: int, runs: seq<Claim>)
  {
    forall i :: 0 <= i < |runs| && Young(clock, runs[i]) ==> Buries(notified, runs[i])
  }

  function Tombstones(file: File): (r: map<Id, int>)
  {
    if file.Full? then file.notified else map[]
  }

  ghost predicate PendingOk(w: World, mem: Memory, pc: Pc)
  {
    match pc
    case Idle => true
    case Saving => true
    case Claimed(c) => Buries(mem.notified, c) && After(w.runs, c)
    case Recovered(c) => Buries(Tombstones(w.file), c) && After(w.runs, c)
    case Announcing(c) => Buries(mem.notified, c) && Buries(Tombstones(w.file), c) && After(w.runs, c)
  }

  ghost predicate Inv(w: World)
  {
    && AllApart(w.runs)
    && BuriesYoung(Tombstones(w.file), w.clock, w.runs)
    && (w.process.Up? ==>
      BuriesYoung(w.process.mem.notified, w.clock, w.runs) && PendingOk(w, w.process.mem, w.process.pc))
  }

  lemma {:induction false} YoungerBuried(notified: map<Id, int>, clock: int, clock': int, runs: seq<Claim>)
    requires BuriesYoung(notified, clock, runs) && clock <= clock'
    ensures BuriesYoung(notified, clock', runs)
  {
  }

  lemma {:induction false} FilterBuries(notified: map<Id, int>, clock: int, runs: seq<Claim>)
    requires BuriesYoung(notified, clock, runs)
    ensures BuriesYoung(FreshNotified(notified, clock - NOTIFIED_TTL), clock, runs)
  {
  }

  lemma {:induction false} MarkBuries(notified: map<Id, int>, clock: int, runs: seq<Claim>, id: Id, at: int)
    requires BuriesYoung(notified, clock, runs) && After(runs, Claim(id, Entry("", "", 0), at))
    ensures BuriesYoung(notified[id := at], clock, runs)
  {
    forall i | 0 <= i < |runs| && Young(clock, runs[i]) ensures Buries(notified[id := at], runs[i]) {
      assert Apart(runs[i], Claim(id, Entry("", "", 0), at));
    }
  }

  /** With no tombstone, every announcement of the id is too old to matter. */
  lemma {:induction false} UnburiedIsAfter(notified: map<Id, int>, clock: int, runs: seq<Claim>, c: Claim)
    requires BuriesYoung(notified, clock, runs)
    requires c.id !in notified || notified[c.id] < clock - NOTIFIED_TTL
    requires clock <= c.at
    ensures After(runs, c)
  {
    forall i | 0 <= i < |runs| ensures Apart(runs[i], c) {
      if runs[i].id == c.id && Young(clock, runs[i]) {
        assert Buries(notified, runs[i]);
      }
    }
  }

  lemma {:induction false} AfterAny(runs: seq<Claim>, c: Claim, d: Claim)
    requires After(runs, c) && c.id == d.id && c.at == d.at
    ensures After(runs, d)
  {
    forall i | 0 <= i < |runs| ensures Apart(runs[i], d) {
      assert Apart(runs[i], c);
    }
  }

  lemma {:induction false} ResolvedKeeps(w: World, mem: Memory, id: Id, then1: int, then2: int)
    requires Inv(w) && w.process == Up(mem, Idle) && w.clock <= then1 <= then2
    ensures Inv(OnResolved(w, mem, id, then1, then2))
  {
    if id !in mem.notified {
      if id in mem.tracked {
        var c := Claim(id, mem.tracked[id], w.clock);
        UnburiedIsAfter(mem.notified, w.clock, w.runs, c);
        AfterAny(w.runs, c, Claim(id, Entry("", "", 0), w.clock));
        MarkBuries(mem.notified, w.clock, w.runs, id, w.clock);
      } else if BuriedOnDisk(w.file, id, w.clock) {
        BuriedRemembered(w, mem, id);
      } else if RoutableOnDisk(w.file, id, then1) {
        RecoveredKeeps(w, mem, id, then2);
      }
    }
  }

  lemma {:induction false} BuriedRemembered(w: World, mem: Memory, id: Id)
    requires BuriesYoung(mem.notified, w.clock, w.runs) && BuriesYoung(Tombstones(w.file), w.clock, w.runs)
    requires w.file.Full? && id in w.file.notified
    ensures BuriesYoung(mem.notified[id := w.file.notified[id]], w.clock, w.runs)
  {
    var next := mem.notified[id := w.file.notified[id]];
    forall i | 0 <= i < |w.runs| && Young(w.clock, w.runs[i]) ensures Buries(next, w.runs[i]) {
      assert Buries(mem.notified, w.runs[i]) && Buries(Tombstones(w.file), w.runs[i]);
    }
  }

  lemma {:induction false} RecoveredKeeps(w: World, mem: Memory, id: Id, at: int)
    requires Inv(w) && w.process == Up(mem, Idle) && w.clock <= at && w.file.Full?
    requires id in w.file.tracked && !BuriedOnDisk(w.file, id, w.clock)
    ensures Inv(w.(clock := at,
                   file := Full(w.file.tracked - {id}, w.file.notified[id := at]),
                   process := Up(mem, Recovered(Claim(id, w.file.tracked[id], at)))))
  {
    var c := Claim(id, w.file.tracked[id], at);
    UnburiedIsAfter(w.file.notified, w.clock, w.runs, c);
    AfterAny(w.runs, c, Claim(id, Entry("", "", 0), at));
    MarkBuries(w.file.notified, w.clock, w.runs, id, at);
    YoungerBuried(w.file.notified[id := at], w.clock, at, w.runs);
    YoungerBuried(mem.notified, w.clock, at, w.runs);
  }

  lemma {:induction false} ContinueKeeps(w: World, mem: Memory, pc: Pc, agent: bool)
    requires Inv(w) && w.process == Up(mem, pc)
    ensures Inv(OnContinue(w, mem, pc, agent))
  {
    match pc
    case Idle =>
    case Saving =>
    case Claimed(c) =>
    case Recovered(c) =>
      AfterAny(w.runs, c, Claim(c.id, Entry("", "", 0), c.at));
      MarkBuries(mem.notified, w.clock, w.runs, c.id, c.at);
    case Announcing(c) =>
  }

  lemma {:induction false} StepKeeps(w: World, a: Action)
    requires Inv(w)
    ensures Inv(Exec(w, a))
  {
    match a
    case Tick(ms) =>
      YoungerBuried(Tombstones(w.file), w.clock, w.clock + ms, w.runs);
      if w.process.Up? {
        YoungerBuried(w.process.mem.notified, w.clock, w.clock + ms, w.runs);
      }
    case Crash =>
    case Start =>
      FilterBuries(Tombstones(w.file), w.clock, w.runs);
    case Track(_, _, _) =>
    case Sweep =>
      if w.process.Up? {
        FilterBuries(w.process.mem.notified, w.clock, w.runs);
      }
    case Resolved(id, pause, pause') =>
      if w.process.Up? && w.process.pc.Idle? {
        ResolvedKeeps(w, w.process.mem, id, w.clock + pause, w.clock + pause + pause');
      }
    case Continue(agent) =>
      if w.process.Up? {
        ContinueKeeps(w, w.process.mem, w.process.pc, agent);
      }
  }

  lemma {:induction false} RunKeeps(w: World, actions: seq<Action>)
    requires Inv(w)
    ensures Inv(ExecAll(w, actions))
  {
    if actions != [] {
      RunKeeps(w, actions[..|actions| - 1]);
      StepKeeps(ExecAll(w, actions[..|actions| - 1]), actions[|actions| - 1]);
    }
  }

  /**
   * Whatever file is found at first, and for every sequence of events,
   * trackings, sweeps, pauses, crashes and restarts, two announcements of the
   * same approval were claimed more than thirty days apart.
   */
  lemma {:induction false} AnnouncedOnce(clock: int, file: File, actions: seq<Action>, i: nat, j: nat)
    requires i < j < |ExecAll(Begin(clock, file), actions).runs|
    ensures
      var runs := ExecAll(Begin(clock, file), actions).runs;
      runs[i].id == runs[j].id ==> runs[j].at - runs[i].at > 30 * 24 * 60 * 60 * 1000
  {
    RunKeeps(Begin(clock, file), actions);
    var runs := ExecAll(Begin(clock, file), actions).runs;
    assert Apart(runs[i], runs[j]);
  }

  // ---- Where an announcement goes ----

  ghost predicate From(entries: map<Id, Entry>, given: set<(Id, Entry)>)
  {
    forall id :: id in entries ==> (id, entries[id]) in given
  }

  ghost predicate RoutedPc(pc: Pc, given: set<(Id, Entry)>)
  {
    pc.Claimed? || pc.Recovered? || pc.Announcing? ==> (pc.claim.id, pc.claim.entry) in given
  }

  ghost predicate Routed(w: World)
  {
    && From(FileEntries(w.file), w.given)
    && (w.process.Up? ==> From(w.process.mem.tracked, w.given) && RoutedPc(w.process.pc, w.given))
    && (forall i :: 0 <= i < |w.runs| ==> (w.runs[i].id, w.runs[i].entry) in w.given)
  }

  lemma {:induction false} RoutedStep(w: World, a: Action)
    requires Routed(w)
    ensures Routed(Exec(w, a))
  {
  }

  lemma {:induction false} RoutedRun(w: World, actions: seq<Action>)
    requires Routed(w)
    ensures Routed(ExecAll(w, actions))
  {
    if actions != [] {
      RoutedRun(w, actions[..|actions| - 1]);
      RoutedStep(ExecAll(w, actions[..|actions| - 1]), actions[|actions| - 1]);
    }
  }

  /** An announcement only goes to a session that was tracked for that very approval. */
  lemma {:induction false} AnnouncedWhereTracked(clock: int, file: File, actions: seq<Action>, i: nat)
    requires i < |ExecAll(Begin(clock, file), actions).runs|
    ensures
      var w := ExecAll(Begin(clock, file), actions);
      (w.runs[i].id, w.runs[i].entry) in w.given
  {
    RoutedRun(Begin(clock, file), actions);
  }

  // ---- Saving and loading ----

  /** What was saved is loaded unchanged if and only if every route can still be followed and no
      tombstone has aged out. */
  lemma {:induction false} SavedIsLoaded(blank: Memory, mem: Memory, now: int)
    ensures Loaded(blank, Saved(mem), now) == mem <==>
      && (forall id :: id in mem.tracked ==>
        mem.tracked[id].sessionKey != "" && now - mem.tracked[id].createdAt <= 24 * 60 * 60 * 1000)
      && (forall id :: id in mem.notified ==> now - mem.notified[id] <= 30 * 24 * 60 * 60 * 1000)
  {
    var back := Loaded(blank, Saved(mem), now);
    if back == mem {
      forall id | id in mem.tracked ensures id in back.tracked {
      }
      forall id | id in mem.notified ensures id in back.notified {
      }
    } else {
      assert back.tracked != mem.tracked || back.notified != mem.notified;
    }
  }

  // ---- The bound is exact ----

  /** Thirty days and a millisecond later the same approval may be announced again. */
  lemma {:induction false} AnnouncedAgain(id: Id, sessionKey: string, context: string)
    ensures
      var once := [Track(id, sessionKey, context), Continue(true), Resolved(id, 0, 0), Continue(true), Continue(true)];
      var actions := [Start] + once + [Tick(NOTIFIED_TTL + 1), Sweep, Continue(true)] + once;
      var runs := ExecAll(Begin(0, Missing), actions).runs;
      |runs| == 2 && runs[0].id == runs[1].id == id && runs[1].at - runs[0].at == NOTIFIED_TTL + 1
  {
    var once := [Track(id, sessionKey, context), Continue(true), Resolved(id, 0, 0), Continue(true), Continue(true)];
    var w0 := Exec(Begin(0, Missing), Start);
    assert w0.process == Up(BLANK, Idle);
    AnnounceOne(w0, id, sessionKey, context);
    var w1 := ExecAll(w0, once);
    var quiet := [Tick(NOTIFIED_TTL + 1), Sweep, Continue(true)];
    Forgets(w1, id);
    var w2 := ExecAll(w1, quiet);
    AnnounceOne(w2, id, sessionKey, context);
    ExecAllOne(Begin(0, Missing), Start);
    ExecAllAppend(Begin(0, Missing), [Start], once);
    ExecAllAppend(Begin(0, Missing), [Start] + once, quiet);
    ExecAllAppend(Begin(0, Missing), [Start] + once + quiet, once);
  }

  lemma {:induction false} ExecAllOne(w: World, a: Action)
    ensures ExecAll(w, [a]) == Exec(w, a)
  {
    assert [a][..0] == [];
    assert ExecAll(w, []) == w;
  }

  lemma {:induction false} ExecAllAppend(w: World, first: seq<Action>, second: seq<Action>)
    ensures ExecAll(w, first + second) == ExecAll(ExecAll(w, first), second)
    decreases |second|
  {
    if second == [] {
      assert first + second == first;
    } else {
      var all := first + second;
      assert all[..|all| - 1] == first + second[..|second| - 1];
      ExecAllAppend(w, first, second[..|second| - 1]);
    }
  }

  lemma {:induction false} ExecAllCons(w: World, a: Action, rest: seq<Action>)
    ensures ExecAll(w, [a] + rest) == ExecAll(Exec(w, a), rest)
  {
    ExecAllOne(w, a);
    ExecAllAppend(w, [a], rest);
  }

  lemma {:induction false} AnnounceOne(w: World, id: Id, sessionKey: string, context: string)
    requires w.process == Up(Memory(map[], map[]), Idle)
    ensures
      var entry := Entry(sessionKey, context, w.clock);
      var once := [Track(id, sessionKey, context), Continue(true), Resolved(id, 0, 0), Continue(true), Continue(true)];
      var w' := ExecAll(w, once);
      && w'.runs == w.runs + [Claim(id, entry, w.clock)]
      && w'.clock == w.clock
      && w'.process == Up(Memory(map[], map[id := w.clock]), Idle)
  {
    var c := Continue(true);
    var t, r := Track(id, sessionKey, context), Resolved(id, 0, 0);
    var entry := Entry(sessionKey, context, w.clock);
    var w1 := Exec(w, t);
    assert w1.process == Up(Memory(map[id := entry], map[]), Saving);
    var w2 := Exec(w1, c);
    var w3 := Exec(w2, r);
    assert map[id := entry] - {id} == map[];
    assert w3.process == Up(Memory(map[], map[id := w.clock]), Claimed(Claim(id, entry, w.clock)));
    var w5 := Exec(Exec(w3, c), c);
    assert [t, c, r, c, c] == [t] + ([c] + ([r] + ([c] + [c])));
    ExecAllCons(w, t, [c] + ([r] + ([c] + [c])));
    ExecAllCons(w1, c, [r] + ([c] + [c]));
    ExecAllCons(w2, r, [c] + [c]);
    ExecAllCons(w3, c, [c]);
    ExecAllOne(Exec(w3, c), c);
  }

  lemma {:induction false} Forgets(w: World, id: Id)
    requires w.process == Up(Memory(map[], map[id := w.clock]), Idle)
    ensures
      var w' := ExecAll(w, [Tick(NOTIFIED_TTL + 1), Sweep, Continue(true)]);
      && w'.process == Up(Memory(map[], map[]), Idle)
      && w'.runs == w.runs && w'.clock == w.clock + NOTIFIED_TTL + 1
  {
    var t, c := Tick(NOTIFIED_TTL + 1), Continue(true);
    var w1 := Exec(w, t);
    assert FreshNotified(map[id := w.clock], w1.clock - NOTIFIED_TTL) == map[];
    assert FreshTracked(map[], w1.clock - TRACKED_TTL) == map[];
    var mem := w.process.mem;
    assert id in mem.notified && id !in Swept(mem, w1.clock).notified;
    var w2 := Exec(w1, Sweep);
    assert w2.process == Up(Memory(map[], map[]), Saving);
    assert [t, Sweep, c] == [t] + ([Sweep] + [c]);
    ExecAllCons(w, t, [Sweep] + [c]);
    ExecAllCons(w1, Sweep, [c]);
    ExecAllOne(w2, c);
  }

  // ---- A resolved approval is announced ----

  ghost predicate Holds(tracked: map<Id, Entry>, notified: map<Id, int>, id: Id, entry: Entry)
  {
    id in tracked && tracked[id] == entry && id !in notified
  }

  /** The route is on disk and, while the process is up, in memory; nothing says it was announced. */
  ghost predicate Awaited(w: World, id: Id, entry: Entry)
  {
    && w.file.Full? && Holds(w.file.tracked, w.file.notified, id, entry)
    && (w.process.Up? ==>
      && Holds(w.process.mem.tracked, w.process.mem.notified, id, entry)
      && (w.process.pc.Claimed? || w.process.pc.Recovered? || w.process.pc.Announcing? ==>
        w.process.pc.claim.id != id))
  }

  predicate About(a: Action, id: Id) { (a.Resolved? || a.Track?) && a.id == id }

  lemma {:induction false} AwaitedStep(w: World, a: Action, id: Id, entry: Entry)
    requires Awaited(w, id, entry) && !About(a, id) && entry.sessionKey != ""
    requires Exec(w, a).clock <= entry.createdAt + 24 * 60 * 60 * 1000
    ensures Awaited(Exec(w, a), id, entry)
  {
  }

  lemma {:induction false} ClockGrows(w: World, a: Action)
    ensures w.clock <= Exec(w, a).clock
  {
  }

  lemma {:induction false} AwaitedRun(w: World, actions: seq<Action>, id: Id, entry: Entry)
    requires Awaited(w, id, entry) && entry.sessionKey != ""
    requires forall i :: 0 <= i < |actions| ==> !About(actions[i], id)
    requires ExecAll(w, actions).clock <= entry.createdAt + 24 * 60 * 60 * 1000
    ensures Awaited(ExecAll(w, actions), id, entry)
  {
    if actions != [] {
      var init, last := actions[..|actions| - 1], actions[|actions| - 1];
      ClockGrows(ExecAll(w, init), last);
      AwaitedRun(w, init, id, entry);
      AwaitedStep(ExecAll(w, init), last, id, entry);
    }
  }

  lemma {:induction false} AwaitedAnnounced(
      w: World, id: Id, entry: Entry, pause: nat, pause': nat, claimed: bool)
    requires w.process.Up? && w.process.pc.Idle? && Awaited(w, id, entry)
    ensures ExecAll(w, [Resolved(id, pause, pause'), Continue(claimed), Continue(true)]).runs
      == w.runs + [Claim(id, entry, w.clock)]
  {
    var r := Resolved(id, pause, pause');
    assert [r, Continue(claimed), Continue(true)] == [r] + ([Continue(claimed)] + [Continue(true)]);
    ExecAllCons(w, r, [Continue(claimed)] + [Continue(true)]);
    ExecAllCons(Exec(w, r), Continue(claimed), [Continue(true)]);
    ExecAllOne(Exec(Exec(w, r), Continue(claimed)), Continue(true));
  }

  /**
   * A session that tracks an approval and saves the file is told of its
   * resolution within a day, whatever else is tracked, resolved or swept and
   * however often the process crashes and restarts in between.
   */
  lemma {:induction false} TrackedIsAnnounced(
      w: World, id: Id, sessionKey: string, context: string, saved: bool, later: seq<Action>,
      pause: nat, pause': nat, claimed: bool)
    requires w.process.Up? && w.process.pc.Idle? && id !in w.process.mem.notified && sessionKey != ""
    requires forall i :: 0 <= i < |later| ==> !About(later[i], id)
    requires
      var w' := ExecAll(w, [Track(id, sessionKey, context), Continue(saved)] + later);
      w'.process.Up? && w'.process.pc.Idle? && w'.clock <= w.clock + 24 * 60 * 60 * 1000
    ensures
      var w' := ExecAll(w, [Track(id, sessionKey, context), Continue(saved)] + later);
      ExecAll(w', [Resolved(id, pause, pause'), Continue(claimed), Continue(true)]).runs
      == w'.runs + [Claim(id, Entry(sessionKey, context, w.clock), w'.clock)]
  {
    var entry, t, c := Entry(sessionKey, context, w.clock), Track(id, sessionKey, context), Continue(saved);
    var w1 := Exec(Exec(w, t), c);
    assert [t, c] + later == [t] + ([c] + later);
    ExecAllCons(w, t, [c] + later);
    ExecAllCons(Exec(w, t), c, later);
    AwaitedRun(w1, later, id, entry);
    AwaitedAnnounced(ExecAll(w1, later), id, entry, pause, pause', claimed);
  }

  /** A sweep drops exactly the routes older than a day and the tombstones older than thirty days. */
  lemma {:induction false} SweptExactly(mem: Memory, now: int, id: Id)
    ensures
      var swept := Swept(mem, now);
      && (id in swept.tracked <==> id in mem.tracked && now - mem.tracked[id].createdAt <= 24 * 60 * 60 * 1000)
      && (id in swept.notified <==> id in mem.notified && now - mem.notified[id] <= 30 * 24 * 60 * 60 * 1000)
      && (id in swept.tracked ==> swept.tracked[id] == mem.tracked[id])
      && (id in swept.notified ==> swept.notified[id] == mem.notified[id])
  {
  }

  // ---- The fallback to the file ----

  /** Every route the file could still offer is the one memory already has. */
  ghost predicate Covers(mem: Memory, file: File, clock: int)
  {
    forall id :: RoutableOnDisk(file, id, clock) ==> id in mem.tracked && mem.tracked[id] == file.tracked[id]
  }

  ghost predicate Covered(w: World)
  {
    w.process.Up? ==>
      && !w.process.pc.Recovered?
      && (w.process.pc.Idle? || w.process.pc.Announcing? ==> Covers(w.process.mem, w.file, w.clock))
  }

  lemma {:induction false} CoveredStep(w: World, a: Action)
    requires Covered(w)
    ensures Covered(Exec(w, a))
  {
    match a
    case Tick(ms) =>
      if w.process.Up? {
        CoversLater(w.process.mem, w.file, w.clock, w.clock + ms);
      }
    case Crash =>
    case Start =>
    case Track(_, _, _) =>
    case Sweep =>
    case Resolved(id, pause, pause') =>
      if w.process.Up? && w.process.pc.Idle? {
        CoversLater(w.process.mem, w.file, w.clock, w.clock + pause);
        assert RoutableOnDisk(w.file, id, w.clock + pause) ==> id in w.process.mem.tracked;
      }
    case Continue(_) =>
  }

  lemma {:induction false} CoversLater(mem: Memory, file: File, clock: int, clock': int)
    requires clock <= clock'
    ensures Covers(mem, file, clock) ==> Covers(mem, file, clock')
  {
    forall id | RoutableOnDisk(file, id, clock') ensures RoutableOnDisk(file, id, clock) {
    }
  }

  lemma {:induction false} CoveredRun(w: World, actions: seq<Action>)
    requires Covered(w)
    ensures Covered(ExecAll(w, actions))
  {
    if actions != [] {
      CoveredRun(w, actions[..|actions| - 1]);
      CoveredStep(ExecAll(w, actions[..|actions| - 1]), actions[|actions| - 1]);
    }
  }

  /**
   * A watcher that has the file to itself never takes a route from it: what
   * is not in memory is not to be found on disk either.
   */
  lemma {:induction false} FallbackUnused(clock: int, file: File, actions: seq<Action>)
    ensures
      var w := ExecAll(Begin(clock, file), actions);
      w.process.Up? ==> !w.process.pc.Recovered?
  {
    CoveredRun(Begin(clock, file), actions);
  }
}
