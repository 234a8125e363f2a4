/**
 * The two sliding-window rate limiters of handler/ratelimit.go.
 *
 * Both are specified by the same sentence: a request of a key is let through
 * exactly when fewer than `limit` requests of that key were let through after
 * `now - window`.  The specification keeps the whole history and never
 * forgets; the code compacts one list of timestamps per key in place and has
 * a background sweep that drops whole keys.
 */
module RateSpec {
  datatype Hit = Hit(key: string, at: int)

  /** One event of a run: a request, or a tick of the background sweep. */
  datatype Call = Ask(key: string, now: int) | Sweep(now: int)

  /** The timestamps after the cutoff, in order (`t.After(cutoff)` is strict). */
  function Later(times: seq<int>, cutoff: int): (r: seq<int>)
  {
    if times == [] then []
    else
      var rest := Later(times[..|times| - 1], cutoff);
      if times[|times| - 1] > cutoff then rest + [times[|times| - 1]] else rest
  }

  function TimesOf(h: seq<Hit>, key: string): (r: seq<int>)
  {
    if h == [] then []
    else
      var rest := TimesOf(h[..|h| - 1], key);
      if h[|h| - 1].key == key then rest + [h[|h| - 1].at] else rest
  }

  function Recent(h: seq<Hit>, key: string, cutoff: int): (r: seq<int>)
  {
    Later(TimesOf(h, key), cutoff)
  }

  predicate Fits(limit: int, window: int, h: seq<Hit>, key: string, now: int)
  {
    |Recent(h, key, now - window)| < limit
  }

  /** The history of accepted requests after the calls. */
  function Accepted(limit: int, window: int, calls: seq<Call>): (h: seq<Hit>)
  {
    if calls == [] then []
    else
      var before := Accepted(limit, window, calls[..|calls| - 1]);
      match calls[|calls| - 1]
      case Ask(key, now) => if Fits(limit, window, before, key, now) then before + [Hit(key, now)] else before
      case Sweep(_) => before
  }

  /** The answer to each request of the run, in order. */
  function Answers(limit: int, window: int, calls: seq<Call>): (r: seq<bool>)
  {
    if calls == [] then []
    else
      var init := calls[..|calls| - 1];
      match calls[|calls| - 1]
      case Ask(key, now) =>
        Answers(limit, window, init) + [Fits(limit, window, Accepted(limit, window, init), key, now)]
      case Sweep(_) => Answers(limit, window, init)
  }

  /** The clock never goes back. */
  predicate Clocked(calls: seq<Call>)
  {
    forall i, j :: 0 <= i < j < |calls| ==> calls[i].now <= calls[j].now
  }

  /** How many of the times lie in the half-open window (from, from + window]. */
  function Within(times: seq<int>, from: int, window: int): (n: nat)
    ensures n <= |times|
  {
    if times == [] then 0
    else
      var last := times[|times| - 1];
      Within(times[..|times| - 1], from, window) + (if from < last <= from + window then 1 else 0)
  }

  function Cap(limit: int): (r: nat) { if limit > 0 then limit else 0 }

  // ---- Facts about the specification ----

  lemma {:induction false} LaterTwice(times: seq<int>, early: int, late: int)
    requires early <= late
    ensures Later(Later(times, early), late) == Later(times, late)
  {
    if times != [] {
      LaterTwice(times[..|times| - 1], early, late);
      var kept := Later(times[..|times| - 1], early);
      if times[|times| - 1] > early {
        assert (kept + [times[|times| - 1]])[..|kept|] == kept;
      }
    }
  }

  lemma {:induction false} LaterSnoc(times: seq<int>, t: int, cutoff: int)
    ensures Later(times + [t], cutoff) == Later(times, cutoff) + (if t > cutoff then [t] else [])
  {
    assert (times + [t])[..|times|] == times;
  }

  lemma {:induction false} TimesOfSnoc(h: seq<Hit>, hit: Hit, key: string)
    ensures TimesOf(h + [hit], key) == TimesOf(h, key) + (if hit.key == key then [hit.at] else [])
  {
    assert (h + [hit])[..|h|] == h;
  }

  lemma {:induction false} LaterEmpty(times: seq<int>, cutoff: int)
    requires forall i :: 0 <= i < |times| ==> times[i] <= cutoff
    ensures Later(times, cutoff) == []
  {
    if times != [] {
      LaterEmpty(times[..|times| - 1], cutoff);
    }
  }

  /** Everything in a window that ends at or before `cutoff + window` is later than the cutoff. */
  lemma {:induction false} WithinLater(times: seq<int>, from: int, window: int, cutoff: int)
    requires cutoff <= from
    ensures Within(times, from, window) <= |Later(times, cutoff)|
  {
    if times != [] {
      WithinLater(times[..|times| - 1], from, window, cutoff);
    }
  }

  lemma {:induction false} WithinIsLater(times: seq<int>, from: int, window: int)
    requires forall i :: 0 <= i < |times| ==> times[i] <= from + window
    ensures Within(times, from, window) == |Later(times, from)|
  {
    if times != [] {
      WithinIsLater(times[..|times| - 1], from, window);
    }
  }

  lemma {:induction false} UsedInWindow(times: seq<int>, now: int, window: int)
    requires forall i :: 0 <= i < |times| ==> times[i] <= now
    ensures Within(times, now - window, window) == |Later(times, now - window)|
  {
    WithinIsLater(times, now - window, window);
  }

  lemma {:induction false} WithinSnoc(times: seq<int>, t: int, from: int, window: int)
    ensures Within(times + [t], from, window)
         == Within(times, from, window) + (if from < t <= from + window then 1 else 0)
  {
    assert (times + [t])[..|times|] == times;
  }

  lemma {:induction false} ClockedLast(calls: seq<Call>, last: Call)
    requires Clocked(calls + [last])
    ensures forall i :: 0 <= i < |calls| ==> calls[i].now <= last.now
  {
    var all := calls + [last];
    forall i | 0 <= i < |calls| ensures calls[i].now <= last.now {
      assert all[i].now <= all[|calls|].now;
    }
  }

  /** No accepted request lies in the future. */
  lemma {:induction false} AcceptedBy(limit: int, window: int, calls: seq<Call>, now: int, key: string)
    requires forall i :: 0 <= i < |calls| ==> calls[i].now <= now
    ensures forall i :: 0 <= i < |TimesOf(Accepted(limit, window, calls), key)| ==>
      TimesOf(Accepted(limit, window, calls), key)[i] <= now
  {
    if calls != [] {
      var init := calls[..|calls| - 1];
      AcceptedBy(limit, window, init, now, key);
      var last := calls[|calls| - 1];
      if last.Ask? {
        TimesOfSnoc(Accepted(limit, window, init), Hit(last.key, last.now), key);
      }
    }
  }

  lemma {:induction false} WindowStep(limit: int, window: int, before: seq<Hit>, hit: Hit, key: string, from: int)
    requires Within(TimesOf(before, key), from, window) <= Cap(limit)
    requires Fits(limit, window, before, hit.key, hit.at)
    ensures Within(TimesOf(before + [hit], key), from, window) <= Cap(limit)
  {
    TimesOfSnoc(before, hit, key);
    if hit.key == key {
      WithinSnoc(TimesOf(before, key), hit.at, from, window);
      if from < hit.at <= from + window {
        WithinLater(TimesOf(before, key), from, window, hit.at - window);
      }
    }
  }

  /**
   * Over every run, and for every key and every half-open window of the
   * configured length, at most `limit` requests were let through in that
   * window.
   */
  lemma {:induction false} WindowBound(limit: int, window: int, calls: seq<Call>, key: string, from: int)
    ensures Within(TimesOf(Accepted(limit, window, calls), key), from, window) <= Cap(limit)
  {
    if calls != [] {
      var init := calls[..|calls| - 1];
      WindowBound(limit, window, init, key, from);
      var last := calls[|calls| - 1];
      var before := Accepted(limit, window, init);
      if last.Ask? && Fits(limit, window, before, last.key, last.now) {
        WindowStep(limit, window, before, Hit(last.key, last.now), key, from);
      }
    }
  }

  /**
   * A request is let through exactly when its own window holds fewer than
   * `limit` accepted requests, and refused only when it holds exactly that
   * many.
   */
  lemma {:induction false} RefusedOnlyWhenFull(limit: int, window: int, calls: seq<Call>, key: string, now: int)
    requires Clocked(calls + [Ask(key, now)])
    ensures
      var h := Accepted(limit, window, calls);
      var used := Within(TimesOf(h, key), now - window, window);
      (Fits(limit, window, h, key, now) <==> used < limit)
      && (!Fits(limit, window, h, key, now) <==> used == Cap(limit))
  {
    ClockedLast(calls, Ask(key, now));
    AcceptedBy(limit, window, calls, now, key);
    var times := TimesOf(Accepted(limit, window, calls), key);
    WindowBound(limit, window, calls, key, now - window);
    UsedInWindow(times, now, window);
  }

  /** The run with its sweeps left out. */
  function Asks(calls: seq<Call>): (r: seq<Call>)
  {
    if calls == [] then []
    else
      var rest := Asks(calls[..|calls| - 1]);
      if calls[|calls| - 1].Ask? then rest + [calls[|calls| - 1]] else rest
  }

  /** Sweeps, whenever they come, change neither an answer nor the history. */
  lemma {:induction false} SweepsInvisible(limit: int, window: int, calls: seq<Call>)
    ensures Answers(limit, window, calls) == Answers(limit, window, Asks(calls))
    ensures Accepted(limit, window, calls) == Accepted(limit, window, Asks(calls))
  {
    if calls != [] {
      var init := calls[..|calls| - 1];
      SweepsInvisible(limit, window, init);
      var last := calls[|calls| - 1];
      if last.Ask? {
        assert (Asks(init) + [last])[..|Asks(init)|] == Asks(init);
      }
    }
  }
}

module RateLimit {
  import opened RateSpec

  function Stored(table: map<string, seq<int>>, key: string): (r: seq<int>)
  {
    if key in table then table[key] else []
  }

  /** From the cutoff on, what is stored is all that the history has. */
  ghost predicate Agrees(table: map<string, seq<int>>, h: seq<Hit>, cutoff: int)
  {
    forall key, c :: cutoff <= c ==> Later(Stored(table, key), c) == Recent(h, key, c)
  }

  /** Replacing a key's list by its compaction keeps the agreement. */
  lemma {:induction false} CompactedAgrees(table: map<string, seq<int>>, h: seq<Hit>, early: int, cutoff: int, key: string)
    requires Agrees(table, h, early) && early <= cutoff
    ensures Agrees(table[key := Later(Stored(table, key), cutoff)], h, cutoff)
  {
    var next := table[key := Later(Stored(table, key), cutoff)];
    forall k, c | cutoff <= c ensures Later(Stored(next, k), c) == Recent(h, k, c) {
      LaterTwice(Stored(table, key), cutoff, c);
      assert Later(Stored(table, k), c) == Recent(h, k, c);
    }
  }

  /** Appending the accepted request on both sides keeps the agreement. */
  lemma {:induction false} AppendedAgrees(table: map<string, seq<int>>, h: seq<Hit>, cutoff: int, key: string, now: int)
    requires Agrees(table, h, cutoff)
    ensures Agrees(table[key := Stored(table, key) + [now]], h + [Hit(key, now)], cutoff)
  {
    var next := table[key := Stored(table, key) + [now]];
    var h' := h + [Hit(key, now)];
    forall k, c | cutoff <= c ensures Later(Stored(next, k), c) == Recent(h', k, c) {
      TimesOfSnoc(h, Hit(key, now), k);
      assert Later(Stored(table, k), c) == Recent(h, k, c);
      if k == key {
        LaterSnoc(Stored(table, key), now, c);
        LaterSnoc(TimesOf(h, key), now, c);
      }
    }
  }

  /** What a request does to the stored list, refused or let through. */
  lemma {:induction false} RequestAgrees(table: map<string, seq<int>>, h: seq<Hit>, early: int, cutoff: int, key: string, now: int,
                      valid: seq<int>)
    requires Agrees(table, h, early) && early <= cutoff
    requires valid == Later(Stored(table, key), cutoff)
    ensures valid == Recent(h, key, cutoff)
    ensures Agrees(table[key := valid], h, cutoff)
    ensures Agrees(table[key := valid + [now]], h + [Hit(key, now)], cutoff)
  {
    assert valid == Recent(h, key, cutoff);
    CompactedAgrees(table, h, early, cutoff, key);
    AppendedAgrees(table[key := valid], h, cutoff, key, now);
    assert table[key := valid][key := valid + [now]] == table[key := valid + [now]];
  }

  /** Dropping a key all of whose timestamps are old keeps the agreement. */
  lemma {:induction false} EvictedAgrees(table: map<string, seq<int>>, h: seq<Hit>, cutoff: int, key: string)
    requires Agrees(table, h, cutoff) && key in table
    requires forall i :: 0 <= i < |table[key]| ==> table[key][i] <= cutoff
    ensures Agrees(table - {key}, h, cutoff)
  {
    forall k, c | cutoff <= c ensures Later(Stored(table - {key}, k), c) == Recent(h, k, c) {
      assert Later(Stored(table, k), c) == Recent(h, k, c);
      if k == key {
        LaterEmpty(table[key], c);
      }
    }
  }

  lemma {:induction false} LaterAgrees(table: map<string, seq<int>>, h: seq<Hit>, early: int, cutoff: int)
    requires Agrees(table, h, early) && early <= cutoff
    ensures Agrees(table, h, cutoff)
  {
  }

  /** The compaction loop that Allow runs over the slice it also writes to. */
  method Slide(times: seq<int>, cutoff: int) returns (valid: seq<int>)
    ensures valid == Later(times, cutoff)
  {
    var prev := times;
    var n := 0;
    for i := 0 to |times|
      invariant 0 <= n <= i && |prev| == |times|
      invariant prev[i..] == times[i..]
      invariant prev[..n] == Later(times[..i], cutoff)
    {
      var t := prev[i];
      assert t == prev[i..][0] == times[i];
      assert times[..i + 1] == times[..i] + [times[i]];
      LaterSnoc(times[..i], times[i], cutoff);
      if t > cutoff {
        prev := prev[n := t];
        n := n + 1;
      }
    }
    assert times[..|times|] == times;
    valid := prev[..n];
  }

  /** The same for Exceeded, which appends to the emptied slice instead. */
  method Refill(times: seq<int>, cutoff: int) returns (valid: seq<int>)
    ensures valid == Later(times, cutoff)
  {
    valid := [];
    for i := 0 to |times|
      invariant valid == Later(times[..i], cutoff)
    {
      assert times[..i + 1] == times[..i] + [times[i]];
      LaterSnoc(times[..i], times[i], cutoff);
      if times[i] > cutoff {
        valid := valid + [times[i]];
      }
    }
    assert times[..|times|] == times;
  }

  /** The sweep's test of one key. */
  method AllOld(times: seq<int>, cutoff: int) returns (allOld: bool)
    ensures allOld <==> forall i :: 0 <= i < |times| ==> times[i] <= cutoff
  {
    allOld := true;
    for i := 0 to |times|
      invariant allOld
      invariant forall j :: 0 <= j < i ==> times[j] <= cutoff
    {
      if times[i] > cutoff {
        allOld := false;
        break;
      }
    }
  }

  /** The sweep itself; Go visits the keys of a map in no particular order. */
  method Evict(table: map<string, seq<int>>, cutoff: int, ghost h: seq<Hit>)
    returns (next: map<string, seq<int>>)
    requires Agrees(table, h, cutoff)
    ensures Agrees(next, h, cutoff)
    ensures forall key :: key in next <==> key in table && Later(table[key], cutoff) != []
    ensures forall key :: key in next ==> next[key] == table[key]
  {
    next := table;
    var todo := table.Keys;
    while todo != {}
      invariant todo <= table.Keys
      invariant Agrees(next, h, cutoff)
      invariant forall key :: key in next ==> key in table && next[key] == table[key]
      invariant forall key :: key in todo ==> key in next
      invariant forall key :: key in table && key !in todo ==> (key in next <==> Later(table[key], cutoff) != [])
      decreases todo
    {
      var key :| key in todo;
      var allOld := AllOld(next[key], cutoff);
      if allOld {
        LaterEmpty(table[key], cutoff);
        EvictedAgrees(next, h, cutoff, key);
        next := next - {key};
      } else {
        var i :| 0 <= i < |table[key]| && table[key][i] > cutoff;
        LaterHas(table[key], cutoff, i);
      }
      todo := todo - {key};
    }
  }

  lemma {:induction false} LaterHas(times: seq<int>, cutoff: int, i: nat)
    requires i < |times| && times[i] > cutoff
    ensures times[i] in Later(times, cutoff)
  {
    if i < |times| - 1 {
      LaterHas(times[..|times| - 1], cutoff, i);
    }
  }

  /** Keyed on API keys and user ids. */
  class RateLimiter {
    var windows: map<string, seq<int>>
    const limit: int
    const window: int
    ghost var accepted: seq<Hit>
    ghost var clock: int

    ghost predicate Valid()
      reads this
    {
      Agrees(windows, accepted, clock - window)
    }

    constructor (limit: int, window: int, ghost start: int)
      ensures Valid() && this.limit == limit && this.window == window
      ensures windows == map[] && accepted == [] && clock == start
    {
      this.limit, this.window := limit, window;
      windows, accepted, clock := map[], [], start;
    }

    /** The answer is the specification's, whatever was compacted or evicted before. */
    method Allow(key: string, now: int) returns (ok: bool)
      requires Valid() && clock <= now
      modifies this
      ensures Valid() && clock == now
      ensures ok <==> Fits(limit, window, old(accepted), key, now)
      ensures accepted == if ok then old(accepted) + [Hit(key, now)] else old(accepted)
    {
      var cutoff := now - window;
      var valid := Slide(Stored(windows, key), cutoff);
      RequestAgrees(windows, accepted, clock - window, cutoff, key, now, valid);
      clock := now;
      ok := |valid| < limit;
      if ok {
        windows := windows[key := valid + [now]];
        accepted := accepted + [Hit(key, now)];
      } else {
        windows := windows[key := valid];
      }
    }

    /** One tick of the background sweep. */
    method Cleanup(now: int)
      requires Valid() && clock <= now
      modifies this
      ensures Valid() && clock == now && accepted == old(accepted)
      ensures forall key :: key in windows <==> key in old(windows) && Later(old(windows)[key], now - window) != []
    {
      LaterAgrees(windows, accepted, clock - window, now - window);
      windows := Evict(windows, now - window, accepted);
      clock := now;
    }
  }

  /** Keyed on the caller's address, for endpoints without authentication. */
  class IPRateLimiter {
    var limits: map<string, seq<int>>
    const max: int
    const window: int
    ghost var accepted: seq<Hit>
    ghost var clock: int

    ghost predicate Valid()
      reads this
    {
      Agrees(limits, accepted, clock - window)
    }

    constructor (max: int, window: int, ghost start: int)
      ensures Valid() && this.max == max && this.window == window
      ensures limits == map[] && accepted == [] && clock == start
    {
      this.max, this.window := max, window;
      limits, accepted, clock := map[], [], start;
    }

    /** The opposite answer to RateLimiter.Allow, from the same specification. */
    method Exceeded(ip: string, now: int) returns (over: bool)
      requires Valid() && clock <= now
      modifies this
      ensures Valid() && clock == now
      ensures over <==> !Fits(max, window, old(accepted), ip, now)
      ensures accepted == if over then old(accepted) else old(accepted) + [Hit(ip, now)]
    {
      var cutoff := now - window;
      var valid := Refill(Stored(limits, ip), cutoff);
      RequestAgrees(limits, accepted, clock - window, cutoff, ip, now, valid);
      clock := now;
      over := |valid| >= max;
      if over {
        limits := limits[ip := valid];
      } else {
        limits := limits[ip := valid + [now]];
        accepted := accepted + [Hit(ip, now)];
      }
    }

    method Cleanup(now: int)
      requires Valid() && clock <= now
      modifies this
      ensures Valid() && clock == now && accepted == old(accepted)
      ensures forall ip :: ip in limits <==> ip in old(limits) && Later(old(limits)[ip], now - window) != []
    {
      LaterAgrees(limits, accepted, clock - window, now - window);
      limits := Evict(limits, now - window, accepted);
      clock := now;
    }
  }

  /**
   * A whole run of requests and sweeps against a fresh limiter answers as the
   * specification does, and so exactly as on the run without the sweeps.
   */
  method ServeKeys(limit: int, window: int, calls: seq<Call>) returns (answers: seq<bool>)
    requires Clocked(calls)
    ensures answers == Answers(limit, window, calls)
    ensures answers == Answers(limit, window, Asks(calls))
  {
    var limiter := new RateLimiter(limit, window, if calls == [] then 0 else calls[0].now);
    answers := [];
    for i := 0 to |calls|
      invariant limiter.Valid() && fresh(limiter)
      invariant limiter.limit == limit && limiter.window == window
      invariant i < |calls| ==> limiter.clock <= calls[i].now
      invariant limiter.accepted == Accepted(limit, window, calls[..i])
      invariant answers == Answers(limit, window, calls[..i])
    {
      assert calls[..i + 1][..i] == calls[..i];
      match calls[i]
      case Ask(key, now) =>
        var ok := limiter.Allow(key, now);
        answers := answers + [ok];
      case Sweep(now) =>
        limiter.Cleanup(now);
    }
    assert calls[..|calls|] == calls;
    SweepsInvisible(limit, window, calls);
  }

  /** The same for the per-address limiter, which reports refusals instead. */
  method ServeAddresses(max: int, window: int, calls: seq<Call>) returns (refused: seq<bool>)
    requires Clocked(calls)
    ensures |refused| == |Answers(max, window, calls)|
    ensures forall i :: 0 <= i < |refused| ==> refused[i] == !Answers(max, window, calls)[i]
    ensures Answers(max, window, calls) == Answers(max, window, Asks(calls))
  {
    var limiter := new IPRateLimiter(max, window, if calls == [] then 0 else calls[0].now);
    refused := [];
    for i := 0 to |calls|
      invariant limiter.Valid() && fresh(limiter)
      invariant limiter.max == max && limiter.window == window
      invariant i < |calls| ==> limiter.clock <= calls[i].now
      invariant limiter.accepted == Accepted(max, window, calls[..i])
      invariant |refused| == |Answers(max, window, calls[..i])|
      invariant forall j :: 0 <= j < |refused| ==> refused[j] == !Answers(max, window, calls[..i])[j]
    {
      assert calls[..i + 1][..i] == calls[..i];
      match calls[i]
      case Ask(ip, now) =>
        var over := limiter.Exceeded(ip, now);
        refused := refused + [over];
      case Sweep(now) =>
        limiter.Cleanup(now);
    }
    assert calls[..|calls|] == calls;
    SweepsInvisible(max, window, calls);
  }
}
