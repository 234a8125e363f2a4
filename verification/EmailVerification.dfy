/** The e-mail verification codes of handler/email_verification.go and the registration step of
    handler/auth.go that consumes them.

    `Exec` is one request against the table; a run is any sequence of requests.  The log remembers
    every code sent, every wrong code compared, every id handed out and every id consumed, so that
    the promises can be stated over whole runs.  Addresses are taken after normalisation, the hash
    is collision-free, and a generated id is either empty (the random source failed) or new. */
module EmailVerification {

  /** CodeTTL, ResendCooldown and MaxAttempts, after the constructor's defaults. */
  datatype Config = Config(ttl: int, cooldown: int, maxAttempts: int)

  predicate Sane(c: Config) { c.ttl > 0 && c.cooldown > 0 && c.maxAttempts > 0 }

  /** The constructor replaces values that are not positive. */
  function WithDefaults(c: Config): (r: Config)
    ensures Sane(r)
    ensures Sane(c) ==> r == c
  {
    Config(if c.ttl <= 0 then 600_000 else c.ttl,
           if c.cooldown <= 0 then 60_000 else c.cooldown,
           if c.maxAttempts <= 0 then 5 else c.maxAttempts)
  }

  /** Ten minutes, one minute, five guesses. */
  lemma {:induction false} Defaults(c: Config)
    ensures c.ttl <= 0 ==> WithDefaults(c).ttl == 10 * 60 * 1000
    ensures c.cooldown <= 0 ==> WithDefaults(c).cooldown == 60 * 1000
    ensures c.maxAttempts <= 0 ==> WithDefaults(c).maxAttempts == 5
  {
  }

  datatype RowId = RowId(n: nat)

  datatype Digest = Digest(code: string)

  datatype Issue = NotVerified | Verified(vid: string)

  datatype Row = Row(email: string, hash: Digest, expiresAt: int, attempts: nat, createdAt: int, issue: Issue)

  datatype Event =
    | Sent(row: RowId, email: string, code: string, at: int)
    | Wrong(row: RowId)
    | Issued(row: RowId, email: string, code: string, vid: string, at: int)
    | Consumed(row: RowId, email: string, vid: string, at: int)

  datatype Table = Table(rows: map<RowId, Row>, next: nat, users: set<string>, clock: int, log: seq<Event>)

  /** `pick` is the row the query returns, if any. */
  datatype Pick = Nothing | Found(id: RowId)

  datatype Request =
    | Tick(ms: nat)
    | Send(email: string, code: string, delivered: bool)
    | Verify(email: string, code: string, vid: string, pick: Pick)
    | Consume(vid: string, committed: bool, pick: Pick)

  // ----- queries -----

  predicate WellFormed(email: string) {
    5 <= |email| <= 254
    && exists at :: 0 < at < |email| - 1 && email[at] == '@' && '@' !in email[..at] && '@' !in email[at + 1..]
                    && '.' in email[at + 1..]
  }

  /** The newest row of an address, first id first among equals. */
  ghost predicate IsNewest(rows: map<RowId, Row>, email: string, pick: Pick) {
    match pick
    case Nothing => forall id :: id in rows ==> rows[id].email != email
    case Found(i) =>
      && i in rows && rows[i].email == email
      && forall id :: id in rows && rows[id].email == email ==>
        rows[id].createdAt < rows[i].createdAt || (rows[id].createdAt == rows[i].createdAt && i.n <= id.n)
  }

  /** The row a verification id stands for: verified and not expired. */
  predicate Usable(row: Row, vid: string, now: int) {
    row.issue == Verified(vid) && row.expiresAt > now
  }

  ghost predicate IsUsable(rows: map<RowId, Row>, vid: string, now: int, pick: Pick) {
    match pick
    case Nothing => forall id :: id in rows ==> !Usable(rows[id], vid, now)
    case Found(i) =>
      i in rows && Usable(rows[i], vid, now)
      && forall id :: id in rows && Usable(rows[id], vid, now) ==> i.n <= id.n
  }

  /** Some live row of the address was sent less than a cooldown ago. */
  ghost predicate Cooling(c: Config, t: Table, email: string) {
    exists id :: id in t.rows && t.rows[id].email == email && t.rows[id].expiresAt > t.clock
                 && t.clock - t.rows[id].createdAt < c.cooldown
  }

  ghost predicate UnusedVid(log: seq<Event>, vid: string) {
    forall i :: 0 <= i < |log| && log[i].Issued? ==> log[i].vid != vid
  }

  // ----- requests -----

  function WithoutExpired(rows: map<RowId, Row>, email: string, now: int): (r: map<RowId, Row>) {
    map id | id in rows && !(rows[id].email == email && rows[id].expiresAt <= now) :: rows[id]
  }

  function Swept(t: Table, email: string): (t': Table) {
    t.(rows := WithoutExpired(t.rows, email, t.clock))
  }

  function NewRow(c: Config, t: Table, email: string, code: string): (row: Row) {
    Row(email, Digest(code), t.clock + c.ttl, 0, t.clock, NotVerified)
  }

  function Inserted(c: Config, t: Table, email: string, code: string): (t': Table) {
    var id := RowId(t.next);
    t.(rows := t.rows[id := NewRow(c, t, email, code)], next := t.next + 1,
       log := t.log + [Sent(id, email, code, t.clock)])
  }

  /** Sweeps the address's expired rows and adds one; the insert is undone when the mail fails. */
  ghost function AfterSend(c: Config, t: Table, email: string, code: string, delivered: bool): (t': Table) {
    if !WellFormed(email) || email in t.users || Cooling(c, t, email) then t
    else if !delivered then Swept(t, email)
    else Inserted(c, Swept(t, email), email, code)
  }

  /** The outcome of comparing a code with a row. */
  datatype Verdict = Late | Exhausted | Mismatch | Match(vid: string)

  function Judge(c: Config, row: Row, code: string, vid: string, now: int): (v: Verdict) {
    if now > row.expiresAt then Late
    else if row.attempts >= c.maxAttempts then Exhausted
    else if Digest(code) != row.hash then Mismatch
    else if row.issue.Verified? && row.issue.vid != "" then Match(row.issue.vid)
    else Match(vid)
  }

  const ONE_SECOND := 1000

  function Closed(t: Table, id: RowId): (t': Table)
    requires id in t.rows
  {
    t.(rows := t.rows[id := t.rows[id].(expiresAt := t.clock - ONE_SECOND)])
  }

  function Missed(t: Table, id: RowId): (t': Table)
    requires id in t.rows
  {
    t.(rows := t.rows[id := t.rows[id].(attempts := t.rows[id].attempts + 1)], log := t.log + [Wrong(id)])
  }

  function Handed(t: Table, id: RowId, vid: string): (t': Table)
    requires id in t.rows
  {
    var row := t.rows[id];
    t.(rows := t.rows[id := row.(issue := Verified(vid))],
       log := t.log + [Issued(id, row.email, row.hash.code, vid, t.clock)])
  }

  function AfterVerdict(t: Table, id: RowId, v: Verdict): (t': Table)
    requires id in t.rows
  {
    match v
    case Late => t
    case Exhausted => Closed(t, id)
    case Mismatch => Missed(t, id)
    case Match(vid) => Handed(t, id, vid)
  }

  /** A pick that is not the query's answer, or an id that is not new, is no step. */
  ghost function AfterVerify(c: Config, t: Table, email: string, code: string, vid: string, pick: Pick): (t': Table) {
    if !IsNewest(t.rows, email, pick) || pick.Nothing? || (vid != "" && !UnusedVid(t.log, vid)) then t
    else AfterVerdict(t, pick.id, Judge(c, t.rows[pick.id], code, vid, t.clock))
  }

  function Taken(t: Table, id: RowId, vid: string): (t': Table)
    requires id in t.rows
  {
    var row := t.rows[id];
    t.(rows := t.rows - {id}, users := t.users + {row.email}, log := t.log + [Consumed(id, row.email, vid, t.clock)])
  }

  /** Registration deletes the row and creates the user in one transaction. */
  ghost function AfterConsume(t: Table, vid: string, committed: bool, pick: Pick): (t': Table) {
    if vid == "" || !IsUsable(t.rows, vid, t.clock, pick) || pick.Nothing? || !committed then t
    else Taken(t, pick.id, vid)
  }

  ghost function Exec(c: Config, t: Table, r: Request): (t': Table) {
    match r
    case Tick(ms) => t.(clock := t.clock + ms)
    case Send(email, code, delivered) => AfterSend(c, t, email, code, delivered)
    case Verify(email, code, vid, pick) => AfterVerify(c, t, email, code, vid, pick)
    case Consume(vid, committed, pick) => AfterConsume(t, vid, committed, pick)
  }

  ghost function Run(c: Config, clock: int, requests: seq<Request>): (t: Table) {
    if requests == [] then Table(map[], 0, {}, clock, [])
    else Exec(c, Run(c, clock, requests[..|requests| - 1]), requests[|requests| - 1])
  }

  // ----- what every request keeps -----

  /** Wrong codes compared with a row. */
  function Wrongs(log: seq<Event>, id: RowId): (n: nat) {
    if log == [] then 0
    else Wrongs(log[..|log| - 1], id) + (if log[|log| - 1] == Wrong(id) then 1 else 0)
  }

  /** A row still in the table agrees with what the log says about it. */
  ghost predicate RowOk(c: Config, t: Table, id: RowId, row: Row) {
    && id.n < t.next
    && Sent(id, row.email, row.hash.code, row.createdAt) in t.log
    && row.expiresAt <= row.createdAt + c.ttl
    && row.attempts == Wrongs(t.log, id)
    && row.createdAt <= t.clock
    && (row.issue.Verified? ==> exists e :: IssuedFor(t.log, id, row, e))
    && (forall e :: e in t.log && e.Issued? && e.row == id && e.vid != "" ==> row.issue == Verified(e.vid))
  }

  ghost predicate IssuedFor(log: seq<Event>, id: RowId, row: Row, e: Event) {
    && e in log && e.Issued? && e.row == id && e.email == row.email && row.issue == Verified(e.vid)
    && e.code == row.hash.code && row.createdAt <= e.at
  }

  ghost predicate RowsOk(c: Config, t: Table) {
    forall id :: id in t.rows ==> RowOk(c, t, id, t.rows[id])
  }

  /** The id was handed out for a code sent to that address and still valid. */
  ghost predicate Earned(c: Config, log: seq<Event>, e: Event) {
    exists s :: s in log && s.Sent? && e.Issued? && s.row == e.row && s.email == e.email && s.code == e.code
                && s.at <= e.at <= s.at + c.ttl
  }

  /** Before an id was consumed it had been handed out for a code that had been sent to the same
      address, all within the lifetime of that code. */
  ghost predicate Chain(c: Config, log: seq<Event>, e: Event, sent: Event, issued: Event) {
    && sent in log && issued in log && sent.Sent? && issued.Issued? && e.Consumed?
    && sent.row == issued.row == e.row && sent.email == issued.email == e.email
    && sent.code == issued.code && issued.vid == e.vid
    && sent.at <= issued.at <= e.at < sent.at + c.ttl
  }

  ghost predicate Backed(c: Config, log: seq<Event>, e: Event) {
    exists sent, issued :: Chain(c, log, e, sent, issued)
  }

  ghost predicate IssuedOk(c: Config, t: Table) {
    forall e :: e in t.log && e.Issued? ==> e.row.n < t.next && e.at <= t.clock && Earned(c, t.log, e)
  }

  ghost predicate ConsumedOk(c: Config, t: Table) {
    forall e :: e in t.log && e.Consumed? ==> e.row.n < t.next && e.row !in t.rows && e.vid != "" && Backed(c, t.log, e)
  }

  /** Rows and non-empty ids correspond one to one. */
  ghost predicate VidsOk(log: seq<Event>) {
    forall e, f :: e in log && f in log && e.Issued? && f.Issued? && e.vid != "" && f.vid != "" ==>
      (e.row == f.row <==> e.vid == f.vid)
  }

  ghost predicate ConsumedOnce(log: seq<Event>) {
    forall i, j :: 0 <= i < j < |log| && log[i].Consumed? && log[j].Consumed? ==> log[i].row != log[j].row
  }

  /** Rows not created yet have no wrong codes; no row has more than allowed. */
  ghost predicate WrongsOk(c: Config, t: Table) {
    forall id :: Wrongs(t.log, id) <= (if id.n < t.next then c.maxAttempts else 0)
  }

  ghost predicate Inv(c: Config, t: Table) {
    && RowsOk(c, t) && IssuedOk(c, t) && ConsumedOk(c, t) && VidsOk(t.log) && ConsumedOnce(t.log) && WrongsOk(c, t)
  }

  lemma {:induction false} WrongsSnoc(log: seq<Event>, e: Event, id: RowId)
    ensures Wrongs(log + [e], id) == Wrongs(log, id) + (if e == Wrong(id) then 1 else 0)
  {
    assert (log + [e])[..|log|] == log;
  }

  // ----- events that only make the log longer -----

  lemma {:induction false} EarnedStill(c: Config, log: seq<Event>, e: Event, x: Event)
    requires Earned(c, log, e)
    ensures Earned(c, log + [x], e)
  {
    var s :| s in log && s.Sent? && e.Issued? && s.row == e.row && s.email == e.email && s.code == e.code
             && s.at <= e.at <= s.at + c.ttl;
    assert s in log + [x];
  }

  lemma {:induction false} BackedStill(c: Config, log: seq<Event>, e: Event, x: Event)
    requires Backed(c, log, e)
    ensures Backed(c, log + [x], e)
  {
    var sent, issued :| Chain(c, log, e, sent, issued);
    assert Chain(c, log + [x], e, sent, issued);
  }

  lemma {:induction false} LongerIssued(c: Config, t: Table, t': Table, x: Event)
    requires IssuedOk(c, t) && VidsOk(t.log) && !x.Issued?
    requires t'.log == t.log + [x] && t.next <= t'.next && t'.clock == t.clock
    ensures IssuedOk(c, t') && VidsOk(t'.log)
  {
    forall e | e in t'.log && e.Issued? ensures Earned(c, t'.log, e) && e in t.log {
      EarnedStill(c, t.log, e, x);
    }
  }

  lemma {:induction false} LongerConsumed(c: Config, t: Table, t': Table, x: Event)
    requires ConsumedOk(c, t) && ConsumedOnce(t.log) && !x.Consumed?
    requires t'.log == t.log + [x] && t.next <= t'.next
    requires forall id :: id in t'.rows ==> id in t.rows || id.n >= t.next
    ensures ConsumedOk(c, t') && ConsumedOnce(t'.log)
  {
    forall e | e in t'.log && e.Consumed? ensures Backed(c, t'.log, e) && e in t.log {
      BackedStill(c, t.log, e, x);
    }
  }

  /** A row of the table that the step does not touch. */
  lemma {:induction false} RowStill(c: Config, t: Table, t': Table, id: RowId, x: Event)
    requires id in t.rows && RowOk(c, t, id, t.rows[id])
    requires t'.log == t.log + [x] && t.next <= t'.next && t'.clock == t.clock && x.row != id
    ensures RowOk(c, t', id, t.rows[id])
  {
    WrongsSnoc(t.log, x, id);
    var row := t.rows[id];
    if row.issue.Verified? {
      var e :| IssuedFor(t.log, id, row, e);
      assert IssuedFor(t'.log, id, row, e);
    }
  }

  lemma {:induction false} WrongsStill(c: Config, t: Table, t': Table, x: Event)
    requires WrongsOk(c, t) && !x.Wrong? && t'.log == t.log + [x] && t.next <= t'.next && c.maxAttempts > 0
    ensures WrongsOk(c, t')
  {
    forall k ensures Wrongs(t'.log, k) == Wrongs(t.log, k) {
      WrongsSnoc(t.log, x, k);
    }
  }

  // ----- one request at a time -----

  lemma {:induction false} TickKeeps(c: Config, t: Table, ms: nat)
    requires Inv(c, t)
    ensures Inv(c, t.(clock := t.clock + ms))
  {
    var t' := t.(clock := t.clock + ms);
    forall id | id in t'.rows ensures RowOk(c, t', id, t'.rows[id]) {
      assert RowOk(c, t, id, t.rows[id]);
    }
  }

  lemma {:induction false} SweepKeeps(c: Config, t: Table, email: string)
    requires Inv(c, t)
    ensures Inv(c, Swept(t, email))
  {
    var t' := Swept(t, email);
    forall id | id in t'.rows ensures RowOk(c, t', id, t'.rows[id]) {
      assert RowOk(c, t, id, t.rows[id]);
    }
  }

  lemma {:induction false} InsertKeeps(c: Config, t: Table, email: string, code: string)
    requires Inv(c, t) && Sane(c)
    ensures Inv(c, Inserted(c, t, email, code))
  {
    var t' := Inserted(c, t, email, code);
    var x := Sent(RowId(t.next), email, code, t.clock);
    LongerIssued(c, t, t', x);
    LongerConsumed(c, t, t', x);
    WrongsStill(c, t, t', x);
    forall k | k in t'.rows ensures RowOk(c, t', k, t'.rows[k]) {
      if k != RowId(t.next) {
        RowStill(c, t, t', k, x);
      } else {
        assert Wrongs(t'.log, k) == 0 by {
          WrongsSnoc(t.log, x, k);
        }
      }
    }
  }

  lemma {:induction false} SendKeeps(c: Config, t: Table, email: string, code: string, delivered: bool)
    requires Inv(c, t) && Sane(c)
    ensures Inv(c, AfterSend(c, t, email, code, delivered))
  {
    var t' := AfterSend(c, t, email, code, delivered);
    var swept := Swept(t, email);
    SweepKeeps(c, t, email);
    InsertKeeps(c, swept, email, code);
    assert t' == t || t' == swept || t' == Inserted(c, swept, email, code);
  }

  lemma {:induction false} SameIssue(log: seq<Event>, log': seq<Event>, id: RowId, row: Row, row': Row)
    requires row' == row.(expiresAt := row'.expiresAt, attempts := row'.attempts) && log <= log'
    requires row.issue.Verified? ==> exists e :: IssuedFor(log, id, row, e)
    ensures row'.issue.Verified? ==> exists e :: IssuedFor(log', id, row', e)
  {
    if row.issue.Verified? {
      var e :| IssuedFor(log, id, row, e);
      assert log' == log + log'[|log|..];
      assert IssuedFor(log', id, row', e);
    }
  }

  lemma {:induction false} ClosedKeeps(c: Config, t: Table, id: RowId)
    requires Inv(c, t) && id in t.rows && t.clock <= t.rows[id].expiresAt
    ensures Inv(c, Closed(t, id))
  {
    var t' := Closed(t, id);
    forall k | k in t'.rows ensures RowOk(c, t', k, t'.rows[k]) {
      assert RowOk(c, t, k, t.rows[k]);
      SameIssue(t.log, t.log, k, t.rows[k], t'.rows[k]);
    }
  }

  lemma {:induction false} MissedRows(c: Config, t: Table, id: RowId)
    requires RowsOk(c, t) && id in t.rows
    ensures RowsOk(c, Missed(t, id))
  {
    var t', x := Missed(t, id), Wrong(id);
    forall k | k in t'.rows ensures RowOk(c, t', k, t'.rows[k]) {
      if k != id {
        RowStill(c, t, t', k, x);
      } else {
        assert RowOk(c, t, id, t.rows[id]);
        WrongsSnoc(t.log, x, id);
        SameIssue(t.log, t'.log, id, t.rows[id], t'.rows[id]);
      }
    }
  }

  lemma {:induction false} MissedWrongs(c: Config, t: Table, id: RowId)
    requires WrongsOk(c, t) && id in t.rows && RowOk(c, t, id, t.rows[id]) && t.rows[id].attempts < c.maxAttempts
    ensures WrongsOk(c, Missed(t, id))
  {
    var t' := Missed(t, id);
    forall k ensures Wrongs(t'.log, k) <= (if k.n < t'.next then c.maxAttempts else 0) {
      WrongsSnoc(t.log, Wrong(id), k);
    }
  }

  lemma {:induction false} MissedKeeps(c: Config, t: Table, id: RowId)
    requires Inv(c, t) && id in t.rows && t.rows[id].attempts < c.maxAttempts
    ensures Inv(c, Missed(t, id))
  {
    assert RowOk(c, t, id, t.rows[id]);
    LongerIssued(c, t, Missed(t, id), Wrong(id));
    LongerConsumed(c, t, Missed(t, id), Wrong(id));
    MissedRows(c, t, id);
    MissedWrongs(c, t, id);
  }

  /** The id handed out is the row's own, or one that is new. */
  ghost predicate Proper(log: seq<Event>, row: Row, vid: string) {
    if row.issue.Verified? && row.issue.vid != "" then vid == row.issue.vid else vid == "" || UnusedVid(log, vid)
  }

  lemma {:induction false} HandedIssued(c: Config, t: Table, id: RowId, vid: string)
    requires IssuedOk(c, t) && id in t.rows && RowOk(c, t, id, t.rows[id]) && t.clock <= t.rows[id].expiresAt
    ensures IssuedOk(c, Handed(t, id, vid))
  {
    var t', row := Handed(t, id, vid), t.rows[id];
    var x := Issued(id, row.email, row.hash.code, vid, t.clock);
    assert Sent(id, row.email, row.hash.code, row.createdAt) in t'.log;
    assert Earned(c, t'.log, x);
    forall e | e in t.log && e.Issued? ensures Earned(c, t'.log, e) {
      EarnedStill(c, t.log, e, x);
    }
  }

  lemma {:induction false} HandedVids(c: Config, t: Table, id: RowId, row: Row, x: Event)
    requires VidsOk(t.log) && RowOk(c, t, id, row) && x.Issued? && x.row == id && Proper(t.log, row, x.vid)
    ensures VidsOk(t.log + [x])
  {
    if row.issue.Verified? && row.issue.vid != "" {
      var own :| IssuedFor(t.log, id, row, own);
      assert own.vid == x.vid;
    }
    forall f | f in t.log && f.Issued? && f.vid != "" && x.vid != "" ensures f.row == id <==> f.vid == x.vid {
      assert f.row == id ==> row.issue == Verified(f.vid);
    }
  }

  lemma {:induction false} HandedRows(c: Config, t: Table, id: RowId, vid: string)
    requires RowsOk(c, t) && id in t.rows && Proper(t.log, t.rows[id], vid)
    ensures RowsOk(c, Handed(t, id, vid))
  {
    var t', row := Handed(t, id, vid), t.rows[id];
    var x := Issued(id, row.email, row.hash.code, vid, t.clock);
    forall k | k in t'.rows ensures RowOk(c, t', k, t'.rows[k]) {
      if k != id {
        RowStill(c, t, t', k, x);
      } else {
        assert RowOk(c, t, id, row);
        WrongsSnoc(t.log, x, id);
        assert IssuedFor(t'.log, id, t'.rows[id], x);
      }
    }
  }

  lemma {:induction false} HandedKeeps(c: Config, t: Table, id: RowId, vid: string)
    requires Inv(c, t) && Sane(c) && id in t.rows && t.clock <= t.rows[id].expiresAt && Proper(t.log, t.rows[id], vid)
    ensures Inv(c, Handed(t, id, vid))
  {
    var row := t.rows[id];
    var x := Issued(id, row.email, row.hash.code, vid, t.clock);
    assert RowOk(c, t, id, row);
    HandedIssued(c, t, id, vid);
    HandedVids(c, t, id, row, x);
    HandedRows(c, t, id, vid);
    LongerConsumed(c, t, Handed(t, id, vid), x);
    WrongsStill(c, t, Handed(t, id, vid), x);
  }

  lemma {:induction false} VerdictKeeps(c: Config, t: Table, id: RowId, code: string, vid: string)
    requires Inv(c, t) && Sane(c) && id in t.rows && (vid == "" || UnusedVid(t.log, vid))
    ensures Inv(c, AfterVerdict(t, id, Judge(c, t.rows[id], code, vid, t.clock)))
  {
    match Judge(c, t.rows[id], code, vid, t.clock)
    case Late =>
    case Exhausted => ClosedKeeps(c, t, id);
    case Mismatch => MissedKeeps(c, t, id);
    case Match(v) => HandedKeeps(c, t, id, v);
  }

  lemma {:induction false} VerifyKeeps(c: Config, t: Table, email: string, code: string, vid: string, pick: Pick)
    requires Inv(c, t) && Sane(c)
    ensures Inv(c, AfterVerify(c, t, email, code, vid, pick))
  {
    var t' := AfterVerify(c, t, email, code, vid, pick);
    if t' != t {
      VerdictKeeps(c, t, pick.id, code, vid);
    }
  }

  lemma {:induction false} TakenBacked(c: Config, t: Table, id: RowId, vid: string)
    requires IssuedOk(c, t) && id in t.rows && RowOk(c, t, id, t.rows[id])
    requires t.rows[id].issue == Verified(vid) && t.clock < t.rows[id].expiresAt
    ensures Backed(c, Taken(t, id, vid).log, Consumed(id, t.rows[id].email, vid, t.clock))
  {
    var t', row := Taken(t, id, vid), t.rows[id];
    var issued :| IssuedFor(t.log, id, row, issued);
    var sent := Sent(id, row.email, row.hash.code, row.createdAt);
    assert Chain(c, t'.log, Consumed(id, row.email, vid, t.clock), sent, issued);
  }

  lemma {:induction false} TakenConsumed(c: Config, t: Table, id: RowId, vid: string)
    requires ConsumedOk(c, t) && ConsumedOnce(t.log) && id in t.rows && id.n < t.next && vid != ""
    requires Backed(c, Taken(t, id, vid).log, Consumed(id, t.rows[id].email, vid, t.clock))
    ensures ConsumedOk(c, Taken(t, id, vid)) && ConsumedOnce(Taken(t, id, vid).log)
  {
    var t' := Taken(t, id, vid);
    forall e | e in t.log && e.Consumed? ensures Backed(c, t'.log, e) {
      BackedStill(c, t.log, e, Consumed(id, t.rows[id].email, vid, t.clock));
    }
    forall i | 0 <= i < |t.log| && t.log[i].Consumed? ensures t.log[i].row != id {
      assert t.log[i] in t.log;
    }
  }

  lemma {:induction false} TakenRows(c: Config, t: Table, id: RowId, vid: string)
    requires RowsOk(c, t) && id in t.rows
    ensures RowsOk(c, Taken(t, id, vid))
  {
    var t' := Taken(t, id, vid);
    forall k | k in t'.rows ensures RowOk(c, t', k, t'.rows[k]) {
      RowStill(c, t, t', k, Consumed(id, t.rows[id].email, vid, t.clock));
    }
  }

  lemma {:induction false} TakenKeeps(c: Config, t: Table, id: RowId, vid: string)
    requires Inv(c, t) && Sane(c) && id in t.rows && Usable(t.rows[id], vid, t.clock) && vid != ""
    ensures Inv(c, Taken(t, id, vid))
  {
    var x := Consumed(id, t.rows[id].email, vid, t.clock);
    assert RowOk(c, t, id, t.rows[id]);
    TakenBacked(c, t, id, vid);
    TakenConsumed(c, t, id, vid);
    TakenRows(c, t, id, vid);
    LongerIssued(c, t, Taken(t, id, vid), x);
    WrongsStill(c, t, Taken(t, id, vid), x);
  }

  lemma {:induction false} ConsumeKeeps(c: Config, t: Table, vid: string, committed: bool, pick: Pick)
    requires Inv(c, t) && Sane(c)
    ensures Inv(c, AfterConsume(t, vid, committed, pick))
  {
    var t' := AfterConsume(t, vid, committed, pick);
    if t' != t {
      TakenKeeps(c, t, pick.id, vid);
    }
  }

  lemma {:induction false} StepKeeps(c: Config, t: Table, r: Request)
    requires Inv(c, t) && Sane(c)
    ensures Inv(c, Exec(c, t, r))
  {
    match r
    case Tick(ms) => TickKeeps(c, t, ms);
    case Send(email, code, delivered) => SendKeeps(c, t, email, code, delivered);
    case Verify(email, code, vid, pick) => VerifyKeeps(c, t, email, code, vid, pick);
    case Consume(vid, committed, pick) => ConsumeKeeps(c, t, vid, committed, pick);
  }

  lemma {:induction false} RunKeeps(c: Config, clock: int, requests: seq<Request>)
    requires Sane(c)
    ensures Inv(c, Run(c, clock, requests))
  {
    if requests != [] {
      RunKeeps(c, clock, requests[..|requests| - 1]);
      StepKeeps(c, Run(c, clock, requests[..|requests| - 1]), requests[|requests| - 1]);
    }
  }

  // ----- the promises -----

  /** Over every run, no verification id is consumed twice. */
  lemma {:induction false} ConsumedAtMostOnce(c: Config, clock: int, requests: seq<Request>, i: nat, j: nat)
    requires Sane(c)
    requires
      var log := Run(c, clock, requests).log;
      i < j < |log| && log[i].Consumed? && log[j].Consumed?
    ensures
      var log := Run(c, clock, requests).log;
      log[i].vid != log[j].vid && log[i].row != log[j].row
  {
    RunKeeps(c, clock, requests);
    var t := Run(c, clock, requests);
    var e, f := t.log[i], t.log[j];
    assert e in t.log && f in t.log;
    var sentE, issuedE :| Chain(c, t.log, e, sentE, issuedE);
    var sentF, issuedF :| Chain(c, t.log, f, sentF, issuedF);
    assert issuedE.row == issuedF.row <==> issuedE.vid == issuedF.vid;
  }

  /** Over every run, a consumed id belongs to an address to which a code was sent; the same code
      was presented and the id consumed before the code expired. */
  lemma {:induction false} ConsumedWasVerified(c: Config, clock: int, requests: seq<Request>, e: Event)
      returns (sent: Event, issued: Event)
    requires Sane(c) && e in Run(c, clock, requests).log && e.Consumed?
    ensures Chain(c, Run(c, clock, requests).log, e, sent, issued)
  {
    RunKeeps(c, clock, requests);
    sent, issued :| Chain(c, Run(c, clock, requests).log, e, sent, issued);
  }

  /** Over every run, verifying again returns the id of the first time, and different rows get
      different ids. */
  lemma {:induction false} VerifiedAgain(c: Config, clock: int, requests: seq<Request>, e: Event, f: Event)
    requires Sane(c)
    requires e in Run(c, clock, requests).log && f in Run(c, clock, requests).log
    requires e.Issued? && f.Issued? && e.vid != "" && f.vid != ""
    ensures e.row == f.row <==> e.vid == f.vid
  {
    RunKeeps(c, clock, requests);
  }

  /** Over every run, no row is compared with more than MaxAttempts wrong codes. */
  lemma {:induction false} GuessesBounded(c: Config, clock: int, requests: seq<Request>, id: RowId)
    requires Sane(c)
    ensures Wrongs(Run(c, clock, requests).log, id) <= c.maxAttempts
  {
    RunKeeps(c, clock, requests);
  }

  // ----- what a user can count on -----

  /** A new code may be sent to the address. */
  ghost predicate MaySend(c: Config, t: Table, email: string) {
    WellFormed(email) && email !in t.users && !Cooling(c, t, email)
  }

  /** Sending puts a row in the table that is the newest of its address, lives for `ttl`, and waits
      for exactly this code. */
  lemma {:induction false} SentIsNewest(c: Config, t: Table, email: string, code: string)
    requires Sane(c) && MaySend(c, t, email)
    ensures var t' := AfterSend(c, t, email, code, true);
      var id := RowId(t.next);
      && IsNewest(t'.rows, email, Found(id)) && t'.clock == t.clock && t'.log == t.log + [Sent(id, email, code, t.clock)]
      && id in t'.rows && t'.rows[id] == Row(email, Digest(code), t.clock + c.ttl, 0, t.clock, NotVerified)
  {
    var t', id := AfterSend(c, t, email, code, true), RowId(t.next);
    forall k | k in t'.rows && t'.rows[k].email == email && k != id ensures t'.rows[k].createdAt < t.clock {
      assert k in t.rows && t.rows[k].expiresAt > t.clock;
    }
  }

  /** Sending removes the address's expired rows and touches no other row. */
  lemma {:induction false} OtherRowsStay(c: Config, t: Table, email: string, code: string, k: RowId)
    requires MaySend(c, t, email) && k in t.rows && k != RowId(t.next)
    ensures var rows := AfterSend(c, t, email, code, true).rows;
      && (k in rows <==> t.rows[k].email != email || t.rows[k].expiresAt > t.clock)
      && (k in rows ==> rows[k] == t.rows[k])
  {
  }

  /** After a code was sent, the next one may be sent exactly when the cooldown is over or the code is
      dead. */
  lemma {:induction false} ResendAfterCooldown(c: Config, t: Table, email: string, code: string, wait: nat)
    requires Sane(c) && MaySend(c, t, email)
    ensures var later := Exec(c, Exec(c, t, Send(email, code, true)), Tick(wait));
      MaySend(c, later, email) <==> wait >= c.cooldown || wait >= c.ttl
  {
    var id := RowId(t.next);
    var later := Exec(c, Exec(c, t, Send(email, code, true)), Tick(wait));
    assert id in later.rows && later.rows[id] == NewRow(c, t, email, code);
    forall k | k in later.rows && later.rows[k].email == email && k != id
      ensures t.clock - later.rows[k].createdAt >= c.cooldown
    {
      assert k in t.rows && t.rows[k].expiresAt > t.clock && later.rows[k] == t.rows[k];
    }
  }

  /** When the guesses are used up even the right code is refused, and the row no longer stands in the
      way of a new one. */
  lemma {:induction false} ExhaustedMakesRoom(c: Config, t: Table, email: string, code: string, vid: string, id: RowId)
    requires IsNewest(t.rows, email, Found(id)) && t.rows[id].attempts >= c.maxAttempts
    requires t.clock <= t.rows[id].expiresAt && WellFormed(email) && email !in t.users
    requires forall k :: k in t.rows && t.rows[k].email == email && k != id ==>
      t.rows[k].expiresAt <= t.clock || t.clock - t.rows[k].createdAt >= c.cooldown
    requires vid == "" || UnusedVid(t.log, vid)
    ensures var t' := AfterVerify(c, t, email, code, vid, Found(id));
      && t'.log == t.log && MaySend(c, t', email)
      && id in t'.rows && Judge(c, t'.rows[id], code, vid, t'.clock).Late?
  {
  }

  /** After a code was sent, the right code within its lifetime gets an id: a new one the first time,
      whatever wrong codes were tried before as long as fewer than MaxAttempts. */
  lemma {:induction false} RightCodeVerifies(c: Config, t: Table, email: string, code: string, vid: string, id: RowId)
    requires IsNewest(t.rows, email, Found(id)) && t.rows[id].hash == Digest(code)
    requires t.clock <= t.rows[id].expiresAt && t.rows[id].attempts < c.maxAttempts
    requires t.rows[id].issue.NotVerified? && vid != "" && UnusedVid(t.log, vid)
    ensures var t' := AfterVerify(c, t, email, code, vid, Found(id));
      t'.log == t.log + [Issued(id, email, code, vid, t.clock)]
      && id in t'.rows && t'.rows[id] == t.rows[id].(issue := Verified(vid))
  {
  }

  /** A verified row is used up by registration exactly while it lives. */
  lemma {:induction false} UsedWhileAlive(c: Config, t: Table, id: RowId, vid: string, more: nat)
    requires id in t.rows && t.rows[id].issue == Verified(vid) && vid != ""
    requires forall k :: k in t.rows && t.rows[k].issue == Verified(vid) ==> k == id
    ensures var now := t.clock + more;
      var used := Exec(c, Exec(c, t, Tick(more)), Consume(vid, true, Found(id)));
      && used.log == (if now < t.rows[id].expiresAt then t.log + [Consumed(id, t.rows[id].email, vid, now)] else t.log)
      && (now < t.rows[id].expiresAt ==> t.rows[id].email in used.users)
  {
  }

  /** From mail to registration: a code sent, presented after `wait` and used after `more` makes a
      user of the address exactly as long as the code lives. */
  lemma {:induction false} CodeRegisters(c: Config, t: Table, email: string, code: string, vid: string, wait: nat, more: nat)
    requires Sane(c) && MaySend(c, t, email) && vid != "" && UnusedVid(t.log, vid) && wait <= c.ttl
    requires forall k :: k in t.rows ==> t.rows[k].issue != Verified(vid)
    ensures var id := RowId(t.next);
      var sent := Exec(c, t, Send(email, code, true));
      var verified := Exec(c, Exec(c, sent, Tick(wait)), Verify(email, code, vid, Found(id)));
      var used := Exec(c, Exec(c, verified, Tick(more)), Consume(vid, true, Found(id)));
      var now := t.clock + wait + more;
      && verified.log == sent.log + [Issued(id, email, code, vid, t.clock + wait)]
      && used.log == (if wait + more < c.ttl then verified.log + [Consumed(id, email, vid, now)] else verified.log)
      && (wait + more < c.ttl ==> email in used.users)
  {
    var id := RowId(t.next);
    var sent := Exec(c, t, Send(email, code, true));
    SentIsNewest(c, t, email, code);
    var later := Exec(c, sent, Tick(wait));
    forall i | 0 <= i < |later.log| && later.log[i].Issued? ensures later.log[i].vid != vid {
      assert later.log[i] == t.log[i];
    }
    RightCodeVerifies(c, later, email, code, vid, id);
    var verified := Exec(c, later, Verify(email, code, vid, Found(id)));
    forall k | k in verified.rows && k != id ensures verified.rows[k].issue != Verified(vid) {
      assert k in t.rows && verified.rows[k] == t.rows[k];
    }
    UsedWhileAlive(c, verified, id, vid, more);
  }
}
