/** The service object of handler/email_verification.go: each method takes its checks in the order
    of the source and performs exactly one step of the machine in EmailVerification. */
module EmailService {
  import opened EmailVerification

  datatype SendResult = SendOk | EmailInvalid | EmailTaken | TooSoon | MailFailed

  datatype VerifyResult = VerifyOk(vid: string) | NoPendingCode | CodeExpired | AttemptsExhausted | CodeInvalid

  datatype LookupResult = LookupOk(email: string) | BadId

  /** `ORDER BY created_at DESC` and then by id, first row. */
  method QueryNewest(rows: map<RowId, Row>, email: string) returns (pick: Pick)
    ensures IsNewest(rows, email, pick)
  {
    pick := Nothing;
    var todo := rows.Keys;
    while todo != {}
      invariant todo <= rows.Keys
      invariant IsNewest(map id | id in rows && id !in todo :: rows[id], email, pick)
      decreases todo
    {
      var id :| id in todo;
      todo := todo - {id};
      if rows[id].email == email {
        if pick.Nothing? || rows[id].createdAt > rows[pick.id].createdAt
           || (rows[id].createdAt == rows[pick.id].createdAt && id.n < pick.id.n)
        {
          pick := Found(id);
        }
      }
    }
    assert (map id | id in rows && id !in todo :: rows[id]) == rows;
  }

  /** The verified, unexpired row of an id. */
  method QueryUsable(rows: map<RowId, Row>, vid: string, now: int) returns (pick: Pick)
    ensures IsUsable(rows, vid, now, pick)
  {
    pick := Nothing;
    var todo := rows.Keys;
    while todo != {}
      invariant todo <= rows.Keys
      invariant IsUsable(map id | id in rows && id !in todo :: rows[id], vid, now, pick)
      decreases todo
    {
      var id :| id in todo;
      todo := todo - {id};
      if Usable(rows[id], vid, now) && (pick.Nothing? || id.n < pick.id.n) {
        pick := Found(id);
      }
    }
    assert (map id | id in rows && id !in todo :: rows[id]) == rows;
  }

  /** The last time a code that is still live was sent to the address. */
  method QueryLastSent(rows: map<RowId, Row>, email: string, now: int) returns (found: bool, last: int)
    ensures found ==> exists id :: id in rows && rows[id].email == email && rows[id].expiresAt > now && rows[id].createdAt == last
    ensures forall id :: id in rows && rows[id].email == email && rows[id].expiresAt > now ==> found && rows[id].createdAt <= last
  {
    found, last := false, 0;
    var todo := rows.Keys;
    while todo != {}
      invariant todo <= rows.Keys
      invariant found ==> exists id :: id in rows && rows[id].email == email && rows[id].expiresAt > now && rows[id].createdAt == last
      invariant forall id :: id in rows && id !in todo && rows[id].email == email && rows[id].expiresAt > now ==>
        found && rows[id].createdAt <= last
      decreases todo
    {
      var id :| id in todo;
      todo := todo - {id};
      if rows[id].email == email && rows[id].expiresAt > now && (!found || rows[id].createdAt > last) {
        found, last := true, rows[id].createdAt;
      }
    }
  }

  method CheckFormat(email: string) returns (ok: bool)
    ensures ok <==> WellFormed(email)
  {
    if |email| < 5 || |email| > 254 {
      return false;
    }
    var at, count := 0, 0;
    for i := 0 to |email|
      invariant 0 <= count <= i
      invariant count == 0 <==> '@' !in email[..i]
      invariant count == 1 ==> at < i && email[at] == '@' && '@' !in email[..at] && '@' !in email[at + 1..i]
      invariant count >= 2 ==> exists j, k :: 0 <= j < k < i && email[j] == '@' && email[k] == '@'
    {
      assert email[..i + 1] == email[..i] + [email[i]];
      assert count == 1 ==> email[at + 1..i + 1] == email[at + 1..i] + [email[i]];
      if email[i] == '@' {
        if count == 0 {
          at := i;
        }
        count := count + 1;
      }
    }
    assert email[..|email|] == email;
    if count != 1 {
      return false;
    }
    ok := 0 < at < |email| - 1 && '.' in email[at + 1..];
    if '.' in email[at + 1..] && 0 < at < |email| - 1 {
      assert email[at + 1..|email|] == email[at + 1..];
    }
  }

  class EmailVerificationService {
    var rows: map<RowId, Row>
    var next: nat
    var users: set<string>
    const cfg: Config

    constructor (cfg: Config)
      ensures this.cfg == WithDefaults(cfg)
      ensures rows == map[] && next == 0 && users == {}
    {
      this.cfg := WithDefaults(cfg);
      rows, next, users := map[], 0, {};
    }

    /** The object holds the machine's table. */
    ghost predicate Shows(t: Table)
      reads this
    {
      t.rows == rows && t.next == next && t.users == users
    }

    method SendCode(email: string, code: string, now: int, delivered: bool, ghost t: Table) returns (r: SendResult)
      requires Shows(t) && t.clock == now
      modifies this
      ensures Shows(AfterSend(cfg, t, email, code, delivered))
      ensures r.EmailInvalid? <==> !WellFormed(email)
      ensures r.EmailTaken? <==> WellFormed(email) && email in t.users
      ensures r.TooSoon? <==> WellFormed(email) && email !in t.users && Cooling(cfg, t, email)
      ensures r.SendOk? ==> delivered
    {
      var ok := CheckFormat(email);
      if !ok {
        return EmailInvalid;
      }
      if email in users {
        return EmailTaken;
      }
      var found, last := QueryLastSent(rows, email, now);
      if found && now - last < cfg.cooldown {
        return TooSoon;
      }
      rows := map id | id in rows && !(rows[id].email == email && rows[id].expiresAt <= now) :: rows[id];
      assert rows == Swept(t, email).rows;
      if !delivered {
        return MailFailed;
      }
      rows := rows[RowId(next) := Row(email, Digest(code), now + cfg.ttl, 0, now, NotVerified)];
      next := next + 1;
      return SendOk;
    }

    /** `vid` is what the generator would return. */
    method VerifyCode(email: string, code: string, vid: string, now: int, ghost t: Table)
      returns (r: VerifyResult, ghost pick: Pick)
      requires Shows(t) && t.clock == now && (vid == "" || UnusedVid(t.log, vid))
      modifies this
      ensures IsNewest(t.rows, email, pick)
      ensures Shows(AfterVerify(cfg, t, email, code, vid, pick))
      ensures r.NoPendingCode? <==> pick.Nothing?
      ensures var log := AfterVerify(cfg, t, email, code, vid, pick).log;
        && (r.VerifyOk? ==> pick.Found? && log == t.log + [Issued(pick.id, email, code, r.vid, now)])
        && (r.CodeInvalid? ==> pick.Found? && log == t.log + [Wrong(pick.id)])
        && (!r.VerifyOk? && !r.CodeInvalid? ==> log == t.log)
    {
      var p := QueryNewest(rows, email);
      pick := p;
      if p.Nothing? {
        r := NoPendingCode;
        return;
      }
      var row := rows[p.id];
      if now > row.expiresAt {
        r := CodeExpired;
        return;
      }
      if row.attempts >= cfg.maxAttempts {
        rows := rows[p.id := row.(expiresAt := now - ONE_SECOND)];
        r := AttemptsExhausted;
        return;
      }
      if Digest(code) != row.hash {
        rows := rows[p.id := row.(attempts := row.attempts + 1)];
        r := CodeInvalid;
        return;
      }
      if row.issue.Verified? && row.issue.vid != "" {
        assert row.(issue := Verified(row.issue.vid)) == row;
        assert rows[p.id := row] == rows;
        r := VerifyOk(row.issue.vid);
        return;
      }
      rows := rows[p.id := row.(issue := Verified(vid))];
      r := VerifyOk(vid);
    }

    /** Reads without consuming: finds an address exactly when the id could be consumed now. */
    method LookupVerification(vid: string, now: int) returns (r: LookupResult)
      ensures r.LookupOk? ==> vid != "" && exists id :: id in rows && Usable(rows[id], vid, now) && rows[id].email == r.email
      ensures r.BadId? ==> vid == "" || forall id :: id in rows ==> !Usable(rows[id], vid, now)
    {
      if vid == "" {
        return BadId;
      }
      var pick := QueryUsable(rows, vid, now);
      if pick.Nothing? {
        return BadId;
      }
      return LookupOk(rows[pick.id].email);
    }

    /** Registration: consume the id and create the user, or roll both back. */
    method ConsumeVerification(vid: string, now: int, committed: bool, ghost t: Table)
      returns (r: LookupResult, ghost pick: Pick)
      requires Shows(t) && t.clock == now
      modifies this
      ensures IsUsable(t.rows, vid, now, pick)
      ensures Shows(AfterConsume(t, vid, committed, pick))
      ensures r == if vid == "" || pick.Nothing? then BadId else LookupOk(t.rows[pick.id].email)
    {
      var p := QueryUsable(rows, vid, now);
      pick := p;
      if vid == "" || p.Nothing? {
        r := BadId;
        return;
      }
      var email := rows[p.id].email;
      r := LookupOk(email);
      if committed {
        rows := rows - {p.id};
        users := users + {email};
      }
    }
  }
}
