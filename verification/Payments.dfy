/** Single-use payment authorizations: inserted once, consumed by one conditional update. */
module Payments {
  import opened Wrappers
  import opened Transactions

  datatype Authorization = Authorization(tenant: string, agent: string, jti: string, amountMinor: int, expiresAt: int, consumed: bool)

  type Table = map<string, Authorization>

  datatype Step =
    | Issue(authId: string, row: Authorization)
    | Claim(authId: string, tenant: string, now: int)

  /** The row the conditional update matches. */
  predicate Claimable(rows: Table, authId: string, tenant: string, now: int)
  {
    && authId in rows && rows[authId].tenant == tenant
    && !rows[authId].consumed && now < rows[authId].expiresAt
  }

  /** The table is unique on the id and on the `jti`. */
  predicate Insertable(rows: Table, authId: string, row: Authorization)
  {
    authId !in rows && forall other :: other in rows ==> rows[other].jti != row.jti
  }

  predicate Succeeds(rows: Table, step: Step)
  {
    match step
    case Issue(authId, row) => Insertable(rows, authId, row)
    case Claim(authId, tenant, now) => Claimable(rows, authId, tenant, now)
  }

  function Next(rows: Table, step: Step): Table
  {
    if !Succeeds(rows, step) then rows else
    match step
    case Issue(authId, row) => rows[authId := row.(consumed := false)]
    case Claim(authId, _, _) => rows[authId := rows[authId].(consumed := true)]
  }

  function After(steps: seq<Step>): Table
  {
    if steps == [] then map[] else Next(After(steps[..|steps| - 1]), steps[|steps| - 1])
  }

  /** Step `i` of the run reported success. */
  predicate Happened(steps: seq<Step>, i: nat)
  {
    i < |steps| && Succeeds(After(steps[..i]), steps[i])
  }

  predicate Issued(steps: seq<Step>, i: nat, authId: string)
  {
    Happened(steps, i) && steps[i].Issue? && steps[i].authId == authId
  }

  predicate Claimed(steps: seq<Step>, i: nat, authId: string)
  {
    Happened(steps, i) && steps[i].Claim? && steps[i].authId == authId
  }

  lemma AfterOne(steps: seq<Step>, n: nat)
    requires n < |steps|
    ensures After(steps[..n + 1]) == Next(After(steps[..n]), steps[n])
  {
    assert steps[..n + 1][..n] == steps[..n];
  }

  predicate SameTerms(a: Authorization, b: Authorization)
  {
    a.(consumed := b.consumed) == b
  }

  /** What one step does to one row. */
  lemma RowStep(rows: Table, step: Step, authId: string)
    ensures var issues := step.Issue? && step.authId == authId && Succeeds(rows, step);
            var claims := step.Claim? && step.authId == authId && Succeeds(rows, step);
            && (authId in Next(rows, step) <==> authId in rows || issues)
            && (issues ==> authId !in rows && Next(rows, step)[authId] == step.row.(consumed := false))
            && (claims ==> authId in rows)
            && (authId in rows ==> SameTerms(Next(rows, step)[authId], rows[authId]))
            && (authId in rows ==> (Next(rows, step)[authId].consumed <==> rows[authId].consumed || claims))
  {
  }

  /** A row is in the table exactly if some step issued it. */
  lemma {:induction false} RowIssued(steps: seq<Step>, n: nat, authId: string)
    requires n <= |steps|
    ensures authId in After(steps[..n]) <==> exists i :: 0 <= i < n && Issued(steps, i, authId)
    decreases n
  {
    if n > 0 {
      RowIssued(steps, n - 1, authId);
      AfterOne(steps, n - 1);
      RowStep(After(steps[..n - 1]), steps[n - 1], authId);
      if Issued(steps, n - 1, authId) {
        assert authId in After(steps[..n]);
      }
    }
  }

  /** A row keeps the terms it was issued with. */
  lemma {:induction false} RowTerms(steps: seq<Step>, n: nat, i: nat, authId: string)
    requires i < n <= |steps| && Issued(steps, i, authId)
    ensures authId in After(steps[..n]) && SameTerms(After(steps[..n])[authId], steps[i].row)
    decreases n
  {
    AfterOne(steps, n - 1);
    RowStep(After(steps[..n - 1]), steps[n - 1], authId);
    if i < n - 1 {
      RowTerms(steps, n - 1, i, authId);
    }
  }

  ghost predicate ClaimedBefore(steps: seq<Step>, n: nat, authId: string)
  {
    exists i :: 0 <= i < n && Claimed(steps, i, authId)
  }

  lemma ClaimedBeforeOne(steps: seq<Step>, n: nat, authId: string)
    ensures ClaimedBefore(steps, n + 1, authId) <==> ClaimedBefore(steps, n, authId) || Claimed(steps, n, authId)
  {
    if Claimed(steps, n, authId) {
      assert 0 <= n < n + 1;
    }
  }

  /** A row is marked consumed exactly if some step claimed it. */
  lemma {:induction false} RowConsumed(steps: seq<Step>, n: nat, authId: string)
    requires n <= |steps|
    ensures ClaimedBefore(steps, n, authId) <==> authId in After(steps[..n]) && After(steps[..n])[authId].consumed
    decreases n
  {
    if n > 0 {
      RowConsumed(steps, n - 1, authId);
      AfterOne(steps, n - 1);
      RowStep(After(steps[..n - 1]), steps[n - 1], authId);
      ClaimedBeforeOne(steps, n - 1, authId);
    }
  }

  /** In any run a claim succeeds if and only if the authorization was issued to the same tenant, its
      expiry is still ahead, and no claim of it succeeded before. */
  lemma ClaimIff(steps: seq<Step>, n: nat)
    requires n < |steps| && steps[n].Claim?
    ensures Happened(steps, n) <==>
      && (exists i :: 0 <= i < n && Issued(steps, i, steps[n].authId)
                      && steps[i].row.tenant == steps[n].tenant && steps[n].now < steps[i].row.expiresAt)
      && !ClaimedBefore(steps, n, steps[n].authId)
  {
    var authId := steps[n].authId;
    RowIssued(steps, n, authId);
    RowConsumed(steps, n, authId);
    forall i | 0 <= i < n && Issued(steps, i, authId)
      ensures authId in After(steps[..n]) && SameTerms(After(steps[..n])[authId], steps[i].row)
    {
      RowTerms(steps, n, i, authId);
    }
  }

  /** No authorization is consumed twice, whoever claims it. */
  lemma ClaimedOnce(steps: seq<Step>, i: nat, j: nat, authId: string)
    requires i < j && Claimed(steps, i, authId)
    ensures !Claimed(steps, j, authId)
  {
    if j < |steps| && steps[j].Claim? && steps[j].authId == authId {
      ClaimIff(steps, j);
    }
  }

  /** The conditional update inside a transaction, which the database may refuse. */
  function ClaimBody(rows: Table, authId: string, tenant: string, now: int, fault: Option<string>): Try<Table, ()>
  {
    if fault.Some? then Try(Err(Backend(fault.value)), rows)
    else if Claimable(rows, authId, tenant, now) then Try(Ok(()), rows[authId := rows[authId].(consumed := true)])
    else Try(Err(Replay("Authorization already consumed or expired")), rows)
  }

  /** On PostgreSQL a claim that reports success is one atomic claim on the table its last attempt saw, a
      refusal means that table did not allow it, and any error leaves that table as it was. */
  method ConsumePaymentAuthorization(rows: Table, tenant: string, authId: string, now: int,
                                     faults: nat -> Option<string>, weather: nat -> Weather<Table>)
    returns (r: Result<(), RepoError>, after: Table, used: nat)
    ensures authId == "" ==> r.Err? && r.error.Backend? && after == rows && used == 0
    ensures authId != "" ==> 1 <= used <= MAX_ATTEMPTS
    ensures authId != "" ==>
      var seen, step := Seen(rows, weather, used - 1), Claim(authId, tenant, now);
      && after == (if r.Ok? then Next(seen, step) else seen)
      && (r.Ok? ==> Succeeds(seen, step))
      && (r.Err? && r.error.Replay? ==> !Succeeds(seen, step))
  {
    if authId == "" {
      return Err(Backend("missing auth_id")), rows, 0;
    }
    var body := (k: nat, s: Table) => ClaimBody(s, authId, tenant, now, faults(k));
    r, after, used := TxnSerializable(rows, body, weather);
    ghost var seen := Seen(rows, weather, used - 1);
    assert body(used - 1, seen) == ClaimBody(seen, authId, tenant, now, faults(used - 1));
  }

  /** The table on SQLite, where one connection holds the lock for the whole transaction. */
  class PaymentTable {
    var rows: Table

    constructor ()
      ensures rows == map[]
    {
      rows := map[];
    }

    method Insert(authId: string, row: Authorization, fault: Option<string>) returns (r: Result<(), RepoError>)
      modifies this
      ensures rows == if r.Ok? then Next(old(rows), Issue(authId, row)) else old(rows)
      ensures r.Ok? <==> fault.None? && Succeeds(old(rows), Issue(authId, row))
      ensures r.Err? ==> (r.error.Backend? <==> fault.Some?)
    {
      if fault.Some? {
        return Err(Backend(fault.value));
      }
      if authId in rows || exists other :: other in rows && rows[other].jti == row.jti {
        return Err(Replay("payment authorization already exists"));
      }
      rows := rows[authId := row.(consumed := false)];
      return Ok(());
    }

    method Consume(tenant: string, authId: string, now: int, fault: Option<string>, begin: Option<string>, commit: Option<string>)
      returns (r: Result<(), RepoError>)
      modifies this
      ensures rows == if r.Ok? then Next(old(rows), Claim(authId, tenant, now)) else old(rows)
      ensures r.Ok? <==>
              && authId != "" && fault.None? && begin.None? && commit.None?
              && Succeeds(old(rows), Claim(authId, tenant, now))
      ensures r.Err? ==>
                (r.error.Replay? <==>
                 authId != "" && fault.None? && begin.None? && !Succeeds(old(rows), Claim(authId, tenant, now)))
    {
      if authId == "" {
        return Err(Backend("missing auth_id"));
      }
      var body := (s: Table) => ClaimBody(s, authId, tenant, now, fault);
      r, rows := Transact(rows, body, begin, commit);
      assert body(old(rows)) == ClaimBody(old(rows), authId, tenant, now, fault);
    }
  }
}
