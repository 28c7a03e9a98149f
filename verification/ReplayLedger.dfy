/** Single-use keys with an expiry: the call-nonce table and the A-JWT `jti` table. A key is
    consumed by inserting its row, the primary key refuses a second insert, and rows past
    their expiry are deleted by the garbage collector or by the next token consumer. */
module ReplayLedger {
  import opened Wrappers
  import opened Text
  import opened Transactions

  datatype Step<K> =
    | Consume(key: K, exp: int)
    | PruneAndConsume(key: K, exp: int, now: int)
    | Prune(now: int)

  function Pruned<K>(rows: map<K, int>, now: int): map<K, int>
  {
    map k | k in rows && now <= rows[k] :: rows[k]
  }

  /** A refused consume rolls back, its deletions included. */
  predicate Succeeds<K>(rows: map<K, int>, step: Step<K>)
  {
    match step
    case Consume(key, _) => key !in rows
    case PruneAndConsume(key, _, now) => !(key in rows && now <= rows[key])
    case Prune(_) => true
  }

  function Next<K>(rows: map<K, int>, step: Step<K>): map<K, int>
  {
    if !Succeeds(rows, step) then rows else
    match step
    case Consume(key, exp) => rows[key := exp]
    case PruneAndConsume(key, exp, now) => Pruned(rows, now)[key := exp]
    case Prune(now) => Pruned(rows, now)
  }

  function After<K>(rows: map<K, int>, steps: seq<Step<K>>): map<K, int>
  {
    if steps == [] then rows else Next(After(rows, steps[..|steps| - 1]), steps[|steps| - 1])
  }

  /** Step `i` of the run consumed `key`. */
  predicate Wins<K(==)>(rows: map<K, int>, steps: seq<Step<K>>, i: nat, key: K)
  {
    && i < |steps| && !steps[i].Prune? && steps[i].key == key
    && Succeeds(After(rows, steps[..i]), steps[i])
  }

  /** Step `m` deleted every row whose expiry is at most `exp`. */
  predicate PrunesPast<K>(rows: map<K, int>, steps: seq<Step<K>>, m: nat, exp: int)
  {
    && m < |steps| && !steps[m].Consume? && exp < steps[m].now
    && Succeeds(After(rows, steps[..m]), steps[m])
  }

  lemma AfterOne<K>(rows: map<K, int>, steps: seq<Step<K>>, n: nat)
    requires n < |steps|
    ensures After(rows, steps[..n + 1]) == Next(After(rows, steps[..n]), steps[n])
  {
    assert steps[..n + 1][..n] == steps[..n];
  }

  /** Between two consumes, the row of the first is there exactly until a deletion whose clock has
      passed its expiry. */
  lemma {:induction false} RowLives<K>(rows: map<K, int>, steps: seq<Step<K>>, i: nat, n: nat, key: K)
    requires Wins(rows, steps, i, key) && i < n <= |steps|
    requires forall j :: i < j < n ==> !Wins(rows, steps, j, key)
    ensures key in After(rows, steps[..n]) <==> forall m :: i < m < n ==> !PrunesPast(rows, steps, m, steps[i].exp)
    ensures key in After(rows, steps[..n]) ==> After(rows, steps[..n])[key] == steps[i].exp
    decreases n
  {
    AfterOne(rows, steps, n - 1);
    if n > i + 1 {
      RowLives(rows, steps, i, n - 1, key);
      assert !Wins(rows, steps, n - 1, key);
      var before := After(rows, steps[..n - 1]);
      assert key in Next(before, steps[n - 1]) <==>
             key in before && !PrunesPast(rows, steps, n - 1, steps[i].exp);
    }
  }

  /** After a consume, the next consume of the same key succeeds if and only if a committed deletion
      since then, its own included, read a clock past the first row's expiry. */
  lemma ConsumeAgainIff<K>(rows: map<K, int>, steps: seq<Step<K>>, i: nat, j: nat, key: K)
    requires Wins(rows, steps, i, key) && i < j < |steps|
    requires !steps[j].Prune? && steps[j].key == key
    requires forall m :: i < m < j ==> !Wins(rows, steps, m, key)
    ensures Wins(rows, steps, j, key) <==> exists m :: i < m <= j && PrunesPast(rows, steps, m, steps[i].exp)
  {
    RowLives(rows, steps, i, j, key);
    if Wins(rows, steps, j, key) && key in After(rows, steps[..j]) {
      assert PrunesPast(rows, steps, j, steps[i].exp);
    }
  }

  lemma {:induction false} FirstWin<K>(rows: map<K, int>, steps: seq<Step<K>>, i: nat, j: nat, key: K) returns (k: nat)
    requires Wins(rows, steps, i, key) && Wins(rows, steps, j, key) && i < j
    ensures i < k <= j && Wins(rows, steps, k, key)
    ensures forall m :: i < m < k ==> !Wins(rows, steps, m, key)
    decreases j
  {
    if m :| i < m < j && Wins(rows, steps, m, key) {
      k := FirstWin(rows, steps, i, m, key);
    } else {
      k := j;
    }
  }

  /** Two successful consumes of one key, anywhere in a run, are separated by a deletion that read a
      clock past the first row's expiry. */
  lemma WinsSeparated<K>(rows: map<K, int>, steps: seq<Step<K>>, i: nat, j: nat, key: K)
    requires Wins(rows, steps, i, key) && Wins(rows, steps, j, key) && i < j
    ensures exists m :: i < m <= j && PrunesPast(rows, steps, m, steps[i].exp)
  {
    var k := FirstWin(rows, steps, i, j, key);
    ConsumeAgainIff(rows, steps, i, k, key);
  }

  const NONCE_MAX: nat := 128
  const JTI_MAX: nat := 256

  /** The insert of one key inside a transaction, which the database may fail. */
  function InsertKey<K>(rows: map<K, int>, key: K, exp: int, fault: Option<string>): Try<map<K, int>, ()>
  {
    if fault.Some? then Try(Err(Backend(fault.value)), rows)
    else if key in rows then Try(Err(Replay("already used")), rows)
    else Try(Ok(()), rows[key := exp])
  }

  /** The call-nonce table, keyed by agent and nonce. */
  class NonceTable {
    var rows: map<(string, string), int>

    constructor ()
      ensures rows == map[]
    {
      rows := map[];
    }

    /** Consumes a nonce once, in one transaction, any statement of which the database may fail. The length
        limit counts bytes. */
    method ConsumeCallNonce(agent: string, nonce: string, exp: int, begin: Option<string>, insert: Option<string>, commit: Option<string>)
      returns (r: Result<(), RepoError>)
      modifies this
      ensures nonce == "" || |Utf8(nonce)| > NONCE_MAX ==> r.Err? && r.error.Backend?
      ensures rows == if r.Ok? then Next(old(rows), Consume((agent, nonce), exp)) else old(rows)
      ensures r.Ok? ==> Succeeds(old(rows), Consume((agent, nonce), exp))
      ensures r.Err? && r.error.Replay? ==> !Succeeds(old(rows), Consume((agent, nonce), exp))
      ensures nonce != "" && |Utf8(nonce)| <= NONCE_MAX && begin.None? && insert.None? && commit.None? ==>
                r.Ok? || r.error.Replay?
    {
      if nonce == "" {
        return Err(Backend("missing call nonce"));
      }
      if |Utf8(nonce)| > NONCE_MAX {
        return Err(Backend("call nonce too long (max 128 chars)"));
      }
      var body := (s: map<(string, string), int>) => InsertKey(s, (agent, nonce), exp, insert);
      assert body(rows) == InsertKey(rows, (agent, nonce), exp, insert);
      r, rows := Transact(rows, body, begin, commit);
    }

    method Sweep(now: int)
      modifies this
      ensures rows == Next(old(rows), Prune(now))
      ensures forall k :: k in rows <==> k in old(rows) && now <= old(rows)[k]
    {
      rows := Pruned(rows, now);
    }
  }

  /** On PostgreSQL a consume that reports success is one atomic consume step, on the store its last
      attempt saw; one that reports anything else changed nothing. */
  method ConsumeOnPostgres<K(==)>(rows: map<K, int>, key: K, exp: int, faults: nat -> Option<string>, weather: nat -> Weather<map<K, int>>)
    returns (r: Result<(), RepoError>, after: map<K, int>, used: nat)
    ensures 1 <= used <= MAX_ATTEMPTS
    ensures var seen, step := Seen(rows, weather, used - 1), Consume(key, exp);
      && after == (if r.Ok? then Next(seen, step) else seen)
      && (r.Ok? ==> Succeeds(seen, step))
      && (r.Err? && r.error.Replay? ==> !Succeeds(seen, step))
  {
    var body := (k: nat, s: map<K, int>) => InsertKey(s, key, exp, faults(k));
    r, after, used := TxnSerializable(rows, body, weather);
    ghost var seen := Seen(rows, weather, used - 1);
    assert body(used - 1, seen) == InsertKey(seen, key, exp, faults(used - 1));
  }

  /** The deletion of expired rows and the insert, in one transaction. */
  function PruneAndInsert(rows: map<string, int>, jti: string, exp: int, now: int, prune: Option<string>, insert: Option<string>): Try<map<string, int>, ()>
  {
    if prune.Some? then Try(Err(Backend(prune.value)), rows)
    else InsertKey(Pruned(rows, now), jti, exp, insert)
  }

  /** The A-JWT `jti` table. */
  class JtiTable {
    var rows: map<string, int>

    constructor ()
      ensures rows == map[]
    {
      rows := map[];
    }

    /** Deletes what has expired and consumes the `jti`, in one transaction: a failure of any statement, or
        a refusal, undoes both. */
    method ConsumeAjwtJti(jti: string, exp: int, now: int, begin: Option<string>, prune: Option<string>, insert: Option<string>, commit: Option<string>)
      returns (r: Result<(), RepoError>)
      modifies this
      ensures jti == "" || |Utf8(jti)| > JTI_MAX ==> r.Err? && r.error.Backend?
      ensures rows == if r.Ok? then Next(old(rows), PruneAndConsume(jti, exp, now)) else old(rows)
      ensures r.Ok? ==> Succeeds(old(rows), PruneAndConsume(jti, exp, now))
      ensures r.Err? && r.error.Replay? ==> !Succeeds(old(rows), PruneAndConsume(jti, exp, now))
      ensures jti != "" && |Utf8(jti)| <= JTI_MAX && begin.None? && prune.None? && insert.None? && commit.None? ==>
                r.Ok? || r.error.Replay?
    {
      if jti == "" {
        return Err(Backend("missing jti"));
      }
      if |Utf8(jti)| > JTI_MAX {
        return Err(Backend("jti too long (max 256 chars)"));
      }
      var body := (s: map<string, int>) => PruneAndInsert(s, jti, exp, now, prune, insert);
      assert body(rows) == PruneAndInsert(rows, jti, exp, now, prune, insert);
      r, rows := Transact(rows, body, begin, commit);
    }
  }
}
