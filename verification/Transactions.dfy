/** Database transactions: the single-connection form, and the PostgreSQL form that retries
    on a serialization failure. Uncommitted work is a value the attempt throws away, and a
    failed commit applies nothing. */
module Transactions {
  import opened Wrappers
  import opened SqlText

  datatype RepoError = Backend(msg: string) | Replay(msg: string)

  /** What a transaction body returns, and the store as it left it inside the transaction. */
  datatype Try<S, T> = Try(result: Result<T, RepoError>, store: S)

  datatype Commit = Committed | Conflict | CommitFailed(msg: string)

  /** What the database does to one attempt: the transactions of others that commit before
      it starts, and how opening it, raising its isolation level and committing it turn out. */
  datatype Weather<!S> = Weather(others: S -> S, begin: Option<string>, isolation: Option<string>, commit: Commit)

  const MAX_ATTEMPTS: nat := 3

  /** The store attempt `k` starts from when no earlier attempt has left anything behind. */
  function Seen<S>(store: S, weather: nat -> Weather<S>, k: nat): S
  {
    weather(k).others(if k == 0 then store else Seen(store, weather, k - 1))
  }

  /** Only these backend messages are retried when the body itself fails. */
  ghost predicate Retryable(e: RepoError)
  {
    e.Backend? && (Contains(e.msg, "40001") || Contains(e.msg, "serialization_failure"))
  }

  ghost predicate Opens<S>(w: Weather<S>)
  {
    w.begin.None? && w.isolation.None?
  }

  /** The attempt reached its end and failed with a serialization conflict. */
  ghost predicate Retries<S, T>(w: Weather<S>, t: Try<S, T>)
  {
    && Opens(w)
    && match t.result
       case Ok(_) => w.commit.Conflict?
       case Err(e) => Retryable(e)
  }

  ghost predicate Commits<S, T>(w: Weather<S>, t: Try<S, T>)
  {
    Opens(w) && t.result.Ok? && w.commit.Committed?
  }

  method IsRetryable(e: RepoError) returns (r: bool)
    ensures r <==> Retryable(e)
  {
    if e.Replay? {
      return false;
    }
    var code := FindFirst(e.msg, "40001");
    var name := FindFirst(e.msg, "serialization_failure");
    return code.Some? || name.Some?;
  }

  /** One attempt is over for good, or is to be made again. */
  datatype Attempted<S, T> = Done(result: Result<T, RepoError>, store: S) | Again(error: RepoError)

  /** Opens the transaction, runs the body on the store it sees, and commits or rolls back. */
  method Attempt<S, T>(seen: S, body: S -> Try<S, T>, w: Weather<S>) returns (o: Attempted<S, T>)
    ensures o.Again? <==> Retries(w, body(seen))
    ensures o.Again? ==> o.error.Backend? && (body(seen).result.Err? ==> body(seen).result == Err(o.error))
    ensures o.Done? ==> (o.result.Ok? <==> Commits(w, body(seen)))
    ensures o.Done? && o.result.Ok? ==> o.result == body(seen).result && o.store == body(seen).store
    ensures o.Done? && o.result.Err? ==> o.store == seen
    ensures o.Done? && o.result.Err? && Opens(w) && body(seen).result.Err? ==> o.result == body(seen).result
    ensures o.Done? && o.result.Err? && o.result.error.Replay? ==> o.result == body(seen).result
  {
    if w.begin.Some? {
      return Done(Err(Backend("postgres begin: " + w.begin.value)), seen);
    }
    if w.isolation.Some? {
      return Done(Err(Backend("postgres set isolation: " + w.isolation.value)), seen);
    }
    var t := body(seen);
    match t.result {
      case Ok(v) =>
        match w.commit {
          case Committed => return Done(t.result, t.store);
          case Conflict => return Again(Backend("serialisation_failure on commit"));
          case CommitFailed(e) => return Done(Err(Backend("postgres commit: " + e)), seen);
        }
      case Err(e) =>
        var again := IsRetryable(e);
        if again {
          return Again(e);
        }
        return Done(t.result, seen);
    }
  }

  /** The retry loop refines one atomic transaction. A success is the value and the store of
      exactly one attempt, the last one, run on the store it saw; a failure leaves the store as the
      other transactions made it. At most three attempts are made, every attempt before the
      last ended in a conflict, and the loop gives up early only on an error that is none. */
  method TxnSerializable<S, T>(store: S, body: (nat, S) -> Try<S, T>, weather: nat -> Weather<S>)
    returns (r: Result<T, RepoError>, after: S, used: nat)
    ensures 1 <= used <= MAX_ATTEMPTS
    ensures forall k :: 0 <= k < used - 1 ==> Retries(weather(k), body(k, Seen(store, weather, k)))
    ensures var last := used - 1; var seen := Seen(store, weather, last); var t := body(last, seen);
      && (r.Ok? <==> Commits(weather(last), t))
      && (r.Ok? ==> t.result == r && after == t.store)
      && (r.Err? ==> after == seen)
      && (used < MAX_ATTEMPTS ==> !Retries(weather(last), t))
      && (r.Err? && Opens(weather(last)) && t.result.Err? ==> r == t.result)
      && (r.Err? && r.error.Replay? ==> r == t.result)
  {
    used := 0;
    var lastErr: Option<RepoError> := None;
    after := store;
    while used < MAX_ATTEMPTS
      invariant used <= MAX_ATTEMPTS
      invariant after == if used == 0 then store else Seen(store, weather, used - 1)
      invariant used > 0 ==> lastErr.Some? && lastErr.value.Backend?
      invariant used > 0 ==> var t := body(used - 1, after); t.result.Err? ==> t.result == Err(lastErr.value)
      invariant forall k :: 0 <= k < used ==> Retries(weather(k), body(k, Seen(store, weather, k)))
    {
      var k := used;
      after := weather(k).others(after);
      assert after == Seen(store, weather, k);
      used := k + 1;
      var attemptBody := (s: S) => body(k, s);
      var o := Attempt(after, attemptBody, weather(k));
      assert attemptBody(after) == body(k, after);
      match o {
        case Done(result, left) => return result, left, used;
        case Again(e) => lastErr := Some(e);
      }
    }
    r := Err(lastErr.value);
  }

  /** One transaction on a connection nobody else is using: all of the body or none of it, and a
      rollback keeps the body's own error. */
  method Transact<S, T>(store: S, body: S -> Try<S, T>, begin: Option<string>, commit: Option<string>)
    returns (r: Result<T, RepoError>, after: S)
    ensures r.Ok? <==> begin.None? && commit.None? && body(store).result.Ok?
    ensures r.Ok? ==> r == body(store).result && after == body(store).store
    ensures r.Err? ==> after == store
    ensures begin.None? && body(store).result.Err? ==> r == body(store).result
    ensures r.Err? && r.error.Replay? ==> begin.None? && r == body(store).result
  {
    after := store;
    if begin.Some? {
      return Err(Backend("begin: " + begin.value)), after;
    }
    var t := body(store);
    if t.result.Err? {
      return t.result, after;
    }
    if commit.Some? {
      return Err(Backend("commit: " + commit.value)), after;
    }
    return t.result, t.store;
  }
}
