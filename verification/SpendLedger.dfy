/** Spend recording: every record appends to the log and adds to the running total of its period, in one
    transaction. Amounts are real numbers. */
module SpendLedger {
  import opened Wrappers
  import opened Transactions

  // ---- Sums over a map ----

  ghost function Total<K(!new)>(m: map<K, real>): real
  {
    if m == map[] then 0.0 else
    var k :| k in m;
    m[k] + Total(m - {k})
  }

  lemma {:induction false} TotalTake<K(!new)>(m: map<K, real>, k: K)
    requires k in m
    ensures Total(m) == m[k] + Total(m - {k})
    decreases |m|
  {
    var j :| j in m && Total(m) == m[j] + Total(m - {j});
    if j != k {
      TotalTake(m - {j}, k);
      TotalTake(m - {k}, j);
      assert m - {j} - {k} == m - {k} - {j};
    }
  }

  /** Raising one entry, or starting it, raises the total by as much. */
  lemma TotalRaise<K(!new)>(m: map<K, real>, k: K, x: real)
    ensures Total(m[k := (if k in m then m[k] else 0.0) + x]) == Total(m) + x
  {
    var n := m[k := (if k in m then m[k] else 0.0) + x];
    TotalTake(n, k);
    assert n - {k} == m - {k};
    if k in m {
      TotalTake(m, k);
    } else {
      assert m - {k} == m;
    }
  }

  // ---- The two tables ----

  datatype Owner = Owner(tenant: string, policy: string, agent: string)

  /** The primary key of the ledger. */
  datatype Key = Key(owner: Owner, period: int)

  datatype LogRow = LogRow(logId: string, owner: Owner, action: Option<string>, amount: real, recordedAt: int, source: string)

  datatype Running = Running(usd: real, updatedAt: int)

  datatype Books = Books(log: seq<LogRow>, ledger: map<Key, Running>)

  const EMPTY: Books := Books([], map[])

  /** The total a caller reads; a period without a row has spent nothing. */
  function SpendTotal(b: Books, key: Key): real
  {
    if key in b.ledger then b.ledger[key].usd else 0.0
  }

  predicate HasId(log: seq<LogRow>, logId: string)
  {
    exists i :: 0 <= i < |log| && log[i].logId == logId
  }

  function Append(b: Books, row: LogRow): Books
  {
    b.(log := b.log + [row])
  }

  function Accumulate(b: Books, row: LogRow, period: int): Books
  {
    var key := Key(row.owner, period);
    b.(ledger := b.ledger[key := Running(SpendTotal(b, key) + row.amount, row.recordedAt)])
  }

  function Record(b: Books, row: LogRow, period: int): Books
  {
    Accumulate(Append(b, row), row, period)
  }

  // ---- Conservation ----

  /** What the log says an owner spent. */
  function Spent(log: seq<LogRow>, owner: Owner): real
  {
    if log == [] then 0.0 else
    var last := log[|log| - 1];
    Spent(log[..|log| - 1], owner) + if last.owner == owner then last.amount else 0.0
  }

  function Periods(b: Books, owner: Owner): map<Key, real>
  {
    map k | k in b.ledger && k.owner == owner :: b.ledger[k].usd
  }

  /** Each owner's totals, summed over all periods, are what the log says it spent. */
  ghost predicate Balanced(b: Books)
  {
    forall owner :: Total(Periods(b, owner)) == Spent(b.log, owner)
  }

  lemma RecordPeriods(b: Books, row: LogRow, period: int, owner: Owner)
    ensures var key := Key(row.owner, period);
            Periods(Record(b, row, period), owner) ==
            if owner == row.owner then Periods(b, owner)[key := SpendTotal(b, key) + row.amount] else Periods(b, owner)
  {
  }

  lemma RecordConserves(b: Books, row: LogRow, period: int)
    requires Balanced(b)
    ensures Balanced(Record(b, row, period))
  {
    var c := Record(b, row, period);
    assert c.log[..|c.log| - 1] == b.log;
    forall owner
      ensures Total(Periods(c, owner)) == Spent(c.log, owner)
    {
      RecordPeriods(b, row, period, owner);
      TotalRaise(Periods(b, owner), Key(row.owner, period), row.amount);
    }
  }

  datatype Event = Event(row: LogRow, period: int)

  /** The books after a run of records; calls that fail leave no event. */
  function After(events: seq<Event>): Books
  {
    if events == [] then EMPTY else
    var last := events[|events| - 1];
    Record(After(events[..|events| - 1]), last.row, last.period)
  }

  function SpentIn(events: seq<Event>, key: Key): real
  {
    if events == [] then 0.0 else
    var last := events[|events| - 1];
    SpentIn(events[..|events| - 1], key) + if Key(last.row.owner, last.period) == key then last.row.amount else 0.0
  }

  /** After any run, every period total is the sum of what was recorded against exactly that tenant, policy, agent
      and period, and the totals of all periods together are the sum of the owner's log. */
  lemma {:induction false} RunConserves(events: seq<Event>)
    ensures forall key :: SpendTotal(After(events), key) == SpentIn(events, key)
    ensures Balanced(After(events))
  {
    if events == [] {
      forall owner
        ensures Total(Periods(EMPTY, owner)) == Spent(EMPTY.log, owner)
      {
        assert Periods(EMPTY, owner) == map[];
      }
    } else {
      var last := events[|events| - 1];
      RunConserves(events[..|events| - 1]);
      RecordConserves(After(events[..|events| - 1]), last.row, last.period);
    }
  }

  // ---- The recording call ----

  datatype Amount = Finite(usd: real) | NotFinite

  /** The two statements of the transaction; either may fail, and the second fails after the log row is in. */
  function RecordBody(b: Books, row: LogRow, period: int, insert: Option<string>, upsert: Option<string>): Try<Books, ()>
  {
    if insert.Some? then Try(Err(Backend("spend_log insert: " + insert.value)), b)
    else if HasId(b.log, row.logId) then Try(Err(Backend("spend_log insert: UNIQUE")), b)
    else if upsert.Some? then Try(Err(Backend("spend_ledger upsert: " + upsert.value)), Append(b, row))
    else Try(Ok(()), Record(b, row, period))
  }

  predicate Valid(owner: Owner, amount: Amount, source: string)
  {
    && owner.policy != "" && owner.agent != "" && amount.Finite?
    && (source == "sdk_flush" || source == "server_recompute")
  }

  /** On PostgreSQL, with other transactions between the attempts, a success is one whole record on the tables the
      last attempt saw and a failure leaves those tables alone; either way balanced tables stay balanced. */
  method RecordOnPostgres(books: Books, row: LogRow, period: int, inserts: nat -> Option<string>, upserts: nat -> Option<string>,
                          weather: nat -> Weather<Books>)
    returns (r: Result<(), RepoError>, after: Books, used: nat)
    ensures 1 <= used <= MAX_ATTEMPTS
    ensures var seen := Seen(books, weather, used - 1);
      && after == (if r.Ok? then Record(seen, row, period) else seen)
      && (Balanced(seen) ==> Balanced(after))
  {
    var body := (k: nat, b: Books) => RecordBody(b, row, period, inserts(k), upserts(k));
    r, after, used := TxnSerializable(books, body, weather);
    ghost var seen := Seen(books, weather, used - 1);
    assert body(used - 1, seen) == RecordBody(seen, row, period, inserts(used - 1), upserts(used - 1));
    if Balanced(seen) {
      RecordConserves(seen, row, period);
    }
  }

  /** One total rose by the amount and no other total moved. */
  ghost predicate Moved(before: Books, after: Books, at: Key, usd: real)
  {
    forall key :: SpendTotal(after, key) == SpendTotal(before, key) + if key == at then usd else 0.0
  }

  class SpendTables {
    var books: Books

    constructor ()
      ensures books == EMPTY
    {
      books := EMPTY;
    }

    /** Records a spend whole or not at all: the total of its period moves by the amount, every other
        total stays, and a balanced pair of tables stays balanced. */
    method RecordSpend(owner: Owner, action: Option<string>, amount: Amount, source: string, period: int, now: int, logId: string,
                       begin: Option<string>, insert: Option<string>, upsert: Option<string>, commit: Option<string>)
      returns (r: Result<string, RepoError>)
      modifies this
      ensures r.Err? ==> books == old(books)
      ensures r.Ok? ==> r.value == logId && Valid(owner, amount, source)
      ensures r.Ok? ==> books.log == old(books).log + [LogRow(logId, owner, action, amount.usd, now, source)]
      ensures r.Ok? ==> Moved(old(books), books, Key(owner, period), amount.usd)
      ensures old(Balanced(books)) ==> Balanced(books)
      ensures Valid(owner, amount, source) && begin.None? && insert.None? && upsert.None? && commit.None?
              ==> (r.Ok? <==> !HasId(old(books).log, logId))
    {
      if owner.policy == "" || owner.agent == "" {
        return Err(Backend("missing policy_id or agent_id"));
      }
      if amount.NotFinite? {
        return Err(Backend("amount_usd must be finite"));
      }
      if source != "sdk_flush" && source != "server_recompute" {
        return Err(Backend("unknown spend source"));
      }
      var row := LogRow(logId, owner, action, amount.usd, now, source);
      var body := (b: Books) => RecordBody(b, row, period, insert, upsert);
      var done, after := Transact(books, body, begin, commit);
      assert body(books) == RecordBody(books, row, period, insert, upsert);
      if done.Err? {
        return Err(done.error);
      }
      if Balanced(books) {
        RecordConserves(books, row, period);
      }
      books := after;
      return Ok(logId);
    }
  }
}
