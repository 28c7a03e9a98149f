/** One-time proof-of-possession challenges. A take reads the row and deletes it in two separate statements,
    so any number of takes, inserts and sweeps interleave between the two; only a take whose DELETE removed
    a row returns the challenge it read. */
module PopChallenges {
  import opened Wrappers

  datatype Challenge = Challenge(id: string, agent: string, secret: string, exp: int)

  /** What a take in flight has read: row `serial`, live or already expired at clock `now`. */
  datatype Read = Live(serial: nat, agent: string, now: int) | Stale(serial: nat)

  /** Challenge `serial` was handed to `agent`, which read it at clock `now`. */
  datatype Taken = Taken(serial: nat, agent: string, now: int)

  /** `issued` lists every challenge ever inserted; `rows` maps the ids in the table to their serial there. */
  datatype State = State(issued: seq<Challenge>, rows: map<string, nat>, inFlight: map<nat, Read>, taken: seq<Taken>)

  datatype Step =
    | Insert(row: Challenge)
    | Sweep(now: int)
    | Select(taker: nat, id: string, agent: string, now: int)
    | Delete(taker: nat)
    | DeleteFails(taker: nat)

  const EMPTY: State := State([], map[], map[], [])

  predicate Typed(s: State)
  {
    && (forall id :: id in s.rows ==> s.rows[id] < |s.issued| && s.issued[s.rows[id]].id == id)
    && (forall t :: t in s.inFlight ==> s.inFlight[t].serial < |s.issued|)
    && (forall t :: t in s.inFlight && s.inFlight[t].Live? ==> Bound(s.issued[s.inFlight[t].serial], s.inFlight[t].agent, s.inFlight[t].now))
    && (forall i :: 0 <= i < |s.taken| ==> s.taken[i].serial < |s.issued|)
    && (forall i :: 0 <= i < |s.taken| ==> Bound(s.issued[s.taken[i].serial], s.taken[i].agent, s.taken[i].now))
  }

  predicate Bound(row: Challenge, agent: string, now: int)
  {
    row.agent == agent && now <= row.exp
  }

  /** The challenge ids come from `ids`, in order; the table refuses an id it holds. A SELECT that finds no
      row, or the row of another agent, or that fails, ends its take and changes nothing. */
  predicate Enabled(s: State, step: Step, ids: seq<string>)
    requires Typed(s)
  {
    match step
    case Insert(row) => |s.issued| < |ids| && row.id == ids[|s.issued|] && row.id !in s.rows
    case Sweep(_) => true
    case Select(taker, id, agent, _) => taker !in s.inFlight && id in s.rows && s.issued[s.rows[id]].agent == agent
    case Delete(taker) => taker in s.inFlight
    case DeleteFails(taker) => taker in s.inFlight
  }

  function Apply(s: State, step: Step, ids: seq<string>): State
    requires Typed(s) && Enabled(s, step, ids)
  {
    match step
    case Insert(row) => s.(issued := s.issued + [row], rows := s.rows[row.id := |s.issued|])
    case Sweep(now) => s.(rows := map id | id in s.rows && now <= s.issued[s.rows[id]].exp :: s.rows[id])
    case Select(taker, id, agent, now) =>
      var n := s.rows[id];
      s.(inFlight := s.inFlight[taker := if s.issued[n].exp < now then Stale(n) else Live(n, agent, now)])
    case Delete(taker) =>
      var read := s.inFlight[taker];
      var id := s.issued[read.serial].id;
      var rest := s.(inFlight := s.inFlight - {taker}, rows := s.rows - {id});
      if read.Live? && id in s.rows then rest.(taken := s.taken + [Taken(read.serial, read.agent, read.now)]) else rest
    case DeleteFails(taker) => s.(inFlight := s.inFlight - {taker})
  }

  lemma StepTyped(s: State, step: Step, ids: seq<string>)
    requires Typed(s) && Enabled(s, step, ids)
    ensures Typed(Apply(s, step, ids))
  {
    var t := Apply(s, step, ids);
    if step.Insert? {
      assert forall n: nat :: n < |s.issued| ==> t.issued[n] == s.issued[n];
    }
  }

  ghost predicate IsRun(states: seq<State>, steps: seq<Step>, ids: seq<string>)
  {
    && |states| == |steps| + 1 && states[0] == EMPTY
    && forall i :: 0 <= i < |steps| ==>
         Typed(states[i]) && Enabled(states[i], steps[i], ids) && states[i + 1] == Apply(states[i], steps[i], ids)
  }

  ghost predicate TakenOnce(s: State)
  {
    forall i, j :: 0 <= i < j < |s.taken| ==> s.taken[i].serial != s.taken[j].serial
  }

  ghost predicate Distinct(ids: seq<string>)
  {
    forall i, j :: 0 <= i < j < |ids| ==> ids[i] != ids[j]
  }

  /** With ids that never repeat, a challenge that was taken is out of the table for good. */
  ghost predicate Inv(s: State, ids: seq<string>)
  {
    && Typed(s)
    && |s.issued| <= |ids|
    && (forall n: nat :: n < |s.issued| ==> s.issued[n].id == ids[n])
    && (forall i :: 0 <= i < |s.taken| ==> s.issued[s.taken[i].serial].id !in s.rows)
    && TakenOnce(s)
  }

  lemma InsertKeepsInv(s: State, row: Challenge, ids: seq<string>)
    requires Distinct(ids) && Inv(s, ids) && Enabled(s, Insert(row), ids)
    ensures Inv(Apply(s, Insert(row), ids), ids)
  {
    var t := Apply(s, Insert(row), ids);
    StepTyped(s, Insert(row), ids);
    assert forall n: nat :: n < |s.issued| ==> t.issued[n] == s.issued[n];
    assert forall n: nat :: n < |s.issued| ==> ids[n] != row.id;
  }

  lemma DeleteKeepsInv(s: State, taker: nat, ids: seq<string>)
    requires Inv(s, ids) && Enabled(s, Delete(taker), ids)
    ensures Inv(Apply(s, Delete(taker), ids), ids)
  {
    StepTyped(s, Delete(taker), ids);
    if |Apply(s, Delete(taker), ids).taken| > |s.taken| {
      assert forall i :: 0 <= i < |s.taken| ==> s.taken[i].serial != s.inFlight[taker].serial;
    }
  }

  lemma StepKeepsInv(s: State, step: Step, ids: seq<string>)
    requires Distinct(ids) && Inv(s, ids) && Enabled(s, step, ids)
    ensures Inv(Apply(s, step, ids), ids)
  {
    match step {
      case Insert(row) => InsertKeepsInv(s, row, ids);
      case Delete(taker) => DeleteKeepsInv(s, taker, ids);
      case _ => StepTyped(s, step, ids);
    }
  }

  lemma {:induction false} RunKeepsInv(states: seq<State>, steps: seq<Step>, ids: seq<string>, n: nat)
    requires Distinct(ids) && IsRun(states, steps, ids) && n <= |steps|
    ensures Inv(states[n], ids)
    decreases n
  {
    if n > 0 {
      RunKeepsInv(states, steps, ids, n - 1);
      StepKeepsInv(states[n - 1], steps[n - 1], ids);
    }
  }

  /** In every run, however ids repeat, a challenge goes only to the agent it was issued to, and
      only if its expiry had not passed when it was read. */
  lemma {:induction false} TakenByBoundAgent(states: seq<State>, steps: seq<Step>, ids: seq<string>, n: nat)
    requires IsRun(states, steps, ids) && n <= |steps|
    ensures forall i :: 0 <= i < |states[n].taken| ==>
              var t := states[n].taken[i];
              t.serial < |states[n].issued| && Bound(states[n].issued[t.serial], t.agent, t.now)
    ensures Typed(states[n])
    decreases n
  {
    if n > 0 {
      TakenByBoundAgent(states, steps, ids, n - 1);
      StepTyped(states[n - 1], steps[n - 1], ids);
    }
  }

  /** Some run drawing its ids from `ids` ends in `s`. */
  ghost predicate Reachable(s: State, ids: seq<string>)
  {
    exists states, steps :: IsRun(states, steps, ids) && states[|steps|] == s
  }

  lemma ReachEmpty(ids: seq<string>)
    ensures Reachable(EMPTY, ids)
  {
    assert IsRun([EMPTY], [], ids);
  }

  lemma RunStep(states: seq<State>, steps: seq<Step>, ids: seq<string>, step: Step)
    requires IsRun(states, steps, ids) && Typed(states[|steps|]) && Enabled(states[|steps|], step, ids)
    ensures IsRun(states + [Apply(states[|steps|], step, ids)], steps + [step], ids)
  {
    var states', steps' := states + [Apply(states[|steps|], step, ids)], steps + [step];
    forall i | 0 <= i < |steps'|
      ensures Typed(states'[i]) && Enabled(states'[i], steps'[i], ids) && states'[i + 1] == Apply(states'[i], steps'[i], ids)
    {
      if i < |steps| {
        assert states'[i] == states[i] && states'[i + 1] == states[i + 1] && steps'[i] == steps[i];
      } else {
        assert states'[i] == states[i] && steps'[i] == step;
      }
    }
  }

  lemma ReachStep(s: State, step: Step, ids: seq<string>)
    requires Reachable(s, ids) && Typed(s) && Enabled(s, step, ids)
    ensures Reachable(Apply(s, step, ids), ids) && Typed(Apply(s, step, ids))
  {
    StepTyped(s, step, ids);
    var states, steps :| IsRun(states, steps, ids) && states[|steps|] == s;
    var t := Apply(s, step, ids);
    RunStep(states, steps, ids, step);
    assert (states + [t])[|steps + [step]|] == t;
  }

  function Anyone(id: string): Challenge
  {
    Challenge(id, "agent", "secret", 0)
  }

  /** Issues the next id and sweeps the table empty. */
  lemma IssueAndSweep(s: State, ids: seq<string>) returns (t: State)
    requires Reachable(s, ids) && Typed(s) && s.rows == map[] && |s.issued| < |ids|
    ensures Reachable(t, ids) && Typed(t) && t == s.(issued := s.issued + [Anyone(ids[|s.issued|])])
  {
    var row := Anyone(ids[|s.issued|]);
    ReachStep(s, Insert(row), ids);
    var u := Apply(s, Insert(row), ids);
    ReachStep(u, Sweep(1), ids);
    t := Apply(u, Sweep(1), ids);
    assert t.rows == map[];
  }

  lemma {:induction false} IssueUpTo(s: State, ids: seq<string>, n: nat) returns (t: State)
    requires Reachable(s, ids) && Typed(s) && s.rows == map[] && |s.issued| <= n <= |ids|
    ensures Reachable(t, ids) && Typed(t) && t.rows == map[] && |t.issued| == n
    ensures t.inFlight == s.inFlight && t.taken == s.taken && s.issued <= t.issued
    decreases n
  {
    if n == |s.issued| {
      t := s;
    } else {
      var u := IssueUpTo(s, ids, n - 1);
      t := IssueAndSweep(u, ids);
    }
  }

  lemma IssueAndRead(s: State, ids: seq<string>) returns (t: State)
    requires Reachable(s, ids) && Typed(s) && s.rows == map[] && s.inFlight == map[] && |s.issued| < |ids|
    ensures Reachable(t, ids) && Typed(t)
    ensures var n := |s.issued|;
            t == State(s.issued + [Anyone(ids[n])], map[ids[n] := n], map[0 := Live(n, "agent", 0)], s.taken)
  {
    var id := ids[|s.issued|];
    ReachStep(s, Insert(Anyone(id)), ids);
    var a := Apply(s, Insert(Anyone(id)), ids);
    ReachStep(a, Select(0, id, "agent", 0), ids);
    t := Apply(a, Select(0, id, "agent", 0), ids);
  }

  /** Two takes read one row, and the second deletes it: the first still holds what it read. */
  lemma TwoReaders(s: State, ids: seq<string>) returns (t: State)
    requires Reachable(s, ids) && Typed(s) && s.rows == map[] && s.inFlight == map[] && |s.issued| < |ids|
    ensures Reachable(t, ids) && Typed(t) && t.rows == map[]
    ensures t.issued == s.issued + [Anyone(ids[|s.issued|])]
    ensures t.inFlight == map[0 := Live(|s.issued|, "agent", 0)]
    ensures t.taken == s.taken + [Taken(|s.issued|, "agent", 0)]
  {
    var b := IssueAndRead(s, ids);
    t := TakeAlso(b, ids, |s.issued|);
  }

  /** Another take reads the one row of the table and deletes it. */
  lemma TakeAlso(b: State, ids: seq<string>, n: nat) returns (t: State)
    requires Reachable(b, ids) && Typed(b) && n < |b.issued| && b.issued[n].agent == "agent" && b.issued[n].exp == 0
    requires b.rows == map[b.issued[n].id := n] && b.inFlight == map[0 := Live(n, "agent", 0)]
    ensures Reachable(t, ids) && Typed(t)
    ensures t == State(b.issued, map[], b.inFlight, b.taken + [Taken(n, "agent", 0)])
  {
    var id := b.issued[n].id;
    ReachStep(b, Select(1, id, "agent", 0), ids);
    var c := Apply(b, Select(1, id, "agent", 0), ids);
    ReachStep(c, Delete(1), ids);
    t := Apply(c, Delete(1), ids);
    assert t.rows == map[];
    assert t.inFlight == b.inFlight;
  }

  /** When id `ids[j]` repeats `ids[i]`, a take that read the first row deletes the second one and returns
      the challenge that was already taken. */
  lemma ReuseTakesTwice(ids: seq<string>, i: nat, j: nat)
    requires i < j < |ids| && ids[i] == ids[j]
    ensures exists s :: Reachable(s, ids) && !TakenOnce(s)
  {
    ReachEmpty(ids);
    var a := IssueUpTo(EMPTY, ids, i);
    var b := TwoReaders(a, ids);
    var c := IssueUpTo(b, ids, j);
    assert c.issued[i] == b.issued[i] == Anyone(ids[i]);
    var e := StaleDelete(c, ids, i);
    assert e.taken[0].serial == e.taken[1].serial;
  }

  /** A take that still holds an old read of the next id to be issued returns what it read. */
  lemma StaleDelete(c: State, ids: seq<string>, i: nat) returns (e: State)
    requires Reachable(c, ids) && Typed(c) && c.rows == map[] && i < |c.issued| < |ids| && c.issued[i].id == ids[|c.issued|]
    requires c.inFlight == map[0 := Live(i, "agent", 0)]
    ensures Reachable(e, ids) && e.taken == c.taken + [Taken(i, "agent", 0)]
  {
    var row := Anyone(ids[|c.issued|]);
    ReachStep(c, Insert(row), ids);
    var d := Apply(c, Insert(row), ids);
    assert d.issued[i] == c.issued[i];
    ReachStep(d, Delete(0), ids);
    e := Apply(d, Delete(0), ids);
  }

  /** Each challenge is taken at most once in every run, if and only if ids never repeat. */
  lemma TakenOnceIff(ids: seq<string>)
    ensures (forall s :: Reachable(s, ids) ==> TakenOnce(s)) <==> Distinct(ids)
  {
    if Distinct(ids) {
      forall s | Reachable(s, ids)
        ensures TakenOnce(s)
      {
        var states, steps :| IsRun(states, steps, ids) && states[|steps|] == s;
        RunKeepsInv(states, steps, ids, |steps|);
      }
    } else {
      var i, j :| 0 <= i < j < |ids| && ids[i] == ids[j];
      ReuseTakesTwice(ids, i, j);
    }
  }

  /** Which statement of a call the database refuses, and why. */
  datatype Fault = NoFault | First(msg: string) | Second(msg: string)

  type Rows = map<string, Challenge>

  class ChallengeTable {
    var rows: Rows

    constructor ()
      ensures rows == map[]
    {
      rows := map[];
    }

    /** Deletes what has expired, then inserts; the deletion stays when the id is taken or the insert fails. */
    method InsertPopChallenge(id: string, agent: string, secret: string, now: int, ttl: int, fault: Fault)
      returns (r: Result<int, string>)
      modifies this
      ensures r.Ok? <==> fault.NoFault? && !(id in old(rows) && now <= old(rows)[id].exp)
      ensures r.Ok? ==> r.value == now + ttl && id in rows && rows[id] == Challenge(id, agent, secret, now + ttl)
      ensures fault.First? ==> rows == old(rows)
      ensures !fault.First? ==> forall k :: k != id || r.Err? ==>
                (k in rows <==> k in old(rows) && now <= old(rows)[k].exp) && (k in rows ==> rows[k] == old(rows)[k])
    {
      if fault.First? {
        return Err(fault.msg);
      }
      rows := map k | k in rows && now <= rows[k].exp :: rows[k];
      if fault.Second? {
        return Err(fault.msg);
      }
      if id in rows {
        return Err("UNIQUE constraint failed: agent_pop_challenges.id");
      }
      rows := rows[id := Challenge(id, agent, secret, now + ttl)];
      return Ok(now + ttl);
    }

    /** Returns the secret exactly to the agent the challenge is bound to, before it expires, and if the row it
        read is still there when it deletes it: `others` is what else happens to the table between the two
        statements. The row goes with the first take by that agent, in time or not, unless a statement
        fails; another agent's attempt leaves it. */
    method TakePopChallenge(id: string, agent: string, now: int, others: Rows -> Rows, fault: Fault)
      returns (r: Result<string, string>)
      modifies this
      ensures r.Ok? <==> fault.NoFault? && id in old(rows) && Bound(old(rows)[id], agent, now) && id in others(old(rows))
      ensures r.Ok? ==> r.value == old(rows)[id].secret
      ensures rows ==
              if fault.First? || id !in old(rows) || old(rows)[id].agent != agent then old(rows)
              else if fault.Second? then others(old(rows))
              else others(old(rows)) - {id}
    {
      if fault.First? {
        return Err(fault.msg);
      }
      if id !in rows {
        return Err("unknown or expired pop_challenge_id");
      }
      var row := rows[id];
      if row.agent != agent {
        return Err("pop challenge does not match agent");
      }
      rows := others(rows);
      var consumed := id in rows && !fault.Second?;
      if consumed {
        rows := rows - {id};
      }
      if row.exp < now {
        return Err("pop challenge expired");
      }
      if fault.Second? {
        return Err(fault.msg);
      }
      if !consumed {
        return Err("pop challenge already used");
      }
      return Ok(row.secret);
    }
  }
}
