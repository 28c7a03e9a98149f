/** Replay protection of DPoP proofs. A proof passes the freshness check at one reading of the clock and
    its `jti` is inserted some time later; the row outlives the freshness window by a margin, and the
    garbage collector deletes it after that. */
module Dpop {
  import opened Wrappers
  import opened Text
  import opened Transactions
  import opened ReplayLedger

  const JTI_PREFIX: string := "dpop:"
  const JTI_MAX_LEN: nat := 120
  const MARGIN_SECS: int := 60

  function SaturatingMul1000(x: int): (r: int)
    ensures I64_MIN <= r <= I64_MAX
    ensures I64_MIN <= 1000 * x <= I64_MAX ==> r == 1000 * x
  {
    if 1000 * x < I64_MIN then I64_MIN else if 1000 * x > I64_MAX then I64_MAX else 1000 * x
  }

  /** The freshness test of a proof issued at second `iat`, at `nowMs`, with the skew in milliseconds. */
  predicate Fresh(nowMs: int, iat: int, skewMs: nat)
  {
    var d := nowMs - SaturatingMul1000(iat);
    0 - skewMs <= d <= skewMs
  }

  function JtiExpiry(iat: int, skewMs: nat): int
  {
    iat + skewMs / 1000 + MARGIN_SECS
  }

  /** What happens to the nonce table, each at a time in milliseconds: a proof that passed its checks at
      `checkedAt` reaches the insert, another nonce is consumed, or the collector deletes with the clock
      second it read. */
  datatype Event =
    | Present(agent: string, jti: string, iat: int, checkedAt: int, at: int)
    | OtherNonce(agent: string, nonce: string, exp: int, at: int)
    | Collect(now: int, at: int)

  function LedgerStep(e: Event, skewMs: nat): Step<(string, string)>
  {
    match e
    case Present(agent, jti, iat, _, _) => Consume((agent, JTI_PREFIX + jti), JtiExpiry(iat, skewMs))
    case OtherNonce(agent, nonce, exp, _) => Consume((agent, nonce), exp)
    case Collect(now, _) => Prune(now)
  }

  function LedgerSteps(events: seq<Event>, skewMs: nat): (r: seq<Step<(string, string)>>)
    ensures |r| == |events|
    ensures forall i :: 0 <= i < |r| ==> r[i] == LedgerStep(events[i], skewMs)
  {
    seq(|events|, i requires 0 <= i < |events| => LedgerStep(events[i], skewMs))
  }

  predicate EventOk(e: Event, skewMs: nat, delayMs: int)
  {
    match e
    case Present(_, _, iat, checkedAt, at) => 0 <= checkedAt <= at <= checkedAt + delayMs && Fresh(checkedAt, iat, skewMs)
    case OtherNonce(_, _, _, _) => true
    case Collect(now, at) => 1000 * now <= at
  }

  /** A history under one clock, in which no insert lags its check by more than `delayMs`. */
  predicate History(events: seq<Event>, skewMs: nat, delayMs: int)
  {
    && (forall i :: 0 <= i < |events| ==> EventOk(events[i], skewMs, delayMs))
    && (forall i, j :: 0 <= i < j < |events| ==> events[i].at <= events[j].at)
  }

  ghost predicate SameProof(e: Event, f: Event)
  {
    e.Present? && f.Present? && e.agent == f.agent && e.jti == f.jti && e.iat == f.iat
  }

  /** The request carrying event `i` was let through. */
  predicate Accepted(rows: map<(string, string), int>, events: seq<Event>, skewMs: nat, i: nat)
  {
    && i < |events| && events[i].Present?
    && Wins(rows, LedgerSteps(events, skewMs), i, (events[i].agent, JTI_PREFIX + events[i].jti))
  }

  lemma FreshBound(nowMs: int, iat: int, skewMs: nat)
    requires 0 <= nowMs && skewMs <= I64_MAX && Fresh(nowMs, iat, skewMs)
    ensures nowMs <= 1000 * iat + skewMs
  {
  }

  function SafeDelay(skewMs: nat): int
  {
    61_000 - skewMs % 1000
  }

  /** A second acceptance of one proof, in any history, lags its check by at least the safe delay. */
  lemma SecondAcceptanceLags(rows: map<(string, string), int>, events: seq<Event>, skewMs: nat, delayMs: int, i: nat, j: nat)
    requires skewMs <= I64_MAX && History(events, skewMs, delayMs)
    requires i < j < |events| && SameProof(events[i], events[j])
    requires Accepted(rows, events, skewMs, i) && Accepted(rows, events, skewMs, j)
    ensures events[j].at - events[j].checkedAt >= SafeDelay(skewMs)
  {
    var steps := LedgerSteps(events, skewMs);
    WinsSeparated(rows, steps, i, j, (events[i].agent, JTI_PREFIX + events[i].jti));
    var m :| i < m <= j && PrunesPast(rows, steps, m, steps[i].exp);
    assert events[m].Collect? && EventOk(events[m], skewMs, delayMs) && EventOk(events[j], skewMs, delayMs);
    FreshBound(events[j].checkedAt, events[j].iat, skewMs);
  }

  /** Two acceptances of one proof, the second exactly the safe delay behind its check. */
  function ReplayHistory(skewMs: nat): seq<Event>
  {
    var gone := JtiExpiry(0, skewMs) + 1;
    [Present("agent", "jti", 0, 0, 0), Collect(gone, 1000 * gone), Present("agent", "jti", 0, skewMs, 1000 * gone)]
  }

  lemma ReplayAccepted(skewMs: nat, delayMs: int)
    requires delayMs >= SafeDelay(skewMs)
    ensures History(ReplayHistory(skewMs), skewMs, delayMs)
    ensures Accepted(map[], ReplayHistory(skewMs), skewMs, 0)
    ensures Accepted(map[], ReplayHistory(skewMs), skewMs, 2)
  {
    var steps := LedgerSteps(ReplayHistory(skewMs), skewMs);
    var key := ("agent", JTI_PREFIX + "jti");
    assert steps[0] == Consume(key, JtiExpiry(0, skewMs));
    assert After(map[], steps[..0]) == map[];
    AfterOne(map[], steps, 0);
    AfterOne(map[], steps, 1);
    assert key !in After(map[], steps[..2]);
  }

  /** Every history with inserts at most `delayMs` behind their checks accepts each proof at most once. */
  ghost predicate ReplayFree(skewMs: nat, delayMs: int)
  {
    forall rows: map<(string, string), int>, events: seq<Event>, i: nat, j: nat ::
      (History(events, skewMs, delayMs) && i < j < |events| && SameProof(events[i], events[j])
       && Accepted(rows, events, skewMs, i)) ==> !Accepted(rows, events, skewMs, j)
  }

  /** The margin suffices exactly for inserts less than 61 seconds, less the skew's fraction of a second,
      behind their check; sixty seconds are always within it. */
  lemma ReplayFreeIff(skewMs: nat, delayMs: int)
    requires skewMs <= I64_MAX
    ensures ReplayFree(skewMs, delayMs) <==> delayMs < SafeDelay(skewMs)
    ensures delayMs <= 60_000 ==> ReplayFree(skewMs, delayMs)
  {
    if delayMs < SafeDelay(skewMs) {
      forall rows: map<(string, string), int>, events: seq<Event>, i: nat, j: nat
        | History(events, skewMs, delayMs) && i < j < |events| && SameProof(events[i], events[j])
          && Accepted(rows, events, skewMs, i)
        ensures !Accepted(rows, events, skewMs, j)
      {
        if Accepted(rows, events, skewMs, j) {
          SecondAcceptanceLags(rows, events, skewMs, delayMs, i, j);
        }
      }
    } else {
      ReplayAccepted(skewMs, delayMs);
      var events := ReplayHistory(skewMs);
      assert SameProof(events[0], events[2]);
    }
  }

  lemma {:induction false} Utf8Concat(s: string, t: string)
    ensures Utf8(s + t) == Utf8(s) + Utf8(t)
  {
    if s == "" {
      assert s + t == t;
    } else {
      assert (s + t)[1..] == s[1..] + t;
      Utf8Concat(s[1..], t);
    }
  }

  lemma PrefixLength()
    ensures |Utf8(JTI_PREFIX)| == 5
  {
    var s := JTI_PREFIX;
    assert s[1..] == "pop:" && s[2..] == "op:" && s[3..] == "p:" && s[4..] == ":";
    assert s[1..][1..] == "op:" && s[2..][1..] == "p:" && s[3..][1..] == ":" && s[4..][1..] == "";
    assert |Utf8("pop:")| == 1 + |Utf8("op:")| && |Utf8("op:")| == 1 + |Utf8("p:")|;
    assert |Utf8("p:")| == 1 + |Utf8(":")| && |Utf8(":")| == 1;
  }

  /** The prefix never pushes an accepted `jti` over the nonce length limit, so without a database failure
      the one error left is a replay. */
  method ConsumeJti(table: NonceTable, agent: string, jti: string, exp: int, begin: Option<string>, insert: Option<string>, commit: Option<string>)
    returns (r: Result<(), RepoError>)
    requires 1 <= |Utf8(jti)| <= JTI_MAX_LEN
    modifies table
    ensures table.rows == if r.Ok? then Next(old(table.rows), Consume((agent, JTI_PREFIX + jti), exp)) else old(table.rows)
    ensures r.Ok? ==> (agent, JTI_PREFIX + jti) !in old(table.rows)
    ensures r.Err? && r.error.Replay? ==> (agent, JTI_PREFIX + jti) in old(table.rows)
    ensures begin.None? && insert.None? && commit.None? ==> (r.Ok? <==> (agent, JTI_PREFIX + jti) !in old(table.rows))
  {
    Utf8Concat(JTI_PREFIX, jti);
    PrefixLength();
    r := table.ConsumeCallNonce(agent, JTI_PREFIX + jti, exp, begin, insert, commit);
  }
}
