/** The batching protocol of `agent_action_anchor.rs`: each pass resumes from a watermark,
    takes a capped key range, persists it, publishes it, and advances the watermark only if
    every provider accepted. Each database section is one atomic step, so passes of several
    workers interleave freely with each other and with new receipts. */
module AnchorProtocol {
  import opened Wrappers
  import opened Order
  import opened Payloads

  const CAP: nat := 10_000

  // ---- Keys and queries ----

  /** `(created_at, receipt_id)`, compared lexicographically. */
  datatype Key = Key(at: int, id: string)

  /** The watermark of a tenant without submitted batches. */
  const ZERO: Key := Key(0, "")

  predicate KeyLt(a: Key, b: Key)
  {
    a.at < b.at || (a.at == b.at && StringLt(a.id, b.id))
  }

  predicate KeyLe(a: Key, b: Key)
  {
    a == b || KeyLt(a, b)
  }

  lemma KeyOrder()
    ensures StrictOrder(KeyLt)
    ensures forall a, b :: KeyLt(a, b) || a == b || KeyLt(b, a)
  {
    StringLtTotal();
  }

  function KeyOf(r: Receipt): Key
  {
    Key(r.createdAt, r.receiptId)
  }

  predicate ReceiptLt(a: Receipt, b: Receipt)
  {
    KeyLt(KeyOf(a), KeyOf(b))
  }

  lemma ReceiptOrder()
    ensures StrictOrder(ReceiptLt)
  {
    KeyOrder();
  }

  /** `receipt_id` is the primary key of the receipts table. */
  ghost predicate UniqueIds(rs: seq<Receipt>)
  {
    forall i, j :: 0 <= i < j < |rs| ==> rs[i].receiptId != rs[j].receiptId
  }

  /** `SELECT ... WHERE keep ORDER BY created_at ASC, receipt_id ASC`. */
  function Ordered(rs: seq<Receipt>, keep: Receipt -> bool): seq<Receipt>
  {
    if rs == [] then []
    else
      var n := |rs| - 1;
      var rest := Ordered(rs[..n], keep);
      if keep(rs[n]) then Insert(ReceiptLt, rest, rs[n]) else rest
  }

  lemma {:induction false} OrderedSpec(rs: seq<Receipt>, keep: Receipt -> bool)
    requires UniqueIds(rs)
    ensures Ascending(ReceiptLt, Ordered(rs, keep))
    ensures forall r :: r in Ordered(rs, keep) <==> r in rs && keep(r)
  {
    if rs != [] {
      var n := |rs| - 1;
      OrderedSpec(rs[..n], keep);
      ReceiptOrder();
      KeyOrder();
      assert rs == rs[..n] + [rs[n]];
      if keep(rs[n]) {
        InsertAscending(ReceiptLt, Ordered(rs[..n], keep), rs[n]);
      }
    }
  }

  function After(tenant: string, mark: Key): Receipt -> bool
  {
    (r: Receipt) => r.tenantId == tenant && KeyLt(mark, KeyOf(r))
  }

  function Between(tenant: string, lo: Key, hi: Key): Receipt -> bool
  {
    (r: Receipt) => r.tenantId == tenant && KeyLe(lo, KeyOf(r)) && KeyLe(KeyOf(r), hi)
  }

  /** `LIMIT`. */
  function Take<T>(limit: nat, s: seq<T>): seq<T>
  {
    if |s| <= limit then s else s[..limit]
  }

  function First(batch: seq<Receipt>): Key
    requires batch != []
  {
    KeyOf(batch[0])
  }

  function Last(batch: seq<Receipt>): Key
    requires batch != []
  {
    KeyOf(batch[|batch| - 1])
  }

  /** `batch` is all receipts of the tenant in the half-open key range from `mark`
      (exclusive) to its own last key (inclusive), in order. */
  ghost predicate Covers(rs: seq<Receipt>, tenant: string, mark: Key, batch: seq<Receipt>)
  {
    && 0 < |batch| <= CAP
    && Ascending(ReceiptLt, batch)
    && forall r :: r in batch <==>
         r in rs && r.tenantId == tenant && KeyLt(mark, KeyOf(r)) && KeyLe(KeyOf(r), Last(batch))
  }

  lemma AtMostLast(batch: seq<Receipt>, r: Receipt)
    requires batch != [] && Ascending(ReceiptLt, batch) && r in batch
    ensures KeyLe(First(batch), KeyOf(r)) && KeyLe(KeyOf(r), Last(batch))
  {
    var i :| 0 <= i < |batch| && batch[i] == r;
    assert i < |batch| - 1 ==> ReceiptLt(batch[i], batch[|batch| - 1]);
    assert 0 < i ==> ReceiptLt(batch[0], batch[i]);
  }

  /** What a prefix of an ascending list holds. */
  lemma PrefixHolds(all: seq<Receipt>, n: nat, r: Receipt)
    requires 0 < n <= |all| && Ascending(ReceiptLt, all)
    ensures r in all[..n] <==> r in all && KeyLe(KeyOf(r), KeyOf(all[n - 1]))
  {
    KeyOrder();
    var batch := all[..n];
    if r in batch {
      AtMostLast(batch, r);
    } else if r in all {
      var i :| 0 <= i < |all| && all[i] == r;
      assert n <= i;
      assert ReceiptLt(all[n - 1], all[i]);
    }
  }

  /** A prefix of all pending receipts is a gapless range. */
  lemma PrefixCovers(rs: seq<Receipt>, tenant: string, mark: Key, all: seq<Receipt>, n: nat)
    requires Ascending(ReceiptLt, all) && 0 < n <= |all| && n <= CAP
    requires forall r :: r in all <==> r in rs && r.tenantId == tenant && KeyLt(mark, KeyOf(r))
    ensures Covers(rs, tenant, mark, all[..n])
  {
    forall r
      ensures r in all[..n] <==> r in all && KeyLe(KeyOf(r), Last(all[..n]))
    {
      PrefixHolds(all, n, r);
    }
  }

  /** The capped query takes a gapless range, whether or not the cap was reached. */
  lemma FetchCovers(rs: seq<Receipt>, tenant: string, mark: Key)
    requires UniqueIds(rs) && Ordered(rs, After(tenant, mark)) != []
    ensures Covers(rs, tenant, mark, Take(CAP, Ordered(rs, After(tenant, mark))))
  {
    var all := Ordered(rs, After(tenant, mark));
    OrderedSpec(rs, After(tenant, mark));
    assert Take(CAP, all) == all[..|Take(CAP, all)|];
    PrefixCovers(rs, tenant, mark, all, |Take(CAP, all)|);
  }

  // ---- State ----

  type Hash = string

  /** The receipt leaf hash, the audit-head leaf hash and the Merkle root, uninterpreted. */
  datatype Hashes = Hashes(
    leaf: Receipt -> Hash,
    headLeaf: (string, int, string) -> Hash,
    root: seq<Hash> -> Hash)

  type Head = Option<(int, string)>

  function ReceiptLeaves(h: Hashes, batch: seq<Receipt>): seq<Hash>
  {
    seq(|batch|, i requires 0 <= i < |batch| => h.leaf(batch[i]))
  }

  /** The leaves a batch is sealed over: one per receipt, then the audit head if any. */
  function SealedLeaves(h: Hashes, tenant: string, batch: seq<Receipt>, head: Head): seq<Hash>
  {
    match head
    case None => ReceiptLeaves(h, batch)
    case Some((seqNo, entryHash)) => ReceiptLeaves(h, batch) + [h.headLeaf(tenant, seqNo, entryHash)]
  }

  datatype Status = Pending | Submitted | Partial | Failed

  /** A row of `agent_action_anchors`; its primary key is the map key in `State`. */
  datatype Anchor = Anchor(
    tenant: string, root: Hash, nActions: nat, fromKey: Key, toKey: Key, btcAnchorId: string,
    solAnchorId: string, status: Status, leafVersion: int, createdAt: int, head: Head)

  /** History, not stored by the system: what a row was sealed over, and how many receipts the table
      held when the batch was fetched. */
  datatype Sealing = Sealing(mark: Key, seen: nat, batch: seq<Receipt>)

  /** Where a running pass is between its database sections. */
  datatype Pass =
    | Marked(tenant: string, mark: Key)
    | Fetched(tenant: string, mark: Key, seen: nat, batch: seq<Receipt>)
    | Persisted(tenant: string, anchorId: string)

  datatype State = State(
    receipts: seq<Receipt>, anchors: map<string, Anchor>,
    sealed: map<string, Sealing>, passes: map<nat, Pass>)

  const INITIAL: State := State([], map[], map[], map[])

  /** What an anchor provider did with the root: not configured, accepted under an id, or
      not. */
  datatype Provider = Absent | Accepted(id: string) | Rejected

  function ProviderId(p: Provider): string
  {
    if p.Accepted? then p.id else ""
  }

  /** Submitted needs at least one provider and a receipt id from every one of them. */
  function Outcome(btc: Provider, sol: Provider): Status
  {
    var expected := (if btc.Absent? then 0 else 1) + (if sol.Absent? then 0 else 1);
    var successes := (if ProviderId(btc) == "" then 0 else 1) + (if ProviderId(sol) == "" then 0 else 1);
    if expected > 0 && successes == expected then Submitted
    else if successes > 0 then Partial
    else Failed
  }

  // ---- Steps ----

  datatype Step =
    | Append(r: Receipt)
    | ReadMark(pass: nat, tenant: string, mark: Key)
    | Fetch(pass: nat)
    | Persist(pass: nat, anchorId: string, head: Head, now: int)
    | Finish(pass: nat, btc: Provider, sol: Provider)
    | Abandon(pass: nat)

  predicate IsSubmitted(s: State, tenant: string, a: string)
  {
    a in s.anchors && s.anchors[a].tenant == tenant && s.anchors[a].status == Submitted
  }

  /** The watermark query orders by `to_created_at` only, so any row tied at the top may
      be the one returned. */
  predicate CanRead(s: State, tenant: string, mark: Key)
  {
    if exists a :: a in s.anchors && IsSubmitted(s, tenant, a) then
      exists a :: a in s.anchors && IsSubmitted(s, tenant, a) && mark == s.anchors[a].toKey
        && forall b :: b in s.anchors && IsSubmitted(s, tenant, b) ==> s.anchors[b].toKey.at <= mark.at
    else
      mark == ZERO
  }

  ghost predicate NewId(rs: seq<Receipt>, r: Receipt)
  {
    forall x :: x in rs ==> x.receiptId != r.receiptId
  }

  /** The receipt belongs into the range that was read after `mark` and ended at `end`. */
  predicate FallsInto(r: Receipt, tenant: string, mark: Key, end: Key)
  {
    r.tenantId == tenant && KeyLt(mark, KeyOf(r)) && KeyLe(KeyOf(r), end)
  }

  /** A watermark query that fails reads as zero. */
  ghost predicate Enabled(s: State, step: Step)
  {
    match step
    case Append(r) => NewId(s.receipts, r)
    case ReadMark(p, tenant, mark) => p !in s.passes && (CanRead(s, tenant, mark) || mark == ZERO)
    case Fetch(p) => p in s.passes && s.passes[p].Marked?
    case Persist(p, id, _, _) => p in s.passes && s.passes[p].Fetched? && id !in s.anchors
    case Finish(p, _, _) => p in s.passes && s.passes[p].Persisted? && s.passes[p].anchorId in s.anchors
    case Abandon(p) => p in s.passes
  }

  function SealedRow(h: Hashes, tenant: string, batch: seq<Receipt>, head: Head, now: int): Anchor
    requires batch != []
  {
    Anchor(tenant, h.root(SealedLeaves(h, tenant, batch, head)), |batch|, First(batch), Last(batch),
           "", "", Pending, 2, now, head)
  }

  ghost function Apply(h: Hashes, s: State, step: Step): State
    requires Enabled(s, step)
  {
    match step
    case Append(r) => s.(receipts := s.receipts + [r])
    case ReadMark(p, tenant, mark) => s.(passes := s.passes[p := Marked(tenant, mark)])
    case Fetch(p) =>
      var Marked(tenant, mark) := s.passes[p];
      var batch := Take(CAP, Ordered(s.receipts, After(tenant, mark)));
      if batch == [] then s.(passes := s.passes - {p})
      else s.(passes := s.passes[p := Fetched(tenant, mark, |s.receipts|, batch)])
    case Persist(p, id, head, now) =>
      var Fetched(tenant, mark, seen, batch) := s.passes[p];
      if batch == [] then s
      else s.(anchors := s.anchors[id := SealedRow(h, tenant, batch, head, now)],
              sealed := s.sealed[id := Sealing(mark, seen, batch)],
              passes := s.passes[p := Persisted(tenant, id)])
    case Finish(p, btc, sol) =>
      var id := s.passes[p].anchorId;
      var row := s.anchors[id].(btcAnchorId := ProviderId(btc), solAnchorId := ProviderId(sol),
                                status := Outcome(btc, sol));
      s.(anchors := s.anchors[id := row], passes := s.passes - {p})
    case Abandon(p) => s.(passes := s.passes - {p})
  }

  /** Step `i` leads from state `i` to the next. */
  ghost predicate Moves(h: Hashes, states: seq<State>, steps: seq<Step>, i: nat)
    requires |states| == |steps| + 1 && i < |steps|
  {
    Enabled(states[i], steps[i]) && states[i + 1] == Apply(h, states[i], steps[i])
  }

  /** States connected by enabled steps, starting from empty tables. */
  ghost predicate IsRun(h: Hashes, states: seq<State>, steps: seq<Step>)
  {
    && |states| == |steps| + 1
    && states[0] == INITIAL
    && forall i :: 0 <= i < |steps| ==> Moves(h, states, steps, i)
  }

  // ---- Invariant ----

  /** A watermark is where some submitted batch of the tenant ended, or zero. */
  ghost predicate MarkOk(s: State, tenant: string, mark: Key)
  {
    && KeyLe(ZERO, mark)
    && (mark == ZERO || exists a :: a in s.anchors && IsSubmitted(s, tenant, a) && s.anchors[a].toKey == mark)
  }

  /** The batch is the range as the first `seen` receipts of the table give it. */
  ghost predicate ReadFrom(rs: seq<Receipt>, seen: nat, tenant: string, mark: Key, batch: seq<Receipt>)
  {
    seen <= |rs| && Covers(rs[..seen], tenant, mark, batch)
  }

  /** A row describes the batch it was sealed over. */
  ghost predicate RowOk(h: Hashes, s: State, a: string)
    requires a in s.anchors
  {
    && a in s.sealed
    && var row, sealing := s.anchors[a], s.sealed[a];
       && MarkOk(s, row.tenant, sealing.mark)
       && ReadFrom(s.receipts, sealing.seen, row.tenant, sealing.mark, sealing.batch)
       && row.nActions == |sealing.batch|
       && row.fromKey == First(sealing.batch)
       && row.toKey == Last(sealing.batch)
       && row.leafVersion == 2
       && row.root == h.root(SealedLeaves(h, row.tenant, sealing.batch, row.head))
  }

  ghost predicate PassOk(s: State, pass: Pass)
  {
    match pass
    case Marked(tenant, mark) => MarkOk(s, tenant, mark)
    case Fetched(tenant, mark, seen, batch) => MarkOk(s, tenant, mark) && ReadFrom(s.receipts, seen, tenant, mark, batch)
    case Persisted(tenant, a) => a in s.anchors && s.anchors[a].tenant == tenant && s.anchors[a].status == Pending
  }

  ghost predicate OwnRows(s: State)
  {
    forall p, q :: p in s.passes && q in s.passes && p != q && s.passes[p].Persisted? && s.passes[q].Persisted?
      ==> s.passes[p].anchorId != s.passes[q].anchorId
  }

  /** A key is at most the largest submitted key of the tenant. */
  ghost predicate UpToSubmitted(s: State, tenant: string, key: Key)
  {
    exists a :: a in s.anchors && IsSubmitted(s, tenant, a) && KeyLe(key, s.anchors[a].toKey)
  }

  /** A key lies in the range some submitted batch of the tenant was read from. */
  ghost predicate InSubmittedRange(s: State, tenant: string, key: Key)
  {
    exists a :: a in s.anchors && IsSubmitted(s, tenant, a) && a in s.sealed
                && KeyLt(s.sealed[a].mark, key) && KeyLe(key, s.anchors[a].toKey)
  }

  /** The submitted ranges reach from zero to the largest submitted key without a gap. */
  ghost predicate RangesReach(s: State)
  {
    forall tenant, key :: KeyLt(ZERO, key) && UpToSubmitted(s, tenant, key) ==> InSubmittedRange(s, tenant, key)
  }

  /** Holds in every reachable state, whatever receipts arrive and when. */
  ghost predicate Inv(h: Hashes, s: State)
  {
    && UniqueIds(s.receipts)
    && (forall a :: a in s.anchors ==> RowOk(h, s, a))
    && (forall p :: p in s.passes ==> PassOk(s, s.passes[p]))
    && OwnRows(s)
    && RangesReach(s)
  }

  // ---- Preservation, step by step ----

  lemma MarkStable(s: State, s': State, tenant: string, mark: Key)
    requires MarkOk(s, tenant, mark)
    requires forall a :: a in s.anchors && IsSubmitted(s, tenant, a) ==>
               IsSubmitted(s', tenant, a) && s'.anchors[a].toKey == s.anchors[a].toKey
    ensures MarkOk(s', tenant, mark)
  {
  }

  /** Every batch ends above the zero watermark. */
  lemma EndsAboveZero(h: Hashes, s: State, a: string)
    requires a in s.anchors && RowOk(h, s, a)
    ensures KeyLt(ZERO, s.anchors[a].toKey)
  {
    KeyOrder();
    var batch := s.sealed[a].batch;
    assert batch[|batch| - 1] in batch;
  }

  lemma ReadIsMarkOk(h: Hashes, s: State, tenant: string, mark: Key)
    requires (forall a :: a in s.anchors ==> RowOk(h, s, a)) && CanRead(s, tenant, mark)
    ensures MarkOk(s, tenant, mark)
  {
    if mark != ZERO {
      var a :| a in s.anchors && IsSubmitted(s, tenant, a) && mark == s.anchors[a].toKey;
      EndsAboveZero(h, s, a);
    }
  }

  lemma AnyReadIsMarkOk(h: Hashes, s: State, tenant: string, mark: Key)
    requires (forall a :: a in s.anchors ==> RowOk(h, s, a)) && (CanRead(s, tenant, mark) || mark == ZERO)
    ensures MarkOk(s, tenant, mark)
  {
    if mark != ZERO {
      ReadIsMarkOk(h, s, tenant, mark);
    }
  }

  lemma ReadKeepsInv(h: Hashes, s: State, p: nat, tenant: string, mark: Key)
    requires Inv(h, s) && Enabled(s, ReadMark(p, tenant, mark))
    ensures Inv(h, Apply(h, s, ReadMark(p, tenant, mark)))
  {
    AnyReadIsMarkOk(h, s, tenant, mark);
    SetPass(h, s, p, Marked(tenant, mark));
  }

  lemma FetchKeepsInv(h: Hashes, s: State, p: nat)
    requires Inv(h, s) && Enabled(s, Fetch(p))
    ensures Inv(h, Apply(h, s, Fetch(p)))
  {
    var Marked(tenant, mark) := s.passes[p];
    var all := Ordered(s.receipts, After(tenant, mark));
    if all == [] {
      PassesOnly(h, s, s.passes - {p});
    } else {
      FetchCovers(s.receipts, tenant, mark);
      assert PassOk(s, s.passes[p]);
      assert s.receipts[..|s.receipts|] == s.receipts;
      SetPass(h, s, p, Fetched(tenant, mark, |s.receipts|, Take(CAP, all)));
    }
  }

  lemma SetPass(h: Hashes, s: State, p: nat, pass: Pass)
    requires Inv(h, s) && PassOk(s, pass) && !pass.Persisted?
    ensures Inv(h, s.(passes := s.passes[p := pass]))
  {
    PassesOnly(h, s, s.passes[p := pass]);
  }

  /** Steps that touch no table keep the invariant if the new pass states are justified. */
  lemma PassesOnly(h: Hashes, s: State, passes: map<nat, Pass>)
    requires Inv(h, s)
    requires forall p :: p in passes ==> PassOk(s, passes[p])
    requires forall p :: p in passes && passes[p].Persisted? ==> p in s.passes && passes[p] == s.passes[p]
    ensures Inv(h, s.(passes := passes))
  {
    var s' := s.(passes := passes);
    forall a | a in s'.anchors
      ensures RowOk(h, s', a)
    {
      assert RowOk(h, s, a);
      MarkStable(s, s', s.anchors[a].tenant, s.sealed[a].mark);
    }
    forall p | p in passes
      ensures PassOk(s', passes[p])
    {
      if !passes[p].Persisted? {
        MarkStable(s, s', passes[p].tenant, passes[p].mark);
      }
    }
    RangesStable(s, s');
  }

  /** The two states have the same submitted rows, sealed over the same batches. */
  ghost predicate SameSubmitted(s: State, s': State)
  {
    && (forall t, a :: IsSubmitted(s, t, a) <==> IsSubmitted(s', t, a))
    && (forall t, a :: IsSubmitted(s, t, a) && IsSubmitted(s', t, a) ==>
          && s'.anchors[a].toKey == s.anchors[a].toKey
          && (a in s.sealed <==> a in s'.sealed)
          && (a in s.sealed ==> s'.sealed[a] == s.sealed[a]))
  }

  lemma RangesStable(s: State, s': State)
    requires SameSubmitted(s, s') && RangesReach(s)
    ensures RangesReach(s')
  {
    forall tenant, key | KeyLt(ZERO, key) && UpToSubmitted(s', tenant, key)
      ensures InSubmittedRange(s', tenant, key)
    {
      assert UpToSubmitted(s, tenant, key);
      assert InSubmittedRange(s, tenant, key);
    }
  }

  /** Rows and passes not touched by a step stay justified as long as no submitted row is
      lost. */
  lemma RowStable(h: Hashes, s: State, s': State, a: string)
    requires a in s.anchors && RowOk(h, s, a) && s.receipts <= s'.receipts
    requires a in s'.anchors && a in s'.sealed && s'.sealed[a] == s.sealed[a]
    requires s'.anchors[a] == s.anchors[a].(status := s'.anchors[a].status,
               btcAnchorId := s'.anchors[a].btcAnchorId, solAnchorId := s'.anchors[a].solAnchorId)
    requires KeepsSubmitted(s, s')
    ensures RowOk(h, s', a)
  {
    MarkStable(s, s', s.anchors[a].tenant, s.sealed[a].mark);
    ReadStable(s.receipts, s'.receipts, s.sealed[a].seen);
  }

  lemma ReadStable(rs: seq<Receipt>, rs': seq<Receipt>, seen: nat)
    requires rs <= rs' && seen <= |rs|
    ensures rs'[..seen] == rs[..seen]
  {
    assert rs' == rs + rs'[|rs|..];
  }

  ghost predicate KeepsSubmitted(s: State, s': State)
  {
    forall t, a :: a in s.anchors && IsSubmitted(s, t, a) ==>
      IsSubmitted(s', t, a) && s'.anchors[a].toKey == s.anchors[a].toKey
  }

  lemma PassStable(s: State, s': State, pass: Pass)
    requires PassOk(s, pass) && s.receipts <= s'.receipts && KeepsSubmitted(s, s')
    requires pass.Persisted? ==> pass.anchorId in s'.anchors && s'.anchors[pass.anchorId] == s.anchors[pass.anchorId]
    ensures PassOk(s', pass)
  {
    if !pass.Persisted? {
      MarkStable(s, s', pass.tenant, pass.mark);
    }
    if pass.Fetched? {
      ReadStable(s.receipts, s'.receipts, pass.seen);
    }
  }

  /** New receipts leave every batch the range it was read from. */
  lemma AppendKeepsInv(h: Hashes, s: State, r: Receipt)
    requires Inv(h, s) && NewId(s.receipts, r)
    ensures Inv(h, s.(receipts := s.receipts + [r]))
  {
    var s' := s.(receipts := s.receipts + [r]);
    forall a | a in s'.anchors
      ensures RowOk(h, s', a)
    {
      assert RowOk(h, s, a);
      RowStable(h, s, s', a);
    }
    forall p | p in s'.passes
      ensures PassOk(s', s'.passes[p])
    {
      PassStable(s, s', s.passes[p]);
    }
    RangesStable(s, s');
  }

  lemma PersistKeepsSubmitted(h: Hashes, s: State, p: nat, id: string, head: Head, now: int)
    requires Enabled(s, Persist(p, id, head, now))
    ensures var s' := Apply(h, s, Persist(p, id, head, now));
            SameSubmitted(s, s') && KeepsSubmitted(s, s')
  {
  }

  lemma PersistKeepsRows(h: Hashes, s: State, p: nat, id: string, head: Head, now: int)
    requires Inv(h, s) && Enabled(s, Persist(p, id, head, now))
    ensures var s' := Apply(h, s, Persist(p, id, head, now));
            forall a :: a in s'.anchors ==> RowOk(h, s', a)
  {
    var s' := Apply(h, s, Persist(p, id, head, now));
    var pass := s.passes[p];
    assert PassOk(s, pass);
    PersistKeepsSubmitted(h, s, p, id, head, now);
    forall a | a in s'.anchors
      ensures RowOk(h, s', a)
    {
      if a == id {
        MarkStable(s, s', pass.tenant, pass.mark);
      } else {
        RowStable(h, s, s', a);
      }
    }
  }

  ghost predicate PassesOk(s: State)
  {
    forall q :: q in s.passes ==> PassOk(s, s.passes[q])
  }

  lemma PersistKeepsPasses(h: Hashes, s: State, p: nat, id: string, head: Head, now: int)
    requires PassesOk(s) && Enabled(s, Persist(p, id, head, now))
    requires KeepsSubmitted(s, Apply(h, s, Persist(p, id, head, now)))
    ensures var s' := Apply(h, s, Persist(p, id, head, now));
            forall q :: q in s'.passes ==> PassOk(s', s'.passes[q])
  {
    var s' := Apply(h, s, Persist(p, id, head, now));
    forall q | q in s'.passes
      ensures PassOk(s', s'.passes[q])
    {
      if q != p {
        PassStable(s, s', s.passes[q]);
      }
    }
  }

  lemma PersistKeepsInv(h: Hashes, s: State, p: nat, id: string, head: Head, now: int)
    requires Inv(h, s) && Enabled(s, Persist(p, id, head, now))
    ensures Inv(h, Apply(h, s, Persist(p, id, head, now)))
  {
    PersistKeepsSubmitted(h, s, p, id, head, now);
    PersistKeepsRows(h, s, p, id, head, now);
    PersistKeepsPasses(h, s, p, id, head, now);
    PersistOwnRows(h, s, p, id, head, now);
    RangesStable(s, Apply(h, s, Persist(p, id, head, now)));
  }

  lemma PersistOwnRows(h: Hashes, s: State, p: nat, id: string, head: Head, now: int)
    requires PassesOk(s) && OwnRows(s) && Enabled(s, Persist(p, id, head, now))
    ensures OwnRows(Apply(h, s, Persist(p, id, head, now)))
  {
    forall q | q in s.passes && s.passes[q].Persisted?
      ensures s.passes[q].anchorId != id
    {
      assert PassOk(s, s.passes[q]);
    }
  }

  /** Finishing touches a row that was not submitted. */
  lemma FinishKeepsSubmitted(h: Hashes, s: State, p: nat, btc: Provider, sol: Provider)
    requires Enabled(s, Finish(p, btc, sol)) && PassOk(s, s.passes[p])
    ensures var s' := Apply(h, s, Finish(p, btc, sol));
            KeepsSubmitted(s, s') && (Outcome(btc, sol) != Submitted ==> SameSubmitted(s, s'))
  {
  }

  lemma FinishKeepsRow(h: Hashes, s: State, p: nat, btc: Provider, sol: Provider, a: string)
    requires Enabled(s, Finish(p, btc, sol)) && a in s.anchors && RowOk(h, s, a)
    requires KeepsSubmitted(s, Apply(h, s, Finish(p, btc, sol)))
    ensures RowOk(h, Apply(h, s, Finish(p, btc, sol)), a)
  {
    RowStable(h, s, Apply(h, s, Finish(p, btc, sol)), a);
  }

  lemma FinishKeepsRows(h: Hashes, s: State, p: nat, btc: Provider, sol: Provider)
    requires Inv(h, s) && Enabled(s, Finish(p, btc, sol))
    ensures var s' := Apply(h, s, Finish(p, btc, sol));
            && KeepsSubmitted(s, s')
            && (forall a :: a in s'.anchors ==> RowOk(h, s', a))
            && (Outcome(btc, sol) != Submitted ==> SameSubmitted(s, s'))
  {
    FinishKeepsSubmitted(h, s, p, btc, sol);
    forall a | a in Apply(h, s, Finish(p, btc, sol)).anchors
      ensures RowOk(h, Apply(h, s, Finish(p, btc, sol)), a)
    {
      FinishKeepsRow(h, s, p, btc, sol, a);
    }
  }

  lemma FinishKeepsPasses(h: Hashes, s: State, p: nat, btc: Provider, sol: Provider)
    requires PassesOk(s) && OwnRows(s) && Enabled(s, Finish(p, btc, sol))
    requires KeepsSubmitted(s, Apply(h, s, Finish(p, btc, sol)))
    ensures var s' := Apply(h, s, Finish(p, btc, sol));
            OwnRows(s') && forall q :: q in s'.passes ==> PassOk(s', s'.passes[q])
  {
    var s' := Apply(h, s, Finish(p, btc, sol));
    forall q | q in s'.passes
      ensures PassOk(s', s'.passes[q])
    {
      PassStable(s, s', s.passes[q]);
    }
  }

  lemma FinishKeepsInv(h: Hashes, s: State, p: nat, btc: Provider, sol: Provider)
    requires Inv(h, s) && Enabled(s, Finish(p, btc, sol))
    ensures Inv(h, Apply(h, s, Finish(p, btc, sol)))
  {
    FinishKeepsRows(h, s, p, btc, sol);
    FinishKeepsPasses(h, s, p, btc, sol);
    FinishKeepsRanges(h, s, p, btc, sol);
  }

  lemma FinishKeepsRanges(h: Hashes, s: State, p: nat, btc: Provider, sol: Provider)
    requires RangesReach(s) && Enabled(s, Finish(p, btc, sol)) && PassOk(s, s.passes[p]) && RowOk(h, s, s.passes[p].anchorId)
    ensures RangesReach(Apply(h, s, Finish(p, btc, sol)))
  {
    if Outcome(btc, sol) == Submitted {
      SubmitKeepsRanges(h, s, Apply(h, s, Finish(p, btc, sol)), s.passes[p].anchorId);
    } else {
      FinishKeepsSubmitted(h, s, p, btc, sol);
      RangesStable(s, Apply(h, s, Finish(p, btc, sol)));
    }
  }

  /** Submitting one more batch extends the ranges without leaving a gap: the batch
      starts where a submitted batch ended. */
  lemma SubmitKeepsRanges(h: Hashes, s: State, s': State, id: string)
    requires RangesReach(s) && id in s.anchors && RowOk(h, s, id)
    requires s'.sealed == s.sealed && s'.anchors.Keys == s.anchors.Keys && s'.anchors[id].status == Submitted
    requires s'.anchors[id].tenant == s.anchors[id].tenant && s'.anchors[id].toKey == s.anchors[id].toKey
    requires forall a :: a in s.anchors && a != id ==> s'.anchors[a] == s.anchors[a]
    requires s.anchors[id].status == Pending
    ensures RangesReach(s')
  {
    forall tenant, key | KeyLt(ZERO, key) && UpToSubmitted(s', tenant, key)
      ensures InSubmittedRange(s', tenant, key)
    {
      if UpToSubmitted(s, tenant, key) {
        var a :| a in s.anchors && IsSubmitted(s, tenant, a) && a in s.sealed
                 && KeyLt(s.sealed[a].mark, key) && KeyLe(key, s.anchors[a].toKey);
        assert IsSubmitted(s', tenant, a);
      } else {
        OnlyNewRow(h, s, s', id, tenant, key);
      }
    }
  }

  /** A key that only the new row reaches lies in the range of the new row. */
  lemma OnlyNewRow(h: Hashes, s: State, s': State, id: string, tenant: string, key: Key)
    requires id in s.anchors && RowOk(h, s, id) && s'.sealed == s.sealed && s'.anchors.Keys == s.anchors.Keys
    requires s'.anchors[id].status == Submitted
    requires s'.anchors[id].tenant == s.anchors[id].tenant && s'.anchors[id].toKey == s.anchors[id].toKey
    requires forall a :: a in s.anchors && a != id ==> s'.anchors[a] == s.anchors[a]
    requires KeyLt(ZERO, key) && UpToSubmitted(s', tenant, key) && !UpToSubmitted(s, tenant, key)
    ensures InSubmittedRange(s', tenant, key)
  {
    KeyOrder();
    var b :| b in s'.anchors && IsSubmitted(s', tenant, b) && KeyLe(key, s'.anchors[b].toKey);
    assert b == id;
    var mark := s.sealed[id].mark;
    if mark != ZERO {
      var a :| a in s.anchors && IsSubmitted(s, tenant, a) && s.anchors[a].toKey == mark;
      assert !KeyLe(key, mark);
    }
    assert KeyLt(mark, key);
  }

  lemma StepKeepsInv(h: Hashes, s: State, step: Step)
    requires Inv(h, s) && Enabled(s, step)
    ensures Inv(h, Apply(h, s, step))
  {
    match step
    case Append(r) => AppendKeepsInv(h, s, r);
    case ReadMark(p, tenant, mark) => ReadKeepsInv(h, s, p, tenant, mark);
    case Fetch(p) => FetchKeepsInv(h, s, p);
    case Persist(p, id, head, now) => PersistKeepsInv(h, s, p, id, head, now);
    case Finish(p, btc, sol) => FinishKeepsInv(h, s, p, btc, sol);
    case Abandon(p) => PassesOnly(h, s, s.passes - {p});
  }

  lemma {:induction false} RunKeepsInv(h: Hashes, states: seq<State>, steps: seq<Step>, i: nat)
    requires IsRun(h, states, steps) && i < |states|
    ensures Inv(h, states[i])
  {
    if i > 0 {
      RunKeepsInv(h, states, steps, i - 1);
      assert Moves(h, states, steps, i - 1);
      StepKeepsInv(h, states[i - 1], steps[i - 1]);
    }
  }
}
