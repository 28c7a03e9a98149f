/** The tables of the action log and the code that works on them: the sections of an
    anchor pass, the proof lookup, and the receipt count of the checkpoint finaliser. Every
    method is tied to the step of the protocol it performs. */
module AnchorStore {
  import opened Wrappers
  import opened Payloads
  import opened AnchorProtocol
  import opened AnchorTiming
  import opened Checkpoints

  /** No batch to look in, a receipt missing from the batch picked for it, a failed query, or a proof. */
  datatype ProofResult =
    | NoProof
    | NotInBatch
    | QueryFailed
    | Proof(anchorId: string, leafIndex: nat, leaves: seq<Hash>)

  /** A batch row the proof lookup may pick for a receipt created at `at`: the range matches
      by `created_at` alone, and among the matches any of the oldest rows may come first. */
  predicate Picks(anchors: map<string, Anchor>, tenant: string, at: int, a: string)
  {
    && a in anchors && Matches(anchors[a], tenant, at)
    && forall b :: b in anchors && Matches(anchors[b], tenant, at) ==> anchors[a].createdAt <= anchors[b].createdAt
  }

  predicate Matches(row: Anchor, tenant: string, at: int)
  {
    row.tenant == tenant && row.fromKey.at <= at <= row.toKey.at
  }

  /** Whichever of the oldest matching rows the lookup picks, the receipt is in its refetched batch. */
  ghost predicate AlwaysProved(s: State, r: Receipt)
  {
    forall a :: Picks(s.anchors, r.tenantId, r.createdAt, a) ==> r in RangeOf(s, s.anchors[a])
  }

  lemma HeldMatches(row: Anchor, r: Receipt)
    requires Holds(row, r)
    ensures Matches(row, r.tenantId, r.createdAt)
  {
  }

  lemma AnchoredMatches(h: Hashes, s: State, r: Receipt) returns (b: string)
    requires (forall a :: a in s.anchors ==> RowOk(h, s, a)) && Anchored(s, r)
    ensures b in s.anchors && Matches(s.anchors[b], r.tenantId, r.createdAt)
  {
    b :| b in s.anchors && IsSubmitted(s, r.tenantId, b) && b in s.sealed && r in s.sealed[b].batch;
    SealedIffHeld(h, s, b, r);
    HeldMatches(s.anchors[b], r);
  }

  lemma ProvedIffHeld(s: State, r: Receipt)
    requires UniqueIds(s.receipts) && r in s.receipts
    ensures AlwaysProved(s, r) <==> forall a :: Picks(s.anchors, r.tenantId, r.createdAt, a) ==> Holds(s.anchors[a], r)
  {
    forall a | Picks(s.anchors, r.tenantId, r.createdAt, a)
      ensures r in RangeOf(s, s.anchors[a]) <==> Holds(s.anchors[a], r)
    {
      RangeHolds(s, s.anchors[a]);
    }
  }

  /** An anchored receipt has a row to look in, and it is sure to get its proof exactly if the bounds of every
      oldest row that matches its second take it in. */
  lemma AlwaysProvedIff(h: Hashes, s: State, r: Receipt)
    requires Inv(h, s) && r in s.receipts && Anchored(s, r)
    ensures exists a :: Picks(s.anchors, r.tenantId, r.createdAt, a)
    ensures AlwaysProved(s, r) <==> forall a :: Picks(s.anchors, r.tenantId, r.createdAt, a) ==> Holds(s.anchors[a], r)
  {
    var b := AnchoredMatches(h, s, r);
    OldestExists(s.anchors, r.tenantId, r.createdAt, b);
    ProvedIffHeld(s, r);
  }

  /** Some key of a nonempty set has the greatest rank. */
  lemma {:induction false} GreatestExists(keys: set<string>, rank: string -> int)
    requires keys != {}
    ensures exists k :: k in keys && forall x :: x in keys ==> rank(x) <= rank(k)
    decreases |keys|
  {
    var k :| k in keys;
    var rest := keys - {k};
    assert keys == rest + {k};
    if rest == {} {
      assert forall x :: x in keys ==> rank(x) <= rank(k);
    } else {
      GreatestExists(rest, rank);
      var m :| m in rest && forall x :: x in rest ==> rank(x) <= rank(m);
      var top := if rank(k) < rank(m) then m else k;
      assert top in keys && forall x :: x in keys ==> rank(x) <= rank(top);
    }
  }

  /** `ORDER BY to_created_at DESC LIMIT 1` returns a row whenever one is submitted. */
  lemma WatermarkExists(s: State, tenant: string, a: string)
    requires a in s.anchors && IsSubmitted(s, tenant, a)
    ensures exists k :: k in s.anchors && SubmittedBy(s.anchors[k], tenant)
              && forall b :: b in s.anchors && SubmittedBy(s.anchors[b], tenant) ==> s.anchors[b].toKey.at <= s.anchors[k].toKey.at
  {
    var keys := set x | x in s.anchors && IsSubmitted(s, tenant, x);
    var rank := x => if x in s.anchors then s.anchors[x].toKey.at else 0;
    assert a in keys;
    GreatestExists(keys, rank);
    var k :| k in keys && forall x :: x in keys ==> rank(x) <= rank(k);
    forall b | b in s.anchors && SubmittedBy(s.anchors[b], tenant)
      ensures s.anchors[b].toKey.at <= s.anchors[k].toKey.at
    {
      assert b in keys;
    }
  }

  /** The watermark query: some submitted row with the latest `to_created_at`. */
  method SelectWatermark(ghost s: State, anchors: map<string, Anchor>, tenant: string) returns (mark: Key)
    requires s.anchors == anchors
    ensures CanRead(s, tenant, mark)
  {
    if a :| a in anchors && SubmittedBy(anchors[a], tenant) {
      WatermarkExists(s, tenant, a);
      var k :| k in anchors && SubmittedBy(anchors[k], tenant)
        && forall b :: b in anchors && SubmittedBy(anchors[b], tenant) ==> anchors[b].toKey.at <= anchors[k].toKey.at;
      mark := anchors[k].toKey;
      assert IsSubmitted(s, tenant, k);
    } else {
      assert forall b :: b in anchors ==> !SubmittedBy(anchors[b], tenant);
      mark := ZERO;
    }
  }

  predicate SubmittedBy(row: Anchor, tenant: string)
  {
    row.tenant == tenant && row.status == Submitted
  }

  /** `ORDER BY created_at ASC LIMIT 1` returns a row whenever one matches. */
  lemma OldestExists(anchors: map<string, Anchor>, tenant: string, at: int, a: string)
    requires a in anchors && Matches(anchors[a], tenant, at)
    ensures exists k :: Picks(anchors, tenant, at, k)
  {
    var keys := set x | x in anchors && Matches(anchors[x], tenant, at);
    var rank := x => if x in anchors then -anchors[x].createdAt else 0;
    assert a in keys;
    GreatestExists(keys, rank);
    var k :| k in keys && forall x :: x in keys ==> rank(x) <= rank(k);
    forall b | b in anchors && Matches(anchors[b], tenant, at)
      ensures anchors[k].createdAt <= anchors[b].createdAt
    {
      assert b in keys;
    }
    assert Picks(anchors, tenant, at, k);
  }

  /** The index of a receipt in a list, as `position` finds it. */
  method PositionOf(batch: seq<Receipt>, receiptId: string) returns (r: Option<nat>)
    ensures r.None? <==> forall x :: x in batch ==> x.receiptId != receiptId
    ensures r.Some? ==> r.value < |batch| && batch[r.value].receiptId == receiptId
  {
    for i := 0 to |batch|
      invariant forall x :: x in batch[..i] ==> x.receiptId != receiptId
    {
      if batch[i].receiptId == receiptId {
        return Some(i);
      }
      assert batch[..i + 1] == batch[..i] + [batch[i]];
    }
    assert batch[..|batch|] == batch;
    return None;
  }

  /** The counting loop of `finalize_proof_checkpoint`: three totals that agree exactly
      when every row is compatible and MAC-valid. */
  method CountBatch(e: Env, rows: seq<Receipt>) returns (total: nat, compatible: nat, validMacs: nat)
    ensures total == |rows| && compatible <= total && validMacs <= total
    ensures compatible == total && validMacs == total <==> AllGood(e, rows)
  {
    total, compatible, validMacs := 0, 0, 0;
    for i := 0 to |rows|
      invariant total == i && compatible <= total && validMacs <= total
      invariant compatible == total <==> forall r :: r in rows[..i] ==> Compatible(r)
      invariant validMacs == total <==> forall r :: r in rows[..i] ==> e.macValid(r)
    {
      assert rows[..i + 1] == rows[..i] + [rows[i]];
      assert rows[i] in rows[..i + 1];
      total := total + 1;
      if Compatible(rows[i]) {
        compatible := compatible + 1;
      }
      if e.macValid(rows[i]) {
        validMacs := validMacs + 1;
      }
    }
    assert rows[..|rows|] == rows;
  }

  class ActionLog {
    const h: Hashes
    var receipts: seq<Receipt>
    var anchors: map<string, Anchor>
    ghost var sealed: map<string, Sealing>
    ghost var passes: map<nat, Pass>

    constructor (h: Hashes)
      ensures this.h == h && View() == INITIAL
    {
      this.h := h;
      receipts, anchors, sealed, passes := [], map[], map[], map[];
    }

    ghost function View(): State
      reads this
    {
      State(receipts, anchors, sealed, passes)
    }

    /** The invariant survives any new receipt; the batches stay complete exactly if it comes in time. */
    method AppendReceipt(r: Receipt)
      requires NewId(receipts, r)
      modifies this
      ensures View() == old(View()).(receipts := old(receipts) + [r])
      ensures old(Inv(h, View())) ==> Inv(h, View())
      ensures old(Inv(h, View()) && Complete(View())) ==> (Complete(View()) <==> old(InTime(View(), r)))
    {
      if Inv(h, View()) {
        AppendKeepsInv(h, View(), r);
        if Complete(View()) {
          AppendCompleteIff(h, View(), r);
        }
      }
      receipts := receipts + [r];
    }

    /** Section 1 of a pass: the watermark of the last submitted batch. */
    method ReadWatermark(ghost p: nat, tenant: string, fails: bool) returns (mark: Key)
      requires p !in passes
      modifies this
      ensures if fails then mark == ZERO else CanRead(old(View()), tenant, mark)
      ensures View() == Apply(h, old(View()), ReadMark(p, tenant, mark))
    {
      if fails {
        mark := ZERO;
      } else {
        mark := SelectWatermark(View(), anchors, tenant);
      }
      passes := passes[p := Marked(tenant, mark)];
    }

    /** Section 2: the pending receipts, ordered and capped. The batch is empty exactly if the tenant has nothing
        after the watermark; otherwise it is a gapless range of 1 to 10,000 of the tenant's receipts that
        starts right after it, and below the cap it is all of them. */
    method FetchPending(ghost p: nat, tenant: string, mark: Key) returns (batch: seq<Receipt>)
      requires p in passes && passes[p] == Marked(tenant, mark) && UniqueIds(receipts)
      modifies this`passes
      ensures batch == [] <==> forall r :: r in receipts && r.tenantId == tenant ==> !KeyLt(mark, KeyOf(r))
      ensures batch != [] ==> Covers(receipts, tenant, mark, batch)
      ensures |batch| < CAP ==> forall r :: r in receipts && r.tenantId == tenant && KeyLt(mark, KeyOf(r)) ==> r in batch
      ensures View() == Apply(h, old(View()), Fetch(p))
      ensures if batch == [] then p !in passes else p in passes && passes[p] == Fetched(tenant, mark, |receipts|, batch)
    {
      var all := Ordered(receipts, After(tenant, mark));
      OrderedSpec(receipts, After(tenant, mark));
      batch := Take(CAP, all);
      if all != [] {
        FetchCovers(receipts, tenant, mark);
        assert all[0] in all;
      }
      passes := if batch == [] then passes - {p} else passes[p := Fetched(tenant, mark, |receipts|, batch)];
    }

    /** Sections 3 and 4: seal the batch and persist it as pending. */
    method PersistBatch(ghost p: nat, tenant: string, ghost mark: Key, ghost seen: nat, batch: seq<Receipt>, head: Head,
                        anchorId: string, now: int)
      requires p in passes && passes[p] == Fetched(tenant, mark, seen, batch) && batch != [] && anchorId !in anchors
      modifies this
      ensures View() == Apply(h, old(View()), Persist(p, anchorId, head, now))
    {
      var leaves := ReceiptLeaves(h, batch);
      if head.Some? {
        leaves := leaves + [h.headLeaf(tenant, head.value.0, head.value.1)];
      }
      var row := Anchor(tenant, h.root(leaves), |batch|, First(batch), Last(batch), "", "", Pending, 2, now, head);
      anchors := anchors[anchorId := row];
      sealed := sealed[anchorId := Sealing(mark, seen, batch)];
      passes := passes[p := Persisted(tenant, anchorId)];
    }

    /** Section 6: record what the providers answered. */
    method FinishPass(ghost p: nat, ghost tenant: string, anchorId: string, btc: Provider, sol: Provider)
      requires p in passes && passes[p] == Persisted(tenant, anchorId) && anchorId in anchors
      modifies this
      ensures View() == Apply(h, old(View()), Finish(p, btc, sol))
    {
      var btcId, solId := ProviderId(btc), ProviderId(sol);
      var expected := (if btc == Absent then 0 else 1) + (if sol == Absent then 0 else 1);
      var successes := (if btcId != "" then 1 else 0) + (if solId != "" then 1 else 0);
      var status := if expected > 0 && successes == expected then Submitted
                    else if successes > 0 then Partial
                    else Failed;
      anchors := anchors[anchorId := anchors[anchorId].(btcAnchorId := btcId, solAnchorId := solId, status := status)];
      passes := passes - {p};
    }

    /** The second half of the proof lookup: refetch the batch and find the receipt in it. The leaves are those
        of the sealed batch exactly if nothing arrived within its bounds since the fetch. */
    method ProofInBatch(receiptId: string, a: string) returns (r: ProofResult)
      requires Inv(h, View()) && a in anchors
      ensures a in sealed && (r.Proof? || r.NotInBatch?)
      ensures r.NotInBatch? <==> forall x :: x in RangeOf(View(), anchors[a]) ==> x.receiptId != receiptId
      ensures r.Proof? ==> r.anchorId == a && ProofOf(View(), a, receiptId, r.leafIndex, r.leaves)
    {
      var row := anchors[a];
      assert RowOk(h, View(), a);
      RangeIsSealedIff(h, View(), a);
      var batch := Ordered(receipts, Between(row.tenant, row.fromKey, row.toKey));
      var leaves := ReceiptLeaves(h, batch);
      var index := PositionOf(batch, receiptId);
      if index.None? {
        return NotInBatch;
      }
      return Proof(a, index.value, leaves);
    }

    /** The index is that of the receipt among the receipts of the row's range; the leaves are theirs; they are
        the leaves of the sealed batch, and give the stored root if no audit head was appended, exactly
        if nothing arrived within the bounds since the fetch. */
    ghost predicate ProofOf(s: State, a: string, receiptId: string, index: nat, leaves: seq<Hash>)
    {
      && a in s.anchors && a in s.sealed
      && var range := RangeOf(s, s.anchors[a]);
         && index < |range| && range[index].receiptId == receiptId
         && leaves == ReceiptLeaves(h, range)
         && (leaves == ReceiptLeaves(h, s.sealed[a].batch) <==> NoneSince(s, a))
         && (NoneSince(s, a) && s.anchors[a].head.None? ==> h.root(leaves) == s.anchors[a].root)
    }

    /** The tenant has no such receipt, or none of its batches matches the receipt's second. */
    ghost predicate Unmatched(receiptId: string, tenant: string)
      reads this
    {
      forall x, a :: x in receipts && x.receiptId == receiptId && x.tenantId == tenant && a in anchors ==>
        !Matches(anchors[a], tenant, x.createdAt)
    }

    /** The first half: the receipt, and one of the oldest rows that match its second. */
    method PickBatch(receiptId: string, tenant: string) returns (found: Option<(nat, string)>)
      requires UniqueIds(receipts)
      ensures found.None? <==> Unmatched(receiptId, tenant)
      ensures found.Some? ==>
                && found.value.0 < |receipts| && found.value.1 in anchors
                && var x := receipts[found.value.0];
                   x.receiptId == receiptId && x.tenantId == tenant && Picks(anchors, tenant, x.createdAt, found.value.1)
    {
      if i :| 0 <= i < |receipts| && receipts[i].receiptId == receiptId && receipts[i].tenantId == tenant {
        var at := receipts[i].createdAt;
        OnlyReceipt(receipts, i);
        if b :| b in anchors && Matches(anchors[b], tenant, at) {
          OldestExists(anchors, tenant, at, b);
          var a :| a in anchors && Picks(anchors, tenant, at, a);
          assert receipts[i] in receipts;
          return Some((i, a));
        }
      }
      return None;
    }

    /** `proof_for_receipt_for_tenant`: pick the oldest row that matches the receipt's second, then look the
        receipt up in its batch. A proof is for that very receipt, never for another index, and it comes
        exactly if the picked row's bounds take the receipt in. A lookup that fails counts as no
        batch. */
    method ProofForReceipt(receiptId: string, tenant: string, fault: LookupFault) returns (r: ProofResult, ghost picked: string)
      requires Inv(h, View())
      ensures fault.LookupFails? ==> r.NoProof?
      ensures !fault.LookupFails? ==> (r.NoProof? <==> Unmatched(receiptId, tenant))
      ensures !r.NoProof? ==>
                forall x :: x in receipts && x.receiptId == receiptId ==>
                  x.tenantId == tenant && Picks(anchors, tenant, x.createdAt, picked)
      ensures !r.NoProof? ==> picked in anchors && picked in sealed && (r.QueryFailed? <==> fault.RefetchFails?)
      ensures !r.NoProof? && fault.NoFault? ==>
                forall x :: x in receipts && x.receiptId == receiptId ==> (r.Proof? <==> Holds(anchors[picked], x))
      ensures r.Proof? ==> r.anchorId == picked && ProofOf(View(), picked, receiptId, r.leafIndex, r.leaves)
    {
      picked := "";
      r := NoProof;
      if fault.LookupFails? {
        return;
      }
      var found := PickBatch(receiptId, tenant);
      if found.None? {
        return;
      }
      picked := found.value.1;
      OnlyReceipt(receipts, found.value.0);
      HeldById(View(), anchors[picked], receipts[found.value.0]);
      if fault.RefetchFails? {
        assert RowOk(h, View(), picked);
        r := QueryFailed;
      } else {
        r := ProofInBatch(receiptId, found.value.1);
      }
    }
  }

  /** How the lookup may fail: in finding the receipt or its row, or in the refetch. */
  datatype LookupFault = NoFault | LookupFails | RefetchFails

  /** In a refetched batch, the id finds the receipt exactly if the bounds take it in. */
  lemma HeldById(s: State, row: Anchor, r: Receipt)
    requires UniqueIds(s.receipts) && r in s.receipts
    ensures Holds(row, r) <==> exists x :: x in RangeOf(s, row) && x.receiptId == r.receiptId
  {
    RangeHolds(s, row);
    var i :| 0 <= i < |s.receipts| && s.receipts[i] == r;
    OnlyReceipt(s.receipts, i);
    if Holds(row, r) {
      assert r in RangeOf(s, row);
    }
  }

  lemma OnlyReceipt(rs: seq<Receipt>, i: nat)
    requires UniqueIds(rs) && i < |rs|
    ensures rs[i] in rs && forall x :: x in rs && x.receiptId == rs[i].receiptId ==> x == rs[i]
  {
  }
}
