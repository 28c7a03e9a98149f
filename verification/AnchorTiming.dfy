/** When a receipt arrives matters: a batch holds what was stored when it was fetched. What that means
    for coverage and for rebuilding a batch, exactly, in every run; and what follows in runs where no
    receipt arrives late for a range already read. */
module AnchorTiming {
  import opened Order
  import opened Payloads
  import opened AnchorProtocol

  // ---- Coverage over every run ----

  /** A receipt is in some submitted batch of its tenant. */
  ghost predicate Anchored(s: State, r: Receipt)
  {
    exists a :: a in s.anchors && IsSubmitted(s, r.tenantId, a) && a in s.sealed && r in s.sealed[a].batch
  }

  /** A submitted batch of the receipt's tenant was read from a range that takes the receipt in. */
  ghost predicate TakesIn(s: State, a: string, r: Receipt)
  {
    && a in s.anchors && IsSubmitted(s, r.tenantId, a) && a in s.sealed
    && KeyLt(s.sealed[a].mark, KeyOf(r)) && KeyLe(KeyOf(r), s.anchors[a].toKey)
  }

  /** The receipt was already stored when the batch of the row was fetched. */
  ghost predicate StoredFor(s: State, a: string, r: Receipt)
  {
    a in s.sealed && s.sealed[a].seen <= |s.receipts| && r in s.receipts[..s.sealed[a].seen]
  }

  /** A batch holds the receipts of its range that were stored before its fetch. */
  lemma InBatchIff(h: Hashes, s: State, a: string, r: Receipt)
    requires a in s.anchors && RowOk(h, s, a)
    ensures r in s.sealed[a].batch <==>
            FallsInto(r, s.anchors[a].tenant, s.sealed[a].mark, s.anchors[a].toKey) && StoredFor(s, a, r)
  {
  }

  lemma AnchoredIff(h: Hashes, s: State, r: Receipt)
    requires Inv(h, s)
    ensures Anchored(s, r) <==> exists a :: TakesIn(s, a, r) && StoredFor(s, a, r)
  {
    forall a | a in s.anchors && IsSubmitted(s, r.tenantId, a)
      ensures a in s.sealed && (r in s.sealed[a].batch <==> TakesIn(s, a, r) && StoredFor(s, a, r))
    {
      assert RowOk(h, s, a);
      InBatchIff(h, s, a, r);
    }
  }

  lemma RangesIff(h: Hashes, s: State, r: Receipt)
    requires Inv(h, s)
    ensures KeyLt(ZERO, KeyOf(r)) && UpToSubmitted(s, r.tenantId, KeyOf(r)) <==> exists a :: TakesIn(s, a, r)
  {
    if a :| TakesIn(s, a, r) {
      KeyOrder();
      assert RowOk(h, s, a);
    }
    if KeyLt(ZERO, KeyOf(r)) && UpToSubmitted(s, r.tenantId, KeyOf(r)) {
      assert InSubmittedRange(s, r.tenantId, KeyOf(r));
      var a :| a in s.anchors && IsSubmitted(s, r.tenantId, a) && a in s.sealed
               && KeyLt(s.sealed[a].mark, KeyOf(r)) && KeyLe(KeyOf(r), s.anchors[a].toKey);
      assert TakesIn(s, a, r);
    }
  }

  /** In every reachable state, whatever interleaving led to it and whenever receipts arrived: a stored
      receipt lies above zero and up to the largest submitted key of its tenant exactly if the range of
      some submitted batch takes it in, so the ranges leave no gap; and it is in a submitted batch exactly
      if it was stored before the fetch of such a batch. Every batch ever persisted holds 1 to 10,000
      receipts, all of its tenant, gapless from a watermark in the table as it was fetched. */
  lemma AnchorCoverage(h: Hashes, states: seq<State>, steps: seq<Step>, i: nat)
    requires IsRun(h, states, steps) && i < |states|
    ensures forall r :: r in states[i].receipts ==>
              (KeyLt(ZERO, KeyOf(r)) && UpToSubmitted(states[i], r.tenantId, KeyOf(r)) <==> exists a :: TakesIn(states[i], a, r))
    ensures forall r :: r in states[i].receipts ==>
              (Anchored(states[i], r) <==> exists a :: TakesIn(states[i], a, r) && StoredFor(states[i], a, r))
    ensures forall a :: a in states[i].anchors ==>
              && a in states[i].sealed
              && MarkOk(states[i], states[i].anchors[a].tenant, states[i].sealed[a].mark)
              && ReadFrom(states[i].receipts, states[i].sealed[a].seen, states[i].anchors[a].tenant,
                          states[i].sealed[a].mark, states[i].sealed[a].batch)
  {
    RunKeepsInv(h, states, steps, i);
    forall r | r in states[i].receipts
      ensures KeyLt(ZERO, KeyOf(r)) && UpToSubmitted(states[i], r.tenantId, KeyOf(r)) <==> exists a :: TakesIn(states[i], a, r)
      ensures Anchored(states[i], r) <==> exists a :: TakesIn(states[i], a, r) && StoredFor(states[i], a, r)
    {
      RangesIff(h, states[i], r);
      AnchoredIff(h, states[i], r);
    }
    assert forall a :: a in states[i].anchors ==> RowOk(h, states[i], a);
  }

  /** Anchored receipts are exactly those above zero and up to the largest submitted key. */
  ghost predicate Coverage(s: State)
  {
    forall r :: r in s.receipts ==>
      (Anchored(s, r) <==> KeyLt(ZERO, KeyOf(r)) && UpToSubmitted(s, r.tenantId, KeyOf(r)))
  }

  /** Every submitted range that takes the receipt in was fetched before the receipt came. */
  ghost predicate CameLate(s: State, r: Receipt)
  {
    (exists a :: TakesIn(s, a, r)) && forall a :: TakesIn(s, a, r) ==> !StoredFor(s, a, r)
  }

  /** Coverage holds exactly if no receipt came late for all submitted ranges that take it in. */
  lemma CoverageIff(h: Hashes, states: seq<State>, steps: seq<Step>, i: nat)
    requires IsRun(h, states, steps) && i < |states|
    ensures Coverage(states[i]) <==> forall r :: r in states[i].receipts ==> !CameLate(states[i], r)
  {
    RunKeepsInv(h, states, steps, i);
    forall r | r in states[i].receipts
      ensures (Anchored(states[i], r) <==> KeyLt(ZERO, KeyOf(r)) && UpToSubmitted(states[i], r.tenantId, KeyOf(r)))
              <==> !CameLate(states[i], r)
    {
      RangesIff(h, states[i], r);
      AnchoredIff(h, states[i], r);
    }
  }

  // ---- Rebuilding a batch ----

  /** All receipts of a row's key range, as stored now. */
  function RangeOf(s: State, row: Anchor): seq<Receipt>
  {
    Ordered(s.receipts, Between(row.tenant, row.fromKey, row.toKey))
  }

  /** The stored bounds of a row take the receipt in, with ties broken by id. */
  predicate Holds(row: Anchor, r: Receipt)
  {
    row.tenant == r.tenantId && KeyLe(row.fromKey, KeyOf(r)) && KeyLe(KeyOf(r), row.toKey)
  }

  lemma RangeHolds(s: State, row: Anchor)
    requires UniqueIds(s.receipts)
    ensures Ascending(ReceiptLt, RangeOf(s, row))
    ensures forall r :: r in RangeOf(s, row) <==> r in s.receipts && Holds(row, r)
  {
    OrderedSpec(s.receipts, Between(row.tenant, row.fromKey, row.toKey));
  }

  /** No receipt within the stored bounds of the row arrived since its fetch. */
  ghost predicate NoneSince(s: State, a: string)
    requires a in s.anchors && a in s.sealed
  {
    forall r :: r in s.receipts && Holds(s.anchors[a], r) ==> StoredFor(s, a, r)
  }

  /** A row was sealed over the receipts its bounds take in, as far as they were stored before the fetch. */
  lemma SealedIffHeld(h: Hashes, s: State, a: string, r: Receipt)
    requires a in s.anchors && RowOk(h, s, a)
    ensures r in s.sealed[a].batch <==> Holds(s.anchors[a], r) && StoredFor(s, a, r)
    ensures r in s.sealed[a].batch ==> r in s.receipts
  {
    KeyOrder();
    var batch := s.sealed[a].batch;
    assert batch[0] in batch;
    if r in batch {
      AtMostLast(batch, r);
    }
  }

  /** The refetched list has every sealed receipt, and is the sealed list exactly if it is no longer. */
  lemma RangeIsSealedIff(h: Hashes, s: State, a: string)
    requires UniqueIds(s.receipts) && a in s.anchors && RowOk(h, s, a)
    ensures forall r :: r in s.sealed[a].batch ==> r in RangeOf(s, s.anchors[a])
    ensures RangeOf(s, s.anchors[a]) == s.sealed[a].batch <==> NoneSince(s, a)
    ensures RangeOf(s, s.anchors[a]) == s.sealed[a].batch <==> |RangeOf(s, s.anchors[a])| == s.anchors[a].nActions
  {
    var range, batch := RangeOf(s, s.anchors[a]), s.sealed[a].batch;
    RangeHolds(s, s.anchors[a]);
    forall r
      ensures r in batch <==> Holds(s.anchors[a], r) && StoredFor(s, a, r)
      ensures r in batch ==> r in s.receipts
    {
      SealedIffHeld(h, s, a, r);
    }
    ReceiptOrder();
    if NoneSince(s, a) {
      AscendingUnique(ReceiptLt, range, batch);
    }
    if |range| == |batch| {
      AscendingSubset(ReceiptLt, batch, range);
    }
  }

  /** In every reachable state, refetching any batch by its stored bounds returns every receipt it was
      sealed over, and exactly those if and only if no other receipt within the bounds arrived since the
      fetch; comparing the length with the stored count is enough to tell. Then the leaves are the sealed
      leaves exactly when no audit head was appended. */
  lemma RebuildIff(h: Hashes, states: seq<State>, steps: seq<Step>, i: nat, a: string)
    requires IsRun(h, states, steps) && i < |states| && a in states[i].anchors
    ensures a in states[i].sealed
    ensures forall r :: r in states[i].sealed[a].batch ==> r in RangeOf(states[i], states[i].anchors[a])
    ensures RangeOf(states[i], states[i].anchors[a]) == states[i].sealed[a].batch <==> NoneSince(states[i], a)
    ensures NoneSince(states[i], a) <==> |RangeOf(states[i], states[i].anchors[a])| == states[i].anchors[a].nActions
    ensures NoneSince(states[i], a) ==>
              var row, rebuilt := states[i].anchors[a], RangeOf(states[i], states[i].anchors[a]);
              && (ReceiptLeaves(h, rebuilt) == SealedLeaves(h, row.tenant, states[i].sealed[a].batch, row.head)
                  <==> row.head.None?)
              && (row.head.None? ==> h.root(ReceiptLeaves(h, rebuilt)) == row.root)
  {
    RunKeepsInv(h, states, steps, i);
    var s := states[i];
    assert RowOk(h, s, a);
    RangeIsSealedIff(h, s, a);
    var leaves := ReceiptLeaves(h, s.sealed[a].batch);
    assert s.anchors[a].head.Some? ==>
      |SealedLeaves(h, s.anchors[a].tenant, s.sealed[a].batch, s.anchors[a].head)| == |leaves| + 1;
  }

  // ---- Receipts in time ----

  /** The receipt belongs into no range already read: not into one of a row, and not into one that a
      running pass holds. */
  ghost predicate InTime(s: State, r: Receipt)
  {
    && (forall a :: a in s.anchors && a in s.sealed ==> !FallsInto(r, s.anchors[a].tenant, s.sealed[a].mark, s.anchors[a].toKey))
    && (forall p :: p in s.passes && s.passes[p].Fetched? && s.passes[p].batch != [] ==>
          !FallsInto(r, s.passes[p].tenant, s.passes[p].mark, Last(s.passes[p].batch)))
  }

  /** The batch has all receipts of its range. */
  ghost predicate HasAll(rs: seq<Receipt>, tenant: string, mark: Key, batch: seq<Receipt>)
  {
    batch != [] ==> forall r :: r in rs && FallsInto(r, tenant, mark, Last(batch)) ==> r in batch
  }

  ghost predicate RowsComplete(s: State)
  {
    forall a :: a in s.anchors && a in s.sealed ==> HasAll(s.receipts, s.anchors[a].tenant, s.sealed[a].mark, s.sealed[a].batch)
  }

  ghost predicate PassesComplete(s: State)
  {
    forall p :: p in s.passes && s.passes[p].Fetched? ==>
      HasAll(s.receipts, s.passes[p].tenant, s.passes[p].mark, s.passes[p].batch)
  }

  /** No receipt arrived late for a range that a row or a running pass stands for. */
  ghost predicate Complete(s: State)
  {
    RowsComplete(s) && PassesComplete(s)
  }

  lemma HasAllAppendIff(rs: seq<Receipt>, r: Receipt, tenant: string, mark: Key, batch: seq<Receipt>)
    requires HasAll(rs, tenant, mark, batch) && r !in batch && batch != []
    ensures HasAll(rs + [r], tenant, mark, batch) <==> !FallsInto(r, tenant, mark, Last(batch))
  {
    assert r in rs + [r];
  }

  lemma NewIsNotRead(rs: seq<Receipt>, r: Receipt, seen: nat, tenant: string, mark: Key, batch: seq<Receipt>)
    requires NewId(rs, r) && ReadFrom(rs, seen, tenant, mark, batch)
    ensures r !in batch
  {
  }

  lemma RowsAppendIff(h: Hashes, s: State, r: Receipt)
    requires Inv(h, s) && RowsComplete(s) && NewId(s.receipts, r)
    ensures RowsComplete(s.(receipts := s.receipts + [r])) <==>
            forall a :: a in s.anchors && a in s.sealed ==> !FallsInto(r, s.anchors[a].tenant, s.sealed[a].mark, s.anchors[a].toKey)
  {
    forall a | a in s.anchors && a in s.sealed
      ensures HasAll(s.receipts + [r], s.anchors[a].tenant, s.sealed[a].mark, s.sealed[a].batch) <==>
              !FallsInto(r, s.anchors[a].tenant, s.sealed[a].mark, s.anchors[a].toKey)
    {
      assert RowOk(h, s, a);
      NewIsNotRead(s.receipts, r, s.sealed[a].seen, s.anchors[a].tenant, s.sealed[a].mark, s.sealed[a].batch);
      HasAllAppendIff(s.receipts, r, s.anchors[a].tenant, s.sealed[a].mark, s.sealed[a].batch);
    }
  }

  lemma PassesAppendIff(s: State, r: Receipt)
    requires PassesOk(s) && PassesComplete(s) && NewId(s.receipts, r)
    ensures PassesComplete(s.(receipts := s.receipts + [r])) <==>
            forall p :: p in s.passes && s.passes[p].Fetched? && s.passes[p].batch != [] ==>
              !FallsInto(r, s.passes[p].tenant, s.passes[p].mark, Last(s.passes[p].batch))
  {
    forall p | p in s.passes && s.passes[p].Fetched?
      ensures s.passes[p].batch != []
      ensures HasAll(s.receipts + [r], s.passes[p].tenant, s.passes[p].mark, s.passes[p].batch) <==>
              !FallsInto(r, s.passes[p].tenant, s.passes[p].mark, Last(s.passes[p].batch))
    {
      assert PassOk(s, s.passes[p]);
      NewIsNotRead(s.receipts, r, s.passes[p].seen, s.passes[p].tenant, s.passes[p].mark, s.passes[p].batch);
      HasAllAppendIff(s.receipts, r, s.passes[p].tenant, s.passes[p].mark, s.passes[p].batch);
    }
  }

  /** A new receipt leaves every batch complete exactly if it comes in time. */
  lemma AppendCompleteIff(h: Hashes, s: State, r: Receipt)
    requires Inv(h, s) && Complete(s) && NewId(s.receipts, r)
    ensures Complete(s.(receipts := s.receipts + [r])) <==> InTime(s, r)
  {
    RowsAppendIff(h, s, r);
    PassesAppendIff(s, r);
  }

  /** A receipt with a larger key than every stored receipt of its tenant is in time. */
  lemma LargerKeyInTime(h: Hashes, s: State, r: Receipt)
    requires Inv(h, s) && forall x :: x in s.receipts && x.tenantId == r.tenantId ==> KeyLt(KeyOf(x), KeyOf(r))
    ensures InTime(s, r)
  {
    forall a | a in s.anchors && a in s.sealed
      ensures !FallsInto(r, s.anchors[a].tenant, s.sealed[a].mark, s.anchors[a].toKey)
    {
      assert RowOk(h, s, a);
      AboveRead(s.receipts, r, s.sealed[a].seen, s.anchors[a].tenant, s.sealed[a].mark, s.sealed[a].batch);
    }
    forall p | p in s.passes && s.passes[p].Fetched? && s.passes[p].batch != []
      ensures !FallsInto(r, s.passes[p].tenant, s.passes[p].mark, Last(s.passes[p].batch))
    {
      assert PassOk(s, s.passes[p]);
      AboveRead(s.receipts, r, s.passes[p].seen, s.passes[p].tenant, s.passes[p].mark, s.passes[p].batch);
    }
  }

  lemma AboveRead(rs: seq<Receipt>, r: Receipt, seen: nat, tenant: string, mark: Key, batch: seq<Receipt>)
    requires ReadFrom(rs, seen, tenant, mark, batch)
    requires forall x :: x in rs && x.tenantId == r.tenantId ==> KeyLt(KeyOf(x), KeyOf(r))
    ensures !FallsInto(r, tenant, mark, Last(batch))
  {
    KeyOrder();
    var x := batch[|batch| - 1];
    assert x in batch;
    assert x in rs && x.tenantId == tenant;
  }

  ghost predicate StepInTime(s: State, step: Step)
  {
    step.Append? ==> InTime(s, step.r)
  }

  lemma FetchKeepsComplete(h: Hashes, s: State, p: nat)
    requires UniqueIds(s.receipts) && Complete(s) && Enabled(s, Fetch(p))
    ensures Complete(Apply(h, s, Fetch(p)))
  {
    var Marked(tenant, mark) := s.passes[p];
    if Ordered(s.receipts, After(tenant, mark)) != [] {
      FetchCovers(s.receipts, tenant, mark);
      assert HasAll(s.receipts, tenant, mark, Take(CAP, Ordered(s.receipts, After(tenant, mark))));
    }
  }

  lemma PersistKeepsComplete(h: Hashes, s: State, p: nat, id: string, head: Head, now: int)
    requires Complete(s) && Enabled(s, Persist(p, id, head, now))
    ensures Complete(Apply(h, s, Persist(p, id, head, now)))
  {
  }

  lemma FinishKeepsComplete(h: Hashes, s: State, p: nat, btc: Provider, sol: Provider)
    requires Complete(s) && Enabled(s, Finish(p, btc, sol))
    ensures Complete(Apply(h, s, Finish(p, btc, sol)))
  {
  }

  lemma StepKeepsComplete(h: Hashes, s: State, step: Step)
    requires Inv(h, s) && Complete(s) && Enabled(s, step) && StepInTime(s, step)
    ensures Complete(Apply(h, s, step))
  {
    match step {
      case Append(r) => AppendCompleteIff(h, s, r);
      case Fetch(p) => FetchKeepsComplete(h, s, p);
      case Persist(p, id, head, now) => PersistKeepsComplete(h, s, p, id, head, now);
      case Finish(p, btc, sol) => FinishKeepsComplete(h, s, p, btc, sol);
      case ReadMark(_, _, _) =>
      case Abandon(_) =>
    }
  }

  /** The receipts of the first `n` steps come in time. */
  ghost predicate RunInTime(states: seq<State>, steps: seq<Step>, n: nat)
    requires n <= |steps| && n <= |states|
  {
    forall j :: 0 <= j < n ==> StepInTime(states[j], steps[j])
  }

  lemma RunStepComplete(h: Hashes, states: seq<State>, steps: seq<Step>, i: nat)
    requires IsRun(h, states, steps) && i < |steps| && Complete(states[i]) && StepInTime(states[i], steps[i])
    ensures Complete(states[i + 1])
  {
    RunKeepsInv(h, states, steps, i);
    assert Moves(h, states, steps, i);
    StepKeepsComplete(h, states[i], steps[i]);
  }

  lemma {:induction false} RunKeepsComplete(h: Hashes, states: seq<State>, steps: seq<Step>, i: nat)
    requires IsRun(h, states, steps) && i < |states| && RunInTime(states, steps, i)
    ensures Complete(states[i])
  {
    if i > 0 {
      RunKeepsComplete(h, states, steps, i - 1);
      RunStepComplete(h, states, steps, i - 1);
    }
  }

  /** A complete batch is its range as the table has it now. */
  lemma CompleteCovers(h: Hashes, s: State, a: string)
    requires a in s.anchors && RowOk(h, s, a) && RowsComplete(s)
    ensures Covers(s.receipts, s.anchors[a].tenant, s.sealed[a].mark, s.sealed[a].batch)
  {
    var sealing := s.sealed[a];
    assert HasAll(s.receipts, s.anchors[a].tenant, sealing.mark, sealing.batch);
    assert forall r :: r in s.receipts[..sealing.seen] ==> r in s.receipts;
  }

  lemma CompleteNoneSince(h: Hashes, s: State, a: string)
    requires a in s.anchors && RowOk(h, s, a) && RowsComplete(s)
    ensures NoneSince(s, a)
  {
    CompleteCovers(h, s, a);
    forall r | r in s.receipts && Holds(s.anchors[a], r)
      ensures StoredFor(s, a, r)
    {
      KeyOrder();
      assert s.sealed[a].batch[0] in s.sealed[a].batch;
      assert r in s.sealed[a].batch;
      InBatchIff(h, s, a, r);
    }
  }

  lemma CompleteCoverage(h: Hashes, s: State)
    requires Inv(h, s) && Complete(s)
    ensures Coverage(s)
  {
    forall r | r in s.receipts
      ensures Anchored(s, r) <==> KeyLt(ZERO, KeyOf(r)) && UpToSubmitted(s, r.tenantId, KeyOf(r))
    {
      RangesIff(h, s, r);
      AnchoredIff(h, s, r);
      if a :| TakesIn(s, a, r) {
        CompleteCovers(h, s, a);
      }
    }
  }

  /** In every run whose receipts come in time, the receipts in submitted batches are exactly those above
      zero and up to the largest submitted key of their tenant. */
  lemma InTimeCoverage(h: Hashes, states: seq<State>, steps: seq<Step>, i: nat)
    requires IsRun(h, states, steps) && i < |states| && RunInTime(states, steps, i)
    ensures forall r :: r in states[i].receipts ==>
              (Anchored(states[i], r) <==> KeyLt(ZERO, KeyOf(r)) && UpToSubmitted(states[i], r.tenantId, KeyOf(r)))
  {
    RunKeepsInv(h, states, steps, i);
    RunKeepsComplete(h, states, steps, i);
    CompleteCoverage(h, states[i]);
  }

  /** In every such run, refetching any batch by its stored bounds returns exactly the list it was sealed
      over, however many receipts arrived since. */
  lemma RebuildIsStable(h: Hashes, states: seq<State>, steps: seq<Step>, i: nat, a: string)
    requires IsRun(h, states, steps) && i < |states| && RunInTime(states, steps, i) && a in states[i].anchors
    ensures a in states[i].sealed && RangeOf(states[i], states[i].anchors[a]) == states[i].sealed[a].batch
  {
    RunKeepsInv(h, states, steps, i);
    RunKeepsComplete(h, states, steps, i);
    assert RowOk(h, states[i], a);
    CompleteNoneSince(h, states[i], a);
    RangeIsSealedIff(h, states[i], a);
  }
}
