/** Proof checkpoints of `routes.rs` on top of the anchoring protocol: a checkpoint freezes
    a submitted batch, and a transparent proof is accepted only against a checkpoint. The
    finaliser reads the anchor row, reads the receipts and inserts the checkpoint in three
    separate database sections, so everything may move in between. */
module Checkpoints {
  import opened Text
  import opened Payloads
  import opened AnchorProtocol
  import opened AnchorTiming

  /** The circuit names the endpoint accepts; any other is refused before the first read. */
  datatype Circuit =
    | StatsHonestComputation | TransparentActionPolicy | ActionRangeProof | ActionTimeWindow
    | ActionSetMembership | ActionSetNonMembership | ActionSumBound | ActionCountInRange

  predicate IsTransparent(circuit: Circuit)
  {
    circuit == StatsHonestComputation || circuit == TransparentActionPolicy
  }

  /** An ordinary action receipt: an agent, a key image and a signature, and neither a ring
      nor a config digest. */
  predicate Compatible(r: Receipt)
  {
    r.agentId != "" && r.ringKeyImageHex != "" && r.signature != "" && r.ringId == "" && r.configDigest == ""
  }

  /** Hex of 32 bytes. */
  predicate IsRootHex(root: string)
  {
    |root| == 64 && forall i :: 0 <= i < |root| ==> IsHexDigit(root[i])
  }

  predicate EqIgnoreAsciiCase(a: string, b: string)
  {
    |a| == |b| && forall i :: 0 <= i < |a| ==> LowerChar(a[i]) == LowerChar(b[i])
  }

  /** A row of `zk_proof_checkpoints`. */
  datatype Checkpoint = Checkpoint(
    tenant: string, circuit: Circuit, root: string, treeSize: int, anchorId: string, finalizedAt: int)

  /** A finaliser between its sections: the row as it was read, then the row approved. */
  datatype Finalizer =
    | RowRead(tenant: string, circuit: Circuit, anchorId: string, row: Anchor, otsUpgraded: bool)
    | Approved(tenant: string, circuit: Circuit, anchorId: string, row: Anchor)

  /** What a verified proof states about itself. */
  datatype Journal = Journal(
    tenant: string, checkpointId: string, anchorId: string, root: string, treeSize: nat, circuit: Circuit)

  datatype System = System(
    log: State, checkpoints: map<string, Checkpoint>, finalizers: map<nat, Finalizer>, accepted: seq<Journal>)

  const START: System := System(INITIAL, map[], map[], [])

  /** The environment of a deployment: hashes, receipt MAC check, development mode. */
  datatype Env = Env(h: Hashes, macValid: Receipt -> bool, development: bool)

  datatype Action =
    | Log(step: Step)
    | ReadRow(finalizer: nat, tenant: string, circuit: Circuit, anchorId: string, otsUpgraded: bool)
    | CountReceipts(finalizer: nat)
    | InsertCheckpoint(finalizer: nat, checkpointId: string, now: int)
    | GiveUp(finalizer: nat)
    | Accept(tenant: string, journal: Journal)

  predicate AllGood(e: Env, batch: seq<Receipt>)
  {
    forall r :: r in batch ==> Compatible(r) && e.macValid(r)
  }

  /** The row's key range holds as many receipts as were sealed, all compatible and MAC-valid. */
  predicate CountsGood(e: Env, s: State, row: Anchor)
  {
    |RangeOf(s, row)| == row.nActions && AllGood(e, RangeOf(s, row))
  }

  /** The checks between reading the receipts and inserting the checkpoint. */
  predicate Approves(e: Env, s: State, f: Finalizer)
    requires f.RowRead?
  {
    && (IsTransparent(f.circuit) ==> CountsGood(e, s, f.row))
    && f.row.status == Submitted && f.row.btcAnchorId != ""
    && (e.development || f.otsUpgraded)
    && IsRootHex(f.row.root)
  }

  ghost predicate Allowed(e: Env, c: System, action: Action)
  {
    match action
    case Log(step) => Enabled(c.log, step)
    case ReadRow(f, tenant, _, a, _) =>
      && f !in c.finalizers
      && a in c.log.anchors && c.log.anchors[a].tenant == tenant
      && 0 < c.log.anchors[a].nActions <= 10_000 && c.log.anchors[a].leafVersion >= 2
    case CountReceipts(f) =>
      f in c.finalizers && c.finalizers[f].RowRead? && Approves(e, c.log, c.finalizers[f])
    case InsertCheckpoint(f, id, _) =>
      && f in c.finalizers && c.finalizers[f].Approved? && id !in c.checkpoints
      && forall k :: k in c.checkpoints ==>
           !(c.checkpoints[k].tenant == c.finalizers[f].tenant && c.checkpoints[k].circuit == c.finalizers[f].circuit
             && c.checkpoints[k].anchorId == c.finalizers[f].anchorId)
    case GiveUp(f) => f in c.finalizers
    case Accept(tenant, j) =>
      && j.tenant == tenant && IsTransparent(j.circuit) && j.checkpointId in c.checkpoints
      && var cp := c.checkpoints[j.checkpointId];
         && cp.tenant == tenant && cp.circuit == j.circuit && cp.finalizedAt > 0
         && EqIgnoreAsciiCase(j.root, cp.root) && j.treeSize == cp.treeSize && j.anchorId == cp.anchorId
  }

  ghost function Do(e: Env, c: System, action: Action): System
    requires Allowed(e, c, action)
  {
    match action
    case Log(step) => c.(log := Apply(e.h, c.log, step))
    case ReadRow(f, tenant, circuit, a, ots) =>
      c.(finalizers := c.finalizers[f := RowRead(tenant, circuit, a, c.log.anchors[a], ots)])
    case CountReceipts(f) =>
      var RowRead(tenant, circuit, a, row, _) := c.finalizers[f];
      c.(finalizers := c.finalizers[f := Approved(tenant, circuit, a, row)])
    case InsertCheckpoint(f, id, now) =>
      var Approved(tenant, circuit, a, row) := c.finalizers[f];
      c.(checkpoints := c.checkpoints[id := Checkpoint(tenant, circuit, row.root, row.nActions, a, now)],
         finalizers := c.finalizers - {f})
    case GiveUp(f) => c.(finalizers := c.finalizers - {f})
    case Accept(_, j) => c.(accepted := c.accepted + [j])
  }

  /** Action `i` leads from system `i` to the next. */
  ghost predicate Acts(e: Env, systems: seq<System>, actions: seq<Action>, i: nat)
    requires |systems| == |actions| + 1 && i < |actions|
  {
    Allowed(e, systems[i], actions[i]) && systems[i + 1] == Do(e, systems[i], actions[i])
  }

  ghost predicate IsHistory(e: Env, systems: seq<System>, actions: seq<Action>)
  {
    && |systems| == |actions| + 1
    && systems[0] == START
    && forall i :: 0 <= i < |actions| ==> Acts(e, systems, actions, i)
  }

  // ---- What the anchoring steps leave alone ----

  /** Equal but for what the last section of a pass fills in. */
  predicate SameBatch(row: Anchor, row': Anchor)
  {
    row' == row.(status := row'.status, btcAnchorId := row'.btcAnchorId, solAnchorId := row'.solAnchorId)
  }

  ghost predicate Frozen(s: State, s': State)
  {
    && (forall a :: a in s.anchors ==>
          && a in s'.anchors && SameBatch(s.anchors[a], s'.anchors[a])
          && (s.anchors[a].status == Submitted ==> s'.anchors[a] == s.anchors[a]))
    && (forall a :: a in s.anchors && a in s.sealed ==> a in s'.sealed && s'.sealed[a] == s.sealed[a])
  }

  lemma FinishFreezesRows(h: Hashes, s: State, step: Step)
    requires step.Finish? && Enabled(s, step) && PassOk(s, s.passes[step.pass])
    ensures Frozen(s, Apply(h, s, step))
  {
  }

  lemma OtherStepFreezesRows(h: Hashes, s: State, step: Step)
    requires !step.Finish? && Enabled(s, step)
    ensures Frozen(s, Apply(h, s, step))
  {
  }

  /** No step changes a submitted row, nor the batch any row stands for. */
  lemma StepFreezesRows(h: Hashes, s: State, step: Step)
    requires Inv(h, s) && Enabled(s, step)
    ensures Frozen(s, Apply(h, s, step))
  {
    if step.Finish? {
      FinishFreezesRows(h, s, step);
    } else {
      OtherStepFreezesRows(h, s, step);
    }
  }

  // ---- Invariant ----

  /** The named anchor row backs a checkpoint with these values. */
  ghost predicate Backs(e: Env, s: State, tenant: string, circuit: Circuit, anchorId: string, root: string, size: int)
  {
    && anchorId in s.anchors && anchorId in s.sealed
    && var row := s.anchors[anchorId];
       && row.tenant == tenant && row.status == Submitted && row.leafVersion >= 2
       && row.root == root && row.nActions == size && 0 < size <= 10_000
       && (IsTransparent(circuit) ==> AllGood(e, s.sealed[anchorId].batch))
  }

  ghost predicate FinalizerOk(e: Env, s: State, f: Finalizer)
  {
    && f.anchorId in s.anchors && f.anchorId in s.sealed && f.row.tenant == f.tenant
    && SameBatch(f.row, s.anchors[f.anchorId])
    && (f.row.status == Submitted ==> s.anchors[f.anchorId] == f.row)
    && 0 < f.row.nActions <= 10_000 && f.row.leafVersion >= 2
    && (f.Approved? ==> Backs(e, s, f.tenant, f.circuit, f.anchorId, f.row.root, f.row.nActions))
  }

  ghost predicate CheckpointOk(e: Env, s: State, cp: Checkpoint)
  {
    Backs(e, s, cp.tenant, cp.circuit, cp.anchorId, cp.root, cp.treeSize)
  }

  ghost predicate JournalOk(checkpoints: map<string, Checkpoint>, j: Journal)
  {
    && IsTransparent(j.circuit) && j.checkpointId in checkpoints
    && var cp := checkpoints[j.checkpointId];
       && cp.tenant == j.tenant && cp.circuit == j.circuit && cp.finalizedAt > 0
       && EqIgnoreAsciiCase(j.root, cp.root) && j.treeSize == cp.treeSize && j.anchorId == cp.anchorId
  }

  /** Everything the invariant says beyond the anchoring protocol's own. */
  ghost predicate RecordsOk(e: Env, c: System)
  {
    && (forall f :: f in c.finalizers ==> FinalizerOk(e, c.log, c.finalizers[f]))
    && (forall k :: k in c.checkpoints ==> CheckpointOk(e, c.log, c.checkpoints[k]))
    && (forall i :: 0 <= i < |c.accepted| ==> JournalOk(c.checkpoints, c.accepted[i]))
  }

  ghost predicate SystemInv(e: Env, c: System)
  {
    Inv(e.h, c.log) && RecordsOk(e, c)
  }

  lemma RecordsStable(e: Env, c: System, s': State)
    requires RecordsOk(e, c) && Frozen(c.log, s')
    ensures RecordsOk(e, c.(log := s'))
  {
    forall f | f in c.finalizers
      ensures FinalizerOk(e, s', c.finalizers[f])
    {
      assert FinalizerOk(e, c.log, c.finalizers[f]);
    }
    forall k | k in c.checkpoints
      ensures CheckpointOk(e, s', c.checkpoints[k])
    {
      assert CheckpointOk(e, c.log, c.checkpoints[k]);
    }
  }

  lemma FinalizersOnly(e: Env, c: System, finalizers: map<nat, Finalizer>)
    requires RecordsOk(e, c)
    requires forall f :: f in finalizers ==> FinalizerOk(e, c.log, finalizers[f])
    ensures RecordsOk(e, c.(finalizers := finalizers))
  {
  }

  /** Receipts that are counted and found to be as many as were sealed are the sealed ones. */
  ghost predicate CountsTell(s: State)
  {
    forall a :: a in s.anchors ==>
      a in s.sealed && (|RangeOf(s, s.anchors[a])| == s.anchors[a].nActions ==> RangeOf(s, s.anchors[a]) == s.sealed[a].batch)
  }

  lemma InvCountsTell(h: Hashes, s: State)
    requires Inv(h, s)
    ensures CountsTell(s)
  {
    forall a | a in s.anchors
      ensures a in s.sealed && (|RangeOf(s, s.anchors[a])| == s.anchors[a].nActions ==> RangeOf(s, s.anchors[a]) == s.sealed[a].batch)
    {
      assert RowOk(h, s, a);
      RangeIsSealedIff(h, s, a);
    }
  }

  lemma CountApproves(e: Env, s: State, fin: Finalizer)
    requires CountsTell(s) && fin.RowRead? && FinalizerOk(e, s, fin) && Approves(e, s, fin)
    ensures FinalizerOk(e, s, Approved(fin.tenant, fin.circuit, fin.anchorId, fin.row))
  {
    assert RangeOf(s, fin.row) == RangeOf(s, s.anchors[fin.anchorId]);
  }

  lemma InsertKeeps(e: Env, c: System, f: nat, id: string, now: int)
    requires RecordsOk(e, c) && Allowed(e, c, InsertCheckpoint(f, id, now))
    ensures RecordsOk(e, Do(e, c, InsertCheckpoint(f, id, now)))
  {
    var c' := Do(e, c, InsertCheckpoint(f, id, now));
    assert FinalizerOk(e, c.log, c.finalizers[f]);
    forall i | 0 <= i < |c'.accepted|
      ensures JournalOk(c'.checkpoints, c'.accepted[i])
    {
      assert JournalOk(c.checkpoints, c.accepted[i]);
    }
  }

  lemma LogKeeps(e: Env, c: System, step: Step)
    requires SystemInv(e, c) && Enabled(c.log, step)
    ensures SystemInv(e, c.(log := Apply(e.h, c.log, step)))
  {
    StepKeepsInv(e.h, c.log, step);
    StepFreezesRows(e.h, c.log, step);
    RecordsStable(e, c, Apply(e.h, c.log, step));
  }

  lemma ReadRowKeeps(e: Env, c: System, f: nat, tenant: string, circuit: Circuit, a: string, ots: bool)
    requires RecordsOk(e, c) && CountsTell(c.log) && Allowed(e, c, ReadRow(f, tenant, circuit, a, ots))
    ensures RecordsOk(e, Do(e, c, ReadRow(f, tenant, circuit, a, ots)))
  {
    FinalizersOnly(e, c, c.finalizers[f := RowRead(tenant, circuit, a, c.log.anchors[a], ots)]);
  }

  lemma CountKeeps(e: Env, c: System, f: nat)
    requires RecordsOk(e, c) && CountsTell(c.log) && Allowed(e, c, CountReceipts(f))
    ensures RecordsOk(e, Do(e, c, CountReceipts(f)))
  {
    var fin := c.finalizers[f];
    CountApproves(e, c.log, fin);
    FinalizersOnly(e, c, c.finalizers[f := Approved(fin.tenant, fin.circuit, fin.anchorId, fin.row)]);
  }

  lemma OtherKeeps(e: Env, c: System, action: Action)
    requires RecordsOk(e, c) && CountsTell(c.log) && Allowed(e, c, action) && !action.Log?
    ensures RecordsOk(e, Do(e, c, action))
  {
    match action
    case ReadRow(f, tenant, circuit, a, ots) => ReadRowKeeps(e, c, f, tenant, circuit, a, ots);
    case CountReceipts(f) => CountKeeps(e, c, f);
    case InsertCheckpoint(f, id, now) => InsertKeeps(e, c, f, id, now);
    case GiveUp(f) => FinalizersOnly(e, c, c.finalizers - {f});
    case Accept(_, j) =>
  }

  lemma ActionKeeps(e: Env, c: System, action: Action)
    requires SystemInv(e, c) && Allowed(e, c, action)
    ensures SystemInv(e, Do(e, c, action))
  {
    if action.Log? {
      LogKeeps(e, c, action.step);
    } else {
      InvCountsTell(e.h, c.log);
      OtherKeeps(e, c, action);
    }
  }

  lemma {:induction false} HistoryKeeps(e: Env, systems: seq<System>, actions: seq<Action>, i: nat)
    requires IsHistory(e, systems, actions) && i < |systems|
    ensures SystemInv(e, systems[i])
  {
    if i > 0 {
      HistoryKeeps(e, systems, actions, i - 1);
      assert Acts(e, systems, actions, i - 1);
      ActionKeeps(e, systems[i - 1], actions[i - 1]);
    }
  }

  // ---- The count behind a checkpoint ----

  /** At some moment up to system `i` the row's range was counted and found good. */
  ghost predicate Counted(e: Env, systems: seq<System>, i: nat, row: Anchor)
    requires i < |systems|
  {
    exists n :: 0 <= n <= i && CountsGood(e, systems[n].log, row)
  }

  ghost predicate ApprovedCounted(e: Env, systems: seq<System>, i: nat)
    requires i < |systems|
  {
    forall f :: f in systems[i].finalizers && systems[i].finalizers[f].Approved? && IsTransparent(systems[i].finalizers[f].circuit) ==>
      Counted(e, systems, i, systems[i].finalizers[f].row)
  }

  /** The transparent checkpoint's row was counted. */
  ghost predicate CheckpointCounted(e: Env, systems: seq<System>, i: nat, cp: Checkpoint)
    requires i < |systems|
  {
    && cp.anchorId in systems[i].log.anchors
    && (IsTransparent(cp.circuit) ==> Counted(e, systems, i, systems[i].log.anchors[cp.anchorId]))
  }

  ghost predicate CheckpointsCounted(e: Env, systems: seq<System>, i: nat)
    requires i < |systems|
  {
    forall k :: k in systems[i].checkpoints ==> CheckpointCounted(e, systems, i, systems[i].checkpoints[k])
  }

  /** The submitted row behind a checkpoint is the same one step later. */
  lemma RowStays(e: Env, c: System, action: Action, k: string)
    requires SystemInv(e, c) && Allowed(e, c, action) && k in c.checkpoints
    ensures var a, c' := c.checkpoints[k].anchorId, Do(e, c, action);
            a in c.log.anchors && a in c'.log.anchors && c'.log.anchors[a] == c.log.anchors[a]
  {
    assert CheckpointOk(e, c.log, c.checkpoints[k]);
    if action.Log? {
      StepFreezesRows(e.h, c.log, action.step);
    }
  }

  lemma CountedLater(e: Env, systems: seq<System>, i: nat, row: Anchor)
    requires i + 1 < |systems| && Counted(e, systems, i, row)
    ensures Counted(e, systems, i + 1, row)
  {
    var n :| 0 <= n <= i && CountsGood(e, systems[n].log, row);
    assert 0 <= n <= i + 1;
  }

  lemma ApprovedCountedStep(e: Env, systems: seq<System>, actions: seq<Action>, i: nat)
    requires |systems| == |actions| + 1 && i < |actions| && Acts(e, systems, actions, i)
    requires ApprovedCounted(e, systems, i)
    ensures ApprovedCounted(e, systems, i + 1)
  {
    var c, c' := systems[i], systems[i + 1];
    forall f | f in c'.finalizers && c'.finalizers[f].Approved? && IsTransparent(c'.finalizers[f].circuit)
      ensures Counted(e, systems, i + 1, c'.finalizers[f].row)
    {
      if f in c.finalizers && c.finalizers[f] == c'.finalizers[f] {
        CountedLater(e, systems, i, c'.finalizers[f].row);
      } else {
        assert actions[i] == CountReceipts(f);
        assert CountsGood(e, systems[i].log, c'.finalizers[f].row);
      }
    }
  }

  /** A checkpoint that stays keeps its count. */
  lemma StayingCounted(e: Env, systems: seq<System>, i: nat, cp: Checkpoint)
    requires i + 1 < |systems| && CheckpointCounted(e, systems, i, cp)
    requires cp.anchorId in systems[i + 1].log.anchors && systems[i + 1].log.anchors[cp.anchorId] == systems[i].log.anchors[cp.anchorId]
    ensures CheckpointCounted(e, systems, i + 1, cp)
  {
    if IsTransparent(cp.circuit) {
      CountedLater(e, systems, i, systems[i].log.anchors[cp.anchorId]);
    }
  }

  /** A checkpoint takes over the count of the finaliser that inserts it. */
  lemma InsertedCounted(e: Env, systems: seq<System>, i: nat, f: nat, id: string, now: int)
    requires i + 1 < |systems| && ApprovedCounted(e, systems, i) && RecordsOk(e, systems[i])
    requires Allowed(e, systems[i], InsertCheckpoint(f, id, now)) && systems[i + 1] == Do(e, systems[i], InsertCheckpoint(f, id, now))
    ensures CheckpointCounted(e, systems, i + 1, systems[i + 1].checkpoints[id])
  {
    var fin := systems[i].finalizers[f];
    assert FinalizerOk(e, systems[i].log, fin);
    if IsTransparent(fin.circuit) {
      CountedLater(e, systems, i, fin.row);
    }
  }

  lemma OnlyInsertAdds(e: Env, c: System, action: Action, k: string)
    requires Allowed(e, c, action) && k in Do(e, c, action).checkpoints
    ensures k in c.checkpoints ==> Do(e, c, action).checkpoints[k] == c.checkpoints[k]
    ensures k !in c.checkpoints ==> action.InsertCheckpoint? && action.checkpointId == k
  {
  }

  lemma CheckpointsCountedStep(e: Env, systems: seq<System>, actions: seq<Action>, i: nat)
    requires |systems| == |actions| + 1 && i < |actions| && Acts(e, systems, actions, i) && SystemInv(e, systems[i])
    requires ApprovedCounted(e, systems, i) && CheckpointsCounted(e, systems, i)
    ensures CheckpointsCounted(e, systems, i + 1)
  {
    var c, c' := systems[i], systems[i + 1];
    forall k | k in c'.checkpoints
      ensures CheckpointCounted(e, systems, i + 1, c'.checkpoints[k])
    {
      OnlyInsertAdds(e, c, actions[i], k);
      if k in c.checkpoints {
        RowStays(e, c, actions[i], k);
        StayingCounted(e, systems, i, c.checkpoints[k]);
      } else {
        InsertedCounted(e, systems, i, actions[i].finalizer, k, actions[i].now);
      }
    }
  }

  lemma {:induction false} HistoryCounted(e: Env, systems: seq<System>, actions: seq<Action>, i: nat)
    requires IsHistory(e, systems, actions) && i < |systems|
    ensures ApprovedCounted(e, systems, i) && CheckpointsCounted(e, systems, i)
  {
    if i > 0 {
      HistoryCounted(e, systems, actions, i - 1);
      HistoryKeeps(e, systems, actions, i - 1);
      assert Acts(e, systems, actions, i - 1);
      ApprovedCountedStep(e, systems, actions, i - 1);
      CheckpointsCountedStep(e, systems, actions, i - 1);
    }
  }

  /** Every accepted transparent proof, in every reachable state and however late receipts arrive, names a
      finalized checkpoint whose root, size and anchor are those of a submitted v2 row of the same tenant.
      That many receipts were sealed in the row, all of them compatible and MAC-valid; and at some moment up
      to now the key range of the row held exactly those. It does now exactly if no other receipt arrived
      within the bounds since the fetch. */
  lemma CheckpointTraceability(e: Env, systems: seq<System>, actions: seq<Action>, i: nat, k: nat)
    requires IsHistory(e, systems, actions) && i < |systems| && k < |systems[i].accepted|
    ensures var c, j := systems[i], systems[i].accepted[k];
            && j.checkpointId in c.checkpoints && j.anchorId in c.log.anchors && j.anchorId in c.log.sealed
            && var cp, row, batch := c.checkpoints[j.checkpointId], c.log.anchors[j.anchorId], c.log.sealed[j.anchorId].batch;
               && cp.finalizedAt > 0 && cp.anchorId == j.anchorId
               && cp.tenant == j.tenant == row.tenant
               && cp.root == row.root && EqIgnoreAsciiCase(j.root, row.root)
               && row.status == Submitted && row.leafVersion >= 2
               && j.treeSize == row.nActions == |batch| && AllGood(e, batch)
               && (exists n :: 0 <= n <= i && |RangeOf(systems[n].log, row)| == j.treeSize && AllGood(e, RangeOf(systems[n].log, row)))
               && (RangeOf(c.log, row) == batch <==> NoneSince(c.log, j.anchorId))
  {
    HistoryKeeps(e, systems, actions, i);
    HistoryCounted(e, systems, actions, i);
    var c, j := systems[i], systems[i].accepted[k];
    assert JournalOk(c.checkpoints, j);
    var cp := c.checkpoints[j.checkpointId];
    assert CheckpointOk(e, c.log, cp);
    assert CheckpointCounted(e, systems, i, cp);
    assert RowOk(e.h, c.log, j.anchorId);
    RangeIsSealedIff(e.h, c.log, j.anchorId);
    var n :| 0 <= n <= i && CountsGood(e, systems[n].log, c.log.anchors[j.anchorId]);
    assert |RangeOf(systems[n].log, c.log.anchors[j.anchorId])| == j.treeSize;
  }

  // ---- Receipts in time ----

  ghost predicate HistoryInTime(systems: seq<System>, actions: seq<Action>, n: nat)
    requires n <= |actions| && n <= |systems|
  {
    forall j :: 0 <= j < n && actions[j].Log? ==> StepInTime(systems[j].log, actions[j].step)
  }

  lemma ActKeepsComplete(e: Env, c: System, action: Action)
    requires Inv(e.h, c.log) && Complete(c.log) && Allowed(e, c, action)
    requires action.Log? ==> StepInTime(c.log, action.step)
    ensures Complete(Do(e, c, action).log)
  {
    if action.Log? {
      StepKeepsComplete(e.h, c.log, action.step);
    }
  }

  lemma {:induction false} HistoryKeepsComplete(e: Env, systems: seq<System>, actions: seq<Action>, i: nat)
    requires IsHistory(e, systems, actions) && i < |systems| && HistoryInTime(systems, actions, i)
    ensures Complete(systems[i].log)
  {
    if i > 0 {
      HistoryKeepsComplete(e, systems, actions, i - 1);
      HistoryKeeps(e, systems, actions, i - 1);
      assert Acts(e, systems, actions, i - 1);
      ActKeepsComplete(e, systems[i - 1], actions[i - 1]);
    }
  }

  /** If receipts come in time, the key range of the row holds those receipts from finalisation on. */
  lemma InTimeTraceability(e: Env, systems: seq<System>, actions: seq<Action>, i: nat, k: nat)
    requires IsHistory(e, systems, actions) && i < |systems| && k < |systems[i].accepted| && HistoryInTime(systems, actions, i)
    ensures var c, j := systems[i], systems[i].accepted[k];
            && j.anchorId in c.log.anchors
            && var row := c.log.anchors[j.anchorId];
               j.treeSize == row.nActions == |RangeOf(c.log, row)| && AllGood(e, RangeOf(c.log, row))
  {
    CheckpointTraceability(e, systems, actions, i, k);
    HistoryKeeps(e, systems, actions, i);
    HistoryKeepsComplete(e, systems, actions, i);
    var a := systems[i].accepted[k].anchorId;
    assert RowOk(e.h, systems[i].log, a);
    CompleteNoneSince(e.h, systems[i].log, a);
  }
}
