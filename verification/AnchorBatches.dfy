/** When the batches of a tenant are disjoint. */
module AnchorBatches {
  import opened Payloads
  import opened AnchorProtocol
  import opened AnchorTiming

  // ---- When batches are disjoint ----

  ghost predicate ReadsLargest(s: State, tenant: string, mark: Key)
  {
    forall a :: a in s.anchors && IsSubmitted(s, tenant, a) ==> KeyLe(s.anchors[a].toKey, mark)
  }

  ghost predicate DisjointFromSubmitted(s: State, tenant: string, batch: seq<Receipt>)
  {
    forall r :: r in batch ==> !Anchored(s, r)
  }

  /** Provided that no receipt came late, a fetched batch repeats no submitted receipt exactly when its
      watermark was the largest submitted key. */
  lemma DisjointIffLargest(h: Hashes, s: State, tenant: string, mark: Key, batch: seq<Receipt>)
    requires Inv(h, s) && Complete(s) && MarkOk(s, tenant, mark) && Covers(s.receipts, tenant, mark, batch)
    ensures DisjointFromSubmitted(s, tenant, batch) <==> ReadsLargest(s, tenant, mark)
  {
    if ReadsLargest(s, tenant, mark) {
      LargestIsDisjoint(h, s, tenant, mark, batch);
    } else {
      var a :| a in s.anchors && IsSubmitted(s, tenant, a) && !KeyLe(s.anchors[a].toKey, mark);
      CompleteCoverage(h, s);
      CompleteCovers(h, s, a);
      FirstIsAnchored(h, s, tenant, mark, batch, a);
    }
  }

  /** What was read after the largest submitted key repeats nothing. */
  lemma LargestIsDisjoint(h: Hashes, s: State, tenant: string, mark: Key, batch: seq<Receipt>)
    requires Inv(h, s) && ReadsLargest(s, tenant, mark)
    requires forall r :: r in batch ==> r.tenantId == tenant && KeyLt(mark, KeyOf(r))
    ensures DisjointFromSubmitted(s, tenant, batch)
  {
    forall r | r in batch
      ensures !Anchored(s, r)
    {
      forall a | a in s.anchors && IsSubmitted(s, tenant, a)
        ensures a in s.sealed && r !in s.sealed[a].batch
      {
        assert RowOk(h, s, a);
        KeyGap(mark, KeyOf(r), s.anchors[a].toKey);
        InBatchIff(h, s, a, r);
      }
    }
  }

  lemma FirstIsAnchored(h: Hashes, s: State, tenant: string, mark: Key, batch: seq<Receipt>, a: string)
    requires Coverage(s) && MarkOk(s, tenant, mark) && Covers(s.receipts, tenant, mark, batch)
    requires a in s.anchors && IsSubmitted(s, tenant, a) && RowOk(h, s, a) && !KeyLe(s.anchors[a].toKey, mark)
    requires Covers(s.receipts, tenant, s.sealed[a].mark, s.sealed[a].batch)
    ensures !DisjointFromSubmitted(s, tenant, batch)
  {
    FirstAtMost(s.receipts, tenant, mark, batch, s.sealed[a].mark, s.sealed[a].batch);
    assert UpToSubmitted(s, tenant, First(batch));
    assert batch[0] in batch && Anchored(s, batch[0]);
  }

  lemma KeyGap(a: Key, b: Key, c: Key)
    requires KeyLt(a, b) && KeyLe(c, a)
    ensures !KeyLe(b, c)
  {
    KeyOrder();
  }

  /** A batch starts at or below the end of any other batch that ends above its watermark. */
  lemma FirstAtMost(rs: seq<Receipt>, tenant: string, mark: Key, batch: seq<Receipt>, mark': Key, batch': seq<Receipt>)
    requires Covers(rs, tenant, mark, batch) && Covers(rs, tenant, mark', batch')
    requires KeyLe(ZERO, mark) && !KeyLe(Last(batch'), mark)
    ensures batch[0] in rs && batch[0].tenantId == tenant
    ensures KeyLt(ZERO, First(batch)) && KeyLe(First(batch), Last(batch'))
  {
    KeyOrder();
    var r := batch'[|batch'| - 1];
    assert r in batch' && batch[0] in batch && batch[|batch| - 1] in batch;
    if r in batch {
      AtMostLast(batch, r);
    } else {
      AtMostLast(batch, batch[0]);
    }
  }

  /** Two submitted rows tie at the top of the watermark query with different keys. */
  ghost predicate TopTie(s: State, tenant: string)
  {
    exists a, b ::
      && a in s.anchors && b in s.anchors && IsSubmitted(s, tenant, a) && IsSubmitted(s, tenant, b)
      && s.anchors[a].toKey != s.anchors[b].toKey && s.anchors[a].toKey.at == s.anchors[b].toKey.at
      && CanRead(s, tenant, s.anchors[a].toKey)
  }

  lemma NoTieReadsLargest(s: State, tenant: string, mark: Key)
    requires CanRead(s, tenant, mark) && !TopTie(s, tenant)
    ensures ReadsLargest(s, tenant, mark)
  {
    if exists a :: a in s.anchors && IsSubmitted(s, tenant, a) {
      var a :| a in s.anchors && IsSubmitted(s, tenant, a) && mark == s.anchors[a].toKey;
      forall b | b in s.anchors && IsSubmitted(s, tenant, b)
        ensures KeyLe(s.anchors[b].toKey, mark)
      {
        assert s.anchors[b].toKey.at == mark.at ==> s.anchors[b].toKey == mark;
      }
    }
  }

  /** Without a tie the next batch repeats nothing, even after late receipts. */
  lemma NoTieDisjoint(h: Hashes, s: State, tenant: string, mark: Key)
    requires Inv(h, s) && CanRead(s, tenant, mark) && !TopTie(s, tenant)
    ensures DisjointFromSubmitted(s, tenant, Take(CAP, Ordered(s.receipts, After(tenant, mark))))
  {
    var all := Ordered(s.receipts, After(tenant, mark));
    NoTieReadsLargest(s, tenant, mark);
    OrderedSpec(s.receipts, After(tenant, mark));
    assert forall r :: r in Take(CAP, all) ==> r in all;
    LargestIsDisjoint(h, s, tenant, mark, Take(CAP, all));
  }

  /** Whatever row the watermark query returns, the next batch repeats nothing: provided that no receipt
      came late, this holds exactly when no two submitted rows tie at the top. */
  lemma DisjointIffNoTie(h: Hashes, s: State, tenant: string)
    requires Inv(h, s) && Complete(s)
    ensures (forall mark :: CanRead(s, tenant, mark) && Ordered(s.receipts, After(tenant, mark)) != [] ==>
               DisjointFromSubmitted(s, tenant, Take(CAP, Ordered(s.receipts, After(tenant, mark)))))
            <==> !TopTie(s, tenant)
  {
    forall mark | CanRead(s, tenant, mark) && Ordered(s.receipts, After(tenant, mark)) != []
      ensures var batch := Take(CAP, Ordered(s.receipts, After(tenant, mark)));
              DisjointFromSubmitted(s, tenant, batch) <==> ReadsLargest(s, tenant, mark)
    {
      ReadIsMarkOk(h, s, tenant, mark);
      FetchCovers(s.receipts, tenant, mark);
      DisjointIffLargest(h, s, tenant, mark, Take(CAP, Ordered(s.receipts, After(tenant, mark))));
    }
    if TopTie(s, tenant) {
      var mark := TieWitness(h, s, tenant);
      assert !DisjointFromSubmitted(s, tenant, Take(CAP, Ordered(s.receipts, After(tenant, mark))));
    } else {
      forall mark | CanRead(s, tenant, mark)
        ensures ReadsLargest(s, tenant, mark)
      {
        NoTieReadsLargest(s, tenant, mark);
      }
    }
  }

  /** With a tie, the query may return the smaller key, and there is then something to
      fetch again. */
  lemma TieWitness(h: Hashes, s: State, tenant: string) returns (mark: Key)
    requires Inv(h, s) && TopTie(s, tenant)
    ensures CanRead(s, tenant, mark) && !ReadsLargest(s, tenant, mark)
    ensures Ordered(s.receipts, After(tenant, mark)) != []
  {
    var a, b :| a in s.anchors && b in s.anchors && IsSubmitted(s, tenant, a) && IsSubmitted(s, tenant, b)
      && s.anchors[a].toKey != s.anchors[b].toKey && s.anchors[a].toKey.at == s.anchors[b].toKey.at
      && CanRead(s, tenant, s.anchors[a].toKey);
    KeyTrichotomy(s.anchors[a].toKey, s.anchors[b].toKey);
    TieReadsEither(s, tenant, a, b);
    if KeyLt(s.anchors[b].toKey, s.anchors[a].toKey) {
      mark := s.anchors[b].toKey;
      PendingAbove(h, s, tenant, mark, a);
    } else {
      mark := s.anchors[a].toKey;
      PendingAbove(h, s, tenant, mark, b);
    }
  }

  lemma TieReadsEither(s: State, tenant: string, a: string, b: string)
    requires a in s.anchors && b in s.anchors && IsSubmitted(s, tenant, a) && IsSubmitted(s, tenant, b)
    requires s.anchors[a].toKey.at == s.anchors[b].toKey.at && CanRead(s, tenant, s.anchors[a].toKey)
    ensures CanRead(s, tenant, s.anchors[b].toKey)
  {
  }

  lemma PendingAbove(h: Hashes, s: State, tenant: string, mark: Key, a: string)
    requires UniqueIds(s.receipts) && IsSubmitted(s, tenant, a) && RowOk(h, s, a)
    requires KeyLt(mark, s.anchors[a].toKey)
    ensures !ReadsLargest(s, tenant, mark) && Ordered(s.receipts, After(tenant, mark)) != []
  {
    KeyGap(mark, s.anchors[a].toKey, mark);
    var batch := s.sealed[a].batch;
    var r := batch[|batch| - 1];
    assert r in batch && After(tenant, mark)(r);
    assert r in s.receipts;
    OrderedSpec(s.receipts, After(tenant, mark));
    assert r in Ordered(s.receipts, After(tenant, mark));
  }

  lemma KeyTrichotomy(a: Key, b: Key)
    ensures KeyLt(a, b) || a == b || KeyLt(b, a)
  {
    KeyOrder();
  }

  // ---- Passes that do not overlap ----

  /** A tenant's pass starts only while it has no other pass running and no tie at the top
      of its watermark query, and the query does not fail. */
  ghost predicate SerialStep(s: State, step: Step)
  {
    step.ReadMark? ==>
      && (forall p :: p in s.passes ==> s.passes[p].tenant != step.tenant)
      && CanRead(s, step.tenant, step.mark) && !TopTie(s, step.tenant)
  }

  ghost function MarkOf(s: State, pass: Pass): Key
  {
    if !pass.Persisted? then pass.mark
    else if pass.anchorId in s.sealed then s.sealed[pass.anchorId].mark
    else ZERO
  }

  /** One batch ends where or before the other one starts. */
  ghost predicate Apart(s: State, a: string, b: string)
    requires a in s.anchors && b in s.anchors && a in s.sealed && b in s.sealed
  {
    KeyLe(s.anchors[a].toKey, s.sealed[b].mark) || KeyLe(s.anchors[b].toKey, s.sealed[a].mark)
  }

  ghost predicate OnePassPerTenant(passes: map<nat, Pass>)
  {
    forall p, q :: p in passes && q in passes && p != q ==> passes[p].tenant != passes[q].tenant
  }

  ghost predicate MarksLargest(s: State)
  {
    forall p :: p in s.passes ==> ReadsLargest(s, s.passes[p].tenant, MarkOf(s, s.passes[p]))
  }

  ghost predicate AllApart(s: State)
  {
    forall t, a, b :: IsSubmitted(s, t, a) && IsSubmitted(s, t, b) && a != b && a in s.sealed && b in s.sealed
      ==> Apart(s, a, b)
  }

  ghost predicate SerialInv(s: State)
  {
    OnePassPerTenant(s.passes) && MarksLargest(s) && AllApart(s)
  }

  /** Submitted rows unchanged: it is enough to look at the passes. */
  lemma SerialFrame(s: State, s': State)
    requires SerialInv(s) && SameSubmitted(s, s') && OnePassPerTenant(s'.passes)
    requires forall p :: p in s'.passes ==> ReadsLargest(s, s'.passes[p].tenant, MarkOf(s', s'.passes[p]))
    ensures SerialInv(s')
  {
    forall p | p in s'.passes
      ensures ReadsLargest(s', s'.passes[p].tenant, MarkOf(s', s'.passes[p]))
    {
      assert ReadsLargest(s, s'.passes[p].tenant, MarkOf(s', s'.passes[p]));
    }
    forall t, a, b | IsSubmitted(s', t, a) && IsSubmitted(s', t, b) && a != b && a in s'.sealed && b in s'.sealed
      ensures Apart(s', a, b)
    {
      assert IsSubmitted(s, t, a) && IsSubmitted(s, t, b) && Apart(s, a, b);
    }
  }

  lemma SerialStepKeeps(h: Hashes, s: State, step: Step)
    requires Inv(h, s) && SerialInv(s) && Enabled(s, step) && SerialStep(s, step)
    ensures SerialInv(Apply(h, s, step))
  {
    match step
    case Persist(p, id, head, now) => SerialPersist(h, s, p, id, head, now);
    case Finish(p, btc, sol) =>
      assert RowOk(h, s, s.passes[p].anchorId);
      SerialFinish(h, s, p, btc, sol);
    case _ => SerialOther(h, s, step);
  }

  lemma SerialOther(h: Hashes, s: State, step: Step)
    requires SerialInv(s) && Enabled(s, step) && SerialStep(s, step)
    requires !step.Persist? && !step.Finish?
    ensures SerialInv(Apply(h, s, step))
  {
    match step {
      case Append(_) => SerialPasses(s, Apply(h, s, step));
      case ReadMark(p, tenant, mark) =>
        NoTieReadsLargest(s, tenant, mark);
        SerialPasses(s, Apply(h, s, step));
      case Fetch(p) => SerialFetch(h, s, p);
      case Abandon(_) => SerialPasses(s, Apply(h, s, step));
    }
  }

  lemma SerialFetch(h: Hashes, s: State, p: nat)
    requires SerialInv(s) && Enabled(s, Fetch(p))
    ensures SerialInv(Apply(h, s, Fetch(p)))
  {
    var s' := Apply(h, s, Fetch(p));
    assert s'.passes == s.passes - {p} || (p in s'.passes && s'.passes == s.passes[p := s'.passes[p]]);
    SerialPasses(s, s');
  }

  lemma SerialPasses(s: State, s': State)
    requires SerialInv(s) && s'.anchors == s.anchors && s'.sealed == s.sealed && OnePassPerTenant(s'.passes)
    requires forall p :: p in s'.passes ==>
               || (p in s.passes && s'.passes[p].tenant == s.passes[p].tenant && MarkOf(s', s'.passes[p]) == MarkOf(s, s.passes[p]))
               || ReadsLargest(s, s'.passes[p].tenant, MarkOf(s', s'.passes[p]))
    ensures SerialInv(s')
  {
    assert forall t, a :: IsSubmitted(s, t, a) <==> IsSubmitted(s', t, a);
    SerialFrame(s, s');
  }

  lemma PersistKeepsMarks(h: Hashes, s: State, p: nat, id: string, head: Head, now: int, q: nat)
    requires Enabled(s, Persist(p, id, head, now)) && q in s.passes && PassOk(s, s.passes[q])
    ensures var s' := Apply(h, s, Persist(p, id, head, now));
            q in s'.passes && s'.passes[q].tenant == s.passes[q].tenant && MarkOf(s', s'.passes[q]) == MarkOf(s, s.passes[q])
  {
  }

  lemma SerialPersist(h: Hashes, s: State, p: nat, id: string, head: Head, now: int)
    requires PassesOk(s) && SerialInv(s) && Enabled(s, Persist(p, id, head, now))
    ensures SerialInv(Apply(h, s, Persist(p, id, head, now)))
  {
    var s' := Apply(h, s, Persist(p, id, head, now));
    PersistKeepsSubmitted(h, s, p, id, head, now);
    forall q | q in s.passes
      ensures q in s'.passes && s'.passes[q].tenant == s.passes[q].tenant && MarkOf(s', s'.passes[q]) == MarkOf(s, s.passes[q])
    {
      PersistKeepsMarks(h, s, p, id, head, now, q);
    }
    assert s'.passes.Keys == s.passes.Keys;
    SerialFrame(s, s');
  }

  lemma SerialFinish(h: Hashes, s: State, p: nat, btc: Provider, sol: Provider)
    requires SerialInv(s) && Enabled(s, Finish(p, btc, sol)) && PassOk(s, s.passes[p]) && s.passes[p].anchorId in s.sealed
    ensures SerialInv(Apply(h, s, Finish(p, btc, sol)))
  {
    if Outcome(btc, sol) != Submitted {
      FinishKeepsSubmitted(h, s, p, btc, sol);
      SerialFrame(s, Apply(h, s, Finish(p, btc, sol)));
    } else {
      SerialFinishSubmits(h, s, p, btc, sol);
    }
  }

  lemma SerialFinishSubmits(h: Hashes, s: State, p: nat, btc: Provider, sol: Provider)
    requires SerialInv(s) && Enabled(s, Finish(p, btc, sol)) && PassOk(s, s.passes[p]) && s.passes[p].anchorId in s.sealed
    ensures SerialInv(Apply(h, s, Finish(p, btc, sol)))
  {
    assert ReadsLargest(s, s.passes[p].tenant, MarkOf(s, s.passes[p]));
    SerialSubmit(s, Apply(h, s, Finish(p, btc, sol)), s.passes[p].anchorId, s.passes[p].tenant);
  }

  /** The newly submitted batch starts at or after every submitted end. */
  lemma SerialSubmit(s: State, s': State, id: string, tenant: string)
    requires MarksLargest(s) && AllApart(s) && OnePassPerTenant(s'.passes)
    requires id in s.anchors && id in s.sealed && s.anchors[id].tenant == tenant
    requires id in s'.anchors && s'.anchors == s.anchors[id := s'.anchors[id]] && s'.sealed == s.sealed
    requires s'.anchors[id].tenant == tenant && s'.anchors[id].toKey == s.anchors[id].toKey
    requires forall p :: p in s'.passes ==> p in s.passes && s'.passes[p] == s.passes[p] && s.passes[p].tenant != tenant
    requires ReadsLargest(s, tenant, s.sealed[id].mark)
    ensures SerialInv(s')
  {
    forall p | p in s'.passes
      ensures ReadsLargest(s', s'.passes[p].tenant, MarkOf(s', s'.passes[p]))
    {
      assert ReadsLargest(s, s.passes[p].tenant, MarkOf(s, s.passes[p]));
    }
    forall t, a, b | IsSubmitted(s', t, a) && IsSubmitted(s', t, b) && a != b && a in s'.sealed && b in s'.sealed
      ensures Apart(s', a, b)
    {
      if a != id && b != id {
        assert IsSubmitted(s, t, a) && IsSubmitted(s, t, b) && Apart(s, a, b);
      } else {
        var other := if a == id then b else a;
        assert IsSubmitted(s, tenant, other);
      }
    }
  }

  lemma {:induction false} SerialRunKeeps(h: Hashes, states: seq<State>, steps: seq<Step>, i: nat)
    requires IsRun(h, states, steps) && i < |states|
    requires forall j :: 0 <= j < i ==> SerialStep(states[j], steps[j])
    ensures SerialInv(states[i])
  {
    if i > 0 {
      SerialRunKeeps(h, states, steps, i - 1);
      SerialRunStep(h, states, steps, i - 1);
    }
  }

  lemma SerialRunStep(h: Hashes, states: seq<State>, steps: seq<Step>, i: nat)
    requires IsRun(h, states, steps) && i < |steps| && SerialInv(states[i]) && SerialStep(states[i], steps[i])
    ensures SerialInv(states[i + 1])
  {
    RunKeepsInv(h, states, steps, i);
    assert Moves(h, states, steps, i);
    SerialStepKeeps(h, states[i], steps[i]);
  }

  /** In a run without overlapping passes and without ties, late receipts or not, the submitted batches of
      a tenant are pairwise disjoint and adjacent: each is gapless as fetched and starts at zero or right
      where a submitted batch ended. */
  lemma SerialBatchesDisjoint(h: Hashes, states: seq<State>, steps: seq<Step>, i: nat, tenant: string, a: string, b: string)
    requires IsRun(h, states, steps) && i < |states|
    requires forall j :: 0 <= j < i ==> SerialStep(states[j], steps[j])
    requires IsSubmitted(states[i], tenant, a) && IsSubmitted(states[i], tenant, b) && a != b
    ensures a in states[i].sealed && b in states[i].sealed
    ensures MarkOk(states[i], tenant, states[i].sealed[a].mark)
    ensures ReadFrom(states[i].receipts, states[i].sealed[a].seen, tenant, states[i].sealed[a].mark, states[i].sealed[a].batch)
    ensures forall r :: !(r in states[i].sealed[a].batch && r in states[i].sealed[b].batch)
  {
    var s := states[i];
    RunKeepsInv(h, states, steps, i);
    SerialRunKeeps(h, states, steps, i);
    assert RowOk(h, s, a) && RowOk(h, s, b);
    assert Apart(s, a, b);
    forall r | r in s.sealed[a].batch && r in s.sealed[b].batch
      ensures false
    {
      if KeyLe(s.anchors[a].toKey, s.sealed[b].mark) {
        KeyGap(s.sealed[b].mark, KeyOf(r), s.anchors[a].toKey);
      } else {
        KeyGap(s.sealed[a].mark, KeyOf(r), s.anchors[b].toKey);
      }
    }
  }

  // ---- Exactly when the batches of a run are disjoint ----

  ghost predicate ShareNothing(s: State, a: string, b: string)
    requires a in s.sealed && b in s.sealed
  {
    forall r :: !(r in s.sealed[a].batch && r in s.sealed[b].batch)
  }

  /** The submitted batches of a tenant are pairwise disjoint. */
  ghost predicate SubmittedDisjoint(s: State, tenant: string)
  {
    forall a, b :: IsSubmitted(s, tenant, a) && IsSubmitted(s, tenant, b) && a != b && a in s.sealed && b in s.sealed ==>
      ShareNothing(s, a, b)
  }

  /** The step submits a batch of the tenant. */
  ghost predicate Submits(s: State, step: Step, tenant: string)
  {
    && step.Finish? && Enabled(s, step) && Outcome(step.btc, step.sol) == Submitted
    && s.passes[step.pass].tenant == tenant
  }

  /** Some receipt was stored before the fetches of both batches and lies in both ranges. */
  ghost predicate CommonReceipt(s: State, a: string, b: string)
    requires a in s.sealed && b in s.sealed && a in s.anchors && b in s.anchors
  {
    exists r :: StoredFor(s, a, r) && StoredFor(s, b, r)
                && FallsInto(r, s.anchors[a].tenant, s.sealed[a].mark, s.anchors[a].toKey)
                && FallsInto(r, s.anchors[b].tenant, s.sealed[b].mark, s.anchors[b].toKey)
  }

  /** A batch the step submits has no receipt in common, by range and time, with a submitted one. */
  ghost predicate SubmitsApart(s: State, step: Step, tenant: string)
  {
    Submits(s, step, tenant) ==>
      var a := s.passes[step.pass].anchorId;
      a in s.sealed && forall b :: IsSubmitted(s, tenant, b) && b in s.sealed ==> !CommonReceipt(s, a, b)
  }

  /** A batch the step submits was read after the largest submitted key of its tenant. */
  ghost predicate SubmitsInOrder(s: State, step: Step, tenant: string)
  {
    Submits(s, step, tenant) ==>
      var a := s.passes[step.pass].anchorId;
      a in s.sealed && ReadsLargest(s, tenant, s.sealed[a].mark)
  }

  lemma SameSubmittedDisjoint(s: State, s': State, tenant: string)
    requires SameSubmitted(s, s')
    ensures SubmittedDisjoint(s, tenant) <==> SubmittedDisjoint(s', tenant)
  {
  }

  lemma OtherStepSameSubmitted(h: Hashes, s: State, step: Step)
    requires Enabled(s, step) && !step.Finish?
    ensures SameSubmitted(s, Apply(h, s, step))
  {
    if step.Persist? {
      PersistKeepsSubmitted(h, s, step.pass, step.anchorId, step.head, step.now);
    }
  }

  lemma OtherTenantDisjoint(h: Hashes, s: State, step: Step, tenant: string)
    requires step.Finish? && Enabled(s, step) && PassOk(s, s.passes[step.pass]) && s.passes[step.pass].tenant != tenant
    ensures SubmittedDisjoint(s, tenant) <==> SubmittedDisjoint(Apply(h, s, step), tenant)
  {
    var s' := Apply(h, s, step);
    assert forall a :: IsSubmitted(s, tenant, a) <==> IsSubmitted(s', tenant, a);
  }

  /** One more submitted row: the pairs are the old ones and those with the new row. */
  lemma OneMoreDisjoint(s: State, s': State, tenant: string, id: string)
    requires s'.sealed == s.sealed && id in s.sealed && !IsSubmitted(s, tenant, id) && IsSubmitted(s', tenant, id)
    requires forall a :: a != id ==> (IsSubmitted(s, tenant, a) <==> IsSubmitted(s', tenant, a))
    ensures SubmittedDisjoint(s', tenant) <==>
            SubmittedDisjoint(s, tenant) && forall b :: IsSubmitted(s, tenant, b) && b in s.sealed ==> ShareNothing(s, id, b)
  {
    forall a, b | a in s.sealed && b in s.sealed
      ensures ShareNothing(s', a, b) <==> ShareNothing(s, a, b)
      ensures ShareNothing(s, a, b) <==> ShareNothing(s, b, a)
    {
    }
    if SubmittedDisjoint(s', tenant) {
      forall b | IsSubmitted(s, tenant, b) && b in s.sealed
        ensures ShareNothing(s, id, b)
      {
        assert IsSubmitted(s', tenant, b) && ShareNothing(s', id, b);
      }
      forall a, b | IsSubmitted(s, tenant, a) && IsSubmitted(s, tenant, b) && a != b && a in s.sealed && b in s.sealed
        ensures ShareNothing(s, a, b)
      {
        assert IsSubmitted(s', tenant, a) && IsSubmitted(s', tenant, b) && ShareNothing(s', a, b);
      }
    }
  }

  lemma ShareNothingIff(h: Hashes, s: State, a: string, b: string)
    requires a in s.anchors && b in s.anchors && RowOk(h, s, a) && RowOk(h, s, b)
    ensures ShareNothing(s, a, b) <==> !CommonReceipt(s, a, b)
  {
    forall r
      ensures r in s.sealed[a].batch <==> FallsInto(r, s.anchors[a].tenant, s.sealed[a].mark, s.anchors[a].toKey) && StoredFor(s, a, r)
      ensures r in s.sealed[b].batch <==> FallsInto(r, s.anchors[b].tenant, s.sealed[b].mark, s.anchors[b].toKey) && StoredFor(s, b, r)
    {
      InBatchIff(h, s, a, r);
      InBatchIff(h, s, b, r);
    }
  }

  lemma NewRowIff(h: Hashes, s: State, tenant: string, id: string)
    requires Inv(h, s) && id in s.anchors && s.anchors[id].tenant == tenant
    ensures id in s.sealed
    ensures (forall b :: IsSubmitted(s, tenant, b) && b in s.sealed ==> ShareNothing(s, id, b)) <==>
            forall b :: IsSubmitted(s, tenant, b) && b in s.sealed ==> !CommonReceipt(s, id, b)
  {
    assert RowOk(h, s, id);
    forall b | IsSubmitted(s, tenant, b) && b in s.sealed
      ensures ShareNothing(s, id, b) <==> !CommonReceipt(s, id, b)
    {
      assert RowOk(h, s, b);
      ShareNothingIff(h, s, id, b);
    }
  }

  lemma SubmitAddsRow(h: Hashes, s: State, step: Step, tenant: string)
    requires Submits(s, step, tenant) && PassOk(s, s.passes[step.pass]) && s.passes[step.pass].anchorId in s.sealed
    ensures SubmittedDisjoint(Apply(h, s, step), tenant) <==>
            && SubmittedDisjoint(s, tenant)
            && forall b :: IsSubmitted(s, tenant, b) && b in s.sealed ==> ShareNothing(s, s.passes[step.pass].anchorId, b)
  {
    OneMoreDisjoint(s, Apply(h, s, step), tenant, s.passes[step.pass].anchorId);
  }

  lemma SubmitDisjointIff(h: Hashes, s: State, step: Step, tenant: string)
    requires Inv(h, s) && Submits(s, step, tenant)
    ensures SubmittedDisjoint(Apply(h, s, step), tenant) <==>
            SubmittedDisjoint(s, tenant) && SubmitsApart(s, step, tenant)
  {
    assert PassOk(s, s.passes[step.pass]);
    NewRowIff(h, s, tenant, s.passes[step.pass].anchorId);
    SubmitAddsRow(h, s, step, tenant);
  }

  lemma StepDisjointIff(h: Hashes, s: State, step: Step, tenant: string)
    requires Inv(h, s) && Enabled(s, step)
    ensures SubmittedDisjoint(Apply(h, s, step), tenant) <==>
            SubmittedDisjoint(s, tenant) && SubmitsApart(s, step, tenant)
  {
    if !step.Finish? {
      OtherStepSameSubmitted(h, s, step);
      SameSubmittedDisjoint(s, Apply(h, s, step), tenant);
    } else if s.passes[step.pass].tenant != tenant {
      OtherTenantDisjoint(h, s, step, tenant);
    } else if Outcome(step.btc, step.sol) != Submitted {
      FinishKeepsSubmitted(h, s, step.pass, step.btc, step.sol);
      SameSubmittedDisjoint(s, Apply(h, s, step), tenant);
    } else {
      SubmitDisjointIff(h, s, step, tenant);
    }
  }

  lemma RunStepDisjointIff(h: Hashes, states: seq<State>, steps: seq<Step>, i: nat, tenant: string)
    requires IsRun(h, states, steps) && i < |steps|
    ensures SubmittedDisjoint(states[i + 1], tenant) <==>
            SubmittedDisjoint(states[i], tenant) && SubmitsApart(states[i], steps[i], tenant)
  {
    RunKeepsInv(h, states, steps, i);
    assert Moves(h, states, steps, i);
    StepDisjointIff(h, states[i], steps[i], tenant);
  }

  /** The first `n` steps submit apart. */
  ghost predicate KeptApart(states: seq<State>, steps: seq<Step>, n: nat, tenant: string)
    requires n <= |steps| && n <= |states|
  {
    n > 0 ==> KeptApart(states, steps, n - 1, tenant) && SubmitsApart(states[n - 1], steps[n - 1], tenant)
  }

  lemma {:induction false} KeptApartMeans(states: seq<State>, steps: seq<Step>, n: nat, tenant: string)
    requires n <= |steps| && n <= |states|
    ensures KeptApart(states, steps, n, tenant) <==> forall j :: 0 <= j < n ==> SubmitsApart(states[j], steps[j], tenant)
  {
    if n > 0 {
      KeptApartMeans(states, steps, n - 1, tenant);
    }
  }

  lemma {:induction false} DisjointIffKeptApart(h: Hashes, states: seq<State>, steps: seq<Step>, i: nat, tenant: string)
    requires IsRun(h, states, steps) && i < |states|
    ensures SubmittedDisjoint(states[i], tenant) <==> KeptApart(states, steps, i, tenant)
  {
    if i > 0 {
      DisjointIffKeptApart(h, states, steps, i - 1, tenant);
      RunStepDisjointIff(h, states, steps, i - 1, tenant);
    }
  }

  /** In every run, ties, overlapping passes, failed reads and late receipts included, the submitted batches
      of a tenant are pairwise disjoint exactly if none of them, when it was submitted, shared a range with a
      submitted one in which a receipt lay that had been stored before both fetches. */
  lemma DisjointRunIff(h: Hashes, states: seq<State>, steps: seq<Step>, i: nat, tenant: string)
    requires IsRun(h, states, steps) && i < |states|
    ensures SubmittedDisjoint(states[i], tenant) <==>
            forall j :: 0 <= j < i ==> SubmitsApart(states[j], steps[j], tenant)
  {
    DisjointIffKeptApart(h, states, steps, i, tenant);
    KeptApartMeans(states, steps, i, tenant);
  }

  /** A batch shares nothing with the submitted ones exactly if none of its receipts is anchored. */
  lemma SharesNothingIff(s: State, tenant: string, id: string)
    requires id in s.sealed && forall r :: r in s.sealed[id].batch ==> r.tenantId == tenant
    ensures DisjointFromSubmitted(s, tenant, s.sealed[id].batch) <==>
            forall b :: IsSubmitted(s, tenant, b) && b in s.sealed ==> ShareNothing(s, id, b)
  {
    if forall b :: IsSubmitted(s, tenant, b) && b in s.sealed ==> ShareNothing(s, id, b) {
      forall r | r in s.sealed[id].batch
        ensures !Anchored(s, r)
      {
        forall b | b in s.anchors && IsSubmitted(s, r.tenantId, b) && b in s.sealed
          ensures r !in s.sealed[b].batch
        {
          assert ShareNothing(s, id, b);
        }
      }
    } else {
      var b :| IsSubmitted(s, tenant, b) && b in s.sealed && !ShareNothing(s, id, b);
      var r :| r in s.sealed[id].batch && r in s.sealed[b].batch;
      assert Anchored(s, r);
    }
  }

  /** Reading after the largest submitted key keeps a batch apart; when no receipt came late, nothing else does. */
  lemma ApartIffLargest(h: Hashes, s: State, tenant: string, id: string)
    requires Inv(h, s) && id in s.anchors && s.anchors[id].tenant == tenant
    ensures id in s.sealed
    ensures ReadsLargest(s, tenant, s.sealed[id].mark) ==>
              forall b :: IsSubmitted(s, tenant, b) && b in s.sealed ==> !CommonReceipt(s, id, b)
    ensures Complete(s) && (forall b :: IsSubmitted(s, tenant, b) && b in s.sealed ==> !CommonReceipt(s, id, b)) ==>
              ReadsLargest(s, tenant, s.sealed[id].mark)
  {
    assert RowOk(h, s, id);
    NewRowIff(h, s, tenant, id);
    SharesNothingIff(s, tenant, id);
    if ReadsLargest(s, tenant, s.sealed[id].mark) {
      LargestIsDisjoint(h, s, tenant, s.sealed[id].mark, s.sealed[id].batch);
    }
    if Complete(s) {
      CompleteCovers(h, s, id);
      DisjointIffLargest(h, s, tenant, s.sealed[id].mark, s.sealed[id].batch);
    }
  }

  lemma StepApartIffInOrder(h: Hashes, s: State, step: Step, tenant: string)
    requires Inv(h, s)
    ensures SubmitsInOrder(s, step, tenant) ==> SubmitsApart(s, step, tenant)
    ensures Complete(s) && SubmitsApart(s, step, tenant) ==> SubmitsInOrder(s, step, tenant)
  {
    if Submits(s, step, tenant) {
      assert PassOk(s, s.passes[step.pass]);
      ApartIffLargest(h, s, tenant, s.passes[step.pass].anchorId);
    }
  }

  /** In every run, the submitted batches of a tenant are pairwise disjoint if every batch, when it was
      submitted, had been read after the largest submitted key; and in a run whose receipts come in time,
      only if. */
  lemma DisjointIffInOrder(h: Hashes, states: seq<State>, steps: seq<Step>, i: nat, tenant: string)
    requires IsRun(h, states, steps) && i < |states|
    ensures (forall j :: 0 <= j < i ==> SubmitsInOrder(states[j], steps[j], tenant)) ==> SubmittedDisjoint(states[i], tenant)
    ensures RunInTime(states, steps, i) && SubmittedDisjoint(states[i], tenant) ==>
              forall j :: 0 <= j < i ==> SubmitsInOrder(states[j], steps[j], tenant)
  {
    DisjointRunIff(h, states, steps, i, tenant);
    forall j | 0 <= j < i
      ensures SubmitsInOrder(states[j], steps[j], tenant) ==> SubmitsApart(states[j], steps[j], tenant)
      ensures RunInTime(states, steps, i) && SubmitsApart(states[j], steps[j], tenant) ==> SubmitsInOrder(states[j], steps[j], tenant)
    {
      RunKeepsInv(h, states, steps, j);
      StepApartIffInOrder(h, states[j], steps[j], tenant);
      if RunInTime(states, steps, i) {
        RunKeepsComplete(h, states, steps, j);
      }
    }
  }
}
