/** Runs of the anchoring protocol that show which of its guarantees have limits: two submitted rows tie at
    the top of the watermark query, a receipt is sealed twice, a late receipt is skipped, a late receipt
    spoils the count of the checkpoint finaliser, and the proof lookup refuses an anchored receipt. */
module AnchorWitnesses {
  import opened Wrappers
  import opened Order
  import opened Payloads
  import opened AnchorProtocol
  import opened AnchorTiming
  import opened AnchorBatches
  import opened Checkpoints
  import opened AnchorStore

  // ---- Reachable states ----

  ghost predicate Reachable(h: Hashes, s: State)
  {
    exists states, steps :: IsRun(h, states, steps) && states[|steps|] == s
  }

  lemma ReachInitial(h: Hashes)
    ensures Reachable(h, INITIAL)
  {
    assert IsRun(h, [INITIAL], []);
  }

  lemma ReachStep(h: Hashes, s: State, step: Step, s': State)
    requires Reachable(h, s) && Enabled(s, step) && Apply(h, s, step) == s'
    ensures Reachable(h, s')
  {
    var states, steps :| IsRun(h, states, steps) && states[|steps|] == s;
    var states', steps' := states + [s'], steps + [step];
    forall i | 0 <= i < |steps'|
      ensures Moves(h, states', steps', i)
    {
      if i < |steps| {
        assert Moves(h, states, steps, i);
        assert states'[i] == states[i] && states'[i + 1] == states[i + 1] && steps'[i] == steps[i];
      } else {
        assert states'[i] == s && steps'[i] == step && states'[i + 1] == s';
      }
    }
    assert IsRun(h, states', steps');
  }

  // ---- One undisturbed pass ----

  function SubmittedRow(h: Hashes, tenant: string, batch: seq<Receipt>, now: int): Anchor
    requires batch != []
  {
    SealedRow(h, tenant, batch, None, now).(btcAnchorId := "btc", status := Submitted)
  }

  /** The state after such a pass. */
  function AfterPass(h: Hashes, s: State, tenant: string, batch: seq<Receipt>, mark: Key, id: string, now: int): State
    requires batch != []
  {
    State(s.receipts, s.anchors[id := SubmittedRow(h, tenant, batch, now)],
          s.sealed[id := Sealing(mark, |s.receipts|, batch)], map[])
  }

  function Fetching(s: State, tenant: string, batch: seq<Receipt>, mark: Key): State
  {
    s.(passes := map[0 := Fetched(tenant, mark, |s.receipts|, batch)])
  }

  lemma FetchAll(h: Hashes, s: State, tenant: string, batch: seq<Receipt>, mark: Key)
    requires Ordered(s.receipts, After(tenant, mark)) == batch && 0 < |batch| <= CAP
    ensures var s1 := s.(passes := map[0 := Marked(tenant, mark)]);
            Enabled(s1, Fetch(0)) && Apply(h, s1, Fetch(0)) == Fetching(s, tenant, batch, mark)
  {
    assert Take(CAP, batch) == batch;
  }

  /** After the insert of the pending row. */
  function Persisting(h: Hashes, s: State, tenant: string, batch: seq<Receipt>, mark: Key, id: string, now: int): State
    requires batch != []
  {
    State(s.receipts, s.anchors[id := SealedRow(h, tenant, batch, None, now)],
          s.sealed[id := Sealing(mark, |s.receipts|, batch)], map[0 := Persisted(tenant, id)])
  }

  lemma PersistAll(h: Hashes, s: State, tenant: string, batch: seq<Receipt>, mark: Key, id: string, now: int)
    requires id !in s.anchors && batch != []
    ensures var s2 := Fetching(s, tenant, batch, mark);
            && Enabled(s2, Persist(0, id, None, now))
            && Apply(h, s2, Persist(0, id, None, now)) == Persisting(h, s, tenant, batch, mark, id, now)
  {
  }

  lemma FinishAll(h: Hashes, s: State, tenant: string, batch: seq<Receipt>, mark: Key, id: string, now: int)
    requires batch != []
    ensures var s3 := Persisting(h, s, tenant, batch, mark, id, now);
            && Enabled(s3, Finish(0, Accepted("btc"), Absent))
            && Apply(h, s3, Finish(0, Accepted("btc"), Absent)) == AfterPass(h, s, tenant, batch, mark, id, now)
  {
    var s4 := Apply(h, Persisting(h, s, tenant, batch, mark, id, now), Finish(0, Accepted("btc"), Absent));
    assert s4.anchors == s.anchors[id := SubmittedRow(h, tenant, batch, now)];
    assert s4.passes == map[];
  }

  /** An undisturbed pass that ends submitted takes all pending receipts. */
  lemma ReachPass(h: Hashes, s: State, tenant: string, batch: seq<Receipt>, mark: Key, id: string, now: int)
    requires Reachable(h, s) && s.passes == map[] && id !in s.anchors
    requires CanRead(s, tenant, mark) || mark == ZERO
    requires Ordered(s.receipts, After(tenant, mark)) == batch && 0 < |batch| <= CAP
    ensures Reachable(h, AfterPass(h, s, tenant, batch, mark, id, now))
  {
    var s1 := s.(passes := map[0 := Marked(tenant, mark)]);
    var s2, s3 := Fetching(s, tenant, batch, mark), Persisting(h, s, tenant, batch, mark, id, now);
    ReachStep(h, s, ReadMark(0, tenant, mark), s1);
    FetchAll(h, s, tenant, batch, mark);
    ReachStep(h, s1, Fetch(0), s2);
    PersistAll(h, s, tenant, batch, mark, id, now);
    ReachStep(h, s2, Persist(0, id, None, now), s3);
    FinishAll(h, s, tenant, batch, mark, id, now);
    ReachStep(h, s3, Finish(0, Accepted("btc"), Absent), AfterPass(h, s, tenant, batch, mark, id, now));
  }

  lemma ReachAppend(h: Hashes, s: State, r: Receipt, receipts: seq<Receipt>)
    requires Reachable(h, s) && NewId(s.receipts, r) && receipts == s.receipts + [r]
    ensures Reachable(h, s.(receipts := receipts))
  {
    ReachStep(h, s, Append(r), s.(receipts := receipts));
  }

  // ---- Receipts of one second ----

  function Sample(id: string): Receipt
  {
    Receipt(id, "", "agent", "image", "", "", "", "", "signature", 1, "t", "", "")
  }

  lemma SampleOrder()
    ensures StringLt("a", "b") && StringLt("b", "c") && StringLt("a", "c")
    ensures !StringLt("a", "a") && !StringLt("b", "b") && !StringLt("b", "a") && !StringLt("c", "a")
  {
  }

  lemma FirstPending(id: string)
    ensures Ordered([Sample(id)], After("t", ZERO)) == [Sample(id)]
  {
    assert [Sample(id)][..0] == [];
  }

  lemma SecondPending()
    ensures Ordered([Sample("a"), Sample("b")], After("t", Key(1, "a"))) == [Sample("b")]
  {
    SampleOrder();
    var r1, r2 := Sample("a"), Sample("b");
    assert [r1, r2][..1] == [r1] && [r1][..0] == [];
    assert Ordered([r1], After("t", Key(1, "a"))) == [];
  }

  ghost function OneStored(id: string): State
  {
    State([Sample(id)], map[], map[], map[])
  }

  ghost function OneAnchored(h: Hashes, id: string): State
  {
    AfterPass(h, OneStored(id), "t", [Sample(id)], ZERO, "1", 0)
  }

  ghost function TwoStored(h: Hashes): State
  {
    OneAnchored(h, "a").(receipts := [Sample("a"), Sample("b")])
  }

  ghost function TwoAnchored(h: Hashes): State
  {
    AfterPass(h, TwoStored(h), "t", [Sample("b")], Key(1, "a"), "2", 1)
  }

  lemma ReachOneStored(h: Hashes, id: string)
    ensures Reachable(h, OneStored(id))
  {
    ReachInitial(h);
    assert [] + [Sample(id)] == [Sample(id)];
    ReachAppend(h, INITIAL, Sample(id), [Sample(id)]);
  }

  lemma ReachOne(h: Hashes, id: string)
    ensures Reachable(h, OneAnchored(h, id))
  {
    ReachOneStored(h, id);
    FirstPending(id);
    ReachPass(h, OneStored(id), "t", [Sample(id)], ZERO, "1", 0);
  }

  lemma ReachTwoStored(h: Hashes)
    ensures Reachable(h, TwoStored(h))
  {
    ReachOne(h, "a");
    ReachAppend(h, OneAnchored(h, "a"), Sample("b"), [Sample("a"), Sample("b")]);
  }

  lemma ReadsOne(h: Hashes, receipts: seq<Receipt>)
    ensures CanRead(OneAnchored(h, "a").(receipts := receipts), "t", Key(1, "a"))
  {
    var s := OneAnchored(h, "a").(receipts := receipts);
    assert "1" in s.anchors && IsSubmitted(s, "t", "1") && s.anchors["1"].toKey == Key(1, "a");
    assert forall a :: a in s.anchors ==> a == "1";
  }

  lemma ReachTwo(h: Hashes)
    ensures Reachable(h, TwoAnchored(h))
  {
    ReachTwoStored(h);
    ReadsOne(h, [Sample("a"), Sample("b")]);
    SecondPending();
    ReachPass(h, TwoStored(h), "t", [Sample("b")], Key(1, "a"), "2", 1);
  }

  lemma TwoRows(h: Hashes)
    ensures var s := TwoAnchored(h);
            && (forall a :: a in s.anchors <==> a == "1" || a == "2")
            && IsSubmitted(s, "t", "1") && IsSubmitted(s, "t", "2")
            && s.anchors["1"].toKey == Key(1, "a") && s.anchors["2"].toKey == Key(1, "b")
            && s.anchors["1"].fromKey == Key(1, "a") && s.anchors["2"].fromKey == Key(1, "b")
            && s.anchors["1"].createdAt == 0 && s.anchors["2"].createdAt == 1
  {
  }

  lemma ReadsTied(h: Hashes)
    ensures CanRead(TwoAnchored(h), "t", Key(1, "a"))
  {
    TwoRows(h);
    var s := TwoAnchored(h);
    assert "1" in s.anchors;
    forall b | b in s.anchors && IsSubmitted(s, "t", b)
      ensures s.anchors[b].toKey.at <= 1
    {
      assert b == "1" || b == "2";
    }
  }

  /** Two receipts of the same second, anchored one after the other, are enough for a tie
      at the top of the watermark query. */
  lemma TieIsReachable(h: Hashes)
    ensures exists s :: Reachable(h, s) && TopTie(s, "t") && SubmittedDisjoint(s, "t")
  {
    ReachTwo(h);
    TwoRows(h);
    ReadsTied(h);
    var s := TwoAnchored(h);
    assert s.anchors["1"].toKey != s.anchors["2"].toKey;
    assert TopTie(s, "t");
    TwoDisjoint(h);
  }

  lemma TwoDisjoint(h: Hashes)
    ensures SubmittedDisjoint(TwoAnchored(h), "t")
  {
    TwoRows(h);
    var s := TwoAnchored(h);
    assert s.sealed["1"].batch == [Sample("a")] && s.sealed["2"].batch == [Sample("b")];
    forall a, b | IsSubmitted(s, "t", a) && IsSubmitted(s, "t", b) && a != b && a in s.sealed && b in s.sealed
      ensures ShareNothing(s, a, b)
    {
      assert (a == "1" && b == "2") || (a == "2" && b == "1");
    }
  }

  // ---- A receipt sealed twice ----

  /** Two submitted rows sealed over the same receipt. */
  lemma SharedReceipt(s: State, tenant: string, a: string, b: string, r: Receipt)
    requires IsSubmitted(s, tenant, a) && IsSubmitted(s, tenant, b) && a != b && a in s.sealed && b in s.sealed
    requires r in s.sealed[a].batch && r in s.sealed[b].batch
    ensures !SubmittedDisjoint(s, tenant)
  {
    assert !ShareNothing(s, a, b);
  }

  /** With the tie, the next pass may read the smaller key and seal and submit the second receipt again. */
  lemma TieSealsTwice(h: Hashes)
    ensures exists s :: Reachable(h, s) && !SubmittedDisjoint(s, "t")
  {
    ReachTwo(h);
    ReadsTied(h);
    SecondPending();
    var s, r := TwoAnchored(h), Sample("b");
    ReachPass(h, s, "t", [r], Key(1, "a"), "3", 2);
    var t := AfterPass(h, s, "t", [r], Key(1, "a"), "3", 2);
    assert IsSubmitted(t, "t", "2") && IsSubmitted(t, "t", "3") && r in t.sealed["2"].batch && r in t.sealed["3"].batch;
    SharedReceipt(t, "t", "2", "3", r);
  }

  /** A watermark query that fails is enough, without any tie and with one pass at a time: everything is
      sealed and submitted again. */
  lemma FailedReadSealsTwice(h: Hashes)
    ensures exists s :: Reachable(h, s) && !SubmittedDisjoint(s, "t") && !TopTie(s, "t")
  {
    ReachOne(h, "a");
    FirstPending("a");
    var s, r := OneAnchored(h, "a"), Sample("a");
    ReachPass(h, s, "t", [r], ZERO, "2", 1);
    var t := AfterPass(h, s, "t", [r], ZERO, "2", 1);
    assert IsSubmitted(t, "t", "1") && IsSubmitted(t, "t", "2") && r in t.sealed["1"].batch && r in t.sealed["2"].batch;
    SharedReceipt(t, "t", "1", "2", r);
    assert forall a :: a in t.anchors ==> t.anchors[a].toKey == Key(1, "a");
  }

  // ---- A receipt skipped ----

  /** In no batch although the submitted ranges take it in, and no watermark the next pass can read leaves
      anything to fetch. */
  ghost predicate Skipped(s: State, r: Receipt)
  {
    && r in s.receipts && CameLate(s, r) && !Anchored(s, r)
    && forall mark :: CanRead(s, r.tenantId, mark) ==> Ordered(s.receipts, After(r.tenantId, mark)) == []
  }

  /** A receipt `a` that arrives after the receipt `b` of the same second was submitted is skipped. */
  lemma LateReceiptSkipped(h: Hashes)
    ensures exists s, r :: Reachable(h, s) && Skipped(s, r) && !Coverage(s)
  {
    ReachOne(h, "b");
    ReachAppend(h, OneAnchored(h, "b"), Sample("a"), [Sample("b"), Sample("a")]);
    LateIsSkipped(h);
  }

  /** Every watermark that can be read is the end of the one row. */
  lemma OnlyMark(h: Hashes, receipts: seq<Receipt>, mark: Key)
    requires CanRead(OneAnchored(h, "b").(receipts := receipts), "t", mark)
    ensures mark == Key(1, "b")
  {
    var s := OneAnchored(h, "b").(receipts := receipts);
    assert "1" in s.anchors && IsSubmitted(s, "t", "1");
    assert forall a :: a in s.anchors ==> a == "1";
  }

  lemma LateIsSkipped(h: Hashes)
    ensures var t := OneAnchored(h, "b").(receipts := [Sample("b"), Sample("a")]);
            Skipped(t, Sample("a")) && !Coverage(t)
  {
    var t, r := OneAnchored(h, "b").(receipts := [Sample("b"), Sample("a")]), Sample("a");
    LateIsLate(h);
    assert r == t.receipts[1];
    NothingAfter();
    forall mark | CanRead(t, "t", mark)
      ensures Ordered(t.receipts, After("t", mark)) == []
    {
      OnlyMark(h, t.receipts, mark);
    }
    assert "1" in t.anchors && IsSubmitted(t, "t", "1") && KeyLe(KeyOf(r), t.anchors["1"].toKey);
    assert UpToSubmitted(t, "t", KeyOf(r)) && KeyLt(ZERO, KeyOf(r));
  }

  lemma LateIsLate(h: Hashes)
    ensures var t := OneAnchored(h, "b").(receipts := [Sample("b"), Sample("a")]);
            CameLate(t, Sample("a")) && !Anchored(t, Sample("a"))
  {
    SampleOrder();
    var t, r := OneAnchored(h, "b").(receipts := [Sample("b"), Sample("a")]), Sample("a");
    assert forall a :: a in t.anchors ==> a == "1";
    assert t.sealed["1"] == Sealing(ZERO, 1, [Sample("b")]);
    assert t.receipts[..1] == [Sample("b")];
    assert TakesIn(t, "1", r);
  }

  lemma NothingAfter()
    ensures Ordered([Sample("b"), Sample("a")], After("t", Key(1, "b"))) == []
  {
    SampleOrder();
    var r1, r2 := Sample("b"), Sample("a");
    assert [r1, r2][..1] == [r1] && [r1][..0] == [];
    assert Ordered([r1], After("t", Key(1, "b"))) == [];
  }

  // ---- A count that refuses ----

  ghost function PairStored(): State
  {
    State([Sample("a"), Sample("c")], map[], map[], map[])
  }

  /** One batch of `a` and `c`. */
  ghost function PairAnchored(h: Hashes): State
  {
    AfterPass(h, PairStored(), "t", [Sample("a"), Sample("c")], ZERO, "1", 0)
  }

  /** The same after `b` came between them. */
  ghost function PairSplit(h: Hashes): State
  {
    PairAnchored(h).(receipts := [Sample("a"), Sample("c"), Sample("b")])
  }

  lemma PairPending()
    ensures Ordered([Sample("a"), Sample("c")], After("t", ZERO)) == [Sample("a"), Sample("c")]
  {
    SampleOrder();
    var r1, r2 := Sample("a"), Sample("c");
    assert [r1, r2][..1] == [r1] && [r1][..0] == [];
    assert Ordered([r1], After("t", ZERO)) == [r1];
    assert Insert(ReceiptLt, [], r2) == [r2] && [r1][1..] == [];
  }

  lemma ReachPair(h: Hashes)
    ensures Reachable(h, PairAnchored(h)) && Reachable(h, PairSplit(h))
  {
    ReachOneStored(h, "a");
    ReachAppend(h, OneStored("a"), Sample("c"), [Sample("a"), Sample("c")]);
    PairPending();
    ReachPass(h, PairStored(), "t", [Sample("a"), Sample("c")], ZERO, "1", 0);
    ReachAppend(h, PairAnchored(h), Sample("b"), [Sample("a"), Sample("c"), Sample("b")]);
  }

  lemma PairSince(h: Hashes)
    ensures "1" in PairAnchored(h).anchors && "1" in PairAnchored(h).sealed && NoneSince(PairAnchored(h), "1")
    ensures "1" in PairSplit(h).anchors && "1" in PairSplit(h).sealed && !NoneSince(PairSplit(h), "1")
  {
    SampleOrder();
    var s, t, r := PairAnchored(h), PairSplit(h), Sample("b");
    assert s.receipts[..2] == s.receipts && t.receipts[..2] == s.receipts;
    assert r == t.receipts[2] && Holds(t.anchors["1"], r);
  }

  /** The finaliser's count agrees for a submitted row, and no longer agrees once a receipt arrives between two
      that were sealed: no finaliser then approves a transparent checkpoint for that row. */
  lemma LateReceiptRefused(h: Hashes)
    ensures exists s, r, a ::
              && Reachable(h, s) && NewId(s.receipts, r) && Reachable(h, s.(receipts := s.receipts + [r]))
              && IsSubmitted(s, "t", a) && CountsGood(Env(h, _ => true, false), s, s.anchors[a])
              && Refused(h, s.(receipts := s.receipts + [r]), a)
  {
    ReachPair(h);
    PairSince(h);
    var s, r := PairAnchored(h), Sample("b");
    assert s.receipts + [r] == PairSplit(h).receipts;
    PairCounts(h, s);
    PairCounts(h, PairSplit(h));
    var e := Env(h, _ => true, false);
    assert AllGood(e, [Sample("a"), Sample("c")]);
    assert CountsGood(e, s, s.anchors["1"]);
    assert IsSubmitted(s, "t", "1") && NewId(s.receipts, r);
  }

  ghost predicate Refused(h: Hashes, s: State, a: string)
  {
    && a in s.anchors && |RangeOf(s, s.anchors[a])| != s.anchors[a].nActions
    && forall e: Env, circuit, ots :: e.h == h && IsTransparent(circuit) ==>
         !Approves(e, s, RowRead("t", circuit, a, s.anchors[a], ots))
  }

  lemma PairCounts(h: Hashes, s: State)
    requires Reachable(h, s) && "1" in s.anchors && "1" in s.sealed
    ensures NoneSince(s, "1") <==> |RangeOf(s, s.anchors["1"])| == s.anchors["1"].nActions
    ensures NoneSince(s, "1") ==> RangeOf(s, s.anchors["1"]) == s.sealed["1"].batch
  {
    var states, steps :| IsRun(h, states, steps) && states[|steps|] == s;
    RebuildIff(h, states, steps, |steps|, "1");
  }

  // ---- An anchored receipt without a proof ----

  /** The lookup goes by the second alone: of two batches that end in one second it picks the older, so a
      receipt anchored in the younger gets the drift error whenever it asks. */
  lemma DriftIsReachable(h: Hashes)
    ensures exists s, r :: Reachable(h, s) && r in s.receipts && Anchored(s, r) && NeverProved(s, r)
  {
    ReachTwo(h);
    TwoRows(h);
    SampleOrder();
    var s, r := TwoAnchored(h), Sample("b");
    assert s.sealed["1"].batch == [Sample("a")] && s.sealed["2"].batch == [Sample("b")];
    assert "2" in s.anchors && r in s.sealed["2"].batch;
    assert Anchored(s, r);
    assert Matches(s.anchors["1"], "t", 1);
    forall b | b in s.anchors
      ensures b == "1" || (b == "2" && s.anchors["1"].createdAt < s.anchors[b].createdAt)
    {
    }
    assert Picks(s.anchors, "t", 1, "1");
    assert forall a :: Picks(s.anchors, "t", 1, a) ==> a == "1";
    assert !Holds(s.anchors["1"], r);
    NotHeld(h, s, s.anchors["1"], r);
    assert r in s.receipts && NeverProved(s, r);
  }

  lemma NotHeld(h: Hashes, s: State, row: Anchor, r: Receipt)
    requires Reachable(h, s) && !Holds(row, r)
    ensures r !in RangeOf(s, row)
  {
    var states, steps :| IsRun(h, states, steps) && states[|steps|] == s;
    RunKeepsInv(h, states, steps, |steps|);
    RangeHolds(s, row);
  }

  ghost predicate NeverProved(s: State, r: Receipt)
  {
    && (exists a :: Picks(s.anchors, r.tenantId, r.createdAt, a))
    && forall a :: Picks(s.anchors, r.tenantId, r.createdAt, a) ==> r !in RangeOf(s, s.anchors[a])
  }
}
