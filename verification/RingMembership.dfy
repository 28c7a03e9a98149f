/** Per-ring pseudonyms (`ring_pseudonym.rs`) and the membership table they are kept in
    (`rings.rs`): from subscribe and revoke calls to a signature that verifies. */
module RingMembership {
  import opened Wrappers
  import ModArith
  import opened RingSignature
  import opened Order

  /** The hash that derives ring offsets, and the hex form of compressed points. */
  datatype Codec = Codec(
    offset: (Point, string) -> Scalar,
    hex: Point -> string,
    parse: string -> Option<Point>)
  {
    /** What point compression promises: every point survives the trip through hex. */
    ghost predicate Faithful(s: Suite)
    {
      && s.Valid()
      && (forall p :: 0 <= p < s.q ==> parse(hex(p)) == Some(p))
      && (forall h :: parse(h).Some? ==> 0 <= parse(h).value < s.q)
    }
  }

  function SharedSecretAgent(s: Suite, a: Scalar, operatorPub: Point): Point
    requires s.Valid()
  {
    s.Mul(a, operatorPub)
  }

  function SharedSecretOperator(s: Suite, t: Scalar, agentPub: Point): Point
    requires s.Valid()
  {
    s.Mul(t, agentPub)
  }

  function AgentPerRingSecret(s: Suite, k: Codec, a: Scalar, shared: Point, ringId: string): Scalar
    requires s.Valid()
  {
    (a + k.offset(shared, ringId)) % s.q
  }

  function PerRingPublic(s: Suite, k: Codec, agentPub: Point, shared: Point, ringId: string): Point
    requires s.Valid()
  {
    s.Add(agentPub, s.BaseMul(k.offset(shared, ringId)))
  }

  function PerRingKeyImage(s: Suite, secret: Scalar, public: Point): Point
    requires s.Valid()
  {
    s.Mul(secret, s.hashToPoint(public))
  }

  /** The agent reaches the shared point with its secret, the operator with the trapdoor. */
  lemma SharedSecretsAgree(s: Suite, a: Scalar, t: Scalar)
    requires s.Valid()
    ensures SharedSecretAgent(s, a, s.BaseMul(t)) == SharedSecretOperator(s, t, s.BaseMul(a))
  {
    ModArith.ReduceMul(t, a, s.q);
    ModArith.ReduceMul(a, t, s.q);
    assert t % s.q * a == a * (t % s.q) && a % s.q * t == t * (a % s.q);
    assert t * a == a * t;
  }

  /** `derive_member_point_hex`, before the hex step. */
  function MemberPoint(s: Suite, k: Codec, t: Scalar, agentPub: Point, ringId: string): (p: Point)
    requires s.Valid()
    ensures 0 <= p < s.q
  {
    PerRingPublic(s, k, agentPub, SharedSecretOperator(s, t, agentPub), ringId)
  }

  function AgentRingIdentity(s: Suite, k: Codec, a: Scalar, shared: Point, ringId: string): Identity
    requires s.Valid()
  {
    FromScalar(s, AgentPerRingSecret(s, k, a, shared, ringId))
  }

  /** The public key of the agent's per-ring identity is the point the operator derives
      from the public master key alone, and its key image is the per-ring key image. */
  lemma PseudonymsAgree(s: Suite, k: Codec, a: Scalar, t: Scalar, ringId: string)
    requires s.Valid()
    ensures var shared := SharedSecretAgent(s, a, s.BaseMul(t));
            var id := AgentRingIdentity(s, k, a, shared, ringId);
            && id.Valid(s)
            && id.public == MemberPoint(s, k, t, s.BaseMul(a), ringId)
            && id.KeyImage(s) == PerRingKeyImage(s, AgentPerRingSecret(s, k, a, shared, ringId), id.public)
  {
    SharedSecretsAgree(s, a, t);
    var h := k.offset(SharedSecretAgent(s, a, s.BaseMul(t)), ringId);
    ModArith.ReduceMul(a + h, 1, s.q);
    ModArith.ReduceAdd(a, h % s.q, s.q);
    ModArith.ReduceAdd(h, a, s.q);
  }

  /** A row of `ring_members`: its primary key is the whole triple. */
  datatype Row = Row(tenant: string, ringId: string, pointHex: string)

  datatype Op =
    | Subscribe(tenant: string, masterHex: string, ringId: string)
    | Revoke(tenant: string, masterHex: string, ringId: string)

  /** The row an operation is about, when the master key parses. */
  function Target(s: Suite, k: Codec, t: Scalar, op: Op): Option<Row>
    requires s.Valid()
  {
    match k.parse(op.masterHex)
    case None => None
    case Some(agentPub) => Some(Row(op.tenant, op.ringId, k.hex(MemberPoint(s, k, t, agentPub, op.ringId))))
  }

  function Apply(s: Suite, k: Codec, t: Scalar, rows: set<Row>, op: Op): set<Row>
    requires s.Valid()
  {
    match Target(s, k, t, op)
    case None => rows
    case Some(row) => if op.Subscribe? then rows + {row} else rows - {row}
  }

  function Run(s: Suite, k: Codec, t: Scalar, ops: seq<Op>): set<Row>
    requires s.Valid()
  {
    if ops == [] then {}
    else Apply(s, k, t, Run(s, k, t, ops[..|ops| - 1]), ops[|ops| - 1])
  }

  /** Subscribed by some call and not revoked by any later one. */
  ghost predicate StillSubscribed(s: Suite, k: Codec, t: Scalar, ops: seq<Op>, row: Row)
    requires s.Valid()
  {
    exists i :: 0 <= i < |ops|
      && ops[i].Subscribe? && Target(s, k, t, ops[i]) == Some(row)
      && forall j :: i < j < |ops| ==> !(ops[j].Revoke? && Target(s, k, t, ops[j]) == Some(row))
  }

  /** A call about another row changes nothing for this one. */
  lemma OtherCall(s: Suite, k: Codec, t: Scalar, before: seq<Op>, last: Op, row: Row)
    requires s.Valid() && Target(s, k, t, last) != Some(row)
    ensures StillSubscribed(s, k, t, before + [last], row) <==> StillSubscribed(s, k, t, before, row)
  {
    var ops := before + [last];
    if StillSubscribed(s, k, t, before, row) {
      var i :| 0 <= i < |before| && before[i].Subscribe? && Target(s, k, t, before[i]) == Some(row)
        && forall j :: i < j < |before| ==> !(before[j].Revoke? && Target(s, k, t, before[j]) == Some(row));
      assert ops[i] == before[i];
      assert forall j :: i < j < |ops| ==> ops[j] == if j < |before| then before[j] else last;
    }
    if StillSubscribed(s, k, t, ops, row) {
      var i :| 0 <= i < |ops| && ops[i].Subscribe? && Target(s, k, t, ops[i]) == Some(row)
        && forall j :: i < j < |ops| ==> !(ops[j].Revoke? && Target(s, k, t, ops[j]) == Some(row));
      assert before[i] == ops[i];
      assert forall j :: i < j < |before| ==> before[j] == ops[j];
    }
  }

  lemma OwnCall(s: Suite, k: Codec, t: Scalar, before: seq<Op>, last: Op, row: Row)
    requires s.Valid() && Target(s, k, t, last) == Some(row)
    ensures StillSubscribed(s, k, t, before + [last], row) <==> last.Subscribe?
  {
    var ops := before + [last];
    assert ops[|before|] == last;
  }

  /** The table holds a row exactly while its last relevant call was a subscribe; in
      particular a revoke removes that one row and no other. */
  lemma {:induction false} RunHoldsSubscribed(s: Suite, k: Codec, t: Scalar, ops: seq<Op>, row: Row)
    requires s.Valid()
    ensures row in Run(s, k, t, ops) <==> StillSubscribed(s, k, t, ops, row)
  {
    if ops != [] {
      var before, last := ops[..|ops| - 1], ops[|ops| - 1];
      RunHoldsSubscribed(s, k, t, before, row);
      assert ops == before + [last];
      if Target(s, k, t, last) == Some(row) {
        OwnCall(s, k, t, before, last, row);
      } else {
        OtherCall(s, k, t, before, last, row);
      }
    }
  }

  /** Every stored hex string is the hex of a point. */
  ghost predicate WellFormed(s: Suite, k: Codec, rows: set<Row>)
  {
    forall row :: row in rows ==> exists p :: 0 <= p < s.q && row.pointHex == k.hex(p)
  }

  lemma {:induction false} RunWellFormed(s: Suite, k: Codec, t: Scalar, ops: seq<Op>)
    requires s.Valid()
    ensures WellFormed(s, k, Run(s, k, t, ops))
  {
    if ops != [] {
      RunWellFormed(s, k, t, ops[..|ops| - 1]);
    }
  }

  /** `points` is the member list of one ring: the stored strings in strictly ascending
      order, each decoded. */
  ghost predicate IsMemberList(s: Suite, k: Codec, rows: set<Row>, tenant: string, ringId: string,
                               points: seq<Point>)
    requires s.Valid()
  {
    && (forall i :: 0 <= i < |points| ==> 0 <= points[i] < s.q)
    && (forall i, j :: 0 <= i < j < |points| ==> StringLt(k.hex(points[i]), k.hex(points[j])))
    && (forall p :: 0 <= p < s.q ==> (p in points <==> Row(tenant, ringId, k.hex(p)) in rows))
  }

  ghost function Hexes(k: Codec, points: seq<Point>): seq<string>
  {
    seq(|points|, i requires 0 <= i < |points| => k.hex(points[i]))
  }

  /** There is only one such list, so signer and verifier build the same ring. */
  lemma MemberListUnique(s: Suite, k: Codec, rows: set<Row>, tenant: string, ringId: string,
                         a: seq<Point>, b: seq<Point>)
    requires k.Faithful(s)
    requires IsMemberList(s, k, rows, tenant, ringId, a) && IsMemberList(s, k, rows, tenant, ringId, b)
    ensures a == b
  {
    StringLtTotal();
    forall x
      ensures x in Hexes(k, a) <==> x in Hexes(k, b)
    {
      SameHexes(s, k, rows, tenant, ringId, a, b, x);
      SameHexes(s, k, rows, tenant, ringId, b, a, x);
    }
    AscendingUnique(StringLt, Hexes(k, a), Hexes(k, b));
    assert |a| == |Hexes(k, a)| == |b|;
    forall i | 0 <= i < |a|
      ensures a[i] == b[i]
    {
      assert k.hex(a[i]) == Hexes(k, a)[i] == Hexes(k, b)[i] == k.hex(b[i]);
      assert k.parse(k.hex(a[i])) == Some(a[i]);
    }
  }

  lemma SameHexes(s: Suite, k: Codec, rows: set<Row>, tenant: string, ringId: string,
                  a: seq<Point>, b: seq<Point>, x: string)
    requires k.Faithful(s)
    requires IsMemberList(s, k, rows, tenant, ringId, a) && IsMemberList(s, k, rows, tenant, ringId, b)
    ensures x in Hexes(k, a) ==> x in Hexes(k, b)
  {
    if x in Hexes(k, a) {
      var i :| 0 <= i < |a| && x == Hexes(k, a)[i];
      assert a[i] in a && a[i] in b;
      var j :| 0 <= j < |b| && b[j] == a[i];
      assert Hexes(k, b)[j] == x;
    }
  }

  /** Every stored string of the ring decodes. */
  ghost predicate Decodes(k: Codec, rows: set<Row>, tenant: string, ringId: string)
  {
    forall row :: row in rows && row.tenant == tenant && row.ringId == ringId ==> k.parse(row.pointHex).Some?
  }

  /** The `ring_members` table. */
  class RingStore {
    var rows: set<Row>

    constructor ()
      ensures rows == {}
    {
      rows := {};
    }

    method InsertMember(tenant: string, ringId: string, pointHex: string, fault: Option<string>) returns (r: Result<bool, string>)
      modifies this
      ensures r.Err? <==> fault.Some?
      ensures rows == if r.Ok? then old(rows) + {Row(tenant, ringId, pointHex)} else old(rows)
      ensures r.Ok? ==> (r.value <==> Row(tenant, ringId, pointHex) !in old(rows))
    {
      if fault.Some? {
        return Err("insert member: " + fault.value);
      }
      var added := Row(tenant, ringId, pointHex) !in rows;
      rows := rows + {Row(tenant, ringId, pointHex)};
      return Ok(added);
    }

    method DeleteMember(tenant: string, ringId: string, pointHex: string, fault: Option<string>) returns (r: Result<bool, string>)
      modifies this
      ensures r.Err? <==> fault.Some?
      ensures rows == if r.Ok? then old(rows) - {Row(tenant, ringId, pointHex)} else old(rows)
      ensures r.Ok? ==> (r.value <==> Row(tenant, ringId, pointHex) in old(rows))
    {
      if fault.Some? {
        return Err("delete member: " + fault.value);
      }
      var removed := Row(tenant, ringId, pointHex) in rows;
      rows := rows - {Row(tenant, ringId, pointHex)};
      return Ok(removed);
    }

    method SubscribeAgent(s: Suite, k: Codec, t: Scalar, tenant: string, masterHex: string, ringId: string, fault: Option<string>)
      returns (r: Result<string, string>)
      requires s.Valid()
      modifies this
      ensures r.Err? <==> k.parse(masterHex).None? || fault.Some?
      ensures rows == if r.Ok? then Apply(s, k, t, old(rows), Subscribe(tenant, masterHex, ringId)) else old(rows)
      ensures r.Ok? ==> Row(tenant, ringId, r.value) in rows
    {
      var parsed := k.parse(masterHex);
      if parsed.None? {
        return Err("not a valid ristretto point");
      }
      var pointHex := k.hex(MemberPoint(s, k, t, parsed.value, ringId));
      var added := InsertMember(tenant, ringId, pointHex, fault);
      if added.Err? {
        return Err(added.error);
      }
      return Ok(pointHex);
    }

    method RevokeAgent(s: Suite, k: Codec, t: Scalar, tenant: string, masterHex: string, ringId: string, fault: Option<string>)
      returns (r: Result<bool, string>)
      requires s.Valid()
      modifies this
      ensures r.Err? <==> k.parse(masterHex).None? || fault.Some?
      ensures rows == if r.Ok? then Apply(s, k, t, old(rows), Revoke(tenant, masterHex, ringId)) else old(rows)
      ensures r.Ok? ==> (r.value <==> rows != old(rows))
    {
      var parsed := k.parse(masterHex);
      if parsed.None? {
        return Err("not a valid ristretto point");
      }
      r := DeleteMember(tenant, ringId, k.hex(MemberPoint(s, k, t, parsed.value, ringId)), fault);
    }

    /** `list_member_points`: the rows of one ring ordered by their hex, then decoded. It fails exactly if the
        query does or some stored string does not decode, which no subscribe ever stores. */
    method ListMemberPoints(s: Suite, k: Codec, tenant: string, ringId: string, fault: Option<string>)
      returns (r: Result<seq<Point>, string>)
      requires k.Faithful(s)
      ensures r.Err? <==> fault.Some? || !Decodes(k, rows, tenant, ringId)
      ensures WellFormed(s, k, rows) && fault.None? ==> r.Ok? && IsMemberList(s, k, rows, tenant, ringId, r.value)
    {
      if fault.Some? {
        return Err("query members: " + fault.value);
      }
      var todo := set row | row in rows && row.tenant == tenant && row.ringId == ringId :: row.pointHex;
      ghost var all := todo;
      var hexes: seq<string> := [];
      StringLtTotal();
      while todo != {}
        invariant todo <= all
        invariant Ascending(StringLt, hexes)
        invariant forall h :: h in hexes <==> h in all && h !in todo
      {
        var h :| h in todo;
        todo := todo - {h};
        InsertAscending(StringLt, hexes, h);
        hexes := Insert(StringLt, hexes, h);
      }
      assert forall h :: h in hexes <==> Row(tenant, ringId, h) in rows;
      var points: seq<Point> := [];
      for i := 0 to |hexes|
        invariant |points| == i
        invariant forall j :: 0 <= j < i ==> k.parse(hexes[j]) == Some(points[j])
      {
        var p := k.parse(hexes[i]);
        if p.None? {
          assert hexes[i] in hexes;
          assert Row(tenant, ringId, hexes[i]) in rows;
          return Err("not a valid ristretto point");
        }
        points := points + [p.value];
      }
      forall row | row in rows && row.tenant == tenant && row.ringId == ringId
        ensures k.parse(row.pointHex).Some?
      {
        assert row == Row(tenant, ringId, row.pointHex);
        assert row.pointHex in hexes;
      }
      if WellFormed(s, k, rows) {
        DecodedIsMemberList(s, k, rows, tenant, ringId, hexes, points);
      }
      return Ok(points);
    }
  }

  /** Decoding the sorted strings of a ring gives its member list. */
  lemma DecodedIsMemberList(s: Suite, k: Codec, rows: set<Row>, tenant: string, ringId: string,
                            hexes: seq<string>, points: seq<Point>)
    requires k.Faithful(s) && WellFormed(s, k, rows) && Ascending(StringLt, hexes) && |points| == |hexes|
    requires forall h :: h in hexes <==> Row(tenant, ringId, h) in rows
    requires forall j :: 0 <= j < |hexes| ==> k.parse(hexes[j]) == Some(points[j])
    ensures IsMemberList(s, k, rows, tenant, ringId, points)
  {
    forall j | 0 <= j < |points|
      ensures 0 <= points[j] < s.q && k.hex(points[j]) == hexes[j]
    {
      assert hexes[j] in hexes;
      var p :| 0 <= p < s.q && Row(tenant, ringId, hexes[j]).pointHex == k.hex(p);
    }
    forall p | 0 <= p < s.q
      ensures p in points <==> Row(tenant, ringId, k.hex(p)) in rows
    {
      if Row(tenant, ringId, k.hex(p)) in rows {
        var j :| 0 <= j < |hexes| && hexes[j] == k.hex(p);
        assert points[j] == p;
      }
      if p in points {
        var j :| 0 <= j < |points| && points[j] == p;
        assert hexes[j] in hexes;
      }
    }
  }

  /** The agent's own view of its pseudonym in one ring. */
  function MemberIdentity(s: Suite, k: Codec, a: Scalar, operatorPub: Point, ringId: string): Identity
    requires s.Valid()
  {
    AgentRingIdentity(s, k, a, SharedSecretAgent(s, a, operatorPub), ringId)
  }

  /** A subscribed agent finds the public point it derives for itself in the ring list. */
  lemma MemberFindsItself(s: Suite, k: Codec, a: Scalar, t: Scalar, ops: seq<Op>, tenant: string,
                          masterHex: string, ringId: string, list: seq<Point>)
    requires k.Faithful(s) && k.parse(masterHex) == Some(s.BaseMul(a))
    requires IsMemberList(s, k, Run(s, k, t, ops), tenant, ringId, list)
    ensures var id := MemberIdentity(s, k, a, s.BaseMul(t), ringId);
            var row := Target(s, k, t, Subscribe(tenant, masterHex, ringId)).value;
            id.Valid(s) && (id.public in list <==> StillSubscribed(s, k, t, ops, row))
  {
    PseudonymsAgree(s, k, a, t, ringId);
    var id := MemberIdentity(s, k, a, s.BaseMul(t), ringId);
    var row := Target(s, k, t, Subscribe(tenant, masterHex, ringId)).value;
    assert row == Row(tenant, ringId, k.hex(id.public));
    RunHoldsSubscribed(s, k, t, ops, row);
    assert 0 <= id.public < s.q;
  }

  /** Membership to signature: whatever was subscribed and revoked before, an agent still
      subscribed signs over the ring list with the identity it derives for itself, and the
      result verifies under its per-ring key image. */
  method SignAsMember(s: Suite, k: Codec, a: Scalar, t: Scalar, ghost ops: seq<Op>, tenant: string,
                      masterHex: string, ringId: string, list: seq<Point>, msg: seq<Byte>,
                      alpha: Scalar, random: seq<Scalar>)
    returns (sig: Signature)
    requires k.Faithful(s) && k.parse(masterHex) == Some(s.BaseMul(a)) && |random| == |list|
    requires IsMemberList(s, k, Run(s, k, t, ops), tenant, ringId, list)
    requires StillSubscribed(s, k, t, ops, Target(s, k, t, Subscribe(tenant, masterHex, ringId)).value)
    ensures Accepts(s, msg, list, sig)
    ensures sig.keyImage == PerRingKeyImage(
              s, AgentPerRingSecret(s, k, a, SharedSecretAgent(s, a, s.BaseMul(t)), ringId),
              MemberPoint(s, k, t, s.BaseMul(a), ringId))
  {
    MemberFindsItself(s, k, a, t, ops, tenant, masterHex, ringId, list);
    var id := MemberIdentity(s, k, a, s.BaseMul(t), ringId);
    var idx := PositionOf(list, id.public);
    sig := Sign(s, msg, list, id, idx.value, alpha, random);
    PseudonymsAgree(s, k, a, t, ringId);
  }
}
