/** The linkable ring signature of `ring.rs` over the keys of `identity.rs`.

    Scalars and points are residues modulo the group order `q`; a point is
    represented by its discrete logarithm, so the base point is 1 and `k` times a
    point is a product modulo `q`. Both hashes are arbitrary functions. */
module RingSignature {
  import opened Wrappers
  import ModArith

  type Scalar = int
  type Point = int

  /** The group and the two hash functions. */
  datatype Suite = Suite(
    q: int,
    hashToPoint: Point -> Point,
    challenge: (seq<Byte>, Point, Point) -> Scalar)
  {
    predicate Valid() { q > 0 }

    /** `k` times `p`. */
    function Mul(k: Scalar, p: Point): Point
      requires Valid()
    {
      k * p % q
    }

    function Add(p: Point, r: Point): Point
      requires Valid()
    {
      (p + r) % q
    }

    function BaseMul(k: Scalar): Point
      requires Valid()
    {
      Mul(k, 1)
    }
  }

  datatype Identity = Identity(secret: Scalar, public: Point) {
    predicate Valid(s: Suite)
    {
      s.Valid() && public == s.BaseMul(secret)
    }

    function KeyImage(s: Suite): Point
      requires s.Valid()
    {
      s.Mul(secret, s.hashToPoint(public))
    }
  }

  function FromScalar(s: Suite, secret: Scalar): (id: Identity)
    requires s.Valid()
    ensures id.Valid(s) && id.secret == secret
  {
    Identity(secret, s.BaseMul(secret))
  }

  datatype Signature = Signature(c0: Scalar, responses: seq<Scalar>, keyImage: Point)

  /** The challenge that member `i` passes on when it receives `c`. */
  function Link(s: Suite, msg: seq<Byte>, ring: seq<Point>, responses: seq<Scalar>,
                keyImage: Point, i: nat, c: Scalar): Scalar
    requires s.Valid() && i < |ring| == |responses|
  {
    var l := s.Add(s.BaseMul(responses[i]), s.Mul(c, ring[i]));
    var r := s.Add(s.Mul(responses[i], s.hashToPoint(ring[i])), s.Mul(c, keyImage));
    s.challenge(msg, l, r)
  }

  /** The challenge after the first `k` members, walking from index 0. */
  function Walk(s: Suite, msg: seq<Byte>, ring: seq<Point>, sig: Signature, k: nat): Scalar
    requires s.Valid() && k <= |ring| == |sig.responses|
  {
    if k == 0 then sig.c0
    else Link(s, msg, ring, sig.responses, sig.keyImage, k - 1, Walk(s, msg, ring, sig, k - 1))
  }

  predicate Accepts(s: Suite, msg: seq<Byte>, ring: seq<Point>, sig: Signature)
    requires s.Valid()
  {
    && 0 < |ring| == |sig.responses|
    && Walk(s, msg, ring, sig, |ring|) == sig.c0
  }

  /** The member that follows `i` around the ring. */
  function Next(i: nat, n: nat): nat
    requires i < n
  {
    if i + 1 == n then 0 else i + 1
  }

  /** One challenge per member, closed under the links all the way around: a statement
      about the cycle that names no starting point. */
  ghost predicate Cycle(s: Suite, msg: seq<Byte>, ring: seq<Point>, responses: seq<Scalar>,
                        keyImage: Point, cs: seq<Scalar>)
    requires s.Valid()
  {
    && |ring| == |responses| == |cs|
    && forall i :: 0 <= i < |cs| ==>
         cs[Next(i, |cs|)] == Link(s, msg, ring, responses, keyImage, i, cs[i])
  }

  lemma {:induction false} CycleWalk(s: Suite, msg: seq<Byte>, ring: seq<Point>, sig: Signature,
                                     cs: seq<Scalar>, k: nat)
    requires s.Valid() && Cycle(s, msg, ring, sig.responses, sig.keyImage, cs)
    requires 0 < |cs| && k <= |cs| && cs[0] == sig.c0
    ensures Walk(s, msg, ring, sig, k) == cs[if k == |cs| then 0 else k]
  {
    if k > 0 {
      CycleWalk(s, msg, ring, sig, cs, k - 1);
      assert Next(k - 1, |cs|) == if k == |cs| then 0 else k;
    }
  }

  /** The linear walk accepts exactly when the challenges can be closed into a cycle
      through `c0`. */
  lemma AcceptsIffCycle(s: Suite, msg: seq<Byte>, ring: seq<Point>, sig: Signature)
    requires s.Valid()
    ensures Accepts(s, msg, ring, sig) <==>
            0 < |ring| == |sig.responses|
            && exists cs :: Cycle(s, msg, ring, sig.responses, sig.keyImage, cs) && cs[0] == sig.c0
  {
    if Accepts(s, msg, ring, sig) {
      var cs := seq(|ring|, k requires 0 <= k < |ring| => Walk(s, msg, ring, sig, k));
      assert Cycle(s, msg, ring, sig.responses, sig.keyImage, cs);
      assert cs[0] == sig.c0;
    }
    if 0 < |ring| == |sig.responses|
       && exists cs :: Cycle(s, msg, ring, sig.responses, sig.keyImage, cs) && cs[0] == sig.c0
    {
      var cs :| Cycle(s, msg, ring, sig.responses, sig.keyImage, cs) && cs[0] == sig.c0;
      CycleWalk(s, msg, ring, sig, cs, |ring|);
    }
  }

  /** The list started `k` members later. */
  function Rotated<T>(s: seq<T>, k: nat): (r: seq<T>)
    requires k <= |s|
    ensures |r| == |s|
    ensures forall i :: 0 <= i < |s| ==> r[i] == s[if i + k < |s| then i + k else i + k - |s|]
  {
    s[k..] + s[..k]
  }

  lemma RotatedCycle(s: Suite, msg: seq<Byte>, ring: seq<Point>, responses: seq<Scalar>, keyImage: Point, cs: seq<Scalar>, k: nat)
    requires s.Valid() && Cycle(s, msg, ring, responses, keyImage, cs) && k <= |cs|
    ensures Cycle(s, msg, Rotated(ring, k), Rotated(responses, k), keyImage, Rotated(cs, k))
  {
    var n := |cs|;
    var ring', rs', cs' := Rotated(ring, k), Rotated(responses, k), Rotated(cs, k);
    forall i | 0 <= i < n
      ensures cs'[Next(i, n)] == Link(s, msg, ring', rs', keyImage, i, cs'[i])
    {
      var j := if i + k < n then i + k else i + k - n;
      assert ring'[i] == ring[j] && rs'[i] == responses[j] && cs'[i] == cs[j];
      assert cs'[Next(i, n)] == cs[Next(j, n)];
    }
  }

  /** Acceptance does not depend on which member the ring list starts with: from any member on, with the
      challenge the walk has there, the rotated signature is accepted too. */
  lemma RotatedRingAccepts(s: Suite, msg: seq<Byte>, ring: seq<Point>, sig: Signature, k: nat)
    requires s.Valid() && Accepts(s, msg, ring, sig) && k < |ring|
    ensures Accepts(s, msg, Rotated(ring, k),
                    Signature(Walk(s, msg, ring, sig, k), Rotated(sig.responses, k), sig.keyImage))
  {
    AcceptsIffCycle(s, msg, ring, sig);
    var cs :| Cycle(s, msg, ring, sig.responses, sig.keyImage, cs) && cs[0] == sig.c0;
    CycleWalk(s, msg, ring, sig, cs, k);
    RotatedCycle(s, msg, ring, sig.responses, sig.keyImage, cs, k);
    assert Rotated(cs, k)[0] == cs[k];
    AcceptsIffCycle(s, msg, Rotated(ring, k), Signature(cs[k], Rotated(sig.responses, k), sig.keyImage));
  }

  /** The signer's own response makes its link reproduce the initial commitment. */
  lemma SignerLink(s: Suite, msg: seq<Byte>, ring: seq<Point>, id: Identity, signer: nat,
                   alpha: Scalar, responses: seq<Scalar>, c: Scalar)
    requires id.Valid(s) && signer < |ring| == |responses| && ring[signer] == id.public
    requires responses[signer] == (alpha - c * id.secret) % s.q
    ensures Link(s, msg, ring, responses, id.KeyImage(s), signer, c)
         == s.challenge(msg, s.BaseMul(alpha), s.Mul(alpha, s.hashToPoint(ring[signer])))
  {
    ModArith.ResponseCancels(alpha, c, id.secret, 1, s.q);
    ModArith.ResponseCancels(alpha, c, id.secret, s.hashToPoint(id.public), s.q);
  }

  lemma WrapAround(i: nat, k: nat, n: nat)
    requires i < n && k <= n
    ensures (i + k) % n == if i + k < n then i + k else i + k - n
  {
    if i + k >= n {
      ModArith.RemainderUnique(i + k, 1, i + k - n, n);
    }
  }

  lemma NextIsMod(i: nat, n: nat)
    requires i < n
    ensures (i + 1) % n == Next(i, n)
  {
    WrapAround(i, 1, n);
  }

  /** `sign`: the challenges are filled in cyclically from the member after the signer,
      with `random` for everyone else's responses and `alpha` as the commitment. */
  method Sign(s: Suite, msg: seq<Byte>, ring: seq<Point>, id: Identity, signer: nat,
              alpha: Scalar, random: seq<Scalar>) returns (sig: Signature)
    requires id.Valid(s) && signer < |ring| == |random|
    ensures |sig.responses| == |ring| && sig.keyImage == id.KeyImage(s)
    ensures forall i :: 0 <= i < |ring| && i != signer ==> sig.responses[i] == random[i]
    ensures ring[signer] == id.public ==> Accepts(s, msg, ring, sig)
  {
    var n := |ring|;
    var responses := random;
    var keyImage := id.KeyImage(s);
    var lInit := s.BaseMul(alpha);
    var rInit := s.Mul(alpha, s.hashToPoint(ring[signer]));
    NextIsMod(signer, n);
    var challenges := seq(n, _ => 0)[(signer + 1) % n := s.challenge(msg, lInit, rInit)];
    var offset := 1;
    while offset < n
      invariant 1 <= offset <= n && |challenges| == n
      invariant challenges[Next(signer, n)] == s.challenge(msg, lInit, rInit)
      invariant forall i :: 0 <= i < n && i != signer && StepsAfter(i, signer, n) < offset ==>
                  challenges[Next(i, n)] == Link(s, msg, ring, responses, keyImage, i, challenges[i])
    {
      WrapAround(signer, offset, n);
      var i := (signer + offset) % n;
      NextIsMod(i, n);
      var next := (i + 1) % n;
      var l := s.Add(s.BaseMul(responses[i]), s.Mul(challenges[i], ring[i]));
      var r := s.Add(s.Mul(responses[i], s.hashToPoint(ring[i])), s.Mul(challenges[i], keyImage));
      if next != signer {
        challenges := challenges[next := s.challenge(msg, l, r)];
      } else {
        challenges := challenges[signer := s.challenge(msg, l, r)];
      }
      offset := offset + 1;
    }
    responses := responses[signer := (alpha - challenges[signer] * id.secret) % s.q];
    sig := Signature(challenges[0], responses, keyImage);
    if ring[signer] == id.public {
      SignerLink(s, msg, ring, id, signer, alpha, responses, challenges[signer]);
      forall i | 0 <= i < n
        ensures challenges[Next(i, n)] == Link(s, msg, ring, responses, keyImage, i, challenges[i])
      {
        assert i != signer ==>
          Link(s, msg, ring, responses, keyImage, i, challenges[i]) == Link(s, msg, ring, random, keyImage, i, challenges[i]);
      }
      CycleWalk(s, msg, ring, sig, challenges, n);
    }
  }

  /** How many steps after the signer member `i` comes. */
  ghost function StepsAfter(i: nat, signer: nat, n: nat): nat
    requires i < n && signer < n
  {
    if i >= signer then i - signer else i + n - signer
  }

  /** `verify`: the linear walk, with the guards against an empty or mismatched ring. */
  method Verify(s: Suite, msg: seq<Byte>, ring: seq<Point>, sig: Signature) returns (ok: bool)
    requires s.Valid()
    ensures ok <==> 0 < |ring| == |sig.responses|
                    && exists cs :: Cycle(s, msg, ring, sig.responses, sig.keyImage, cs) && cs[0] == sig.c0
    ensures ok <==> Accepts(s, msg, ring, sig)
  {
    AcceptsIffCycle(s, msg, ring, sig);
    var n := |ring|;
    if n == 0 || |sig.responses| == 0 {
      return false;
    }
    if |sig.responses| != n {
      return false;
    }
    var c := sig.c0;
    for i := 0 to n
      invariant c == Walk(s, msg, ring, sig, i)
    {
      var l := s.Add(s.BaseMul(sig.responses[i]), s.Mul(c, ring[i]));
      var r := s.Add(s.Mul(sig.responses[i], s.hashToPoint(ring[i])), s.Mul(c, sig.keyImage));
      c := s.challenge(msg, l, r);
    }
    return c == sig.c0;
  }

  /** The first index of `p` in a ring. */
  method PositionOf(ring: seq<Point>, p: Point) returns (r: Option<nat>)
    ensures r.None? <==> p !in ring
    ensures r.Some? ==> r.value < |ring| && ring[r.value] == p && p !in ring[..r.value]
  {
    for i := 0 to |ring|
      invariant p !in ring[..i]
    {
      if ring[i] == p {
        return Some(i);
      }
    }
    return None;
  }

  /** `AdultGroup`: the member list with its duplicate check. */
  class Group {
    var members: seq<Point>

    ghost predicate Valid()
      reads this
    {
      forall i, j :: 0 <= i < j < |members| ==> members[i] != members[j]
    }

    constructor ()
      ensures Valid() && members == []
    {
      members := [];
    }

    method AddMember(p: Point)
      requires Valid()
      modifies this
      ensures Valid()
      ensures old(members) <= members
      ensures members == if p in old(members) then old(members) else old(members) + [p]
    {
      if p !in members {
        members := members + [p];
      }
    }

    method Prove(s: Suite, id: Identity, msg: seq<Byte>, alpha: Scalar, random: seq<Scalar>)
      returns (r: Option<Signature>)
      requires id.Valid(s) && |random| == |members|
      ensures r.Some? <==> id.public in members
      ensures r.Some? ==> Accepts(s, msg, members, r.value) && r.value.keyImage == id.KeyImage(s)
    {
      var idx := PositionOf(members, id.public);
      if idx.None? {
        return None;
      }
      var sig := Sign(s, msg, members, id, idx.value, alpha, random);
      return Some(sig);
    }

    method VerifyProof(s: Suite, msg: seq<Byte>, sig: Signature) returns (ok: bool)
      requires s.Valid()
      ensures ok <==> Accepts(s, msg, members, sig)
      ensures members == [] ==> !ok
    {
      ok := Verify(s, msg, members, sig);
    }
  }
}
