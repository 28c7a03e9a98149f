/** The length-prefixed framing of `crypto_protocol.rs`. */
module CanonicalFields {
  import opened Wrappers
  import opened Text

  const U32_LIMIT: int := 0x1_0000_0000

  /** Longer values make the encoder stop with "security protocol field exceeds u32::MAX". */
  predicate Fits(s: string) { |Utf8(s)| < U32_LIMIT }

  function U32be(n: nat): seq<Byte>
    requires n < U32_LIMIT
  {
    [n / 0x100_0000, n / 0x1_0000 % 0x100, n / 0x100 % 0x100, n % 0x100]
  }

  function FromU32be(b: seq<Byte>): nat
    requires |b| == 4
  {
    var b0: int, b1: int, b2: int, b3: int := b[0], b[1], b[2], b[3];
    b0 * 0x100_0000 + b1 * 0x1_0000 + b2 * 0x100 + b3
  }

  lemma U32RoundTrip(n: nat)
    requires n < U32_LIMIT
    ensures FromU32be(U32be(n)) == n
  {
    var k := n / 0x100;
    var j := k / 0x100;
    assert n / 0x1_0000 == j && n / 0x100_0000 == j / 0x100;
  }

  lemma U32Surjective(b: seq<Byte>)
    requires |b| == 4
    ensures FromU32be(b) < U32_LIMIT && U32be(FromU32be(b)) == b
  {
    var b0: int, b1: int, b2: int := b[0], b[1], b[2];
    var n := FromU32be(b);
    var j := b0 * 0x100 + b1;
    var k := j * 0x100 + b2;
    assert n / 0x100 == k && n / 0x1_0000 == j && n / 0x100_0000 == b0;
  }

  function Frame(v: seq<Byte>): seq<Byte>
    requires |v| < U32_LIMIT
  {
    U32be(|v|) + v
  }

  ghost predicate AllFit(vs: seq<seq<Byte>>)
  {
    forall v :: v in vs ==> |v| < U32_LIMIT
  }

  function Frames(vs: seq<seq<Byte>>): seq<Byte>
    requires forall v :: v in vs ==> |v| < U32_LIMIT
  {
    if vs == [] then [] else Frame(vs[0]) + Frames(vs[1..])
  }

  /** A reader for the framing, which the source does not have: it takes frames off the
      front until the bytes run out. */
  function Unframe(b: seq<Byte>): Option<seq<seq<Byte>>>
    decreases |b|
  {
    if b == [] then Some([])
    else if |b| < 4 then None
    else
      var n := FromU32be(b[..4]);
      if |b| < 4 + n then None
      else
        match Unframe(b[4 + n..])
        case None => None
        case Some(vs) => Some([b[4..4 + n]] + vs)
  }

  lemma UnframeStep(v: seq<Byte>, rest: seq<Byte>)
    requires |v| < U32_LIMIT && Unframe(rest).Some?
    ensures Unframe(Frame(v) + rest) == Some([v] + Unframe(rest).value)
  {
    var b, n := Frame(v) + rest, |v|;
    U32RoundTrip(n);
    assert b[..4] == U32be(n);
    assert b[4..4 + n] == v;
    assert b[4 + n..] == rest;
  }

  lemma {:induction false} UnframeOfFrames(vs: seq<seq<Byte>>)
    requires AllFit(vs)
    ensures Unframe(Frames(vs)) == Some(vs)
  {
    if vs != [] {
      UnframeOfFrames(vs[1..]);
      UnframeStep(vs[0], Frames(vs[1..]));
      assert vs == [vs[0]] + vs[1..];
    }
  }

  lemma FirstFrame(b: seq<Byte>, n: nat)
    requires 4 + n <= |b| && FromU32be(b[..4]) == n
    ensures n < U32_LIMIT && Frame(b[4..4 + n]) == b[..4 + n]
  {
    U32Surjective(b[..4]);
    assert b[..4] + b[4..4 + n] == b[..4 + n];
  }

  lemma FramesCons(v: seq<Byte>, vs: seq<seq<Byte>>)
    requires |v| < U32_LIMIT && AllFit(vs)
    ensures AllFit([v] + vs) && Frames([v] + vs) == Frame(v) + Frames(vs)
  {
    assert ([v] + vs)[1..] == vs;
  }

  lemma UnframeFirst(b: seq<Byte>, vs: seq<seq<Byte>>) returns (n: nat)
    requires b != [] && Unframe(b) == Some(vs)
    ensures 4 + n <= |b| && FromU32be(b[..4]) == n
    ensures vs != [] && vs[0] == b[4..4 + n] && Unframe(b[4 + n..]) == Some(vs[1..])
  {
    n := FromU32be(b[..4]);
    var rest := Unframe(b[4 + n..]).value;
    assert vs == [b[4..4 + n]] + rest;
    assert vs[1..] == rest;
  }

  lemma FramesRejoin(b: seq<Byte>, n: nat, vs: seq<seq<Byte>>)
    requires 4 + n <= |b| && FromU32be(b[..4]) == n && vs != [] && vs[0] == b[4..4 + n]
    requires AllFit(vs[1..]) && Frames(vs[1..]) == b[4 + n..]
    ensures AllFit(vs) && Frames(vs) == b
  {
    FirstFrame(b, n);
    FramesCons(vs[0], vs[1..]);
    assert vs == [vs[0]] + vs[1..];
    assert b[..4 + n] + b[4 + n..] == b;
  }

  /** Bytes that read back as frames are the framing of what was read: every byte string
      has at most one reading. */
  lemma {:induction false} FramesOfUnframe(b: seq<Byte>, vs: seq<seq<Byte>>)
    requires Unframe(b) == Some(vs)
    ensures AllFit(vs) && Frames(vs) == b
    decreases |b|
  {
    if b != [] {
      var n := UnframeFirst(b, vs);
      FramesOfUnframe(b[4 + n..], vs[1..]);
      FramesRejoin(b, n, vs);
    }
  }

  type Field = (string, string)

  /** Domain, then name and value of each field. */
  function Items(domain: string, fields: seq<Field>): seq<string>
  {
    if fields == [] then [domain]
    else
      var n := |fields| - 1;
      Items(domain, fields[..n]) + [fields[n].0, fields[n].1]
  }

  function ItemBytes(items: seq<string>): (r: seq<seq<Byte>>)
    ensures |r| == |items| && forall i :: 0 <= i < |r| ==> r[i] == Utf8(items[i])
  {
    seq(|items|, i requires 0 <= i < |items| => Utf8(items[i]))
  }

  ghost predicate Encodable(domain: string, fields: seq<Field>)
  {
    Fits(domain) && forall i :: 0 <= i < |fields| ==> Fits(fields[i].0) && Fits(fields[i].1)
  }

  lemma {:induction false} ItemsFit(domain: string, fields: seq<Field>)
    requires Encodable(domain, fields)
    ensures forall s :: s in Items(domain, fields) ==> Fits(s)
    ensures AllFit(ItemBytes(Items(domain, fields)))
  {
    if fields != [] {
      ItemsFit(domain, fields[..|fields| - 1]);
    }
  }

  lemma {:induction false} ItemsInjective(d1: string, f1: seq<Field>, d2: string, f2: seq<Field>)
    requires Items(d1, f1) == Items(d2, f2)
    ensures d1 == d2 && f1 == f2
  {
    ItemsLength(d1, f1);
    ItemsLength(d2, f2);
    if f1 != [] {
      var n := |f1| - 1;
      ItemsLength(d1, f1[..n]);
      ItemsLength(d2, f2[..n]);
      var a, b := Items(d1, f1), Items(d2, f2);
      assert a[..2 * n + 1] == Items(d1, f1[..n]) && b[..2 * n + 1] == Items(d2, f2[..n]);
      ItemsInjective(d1, f1[..n], d2, f2[..n]);
      assert a[2 * n + 1] == f1[n].0 && a[2 * n + 2] == f1[n].1;
      assert b[2 * n + 1] == f2[n].0 && b[2 * n + 2] == f2[n].1;
      assert f1 == f1[..n] + [f1[n]] && f2 == f2[..n] + [f2[n]];
    }
  }

  lemma {:induction false} ItemsLength(domain: string, fields: seq<Field>)
    ensures |Items(domain, fields)| == 2 * |fields| + 1
  {
    if fields != [] {
      ItemsLength(domain, fields[..|fields| - 1]);
    }
  }

  ghost function Encoding(domain: string, fields: seq<Field>): seq<Byte>
    requires Encodable(domain, fields)
  {
    ItemsFit(domain, fields);
    Frames(ItemBytes(Items(domain, fields)))
  }

  /** Canonical framing is injective: equal bytes mean equal domains and equal field
      lists, whatever the field counts. */
  lemma EncodingInjective(d1: string, f1: seq<Field>, d2: string, f2: seq<Field>)
    requires Encodable(d1, f1) && Encodable(d2, f2)
    requires Encoding(d1, f1) == Encoding(d2, f2)
    ensures d1 == d2 && f1 == f2
  {
    ItemsFit(d1, f1);
    ItemsFit(d2, f2);
    var a, b := Items(d1, f1), Items(d2, f2);
    UnframeOfFrames(ItemBytes(a));
    UnframeOfFrames(ItemBytes(b));
    assert ItemBytes(a) == ItemBytes(b);
    forall i | 0 <= i < |a|
      ensures a[i] == b[i]
    {
      assert ItemBytes(a)[i] == ItemBytes(b)[i];
      Utf8Injective(a[i], b[i]);
    }
    ItemsInjective(d1, f1, d2, f2);
  }

  lemma {:induction false} FramesAppend(vs: seq<seq<Byte>>, v: seq<Byte>)
    requires AllFit(vs) && |v| < U32_LIMIT
    ensures AllFit(vs + [v]) && Frames(vs + [v]) == Frames(vs) + Frame(v)
  {
    if vs == [] {
      assert vs + [v] == [v];
    } else {
      FramesAppend(vs[1..], v);
      assert (vs + [v])[1..] == vs[1..] + [v];
    }
  }

  method PushLenPrefixed(out: seq<Byte>, value: seq<Byte>) returns (r: seq<Byte>)
    requires |value| < U32_LIMIT
    ensures r == out + Frame(value)
  {
    var len := |value|;
    r := out + U32be(len);
    r := r + value;
  }

  /** `canonical_fields`: the loop that appends one field after another. */
  method Encode(domain: string, fields: seq<Field>) returns (out: seq<Byte>)
    requires Encodable(domain, fields)
    ensures out == Encoding(domain, fields)
  {
    out := PushLenPrefixed([], Utf8(domain));
    EncodingEmpty(domain);
    assert fields[..0] == [];
    for i := 0 to |fields|
      invariant Encodable(domain, fields[..i])
      invariant out == Encoding(domain, fields[..i])
    {
      out := PushLenPrefixed(out, Utf8(fields[i].0));
      out := PushLenPrefixed(out, Utf8(fields[i].1));
      EncodingAppend(domain, fields[..i], fields[i]);
      assert fields[..i + 1] == fields[..i] + [fields[i]];
    }
    assert fields[..|fields|] == fields;
  }

  lemma EncodingEmpty(domain: string)
    requires Fits(domain)
    ensures Encoding(domain, []) == Frame(Utf8(domain))
  {
    assert ItemBytes(Items(domain, [])) == [Utf8(domain)];
    assert Frames([Utf8(domain)]) == Frame(Utf8(domain)) + Frames([]);
  }

  lemma ItemsAppend(domain: string, fields: seq<Field>, f: Field)
    ensures Items(domain, fields + [f]) == Items(domain, fields) + [f.0, f.1]
  {
    assert (fields + [f])[..|fields|] == fields;
  }

  lemma FramesAppendTwo(vs: seq<seq<Byte>>, v: seq<Byte>, w: seq<Byte>)
    requires AllFit(vs) && |v| < U32_LIMIT && |w| < U32_LIMIT
    ensures AllFit(vs + [v] + [w]) && Frames(vs + [v] + [w]) == Frames(vs) + Frame(v) + Frame(w)
  {
    FramesAppend(vs, v);
    FramesAppend(vs + [v], w);
  }

  lemma ItemBytesAppend(items: seq<string>, a: string, b: string)
    ensures ItemBytes(items + [a, b]) == ItemBytes(items) + [Utf8(a)] + [Utf8(b)]
  {
  }

  lemma EncodableAppend(domain: string, fields: seq<Field>, f: Field)
    requires Encodable(domain, fields) && Fits(f.0) && Fits(f.1)
    ensures Encodable(domain, fields + [f])
  {
  }

  lemma EncodingAppend(domain: string, fields: seq<Field>, f: Field)
    requires Encodable(domain, fields) && Fits(f.0) && Fits(f.1)
    ensures Encodable(domain, fields + [f])
    ensures Encoding(domain, fields + [f]) == Encoding(domain, fields) + Frame(Utf8(f.0)) + Frame(Utf8(f.1))
  {
    EncodableAppend(domain, fields, f);
    ItemsFit(domain, fields);
    ItemsAppend(domain, fields, f);
    ItemBytesAppend(Items(domain, fields), f.0, f.1);
    FramesAppendTwo(ItemBytes(Items(domain, fields)), Utf8(f.0), Utf8(f.1));
  }
}
