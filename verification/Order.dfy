/** Strictly ascending sequences over a total order: what `ORDER BY` over a unique key
    returns. */
module Order {

  ghost predicate StrictOrder<K(!new)>(lt: (K, K) -> bool)
  {
    && (forall a :: !lt(a, a))
    && (forall a, b, c :: lt(a, b) && lt(b, c) ==> lt(a, c))
  }

  predicate Ascending<K>(lt: (K, K) -> bool, s: seq<K>)
  {
    forall i, j :: 0 <= i < j < |s| ==> lt(s[i], s[j])
  }

  /** An ascending sequence is determined by its elements. */
  lemma {:induction false} AscendingUnique<K(!new)>(lt: (K, K) -> bool, a: seq<K>, b: seq<K>)
    requires StrictOrder(lt) && Ascending(lt, a) && Ascending(lt, b)
    requires forall x :: x in a <==> x in b
    ensures a == b
  {
    assert b != [] ==> b[0] in a;
    if a != [] {
      assert a[0] in b;
      assert a[0] == b[0];
      forall x
        ensures x in a[1..] <==> x in b[1..]
      {
        TailMembers(lt, a, x);
        TailMembers(lt, b, x);
      }
      AscendingUnique(lt, a[1..], b[1..]);
      assert a == [a[0]] + a[1..] && b == [b[0]] + b[1..];
    }
  }

  lemma TailMembers<K(!new)>(lt: (K, K) -> bool, s: seq<K>, x: K)
    requires StrictOrder(lt) && Ascending(lt, s) && s != []
    ensures x in s[1..] <==> x in s && x != s[0]
    ensures x in s[1..] ==> lt(s[0], x)
  {
    if x in s[1..] {
      var i :| 0 <= i < |s[1..]| && s[1..][i] == x;
      assert s[i + 1] == x && lt(s[0], s[i + 1]);
    }
  }

  /** An ascending sequence that has all elements of another one as long is that sequence. */
  lemma {:induction false} AscendingSubset<K(!new)>(lt: (K, K) -> bool, a: seq<K>, b: seq<K>)
    requires StrictOrder(lt) && Ascending(lt, a) && Ascending(lt, b)
    requires |a| == |b| && forall x :: x in a ==> x in b
    ensures a == b
  {
    AscendingDistinct(lt, a);
    AscendingDistinct(lt, b);
    var sa, sb := set x | x in a, set x | x in b;
    SubsetOfSameSize(sa, sb);
    forall x
      ensures x in a <==> x in b
    {
      assert x in sa <==> x in sb;
    }
    AscendingUnique(lt, a, b);
  }

  lemma {:induction false} AscendingDistinct<K(!new)>(lt: (K, K) -> bool, s: seq<K>)
    requires StrictOrder(lt) && Ascending(lt, s)
    ensures |set x | x in s| == |s|
  {
    if s == [] {
      assert (set x | x in s) == {};
    } else {
      AscendingDistinct(lt, s[1..]);
      forall x
        ensures x in s[1..] <==> x in s && x != s[0]
      {
        TailMembers(lt, s, x);
      }
      assert (set x | x in s) == (set x | x in s[1..]) + {s[0]};
    }
  }

  lemma SubsetOfSameSize<K>(a: set<K>, b: set<K>)
    requires a <= b && |a| == |b|
    ensures a == b
  {
    assert b == a + (b - a);
    assert |b| == |a| + |b - a|;
  }

  /** The ascending sequence with `x` put in its place. */
  function Insert<K(==,!new)>(lt: (K, K) -> bool, s: seq<K>, x: K): (r: seq<K>)
    ensures forall y :: y in r <==> y in s || y == x
  {
    if s == [] then [x]
    else if x == s[0] then s
    else if lt(x, s[0]) then [x] + s
    else
      assert s == [s[0]] + s[1..];
      [s[0]] + Insert(lt, s[1..], x)
  }

  lemma {:induction false} InsertAscending<K(!new)>(lt: (K, K) -> bool, s: seq<K>, x: K)
    requires StrictOrder(lt) && Ascending(lt, s)
    requires forall y :: y in s ==> lt(x, y) || x == y || lt(y, x)
    ensures Ascending(lt, Insert(lt, s, x))
  {
    if s != [] && x != s[0] && !lt(x, s[0]) {
      InsertAscending(lt, s[1..], x);
      var t := Insert(lt, s[1..], x);
      forall j | 0 <= j < |t|
        ensures lt(s[0], t[j])
      {
        assert t[j] in s[1..] || t[j] == x;
        TailMembers(lt, s, t[j]);
      }
    }
  }

  /** Byte-wise text comparison, the default collation of both database backends. */
  predicate StringLt(a: string, b: string)
  {
    if b == "" then false
    else if a == "" then true
    else a[0] < b[0] || (a[0] == b[0] && StringLt(a[1..], b[1..]))
  }

  lemma {:induction false} StringLtTransitive(a: string, b: string, c: string)
    requires StringLt(a, b) && StringLt(b, c)
    ensures StringLt(a, c)
  {
    if a != "" && a[0] == b[0] == c[0] {
      StringLtTransitive(a[1..], b[1..], c[1..]);
    }
  }

  lemma {:induction false} StringLtTrichotomy(a: string, b: string)
    ensures StringLt(a, b) || a == b || StringLt(b, a)
    ensures !StringLt(a, a)
  {
    if a != "" {
      StringLtTrichotomy(a[1..], if b == "" then b else b[1..]);
      assert b != "" && a[1..] == b[1..] && a[0] == b[0] ==> a == [a[0]] + a[1..] == [b[0]] + b[1..] == b;
    }
  }

  lemma StringLtTotal()
    ensures StrictOrder(StringLt)
    ensures forall a, b :: StringLt(a, b) || a == b || StringLt(b, a)
  {
    forall a, b, c | StringLt(a, b) && StringLt(b, c)
      ensures StringLt(a, c)
    {
      StringLtTransitive(a, b, c);
    }
    forall a, b
      ensures StringLt(a, b) || a == b || StringLt(b, a)
      ensures !StringLt(a, a)
    {
      StringLtTrichotomy(a, b);
    }
  }
}
