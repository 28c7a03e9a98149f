/** Case-insensitive literal replacement (`replace_ascii_case_insensitive`) and the theory
    of what it can and cannot create: when a pattern can overlap the needle or the text put
    in its place. */
module SqlText {
  import opened Wrappers
  import opened Text

  /** `to_ascii_lowercase`. */
  function Lower(s: string): (l: string)
    ensures |l| == |s|
  {
    seq(|s|, i requires 0 <= i < |s| => LowerChar(s[i]))
  }

  lemma LowerConcat(a: string, b: string)
    ensures Lower(a + b) == Lower(a) + Lower(b)
  {
  }

  lemma LowerSlice(s: string, i: nat, j: nat)
    requires i <= j <= |s|
    ensures Lower(s[i..j]) == Lower(s)[i..j]
  {
  }

  // ---- Occurrences ----

  predicate Occurs(h: string, p: string, i: int)
  {
    0 <= i && i + |p| <= |h| && h[i..i + |p|] == p
  }

  ghost predicate Contains(h: string, p: string)
  {
    exists i :: Occurs(h, p, i)
  }

  predicate StartsWith(h: string, p: string)
  {
    Occurs(h, p, 0)
  }

  predicate EndsWith(h: string, p: string)
  {
    Occurs(h, p, |h| - |p|)
  }

  lemma OccursAt(h: string, p: string, i: int, k: int)
    requires Occurs(h, p, i) && 0 <= k < |p|
    ensures h[i + k] == p[k]
  {
    assert h[i..i + |p|][k] == p[k];
  }

  /** An occurrence is visible in every string around the part it lies in. */
  lemma OccursWithin(a: string, m: string, b: string, p: string, i: int)
    requires Occurs(m, p, i)
    ensures Occurs(a + m + b, p, |a| + i)
  {
    assert (a + m + b)[|a| + i..|a| + i + |p|] == m[i..i + |p|];
  }

  lemma ContainsWithin(a: string, m: string, b: string, p: string)
    requires Contains(m, p)
    ensures Contains(a + m + b, p)
  {
    var i :| Occurs(m, p, i);
    OccursWithin(a, m, b, p, i);
  }

  lemma ContainsPart(h: string, p: string, q: string)
    requires Contains(h, p) && Contains(p, q)
    ensures Contains(h, q)
  {
    var i :| Occurs(h, p, i);
    assert h == h[..i] + p + h[i + |p|..] by {
      assert h[i..i + |p|] == p;
    }
    ContainsWithin(h[..i], p, h[i + |p|..], q);
  }

  // ---- Overlaps ----

  /** With `x` put at offset `d` of `p` (before its start if negative), the two disagree
      somewhere they overlap. */
  ghost predicate Clash(p: string, x: string, d: int)
  {
    exists k :: DiffersAt(p, x, d, k)
  }

  predicate DiffersAt(p: string, x: string, d: int, k: int)
  {
    0 <= k < |p| && 0 <= k - d < |x| && p[k] != x[k - d]
  }

  /** A disagreement among the first three shared positions. */
  predicate ClashesEarly(p: string, x: string, d: int)
  {
    var i := if d >= 0 then d else 0;
    DiffersAt(p, x, d, i) || DiffersAt(p, x, d, i + 1) || DiffersAt(p, x, d, i + 2)
  }

  /** `p` overlaps `x` at no offset except perhaps `d0`. */
  ghost predicate FreeExcept(p: string, x: string, d0: int)
  {
    forall d :: -|x| < d < |p| && d != d0 ==> Clash(p, x, d)
  }

  /** The same for `x` at or after the start of `p` only. */
  ghost predicate LeftFree(p: string, x: string)
  {
    forall d :: 0 <= d < |p| ==> Clash(p, x, d)
  }

  ghost predicate Free(p: string, x: string)
  {
    forall d :: -|x| < d < |p| ==> Clash(p, x, d)
  }

  /** `x` put at or after the start of `p` clashes, except perhaps at `d0`. */
  ghost predicate LeftExcept(p: string, x: string, d0: int)
  {
    forall d :: 0 <= d < |p| && d != d0 ==> Clash(p, x, d)
  }

  lemma LeftConcat(p: string, q: string, x: string, d0: int)
    requires LeftFree(p, x) && LeftExcept(q, x, d0)
    ensures LeftExcept(p + q, x, |p| + d0)
  {
    forall d | 0 <= d < |p + q| && d != |p| + d0
      ensures Clash(p + q, x, d)
    {
      if d < |p| {
        assert Clash(p, x, d);
        var k :| DiffersAt(p, x, d, k);
        assert DiffersAt(p + q, x, d, k);
      } else {
        assert Clash(q, x, d - |p|);
        var k :| DiffersAt(q, x, d - |p|, k);
        assert DiffersAt(p + q, x, d, k + |p|);
      }
    }
  }

  lemma LeftBoth(p: string, q: string, x: string)
    requires LeftFree(p, x) && LeftFree(q, x)
    ensures LeftFree(p + q, x)
  {
    LeftConcat(p, q, x, |q|);
  }

  /** Whatever clashes with the start `h` of `x` clashes with `x`. */
  lemma LeftLonger(p: string, h: string, x: string, d0: int)
    requires LeftExcept(p, h, d0) && StartsWith(x, h)
    ensures LeftExcept(p, x, d0)
  {
    forall d | 0 <= d < |p| && d != d0
      ensures Clash(p, x, d)
    {
      assert Clash(p, h, d);
      var k :| DiffersAt(p, h, d, k);
      OccursAt(x, h, 0, k - d);
      assert DiffersAt(p, x, d, k);
    }
  }

  /** No occurrence of `p` can start inside `x`, judging by two characters. */
  predicate NoStartIn(p: string, x: string)
  {
    |p| > 1 && forall j :: 0 < j < |x| && x[j] == p[0] ==> j + 1 < |x| && x[j + 1] != p[1]
  }

  /** Overlaps are ruled out by the start `h` of `x` on one side and by the start of `p` on
      the other. */
  lemma HeadFree(p: string, h: string, x: string, d0: int)
    requires LeftExcept(p, h, d0) && StartsWith(x, h) && NoStartIn(p, x)
    ensures FreeExcept(p, x, d0)
  {
    LeftLonger(p, h, x, d0);
    forall d | -|x| < d < |p| && d != d0
      ensures Clash(p, x, d)
    {
      if d < 0 {
        assert DiffersAt(p, x, d, 0) || DiffersAt(p, x, d, 1);
      }
    }
  }

  lemma ExceptIsFree(p: string, x: string, d0: int)
    requires FreeExcept(p, x, d0) && (-|x| < d0 < |p| ==> Clash(p, x, d0))
    ensures Free(p, x)
  {
  }

  /** What the solver can see of literal texts: every overlap but one clashes early. */
  ghost predicate EarlyLeft(p: string, x: string, d0: int)
  {
    forall d :: 0 <= d < |p| && d != d0 ==> ClashesEarly(p, x, d)
  }

  lemma EarlyIsLeft(p: string, x: string, d0: int)
    requires EarlyLeft(p, x, d0)
    ensures LeftExcept(p, x, d0)
    ensures d0 == |p| ==> LeftFree(p, x)
  {
    forall d | 0 <= d < |p| && d != d0
      ensures Clash(p, x, d)
    {
      assert ClashesEarly(p, x, d);
    }
  }

  lemma EarlyIsFree(p: string, x: string)
    requires forall d :: -|x| < d < |p| ==> ClashesEarly(p, x, d)
    ensures Free(p, x)
  {
    forall d | -|x| < d < |p|
      ensures Clash(p, x, d)
    {
      assert ClashesEarly(p, x, d);
    }
  }

  /** An occurrence in `a + x + b` lies in `a`, lies in `b`, or meets `x` at the one
      offset left open. */
  lemma Located(a: string, x: string, b: string, p: string, d0: int, i: int)
    requires FreeExcept(p, x, d0) && Occurs(a + x + b, p, i)
    ensures || Occurs(a, p, i)
            || Occurs(b, p, i - |a| - |x|)
            || |a| - i == d0
  {
    var h := a + x + b;
    if i + |p| <= |a| {
      assert h[i..i + |p|] == a[i..i + |p|];
    } else if i >= |a| + |x| {
      assert h[i..i + |p|] == b[i - |a| - |x|..i - |a| - |x| + |p|];
    } else if |a| - i != d0 {
      var d := |a| - i;
      assert Clash(p, x, d);
      var k :| DiffersAt(p, x, d, k);
      OccursAt(h, p, i, k);
    }
  }

  lemma FreeSplit(a: string, x: string, b: string, p: string)
    requires Free(p, x)
    ensures Contains(a + x + b, p) <==> Contains(a, p) || Contains(b, p)
  {
    if Contains(a + x + b, p) {
      var i :| Occurs(a + x + b, p, i);
      Located(a, x, b, p, |a| - i, i);
      LocatedFree(a, x, b, p, i);
    }
    if Contains(a, p) {
      ContainsWithin("", a, x + b, p);
      assert "" + a + (x + b) == a + x + b;
    }
    if Contains(b, p) {
      ContainsWithin(a + x, b, "", p);
      assert a + x + b + "" == a + x + b;
    }
  }

  lemma LocatedFree(a: string, x: string, b: string, p: string, i: int)
    requires Free(p, x) && Occurs(a + x + b, p, i)
    ensures Occurs(a, p, i) || Occurs(b, p, i - |a| - |x|)
  {
    Located(a, x, b, p, -|x| - |a| - |b| - |p| - 1, i);
  }

  /** The open offset is the start: `p` is `x` followed by `q`. */
  lemma FreeSplitHead(a: string, x: string, b: string, q: string)
    requires FreeExcept(x + q, x, 0)
    ensures Contains(a + x + b, x + q) <==> Contains(a, x + q) || Contains(b, x + q) || StartsWith(b, q)
  {
    var h, p := a + x + b, x + q;
    if Contains(h, p) {
      var i :| Occurs(h, p, i);
      Located(a, x, b, p, 0, i);
      if |a| == i {
        assert h[i..i + |p|][|x|..] == b[..|q|];
      }
    }
    if StartsWith(b, q) {
      assert h[|a|..|a| + |p|] == x + b[..|q|];
      assert Occurs(h, p, |a|);
    }
    ContainsSides(a, x, b, p);
  }

  lemma ContainsSides(a: string, x: string, b: string, p: string)
    ensures Contains(a, p) || Contains(b, p) ==> Contains(a + x + b, p)
  {
    if Contains(a, p) {
      ContainsWithin("", a, x + b, p);
      assert "" + a + (x + b) == a + x + b;
    }
    if Contains(b, p) {
      ContainsWithin(a + x, b, "", p);
      assert a + x + b + "" == a + x + b;
    }
  }

  /** The open offset is near the end: `p` is `q` followed by a prefix `t` of `x`. */
  lemma FreeSplitTail(a: string, x: string, b: string, q: string, t: string)
    requires StartsWith(x, t) && FreeExcept(q + t, x, |q|)
    ensures Contains(a + x + b, q + t) <==> Contains(a, q + t) || Contains(b, q + t) || EndsWith(a, q)
  {
    var h, p := a + x + b, q + t;
    if Contains(h, p) {
      var i :| Occurs(h, p, i);
      Located(a, x, b, p, |q|, i);
      if |a| - i == |q| {
        AcrossBorder(a, x + b, q, t);
        assert h == a + (x + b);
      }
    }
    if EndsWith(a, q) {
      AcrossBorder(a, x + b, q, t);
      StartsOn(x, b, t);
      assert h == a + (x + b);
    }
    ContainsSides(a, x, b, p);
  }

  lemma StartsOn(x: string, b: string, t: string)
    requires StartsWith(x, t)
    ensures StartsWith(x + b, t)
  {
    assert (x + b)[0..|t|] == x[0..|t|];
  }

  /** `q + t` stands right across the border of `a` and `y` exactly if `a` ends with `q` and `y` starts with `t`. */
  lemma AcrossBorder(a: string, y: string, q: string, t: string)
    ensures Occurs(a + y, q + t, |a| - |q|) <==> EndsWith(a, q) && StartsWith(y, t)
  {
    if |q| <= |a| && |t| <= |y| {
      var i := |a| - |q|;
      assert (a + y)[i..i + |q + t|] == a[i..] + y[..|t|];
      assert a[i..i + |q|] == a[i..] && y[0..|t|] == y[..|t|];
      SameParts(a[i..], y[..|t|], q, t);
    }
  }

  lemma SameParts(a: string, b: string, c: string, d: string)
    requires |a| == |c|
    ensures a + b == c + d <==> a == c && b == d
  {
    if a + b == c + d {
      assert a == (a + b)[..|a|] && c == (c + d)[..|c|];
      assert b == (a + b)[|a|..] && d == (c + d)[|c|..];
    }
  }

  /** A prefix test cannot see past a text it does not overlap. */
  lemma StartSplit(a: string, x: string, b: string, p: string)
    requires LeftFree(p, x) && x != "" && p != ""
    ensures StartsWith(a + x + b, p) <==> StartsWith(a, p)
  {
    if StartsWith(a + x + b, p) {
      if |a| < |p| {
        assert Clash(p, x, |a|);
        var k :| DiffersAt(p, x, |a|, k);
        OccursAt(a + x + b, p, 0, k);
      } else {
        assert (a + x + b)[0..|p|] == a[0..|p|];
      }
    }
    if StartsWith(a, p) {
      OccursWithin("", a, x + b, p, 0);
      assert "" + a + (x + b) == a + x + b;
    }
  }

  // ---- Replacement ----

  ghost predicate First(h: string, n: string, i: int)
  {
    Occurs(h, n, i) && forall j :: 0 <= j < i ==> !Occurs(h, n, j)
  }

  lemma {:induction false} FirstExists(h: string, n: string, i: nat)
    requires Occurs(h, n, i)
    ensures exists k :: First(h, n, k)
  {
    if !First(h, n, i) {
      var j :| 0 <= j < i && Occurs(h, n, j);
      FirstExists(h, n, j);
    }
  }

  /** `str::find`: the first occurrence. */
  ghost function Find(h: string, n: string): (r: Option<nat>)
    ensures r.Some? ==> Occurs(h, n, r.value) && forall j :: 0 <= j < r.value ==> !Occurs(h, n, j)
    ensures r.None? ==> forall j :: !Occurs(h, n, j)
  {
    if Contains(h, n) then
      var j: nat :| Occurs(h, n, j);
      FirstExists(h, n, j);
      var i :| First(h, n, i);
      Some(i)
    else None
  }

  /** The text before the first match and the text after it. */
  ghost function Cut(s: string, n: string): (r: Option<(string, string)>)
    requires n != ""
    ensures r.None? <==> !Contains(Lower(s), n)
    ensures r.Some? ==> |r.value.0| + |n| + |r.value.1| == |s|
  {
    match Find(Lower(s), n)
    case None => None
    case Some(i) => assert Occurs(Lower(s), n, i); Some((s[..i], s[i + |n|..]))
  }

  /** Leftmost non-overlapping replacement of a nonempty lower-case needle. */
  ghost function Replace(s: string, n: string, r: string): string
    requires n != ""
    decreases |s|
  {
    match Cut(s, n)
    case None => s
    case Some((a, b)) => a + r + Replace(b, n, r)
  }

  /** What the needle cuts `s` into. */
  ghost function Pieces(s: string, n: string): (ps: seq<string>)
    requires n != ""
    ensures ps != []
    decreases |s|
  {
    match Cut(s, n)
    case None => [s]
    case Some((a, b)) => [a] + Pieces(b, n)
  }

  function Join(ps: seq<string>, glue: string): string
    requires ps != []
  {
    if |ps| == 1 then ps[0] else ps[0] + glue + Join(ps[1..], glue)
  }

  /** The result is the pieces glued with the replacement. */
  lemma {:induction false} ReplaceJoins(s: string, n: string, r: string)
    requires n != ""
    ensures Replace(s, n, r) == Join(Pieces(s, n), r)
    decreases |s|
  {
    match Cut(s, n)
    case None =>
    case Some((a, b)) =>
      ReplaceJoins(b, n, r);
      assert Pieces(s, n)[1..] == Pieces(b, n);
  }

  /** No piece holds the needle, and none could have been cut earlier. */
  ghost predicate Leftmost(ps: seq<string>, n: string)
  {
    && (forall k :: 0 <= k < |ps| ==> !Contains(Lower(ps[k]), n))
    && (forall k :: 0 <= k < |ps| - 1 ==> Find(Lower(ps[k]) + n, n) == Some(|ps[k]|))
  }

  lemma LeftmostCons(p: string, ps: seq<string>, n: string)
    requires Leftmost(ps, n) && !Contains(Lower(p), n) && Find(Lower(p) + n, n) == Some(|p|)
    ensures Leftmost([p] + ps, n)
  {
    var qs := [p] + ps;
    forall k | 0 < k < |qs|
      ensures !Contains(Lower(qs[k]), n)
      ensures k < |qs| - 1 ==> Find(Lower(qs[k]) + n, n) == Some(|qs[k]|)
    {
      assert qs[k] == ps[k - 1];
    }
  }

  lemma {:induction false} PiecesLeftmost(s: string, n: string)
    requires n != ""
    ensures Leftmost(Pieces(s, n), n)
    decreases |s|
  {
    match Cut(s, n)
    case None =>
    case Some((a, b)) =>
      PiecesLeftmost(b, n);
      CutParts(s, n);
      LeftmostCons(a, Pieces(b, n), n);
  }

  /** The input, up to case, is the same pieces glued with the needle. */
  lemma {:induction false} PiecesRebuild(s: string, n: string)
    requires n != "" && Lower(n) == n
    ensures Lower(Join(Pieces(s, n), n)) == Lower(s)
    decreases |s|
  {
    match Cut(s, n)
    case None =>
    case Some((a, b)) =>
      PiecesRebuild(b, n);
      CutParts(s, n);
      assert Pieces(s, n)[1..] == Pieces(b, n);
      LowerConcat(a + n, Join(Pieces(b, n), n));
      LowerConcat(a, n);
  }

  /** Occurrences before the end of a prefix are the same in the prefix. */
  lemma OccursInPrefix(h: string, k: nat, p: string, j: int)
    requires k <= |h| && j + |p| <= k
    ensures Occurs(h[..k], p, j) <==> Occurs(h, p, j)
  {
    if 0 <= j {
      assert h[..k][j..j + |p|] == h[j..j + |p|];
    }
  }

  lemma FirstPiece(s: string, n: string, i: nat)
    requires n != "" && Find(Lower(s), n) == Some(i)
    ensures !Contains(Lower(s[..i]), n)
    ensures Find(Lower(s[..i]) + n, n) == Some(i)
  {
    var l := Lower(s);
    LowerSlice(s, 0, i);
    assert Lower(s[..i]) == l[..i] by {
      assert s[0..i] == s[..i] && l[0..i] == l[..i];
    }
    var g := Lower(s[..i]) + n;
    assert g == l[..i + |n|] by {
      assert l[..i + |n|] == l[..i] + l[i..i + |n|];
    }
    forall j | j <= i
      ensures Occurs(g, n, j) <==> Occurs(l, n, j)
    {
      OccursInPrefix(l, i + |n|, n, j);
    }
    assert Occurs(g, n, i);
    assert Find(g, n).Some? && Find(g, n).value == i;
    forall j
      ensures !Occurs(l[..i], n, j)
    {
      if j + |n| <= i {
        OccursInPrefix(l, i, n, j);
      }
    }
  }

  lemma Around(s: string, n: string, i: nat)
    requires Occurs(Lower(s), n, i)
    ensures Lower(s) == Lower(s[..i]) + n + Lower(s[i + |n|..])
  {
    LowerSlice(s, 0, i);
    LowerSlice(s, i + |n|, |s|);
    var l := Lower(s);
    assert s[i + |n|..|s|] == s[i + |n|..] && s[0..i] == s[..i];
    assert l == l[0..i] + l[i..i + |n|] + l[i + |n|..|s|];
  }

  /** The input around the first match, lower-cased. */
  lemma CutParts(s: string, n: string)
    requires n != "" && Cut(s, n).Some?
    ensures var (a, b) := Cut(s, n).value;
            && Lower(s) == Lower(a) + n + Lower(b)
            && !Contains(Lower(a), n)
            && Find(Lower(a) + n, n) == Some(|a|)
  {
    var i := Find(Lower(s), n).value;
    FirstPiece(s, n, i);
    Around(s, n, i);
  }

  lemma ResultParts(s: string, n: string, r: string)
    requires n != "" && Cut(s, n).Some?
    ensures var (a, b) := Cut(s, n).value;
            Lower(Replace(s, n, r)) == Lower(a) + Lower(r) + Lower(Replace(b, n, r))
  {
    var (a, b) := Cut(s, n).value;
    LowerConcat(a + r, Replace(b, n, r));
    LowerConcat(a, r);
  }

  lemma ReplaceNothing(s: string, n: string, r: string)
    requires n != "" && !Contains(Lower(s), n)
    ensures Replace(s, n, r) == s
  {
  }

  /** A replacement shorter than the needle shortens the text unless there is no match. */
  lemma {:induction false} ReplaceShortens(s: string, n: string, r: string)
    requires n != "" && |r| < |n|
    ensures |Replace(s, n, r)| <= |s|
    ensures Contains(Lower(s), n) ==> |Replace(s, n, r)| < |s|
    decreases |s|
  {
    match Cut(s, n)
    case None =>
    case Some((a, b)) => ReplaceShortens(b, n, r);
  }

  /** A pattern the replacement cannot overlap is never created. */
  lemma {:induction false} NotCreated(s: string, n: string, r: string, p: string)
    requires n != "" && Free(p, Lower(r)) && Contains(Lower(Replace(s, n, r)), p)
    ensures Contains(Lower(s), p)
    decreases |s|
  {
    match Cut(s, n)
    case None =>
    case Some((a, b)) =>
      CutParts(s, n);
      ResultParts(s, n, r);
      FreeSplit(Lower(a), Lower(r), Lower(Replace(b, n, r)), p);
      if Contains(Lower(Replace(b, n, r)), p) {
        NotCreated(b, n, r, p);
      }
      ContainsSides(Lower(a), n, Lower(b), p);
  }

  /** No match is left behind. */
  lemma {:induction false} NeedleGone(s: string, n: string, r: string)
    requires n != "" && Free(n, Lower(r))
    ensures !Contains(Lower(Replace(s, n, r)), n)
    decreases |s|
  {
    match Cut(s, n)
    case None =>
    case Some((a, b)) =>
      CutParts(s, n);
      ResultParts(s, n, r);
      NeedleGone(b, n, r);
      FreeSplit(Lower(a), Lower(r), Lower(Replace(b, n, r)), n);
  }

  /** A pattern that overlaps neither the needle nor the replacement is neither created nor
      destroyed. */
  lemma {:induction false} PatternKept(s: string, n: string, r: string, p: string)
    requires n != "" && Free(p, n) && Free(p, Lower(r))
    ensures Contains(Lower(Replace(s, n, r)), p) <==> Contains(Lower(s), p)
    decreases |s|
  {
    match Cut(s, n)
    case None =>
    case Some((a, b)) =>
      CutParts(s, n);
      ResultParts(s, n, r);
      PatternKept(b, n, r, p);
      FreeSplit(Lower(a), Lower(r), Lower(Replace(b, n, r)), p);
      FreeSplit(Lower(a), n, Lower(b), p);
  }

  /** The same for what the text starts with. */
  lemma StartKept(s: string, n: string, r: string, p: string)
    requires n != "" && r != "" && p != "" && LeftFree(p, n) && LeftFree(p, Lower(r))
    ensures StartsWith(Lower(Replace(s, n, r)), p) <==> StartsWith(Lower(s), p)
  {
    match Cut(s, n)
    case None =>
    case Some((a, b)) =>
      CutParts(s, n);
      ResultParts(s, n, r);
      StartSplit(Lower(a), Lower(r), Lower(Replace(b, n, r)), p);
      StartSplit(Lower(a), n, Lower(b), p);
  }

  /** The replacement followed by `q` appears exactly where it stood already or where the
      needle was followed by `q`. */
  lemma {:induction false} HeadCreated(s: string, n: string, r: string, l: string, q: string)
    requires n != "" && r != "" && q != "" && Lower(r) == l && Free(l + q, n)
    requires LeftFree(q, n) && LeftFree(q, l) && FreeExcept(l + q, l, 0) && FreeExcept(n + q, n, 0)
    ensures Contains(Lower(Replace(s, n, r)), l + q) <==> Contains(Lower(s), l + q) || Contains(Lower(s), n + q)
    decreases |s|
  {
    match Cut(s, n)
    case None => NoLongerMatch(Lower(s), n, q);
    case Some((a, b)) =>
      CutParts(s, n);
      ResultParts(s, n, r);
      HeadCreated(b, n, r, l, q);
      StartKept(b, n, r, q);
      FreeSplitHead(Lower(a), l, Lower(Replace(b, n, r)), q);
      FreeSplitHead(Lower(a), n, Lower(b), q);
      FreeSplit(Lower(a), n, Lower(b), l + q);
      NoLongerMatch(Lower(a), n, q);
  }

  /** When the needle is the replacement followed by `q`, one pass leaves the needle behind
      exactly where it was followed by another `q`. */
  lemma {:induction false} NeedleLeft(s: string, r: string, l: string, q: string)
    requires r != "" && q != "" && Lower(r) == l
    requires LeftFree(q, l + q) && LeftFree(q, l) && FreeExcept(l + q, l, 0) && FreeExcept(l + q + q, l + q, 0)
    ensures Contains(Lower(Replace(s, l + q, r)), l + q) <==> Contains(Lower(s), l + q + q)
    decreases |s|
  {
    var n := l + q;
    match Cut(s, n)
    case None => NoLongerMatch(Lower(s), n, q);
    case Some((a, b)) =>
      CutParts(s, n);
      ResultParts(s, n, r);
      NeedleLeft(b, r, l, q);
      StartKept(b, n, r, q);
      FreeSplitHead(Lower(a), l, Lower(Replace(b, n, r)), q);
      FreeSplitHead(Lower(a), n, Lower(b), q);
      NoLongerMatch(Lower(a), n, q);
  }

  lemma NoLongerMatch(h: string, n: string, q: string)
    requires !Contains(h, n)
    ensures !Contains(h, n + q)
  {
    if Contains(h, n + q) {
      assert Occurs(n + q, n, 0);
      ContainsPart(h, n + q, n);
    }
  }

  /** `q` followed by the start `t` of the replacement appears exactly where it stood already
      or where `q` was followed by the needle. */
  lemma {:induction false} TailCreated(s: string, n: string, r: string, q: string, t: string)
    requires n != "" && t != "" && StartsWith(Lower(r), t) && Free(q + t, n)
    requires FreeExcept(q + t, Lower(r), |q|) && FreeExcept(q + n, n, |q|)
    ensures Contains(Lower(Replace(s, n, r)), q + t) <==> Contains(Lower(s), q + t) || Contains(Lower(s), q + n)
    decreases |s|
  {
    match Cut(s, n)
    case None =>
      if Contains(Lower(s), q + n) {
        QNHoldsN(Lower(s), q, n);
      }
    case Some((a, b)) =>
      CutParts(s, n);
      ResultParts(s, n, r);
      TailCreated(b, n, r, q, t);
      FreeSplitTail(Lower(a), Lower(r), Lower(Replace(b, n, r)), q, t);
      FreeSplitTail(Lower(a), n, Lower(b), q, n);
      FreeSplit(Lower(a), n, Lower(b), q + t);
      if Contains(Lower(a), q + n) {
        QNHoldsN(Lower(a), q, n);
      }
  }

  lemma QNHoldsN(h: string, q: string, n: string)
    requires Contains(h, q + n)
    ensures Contains(h, n)
  {
    assert Occurs(q + n, n, |q|);
    ContainsPart(h, q + n, n);
  }

  lemma CutAt(s: string, idx: nat, n: string)
    requires n != "" && idx <= |s|
    ensures match Find(Lower(s)[idx..], n)
            case None => Cut(s[idx..], n).None?
            case Some(i) => idx + i + |n| <= |s| && Cut(s[idx..], n) == Some((s[idx..idx + i], s[idx + i + |n|..]))
  {
    LowerSlice(s, idx, |s|);
    var t := s[idx..];
    assert s[idx..|s|] == t && Lower(s)[idx..|s|] == Lower(s)[idx..];
    var found := Find(Lower(t), n);
    if found.Some? {
      assert t[..found.value] == s[idx..idx + found.value];
      assert t[found.value + |n|..] == s[idx + found.value + |n|..];
    }
  }

  lemma Unfold(t: string, n: string, r: string, a: string, b: string)
    requires n != "" && Cut(t, n) == Some((a, b))
    ensures Replace(t, n, r) == a + r + Replace(b, n, r)
  {
  }

  lemma Assoc(o: string, a: string, r: string, x: string)
    ensures o + (a + r + x) == o + a + r + x
  {
  }

  /** The search itself. */
  method FindFirst(h: string, n: string) returns (r: Option<nat>)
    ensures r == Find(h, n)
  {
    var i := 0;
    while i + |n| <= |h|
      invariant forall j :: 0 <= j < i ==> !Occurs(h, n, j)
    {
      if h[i..i + |n|] == n {
        assert Occurs(h, n, i);
        return Some(i);
      }
      i := i + 1;
    }
    return None;
  }

  /** One search of the loop, from `idx` on: what it finds is the next cut. */
  method NextMatch(haystack: string, hayLower: string, needle: string, idx: nat) returns (found: Option<nat>)
    requires needle != "" && idx <= |haystack| && hayLower == Lower(haystack)
    ensures found.Some? ==> idx + found.value + |needle| <= |haystack|
    ensures Cut(haystack[idx..], needle) ==
            match found
            case None => None
            case Some(i) => Some((haystack[idx..idx + i], haystack[idx + i + |needle|..]))
  {
    CutAt(haystack, idx, needle);
    found := FindFirst(hayLower[idx..], needle);
  }

  /** `out` is the result for everything before the part `rest`. */
  ghost predicate DoneUpTo(s: string, n: string, r: string, rest: string, out: string)
    requires n != ""
  {
    Replace(s, n, r) == out + Replace(rest, n, r)
  }

  lemma DoneStep(s: string, n: string, r: string, rest: string, out: string, a: string, b: string)
    requires n != "" && DoneUpTo(s, n, r, rest, out) && Cut(rest, n) == Some((a, b))
    ensures DoneUpTo(s, n, r, b, out + a + r)
  {
    Unfold(rest, n, r, a, b);
    Assoc(out, a, r, Replace(b, n, r));
  }

  lemma DoneAll(s: string, n: string, r: string, rest: string, out: string)
    requires n != "" && DoneUpTo(s, n, r, rest, out) && Cut(rest, n).None?
    ensures Replace(s, n, r) == out + rest
  {
  }

  lemma DoneStart(s: string, n: string, r: string)
    requires n != ""
    ensures DoneUpTo(s, n, r, s[0..], "")
  {
    assert s[0..] == s;
  }

  /** The loop of the source: search, copy up to the match, put the replacement, go on. */
  method ReplaceAsciiCaseInsensitive(haystack: string, needle: string, replacement: string) returns (out: string)
    ensures needle == "" ==> out == haystack
    ensures needle != "" ==> out == Replace(haystack, Lower(needle), replacement)
  {
    if needle == "" {
      return haystack;
    }
    var hayLower, needleLower := Lower(haystack), Lower(needle);
    out := "";
    var idx := 0;
    DoneStart(haystack, needleLower, replacement);
    var found := NextMatch(haystack, hayLower, needleLower, idx);
    while found.Some?
      invariant 0 <= idx <= |haystack|
      invariant found.Some? ==> idx + found.value + |needle| <= |haystack|
      invariant Cut(haystack[idx..], needleLower) ==
                match found
                case None => None
                case Some(i) => Some((haystack[idx..idx + i], haystack[idx + i + |needle|..]))
      invariant DoneUpTo(haystack, needleLower, replacement, haystack[idx..], out)
      decreases |haystack| - idx
    {
      var start := idx + found.value;
      DoneStep(haystack, needleLower, replacement, haystack[idx..], out, haystack[idx..start], haystack[start + |needle|..]);
      out := out + haystack[idx..start] + replacement;
      idx := start + |needle|;
      found := NextMatch(haystack, hayLower, needleLower, idx);
    }
    DoneAll(haystack, needleLower, replacement, haystack[idx..], out);
    out := out + haystack[idx..];
  }
}
