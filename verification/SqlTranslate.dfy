/** The placeholder scanner of `sql_translate.rs`, and how the quote state and the placeholders
    of a statement come through a replacement. */
module SqlTranslate {
  import opened Text
  import opened SqlText
  import opened SqlWords

  // ---- Placeholders ----

  /** Inside single quotes, inside double quotes. */
  datatype Quote = Quote(single: bool, double: bool) {
    predicate Open() { !single && !double }
  }

  const OUTSIDE: Quote := Quote(false, false)

  function Advance(q: Quote, c: char): Quote
  {
    if c == '\'' && !q.double then q.(single := !q.single)
    else if c == '"' && !q.single then q.(double := !q.double)
    else q
  }

  /** The quote state after reading `s` from state `q`. */
  function Quotes(q: Quote, s: string): Quote
  {
    if s == "" then q else Advance(Quotes(q, s[..|s| - 1]), s[|s| - 1])
  }

  /** An unquoted `?` right before a digit. */
  predicate IsPlaceholder(q: Quote, s: string, i: nat)
    requires i < |s|
  {
    s[i] == '?' && i + 1 < |s| && IsDigit(s[i + 1]) && Quotes(q, s[..i]).Open()
  }

  function Placeholders(s: string): string
  {
    seq(|s|, i requires 0 <= i < |s| => if IsPlaceholder(OUTSIDE, s, i) then '$' else s[i])
  }

  /** The scanner: quote flags, a lookahead of one, an output buffer. The result differs from
      the input exactly at the unquoted `?` before a digit. */
  method RewritePlaceholders(sql: string) returns (out: string)
    ensures |out| == |sql|
    ensures forall i :: 0 <= i < |sql| ==> out[i] == if IsPlaceholder(OUTSIDE, sql, i) then '$' else sql[i]
    ensures out == Placeholders(sql)
  {
    out := "";
    var inSingle, inDouble := false, false;
    for i := 0 to |sql|
      invariant |out| == i && Quote(inSingle, inDouble) == Quotes(OUTSIDE, sql[..i])
      invariant forall j :: 0 <= j < i ==> out[j] == if IsPlaceholder(OUTSIDE, sql, j) then '$' else sql[j]
    {
      var c := sql[i];
      assert sql[..i + 1][..i] == sql[..i];
      if c == '\'' && !inDouble {
        inSingle := !inSingle;
        out := out + [c];
      } else if c == '"' && !inSingle {
        inDouble := !inDouble;
        out := out + [c];
      } else if c == '?' && !inSingle && !inDouble {
        if i + 1 < |sql| && IsDigit(sql[i + 1]) {
          out := out + ['$'];
        } else {
          out := out + [c];
        }
      } else {
        out := out + [c];
      }
    }
  }

  /** No placeholder is left. */
  ghost predicate Settled(q: Quote, s: string)
  {
    forall i :: 0 <= i < |s| ==> !IsPlaceholder(q, s, i)
  }

  /** The two differ only where one has `?` and the other `$`. */
  ghost predicate Marked(s: string, t: string)
  {
    |s| == |t| && forall i :: 0 <= i < |s| ==> t[i] == s[i] || (s[i] == '?' && t[i] == '$')
  }

  lemma MarkedOccurs(s: string, t: string, p: string, i: int)
    requires Marked(s, t) && '?' !in p && '$' !in p
    ensures Occurs(Lower(s), p, i) <==> Occurs(Lower(t), p, i)
  {
    if 0 <= i && i + |p| <= |s| {
      var x, y := Lower(s)[i..i + |p|], Lower(t)[i..i + |p|];
      assert forall k :: 0 <= k < |p| ==> x[k] == y[k] || (x[k] == '?' && y[k] == '$');
    }
  }

  lemma MarkedContains(s: string, t: string, p: string)
    requires Marked(s, t) && '?' !in p && '$' !in p
    ensures Contains(Lower(s), p) <==> Contains(Lower(t), p)
  {
    forall i
      ensures Occurs(Lower(s), p, i) <==> Occurs(Lower(t), p, i)
    {
      MarkedOccurs(s, t, p, i);
    }
  }

  lemma PlaceholdersMark(s: string)
    ensures Marked(s, Placeholders(s))
  {
  }

  lemma {:induction false} SameQuotes(q: Quote, s: string, t: string)
    requires Marked(s, t)
    ensures Quotes(q, s) == Quotes(q, t)
  {
    if s != "" {
      SameQuotes(q, s[..|s| - 1], t[..|s| - 1]);
    }
  }

  lemma PlaceholdersSettle(s: string)
    ensures Settled(OUTSIDE, Placeholders(s))
  {
    var t := Placeholders(s);
    forall i | 0 <= i < |t|
      ensures !IsPlaceholder(OUTSIDE, t, i)
    {
      SameQuotes(OUTSIDE, s[..i], t[..i]);
    }
  }

  lemma SettledUnchanged(s: string)
    requires Settled(OUTSIDE, s)
    ensures Placeholders(s) == s
  {
  }

  // ---- Quote state along a statement ----

  lemma {:induction false} QuotesConcat(q: Quote, a: string, b: string)
    ensures Quotes(q, a + b) == Quotes(Quotes(q, a), b)
  {
    if b == "" {
      assert a + b == a;
    } else {
      var n := |b| - 1;
      QuotesConcat(q, a, b[..n]);
      assert (a + b)[..|a + b| - 1] == a + b[..n];
    }
  }

  lemma {:induction false} QuotesIgnoreCase(q: Quote, s: string)
    ensures Quotes(q, Lower(s)) == Quotes(q, s)
  {
    if s != "" {
      var n := |s| - 1;
      QuotesIgnoreCase(q, s[..n]);
      LowerSlice(s, 0, n);
      assert s[0..n] == s[..n] && Lower(s)[0..n] == Lower(s)[..n];
    }
  }

  predicate Plain(s: string)
  {
    forall i :: 0 <= i < |s| ==> s[i] != '\'' && s[i] != '"'
  }

  lemma {:induction false} PlainKeepsQuotes(q: Quote, s: string)
    requires Plain(s)
    ensures Quotes(q, s) == q
  {
    if s != "" {
      PlainKeepsQuotes(q, s[..|s| - 1]);
    }
  }

  /** Reading `s` never changes the quote state in the end. */
  ghost predicate Neutral(s: string)
  {
    forall q :: Quotes(q, s) == q
  }

  lemma PlainIsNeutral(s: string)
    requires Plain(s)
    ensures Neutral(s)
  {
    forall q
      ensures Quotes(q, s) == q
    {
      PlainKeepsQuotes(q, s);
    }
  }

  lemma QuotesOfOne(q: Quote, c: char)
    ensures Quotes(q, [c]) == Advance(q, c)
  {
    assert [c][..0] == "";
  }

  /** A quoted argument toggles twice, or not at all inside double quotes. */
  lemma QuotedKeepsQuotes(q: Quote, x: string)
    requires Plain(x)
    ensures Quotes(q, ['\''] + x + ['\'']) == q
  {
    QuotesConcat(q, ['\''] + x, ['\'']);
    QuotesConcat(q, ['\''], x);
    PlainKeepsQuotes(Quotes(q, ['\'']), x);
    QuotesOfOne(q, '\'');
    QuotesOfOne(Quotes(q, ['\'']), '\'');
  }

  lemma QuotedIsNeutral(x: string)
    requires Plain(x)
    ensures Neutral(['\''] + x + ['\''])
  {
    forall q
      ensures Quotes(q, ['\''] + x + ['\'']) == q
    {
      QuotedKeepsQuotes(q, x);
    }
  }

  lemma NeutralConcat(a: string, b: string)
    requires Neutral(a) && Neutral(b)
    ensures Neutral(a + b)
  {
    forall q
      ensures Quotes(q, a + b) == q
    {
      QuotesConcat(q, a, b);
    }
  }

  lemma CallIsNeutral(gap: string)
    requires gap == "," || gap == ", "
    ensures Neutral("strftime(" + "'%s'" + gap + "'now'" + ")")
  {
    PlainIsNeutral("strftime(");
    PlainIsNeutral(gap);
    PlainIsNeutral(")");
    QuotedIsNeutral("%s");
    QuotedIsNeutral("now");
    assert ['\''] + "%s" + ['\''] == "'%s'" && ['\''] + "now" + ['\''] == "'now'";
    NeutralConcat("strftime(", "'%s'");
    NeutralConcat("strftime(" + "'%s'", gap);
    NeutralConcat("strftime(" + "'%s'" + gap, "'now'");
    NeutralConcat("strftime(" + "'%s'" + gap + "'now'", ")");
  }

  lemma CallsAreNeutral()
    ensures Neutral(STRFTIME) && Neutral(STRFTIME_SPACED)
  {
    CallIsNeutral(",");
    CallIsNeutral(", ");
    assert "strftime(" + "'%s'" + "," + "'now'" + ")" == STRFTIME;
    assert "strftime(" + "'%s'" + ", " + "'now'" + ")" == STRFTIME_SPACED;
  }

  // ---- Settled statements stay settled ----

  lemma SettledParts(q: Quote, a: string, m: string, b: string)
    requires Settled(q, a + m + b)
    ensures Settled(q, a) && Settled(Quotes(q, a + m), b)
  {
    var s := a + m + b;
    forall i | 0 <= i < |a|
      ensures !IsPlaceholder(q, a, i)
    {
      assert s[..i] == a[..i];
      assert !IsPlaceholder(q, s, i);
    }
    forall i | 0 <= i < |b|
      ensures !IsPlaceholder(Quotes(q, a + m), b, i)
    {
      assert s[..|a + m| + i] == (a + m) + b[..i];
      QuotesConcat(q, a + m, b[..i]);
      assert !IsPlaceholder(q, s, |a + m| + i);
    }
  }

  /** Text without `?` that does not start with a digit may stand between settled parts. */
  predicate Inert(r: string)
  {
    r != "" && !IsDigit(r[0]) && forall i :: 0 <= i < |r| ==> r[i] != '?'
  }

  lemma SettledJoin(q: Quote, a: string, r: string, b: string)
    requires Settled(q, a) && Inert(r) && Settled(Quotes(q, a + r), b)
    ensures Settled(q, a + r + b)
  {
    var s := a + r + b;
    forall i | 0 <= i < |s|
      ensures !IsPlaceholder(q, s, i)
    {
      if i < |a| {
        assert s[..i] == a[..i];
        assert !IsPlaceholder(q, a, i);
      } else if i >= |a + r| {
        var j := i - |a + r|;
        assert s[..i] == (a + r) + b[..j];
        QuotesConcat(q, a + r, b[..j]);
        assert !IsPlaceholder(Quotes(q, a + r), b, j);
      } else {
        assert s[i] == r[i - |a|];
      }
    }
  }

  lemma {:induction false} ReplaceSettled(q: Quote, s: string, n: string, r: string)
    requires n != "" && Settled(q, s) && Neutral(n) && Plain(r) && Inert(r)
    ensures Settled(q, Replace(s, n, r))
    decreases |s|
  {
    match Cut(s, n)
    case None =>
    case Some((a, b)) =>
      var m := CutMatch(s, n);
      SettledParts(q, a, m, b);
      QuotesConcat(q, a, m);
      QuotesIgnoreCase(Quotes(q, a), m);
      QuotesConcat(q, a, r);
      PlainKeepsQuotes(Quotes(q, a), r);
      ReplaceSettled(Quotes(q, a), b, n, r);
      SettledJoin(q, a, r, Replace(b, n, r));
  }

  /** The matched text in its own case. */
  lemma CutMatch(s: string, n: string) returns (m: string)
    requires n != "" && Cut(s, n).Some?
    ensures s == Cut(s, n).value.0 + m + Cut(s, n).value.1 && Lower(m) == n
  {
    var i := Find(Lower(s), n).value;
    m := s[i..i + |n|];
    LowerSlice(s, i, i + |n|);
    assert s == s[..i] + m + s[i + |n|..];
  }
}
