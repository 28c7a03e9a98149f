/** What the translation does to quoted text, which is data: the scanner for placeholders leaves it alone,
    the literal replacements do not look at quotes. */
module SqlQuotes {
  import opened Text
  import opened SqlText
  import opened SqlWords
  import opened SqlTranslate
  import opened SqlPipeline

  // ---- Quoted text ----

  /** The character stands inside quotes, or is one of the quotes around them. */
  predicate InQuotes(q: Quote, c: char)
  {
    !q.Open() || !Advance(q, c).Open()
  }

  /** The quoted stretches of `s`, with their quotes, one after the other. */
  function Quoted(q: Quote, s: string): string
  {
    if s == "" then ""
    else
      var n := |s| - 1;
      Quoted(q, s[..n]) + if InQuotes(Quotes(q, s[..n]), s[n]) then [s[n]] else ""
  }

  lemma {:induction false} QuotedConcat(q: Quote, a: string, b: string)
    ensures Quoted(q, a + b) == Quoted(q, a) + Quoted(Quotes(q, a), b)
  {
    if b == "" {
      assert a + b == a;
    } else {
      var n := |b| - 1;
      QuotedConcat(q, a, b[..n]);
      QuotesConcat(q, a, b[..n]);
      assert (a + b)[..|a + b| - 1] == a + b[..n];
    }
  }

  lemma QuotedThree(q: Quote, a: string, m: string, b: string)
    ensures Quoted(q, a + m + b) == Quoted(q, a) + Quoted(Quotes(q, a), m) + Quoted(Quotes(q, a + m), b)
  {
    QuotedConcat(q, a + m, b);
    QuotedConcat(q, a, m);
  }

  lemma {:induction false} QuotedPlain(q: Quote, s: string)
    requires Plain(s)
    ensures Quoted(q, s) == if q.Open() then "" else s
  {
    if s != "" {
      var n := |s| - 1;
      QuotedPlain(q, s[..n]);
      PlainKeepsQuotes(q, s[..n]);
      assert s == s[..n] + [s[n]];
    }
  }

  lemma {:induction false} QuotedIgnoreCase(q: Quote, s: string)
    ensures Quoted(q, Lower(s)) == Lower(Quoted(q, s))
  {
    if s != "" {
      var n := |s| - 1;
      QuotedIgnoreCase(q, s[..n]);
      QuotesIgnoreCase(q, s[..n]);
      LowerSlice(s, 0, n);
      assert s[0..n] == s[..n] && Lower(s)[0..n] == Lower(s)[..n];
    }
  }

  // ---- Counting letters ----

  /** How many characters of `s` are among `letters`, in either case. */
  function Count(letters: string, s: string): nat
  {
    if s == "" then 0 else Count(letters, s[..|s| - 1]) + if LowerChar(s[|s| - 1]) in letters then 1 else 0
  }

  lemma {:induction false} CountConcat(letters: string, a: string, b: string)
    ensures Count(letters, a + b) == Count(letters, a) + Count(letters, b)
  {
    if b == "" {
      assert a + b == a;
    } else {
      CountConcat(letters, a, b[..|b| - 1]);
      assert (a + b)[..|a + b| - 1] == a + b[..|b| - 1];
    }
  }

  lemma {:induction false} CountIgnoresCase(letters: string, s: string)
    ensures Count(letters, Lower(s)) == Count(letters, s)
  {
    if s != "" {
      var n := |s| - 1;
      CountIgnoresCase(letters, s[..n]);
      LowerSlice(s, 0, n);
      assert s[0..n] == s[..n] && Lower(s)[0..n] == Lower(s)[..n];
    }
  }

  /** Every replacement inside quotes loses some of these, and none adds any. */
  const LOST: string := "%,du"

  /** No replacement loses this, and ` ON CONFLICT DO NOTHING` adds one. */
  const ADDED: string := "h"

  // ---- One replacement ----

  /** An occurrence of `n` in `s` overlaps a quoted stretch. */
  ghost predicate Touches(q: Quote, s: string, n: string)
  {
    exists i :: TouchesAt(q, s, n, i)
  }

  predicate TouchesAt(q: Quote, s: string, n: string, i: int)
  {
    Occurs(Lower(s), n, i) && Quoted(Quotes(q, s[..i]), s[i..i + |n|]) != ""
  }

  /** Occurrences of `n` do not overlap each other. */
  ghost predicate Solitary(n: string)
  {
    n != "" && FreeExcept(n, n, 0)
  }

  lemma TouchesLater(q: Quote, a: string, b: string, n: string, j: nat)
    ensures TouchesAt(Quotes(q, a), b, n, j) <==> TouchesAt(q, a + b, n, |a| + j)
  {
    LowerConcat(a, b);
    if j + |n| <= |b| {
      assert Lower(a + b)[|a| + j..|a| + j + |n|] == Lower(b)[j..j + |n|];
      assert (a + b)[|a| + j..|a| + j + |n|] == b[j..j + |n|];
      assert (a + b)[..|a| + j] == a + b[..j];
      QuotesConcat(q, a, b[..j]);
    }
  }

  lemma TouchesHere(q: Quote, a: string, m: string, b: string, n: string)
    requires Lower(m) == n
    ensures TouchesAt(q, a + m + b, n, |a|) <==> Quoted(Quotes(q, a), m) != ""
  {
    var s := a + m + b;
    LowerSlice(s, |a|, |a| + |n|);
    assert s[|a|..|a| + |n|] == m && s[..|a|] == a;
  }

  lemma OccurrenceCut(a: string, m: string, b: string, n: string, i: int)
    requires Solitary(n) && Lower(m) == n && !Contains(Lower(a), n) && Occurs(Lower(a + m + b), n, i)
    ensures i == |a| || i >= |a + m|
  {
    LowerConcat(a + m, b);
    LowerConcat(a, m);
    Located(Lower(a), n, Lower(b), n, 0, i);
  }

  /** Occurrences are the first match and those after it. */
  lemma TouchesCut(q: Quote, a: string, m: string, b: string, n: string)
    requires Solitary(n) && Lower(m) == n && !Contains(Lower(a), n)
    ensures Touches(q, a + m + b, n) <==> Quoted(Quotes(q, a), m) != "" || Touches(Quotes(q, a + m), b, n)
  {
    TouchesHere(q, a, m, b, n);
    if Touches(q, a + m + b, n) {
      TouchesOneOf(q, a, m, b, n);
    }
    if Touches(Quotes(q, a + m), b, n) {
      var j :| TouchesAt(Quotes(q, a + m), b, n, j);
      TouchesLater(q, a + m, b, n, j);
    }
  }

  lemma TouchesOneOf(q: Quote, a: string, m: string, b: string, n: string)
    requires Solitary(n) && Lower(m) == n && !Contains(Lower(a), n) && Touches(q, a + m + b, n)
    ensures Quoted(Quotes(q, a), m) != "" || Touches(Quotes(q, a + m), b, n)
  {
    var i :| TouchesAt(q, a + m + b, n, i);
    OccurrenceCut(a, m, b, n, i);
    TouchesHere(q, a, m, b, n);
    if i != |a| {
      TouchesAfter(q, a + m, b, n, i);
    }
  }

  lemma TouchesAfter(q: Quote, a: string, b: string, n: string, i: nat)
    requires TouchesAt(q, a + b, n, i) && |a| <= i
    ensures Touches(Quotes(q, a), b, n)
  {
    TouchesLater(q, a, b, n, i - |a|);
  }

  /** What one replacement does to the quoted text: nothing outside quotes; inside, `LOST` letters go and no
      `ADDED` letter does. */
  ghost predicate Tells(q: Quote, n: string, r: string)
  {
    && (Quoted(q, n) == "" ==> Quoted(q, r) == "")
    && (Quoted(q, n) != "" ==> Count(LOST, Quoted(q, r)) < Count(LOST, Quoted(q, n)))
    && Count(ADDED, Quoted(q, n)) <= Count(ADDED, Quoted(q, r))
  }

  ghost predicate Telling(n: string, r: string)
  {
    Solitary(n) && Neutral(n) && Plain(r) && forall q :: Tells(q, n, r)
  }

  lemma MatchTells(q: Quote, m: string, n: string, r: string)
    requires Lower(m) == n && Tells(q, n, r)
    ensures Tells(q, m, r) && (Quoted(q, m) == "" <==> Quoted(q, n) == "")
  {
    QuotedIgnoreCase(q, m);
    CountIgnoresCase(LOST, Quoted(q, m));
    CountIgnoresCase(ADDED, Quoted(q, m));
  }

  lemma CountThree(letters: string, a: string, m: string, b: string)
    ensures Count(letters, a + m + b) == Count(letters, a) + Count(letters, m) + Count(letters, b)
  {
    CountConcat(letters, a + m, b);
    CountConcat(letters, a, m);
  }

  /** From `s` to `t` the quoted text stays the same, or loses `LOST` letters; it loses no `ADDED` letter. */
  ghost predicate Compares(s: string, t: string, same: bool)
  {
    && (same ==> s == t)
    && (!same ==> Count(LOST, t) < Count(LOST, s))
    && Count(ADDED, s) <= Count(ADDED, t)
  }

  lemma ComparesThree(a: string, m: string, r: string, b: string, b': string, same: bool)
    requires Compares(b, b', same)
    requires m == "" ==> r == ""
    requires m != "" ==> Count(LOST, r) < Count(LOST, m)
    requires Count(ADDED, m) <= Count(ADDED, r)
    ensures Compares(a + m + b, a + r + b', same && m == "")
  {
    CountThree(LOST, a, m, b);
    CountThree(LOST, a, r, b');
    CountThree(ADDED, a, m, b);
    CountThree(ADDED, a, r, b');
  }

  /** A replacement leaves all quoted text alone if no match touches it, and otherwise costs it letters. */
  lemma {:induction false} ReplaceQuoted(q: Quote, s: string, n: string, r: string)
    requires Telling(n, r)
    ensures Compares(Quoted(q, s), Quoted(q, Replace(s, n, r)), !Touches(q, s, n))
    decreases |s|
  {
    match Cut(s, n)
    case None =>
    case Some((a, b)) =>
      var m := CutMatch(s, n);
      var q' := Quotes(q, a);
      CutParts(s, n);
      NeutralMatch(q, a, m, n);
      QuotesConcat(q, a, r);
      PlainKeepsQuotes(q', r);
      ReplaceQuoted(q', b, n, r);
      TouchesCut(q, a, m, b, n);
      assert Tells(q', n, r);
      MatchTells(q', m, n, r);
      QuotedThree(q, a, m, b);
      QuotedThree(q, a, r, Replace(b, n, r));
      ComparesThree(Quoted(q, a), Quoted(q', m), Quoted(q', r), Quoted(q', b), Quoted(q', Replace(b, n, r)), !Touches(q', b, n));
  }

  lemma NeutralMatch(q: Quote, a: string, m: string, n: string)
    requires Neutral(n) && Lower(m) == n
    ensures Quotes(q, a + m) == Quotes(q, a)
  {
    QuotesConcat(q, a, m);
    QuotesIgnoreCase(Quotes(q, a), m);
  }

  // ---- The five needles ----

  lemma {:induction false} CountNone(letters: string, s: string)
    requires forall i :: 0 <= i < |s| ==> LowerChar(s[i]) !in letters
    ensures Count(letters, s) == 0
  {
    if s != "" {
      CountNone(letters, s[..|s| - 1]);
    }
  }

  lemma {:induction false} CountSome(letters: string, s: string, i: nat)
    requires i < |s| && LowerChar(s[i]) in letters
    ensures Count(letters, s) > 0
    decreases |s|
  {
    if i < |s| - 1 {
      CountSome(letters, s[..|s| - 1], i);
    }
  }

  lemma {:induction false} QuotedPart(q: Quote, s: string, k: nat)
    requires k < |Quoted(q, s)|
    ensures Quoted(q, s)[k] in s
  {
    var n := |s| - 1;
    if k < |Quoted(q, s[..n])| {
      QuotedPart(q, s[..n], k);
    }
  }

  lemma {:induction false} QuotedAt(q: Quote, s: string, i: nat)
    requires i < |s| && InQuotes(Quotes(q, s[..i]), s[i])
    ensures s[i] in Quoted(q, s)
    decreases |s|
  {
    var n := |s| - 1;
    if i < n {
      assert s[..n][..i] == s[..i];
      QuotedAt(q, s[..n], i);
    }
  }

  predicate Without(letters: string, s: string)
  {
    forall i :: 0 <= i < |s| ==> LowerChar(s[i]) !in letters
  }

  lemma QuotedWithout(q: Quote, letters: string, s: string)
    requires Without(letters, s)
    ensures Count(letters, Quoted(q, s)) == 0
  {
    forall k | 0 <= k < |Quoted(q, s)|
      ensures LowerChar(Quoted(q, s)[k]) !in letters
    {
      QuotedPart(q, s, k);
    }
    CountNone(letters, Quoted(q, s));
  }

  lemma QuotedLetter(q: Quote, s: string, i: nat)
    requires i < |s| && InQuotes(Quotes(q, s[..i]), s[i]) && LowerChar(s[i]) in LOST
    ensures Quoted(q, s) != "" && Count(LOST, Quoted(q, s)) > 0
  {
    QuotedAt(q, s, i);
    var k :| 0 <= k < |Quoted(q, s)| && Quoted(q, s)[k] == s[i];
    CountSome(LOST, Quoted(q, s), k);
  }

  lemma PlainTelling(n: string, r: string, i: nat)
    requires Solitary(n) && Plain(n) && Plain(r) && i < |n| && LowerChar(n[i]) in LOST
    requires Without(LOST, r) && Without(ADDED, n)
    ensures Telling(n, r)
  {
    PlainIsNeutral(n);
    forall q
      ensures Tells(q, n, r)
    {
      QuotedPlain(q, n);
      QuotedPlain(q, r);
      QuotedWithout(q, LOST, r);
      QuotedWithout(q, ADDED, n);
      CountSome(LOST, n, i);
    }
  }

  /** A call of `strftime` always touches quoted text: its own arguments, or what it stands in. */
  lemma CallLetter(q: Quote, n: string)
    requires |n| > 13 && n[..13] == "strftime('%s'" && n[13] == ','
    ensures Quoted(q, n) != "" && Count(LOST, Quoted(q, n)) > 0
  {
    if q.Open() {
      assert n[..13][..10] == "strftime('" && n[10] == n[..13][10];
      assert "strftime(" + "'" == "strftime('";
      QuotesConcat(q, "strftime(", "'");
      PlainKeepsQuotes(q, "strftime(");
      QuotesOfOne(q, '\'');
      assert n[..10] == "strftime('";
      QuotedLetter(q, n, 10);
    } else {
      PlainIsNeutral("strftime(");
      QuotedIsNeutral("%s");
      assert ['\''] + "%s" + ['\''] == "'%s'";
      NeutralConcat("strftime(", "'%s'");
      assert "strftime(" + "'%s'" == "strftime('%s'";
      QuotedLetter(q, n, 13);
    }
  }

  lemma CallTelling(n: string, r: string)
    requires Solitary(n) && Neutral(n) && Plain(r)
    requires |n| > 13 && n[..13] == "strftime('%s'" && n[13] == ','
    requires Without(LOST, r) && Without(ADDED, n)
    ensures Telling(n, r)
  {
    forall q
      ensures Tells(q, n, r)
    {
      CallLetter(q, n);
      QuotedWithout(q, LOST, r);
      QuotedWithout(q, ADDED, n);
    }
  }

  lemma SolitaryEarly(n: string)
    requires n != "" && EarlyLeft(n, n, 0)
    ensures Solitary(n)
  {
    EarlyIsLeft(n, n, 0);
    forall d | -|n| < d < |n| && d != 0
      ensures Clash(n, n, d)
    {
      if d < 0 {
        assert Clash(n, n, -d);
        var k :| DiffersAt(n, n, -d, k);
        assert DiffersAt(n, n, d, k + d);
      }
    }
  }

  lemma IfnullTelling()
    ensures Telling(IFNULL, "COALESCE(")
  {
    SolitaryEarly(IFNULL);
    PlainTelling(IFNULL, "COALESCE(", 3);
  }

  lemma ExtractWithout()
    ensures Without(LOST, "EXTRACT(EPOCH FROM now())::bigint") && Plain("EXTRACT(EPOCH FROM now())::bigint")
  {
  }

  lemma StrftimeSolitary()
    ensures Solitary(STRFTIME)
  {
    SolitaryEarly(STRFTIME);
  }

  lemma SpacedSolitary()
    ensures Solitary(STRFTIME_SPACED)
  {
    SolitaryEarly(STRFTIME_SPACED);
  }

  lemma CallsWithout()
    ensures Without(ADDED, STRFTIME) && Without(ADDED, STRFTIME_SPACED)
  {
  }

  lemma CallsStart()
    ensures STRFTIME[..13] == "strftime('%s'" && STRFTIME_SPACED[..13] == "strftime('%s'"
    ensures STRFTIME[13] == ',' && STRFTIME_SPACED[13] == ','
  {
  }

  lemma CallsTelling()
    ensures Telling(STRFTIME, "EXTRACT(EPOCH FROM now())::bigint")
    ensures Telling(STRFTIME_SPACED, "EXTRACT(EPOCH FROM now())::bigint")
  {
    StrftimeSolitary();
    SpacedSolitary();
    CallsAreNeutral();
    CallsStart();
    CallsWithout();
    ExtractWithout();
    CallTelling(STRFTIME, "EXTRACT(EPOCH FROM now())::bigint");
    CallTelling(STRFTIME_SPACED, "EXTRACT(EPOCH FROM now())::bigint");
  }

  lemma TransactionTelling()
    ensures Telling(BEGIN_IMMEDIATE_TRANSACTION, "BEGIN")
  {
    SolitaryEarly(BEGIN_IMMEDIATE_TRANSACTION);
    PlainTelling(BEGIN_IMMEDIATE_TRANSACTION, "BEGIN", 10);
  }

  lemma ImmediateTelling()
    ensures Telling(BEGIN_IMMEDIATE, "BEGIN")
  {
    SolitaryEarly(BEGIN_IMMEDIATE);
    PlainTelling(BEGIN_IMMEDIATE, "BEGIN", 10);
  }

  // ---- The literal replacements ----

  ghost predicate FunctionsSpare(u: string)
  {
    var a := Replace(u, IFNULL, "COALESCE(");
    var b := Replace(a, STRFTIME, "EXTRACT(EPOCH FROM now())::bigint");
    !Touches(OUTSIDE, u, IFNULL) && !Touches(OUTSIDE, a, STRFTIME) && !Touches(OUTSIDE, b, STRFTIME_SPACED)
  }

  ghost predicate TransactionsSpare(u: string)
  {
    && !Touches(OUTSIDE, u, BEGIN_IMMEDIATE_TRANSACTION)
    && !Touches(OUTSIDE, Replace(u, BEGIN_IMMEDIATE_TRANSACTION, "BEGIN"), BEGIN_IMMEDIATE)
  }

  lemma ComparesChain(s: string, t: string, u: string, x: bool, y: bool)
    requires Compares(s, t, x) && Compares(t, u, y)
    ensures Compares(s, u, x && y)
  {
  }

  lemma FunctionsQuoted(u: string)
    ensures Compares(Quoted(OUTSIDE, u), Quoted(OUTSIDE, Functions(u)), FunctionsSpare(u))
  {
    var r := "EXTRACT(EPOCH FROM now())::bigint";
    var a := Replace(u, IFNULL, "COALESCE(");
    var b := Replace(a, STRFTIME, r);
    IfnullTelling();
    CallsTelling();
    ReplaceQuoted(OUTSIDE, u, IFNULL, "COALESCE(");
    ReplaceQuoted(OUTSIDE, a, STRFTIME, r);
    ReplaceQuoted(OUTSIDE, b, STRFTIME_SPACED, r);
    ComparesChain(Quoted(OUTSIDE, u), Quoted(OUTSIDE, a), Quoted(OUTSIDE, b),
                  !Touches(OUTSIDE, u, IFNULL), !Touches(OUTSIDE, a, STRFTIME));
    ComparesChain(Quoted(OUTSIDE, u), Quoted(OUTSIDE, b), Quoted(OUTSIDE, Functions(u)),
                  !Touches(OUTSIDE, u, IFNULL) && !Touches(OUTSIDE, a, STRFTIME), !Touches(OUTSIDE, b, STRFTIME_SPACED));
  }

  lemma TransactionsQuoted(u: string)
    ensures Compares(Quoted(OUTSIDE, u), Quoted(OUTSIDE, Transactions(u)), TransactionsSpare(u))
  {
    var a := Replace(u, BEGIN_IMMEDIATE_TRANSACTION, "BEGIN");
    TransactionTelling();
    ImmediateTelling();
    ReplaceQuoted(OUTSIDE, u, BEGIN_IMMEDIATE_TRANSACTION, "BEGIN");
    ReplaceQuoted(OUTSIDE, a, BEGIN_IMMEDIATE, "BEGIN");
    ComparesChain(Quoted(OUTSIDE, u), Quoted(OUTSIDE, a), Quoted(OUTSIDE, Transactions(u)),
                  !Touches(OUTSIDE, u, BEGIN_IMMEDIATE_TRANSACTION), !Touches(OUTSIDE, a, BEGIN_IMMEDIATE));
  }

  // ---- The placeholder pass and the INSERT OR pass ----

  lemma {:induction false} SameQuoted(q: Quote, s: string, t: string)
    requires |s| == |t|
    requires forall i :: 0 <= i < |s| ==> t[i] == s[i] || (s[i] == '?' && t[i] == '$' && Quotes(q, s[..i]).Open())
    ensures Quoted(q, s) == Quoted(q, t)
  {
    if s != "" {
      var n := |s| - 1;
      forall i | 0 <= i < n
        ensures t[..n][i] == s[..n][i] || (s[..n][i] == '?' && t[..n][i] == '$' && Quotes(q, s[..n][..i]).Open())
      {
        assert s[..n][..i] == s[..i];
      }
      SameQuoted(q, s[..n], t[..n]);
      SameQuotes(q, s[..n], t[..n]);
    }
  }

  /** Placeholders are found outside quotes only. */
  lemma PlaceholdersSpare(s: string)
    ensures Quoted(OUTSIDE, Placeholders(s)) == Quoted(OUTSIDE, s) && Quotes(OUTSIDE, Placeholders(s)) == Quotes(OUTSIDE, s)
  {
    SameQuoted(OUTSIDE, s, Placeholders(s));
    SameQuotes(OUTSIDE, s, Placeholders(s));
  }

  lemma HeadSpared(s: string, p: string)
    requires StartsWith(Lower(TrimStart(s)), p) && Plain(p)
    ensures var t := "INSERT INTO" + TrimStart(s)[|p|..];
            Quoted(OUTSIDE, t) == Quoted(OUTSIDE, s) && Quotes(OUTSIDE, t) == Quotes(OUTSIDE, s)
  {
    var rest, head := TrimStart(s)[|p|..], "INSERT INTO";
    var w, m := HeadParts(s, p);
    SpacesArePlain(w);
    HeadKeepsQuotes(w, m, p);
    HeadUnquoted(w, m, p);
    QuotedConcat(OUTSIDE, w + m, rest);
    QuotesConcat(OUTSIDE, w + m, rest);
    PlainKeepsQuotes(OUTSIDE, head);
    QuotedPlain(OUTSIDE, head);
    QuotedConcat(OUTSIDE, head, rest);
    QuotesConcat(OUTSIDE, head, rest);
  }

  lemma HeadUnquoted(w: string, m: string, p: string)
    requires Plain(w) && Lower(m) == p && Plain(p)
    ensures Quoted(OUTSIDE, w + m) == ""
  {
    QuotedConcat(OUTSIDE, w, m);
    PlainKeepsQuotes(OUTSIDE, w);
    QuotedPlain(OUTSIDE, w);
    QuotedIgnoreCase(OUTSIDE, m);
    QuotedPlain(OUTSIDE, p);
  }

  /** The pass appends ` ON CONFLICT DO NOTHING`. */
  ghost predicate Appends(s: string)
  {
    && StartsWith(Lower(TrimStart(s)), INSERT_OR_IGNORE)
    && !Contains(Lower("INSERT INTO" + TrimStart(s)[|INSERT_OR_IGNORE|..]), ON_CONFLICT)
  }

  lemma JunkIsPlain(j: string)
    requires forall i :: 0 <= i < |j| ==> IsJunk(j[i])
    ensures Plain(j) && Count(ADDED, j) == 0
  {
    CountNone(ADDED, j);
  }

  lemma PlainEndOutside(a: string, b: string)
    requires Plain(b) && Quotes(OUTSIDE, a).Open()
    ensures Quoted(OUTSIDE, a + b) == Quoted(OUTSIDE, a)
  {
    QuotedConcat(OUTSIDE, a, b);
    QuotedPlain(Quotes(OUTSIDE, a), b);
  }

  lemma PlainEndInside(a: string, b: string)
    requires Plain(b) && !Quotes(OUTSIDE, a).Open()
    ensures Quoted(OUTSIDE, a + b) == Quoted(OUTSIDE, a) + b
  {
    QuotedConcat(OUTSIDE, a, b);
    QuotedPlain(Quotes(OUTSIDE, a), b);
  }

  lemma TailCounts(a: string, j: string, tail: string)
    requires Count(ADDED, j) < Count(ADDED, tail)
    ensures Count(ADDED, a + j) < Count(ADDED, a + tail)
  {
    CountConcat(ADDED, a, j);
    CountConcat(ADDED, a, tail);
  }

  /** From `s` to `t` the end of the statement changed. */
  ghost predicate TailTells(s: string, t: string)
  {
    if Quotes(OUTSIDE, s).Open() then Quoted(OUTSIDE, t) == Quoted(OUTSIDE, s)
    else Count(ADDED, Quoted(OUTSIDE, s)) < Count(ADDED, Quoted(OUTSIDE, t))
  }

  lemma JunkOrTail(a: string, j: string, tail: string)
    requires Plain(j) && Plain(tail) && Count(ADDED, j) < Count(ADDED, tail)
    ensures TailTells(a + j, a + tail)
  {
    QuotesConcat(OUTSIDE, a, j);
    PlainKeepsQuotes(Quotes(OUTSIDE, a), j);
    if Quotes(OUTSIDE, a).Open() {
      PlainEndOutside(a, j);
      PlainEndOutside(a, tail);
    } else {
      PlainEndInside(a, j);
      PlainEndInside(a, tail);
      TailCounts(Quoted(OUTSIDE, a), j, tail);
    }
  }

  lemma TailAdds()
    ensures Plain(" ON CONFLICT DO NOTHING") && Count(ADDED, " ON CONFLICT DO NOTHING") > 0
  {
    assert " ON CONFLICT DO NOTHING"[19] == 'H';
    CountSome(ADDED, " ON CONFLICT DO NOTHING", 19);
  }

  /** Outside quotes the tail may change; inside it would become data. */
  lemma TailQuoted(s: string)
    ensures TailTells(s, TrimTail(s) + " ON CONFLICT DO NOTHING")
  {
    var j := TrimTailParts(s);
    JunkIsPlain(j);
    TailAdds();
    JunkOrTail(TrimTail(s), j, " ON CONFLICT DO NOTHING");
  }

  lemma IgnoreQuoted(s: string)
    requires StartsWith(Lower(TrimStart(s)), INSERT_OR_IGNORE)
    ensures Appends(s) ==> TailTells(s, InsertOr(s))
    ensures !Appends(s) ==> Quoted(OUTSIDE, InsertOr(s)) == Quoted(OUTSIDE, s)
  {
    HeadSpared(s, INSERT_OR_IGNORE);
    TailQuoted("INSERT INTO" + TrimStart(s)[|INSERT_OR_IGNORE|..]);
  }

  lemma InsertOrQuoted(s: string)
    ensures Appends(s) ==> TailTells(s, InsertOr(s))
    ensures !Appends(s) ==> Quoted(OUTSIDE, InsertOr(s)) == Quoted(OUTSIDE, s)
  {
    if StartsWith(Lower(TrimStart(s)), INSERT_OR_IGNORE) {
      IgnoreQuoted(s);
    } else if StartsWith(Lower(TrimStart(s)), INSERT_OR_REPLACE) && Contains(Lower(TrimStart(s)), ON_CONFLICT) {
      HeadSpared(s, INSERT_OR_REPLACE);
    }
  }

  // ---- The pipeline ----

  /** For every statement, quoted text comes out as it went in if and only if no literal replacement finds a
      match that overlaps it, and nothing is appended to a statement that ends inside a quote. */
  lemma QuotedKeptIff(s: string)
    ensures var u := InsertOr(Placeholders(s));
            Quoted(OUTSIDE, ToPostgres(s)) == Quoted(OUTSIDE, s) <==>
            && (Appends(Placeholders(s)) ==> Quotes(OUTSIDE, s).Open())
            && FunctionsSpare(u) && TransactionsSpare(Functions(u))
  {
    var p := Placeholders(s);
    var u := InsertOr(p);
    PlaceholdersSpare(s);
    InsertOrQuoted(p);
    FunctionsQuoted(u);
    TransactionsQuoted(Functions(u));
    ComparesChain(Quoted(OUTSIDE, u), Quoted(OUTSIDE, Functions(u)), Quoted(OUTSIDE, ToPostgres(s)),
                  FunctionsSpare(u), TransactionsSpare(Functions(u)));
  }

  lemma QuotedIfnull()
    ensures Touches(OUTSIDE, "SELECT 'ifnull('", IFNULL)
  {
    var a, m, b := "SELECT '", "ifnull(", "'";
    assert a + m + b == "SELECT 'ifnull('";
    assert Lower(m) == IFNULL;
    assert "SELECT " + "'" == a;
    PlainKeepsQuotes(OUTSIDE, "SELECT ");
    QuotesConcat(OUTSIDE, "SELECT ", "'");
    QuotesOfOne(OUTSIDE, '\'');
    QuotedPlain(Quotes(OUTSIDE, a), m);
    TouchesHere(OUTSIDE, a, m, b, IFNULL);
  }

  lemma NotAnInsert(s: string)
    requires s != "" && s[0] == 'S' && forall i :: 0 <= i < |s| ==> s[i] != '?'
    ensures Placeholders(s) == s && InsertOr(s) == s
  {
    assert TrimStart(s) == s;
    assert Lower(s)[0] == 's';
    assert INSERT_OR_IGNORE[0] == 'i' && INSERT_OR_REPLACE[0] == 'i';
    if StartsWith(Lower(s), INSERT_OR_IGNORE) {
      OccursAt(Lower(s), INSERT_OR_IGNORE, 0, 0);
    }
    if StartsWith(Lower(s), INSERT_OR_REPLACE) {
      OccursAt(Lower(s), INSERT_OR_REPLACE, 0, 0);
    }
  }

  /** A function name inside a string literal is rewritten like any other. */
  lemma QuotedDataChanges()
    ensures Quoted(OUTSIDE, ToPostgres("SELECT 'ifnull('")) != Quoted(OUTSIDE, "SELECT 'ifnull('")
  {
    var s := "SELECT 'ifnull('";
    NotAnInsert(s);
    QuotedIfnull();
    QuotedKeptIff(s);
  }
}
