/** Exactly which statements keep their quoted text in translation, said of the statement itself. */
module SqlData {
  import opened Text
  import opened SqlText
  import opened SqlWords
  import opened SqlTranslate
  import opened SqlPipeline
  import opened SqlQuotes
  import opened SqlIdempotence

  // ---- Where a needle touches quoted text ----

  lemma PlainOfLower(s: string)
    requires Plain(Lower(s))
    ensures Plain(s)
  {
    forall i | 0 <= i < |s|
      ensures s[i] != '\'' && s[i] != '"'
    {
      assert Lower(s)[i] == LowerChar(s[i]);
    }
  }

  /** A needle without quotes touches quoted text exactly if it starts inside quotes. */
  lemma PlainTouchesAt(q: Quote, s: string, p: string, i: int)
    requires Plain(p) && p != ""
    ensures TouchesAt(q, s, p, i) <==> Occurs(Lower(s), p, i) && !Quotes(q, s[..i]).Open()
  {
    if Occurs(Lower(s), p, i) {
      var m := s[i..i + |p|];
      LowerSlice(s, i, i + |p|);
      PlainOfLower(m);
      QuotedPlain(Quotes(q, s[..i]), m);
    }
  }

  predicate IsCall(n: string)
  {
    |n| > 13 && n[..13] == "strftime('%s'" && n[13] == ','
  }

  /** A call of `strftime` touches quoted text wherever it stands. */
  lemma CallTouches(q: Quote, s: string, n: string)
    requires IsCall(n)
    ensures Touches(q, s, n) <==> Contains(Lower(s), n)
  {
    if Contains(Lower(s), n) {
      var i :| Occurs(Lower(s), n, i);
      LowerSlice(s, i, i + |n|);
      CallLetter(Quotes(q, s[..i]), n);
      QuotedIgnoreCase(Quotes(q, s[..i]), s[i..i + |n|]);
      assert TouchesAt(q, s, n, i);
    }
  }

  lemma TouchesEarlier(q: Quote, a: string, b: string, p: string, i: nat)
    requires i + |p| <= |a|
    ensures TouchesAt(q, a, p, i) <==> TouchesAt(q, a + b, p, i)
  {
    LowerConcat(a, b);
    assert Lower(a + b)[i..i + |p|] == Lower(a)[i..i + |p|];
    assert (a + b)[i..i + |p|] == a[i..i + |p|] && (a + b)[..i] == a[..i];
  }

  /** An occurrence around `x` lies before it, after it, or starts where `x` does. */
  ghost predicate MeetsAtStart(p: string, x: string)
  {
    FreeExcept(p, Lower(x), 0)
  }

  lemma WhereAround(a: string, x: string, b: string, p: string, i: int)
    requires MeetsAtStart(p, x) && Occurs(Lower(a + x + b), p, i)
    ensures i + |p| <= |a| || i == |a| || i >= |a + x|
  {
    LowerConcat(a + x, b);
    LowerConcat(a, x);
    Located(Lower(a), Lower(x), Lower(b), p, 0, i);
  }

  lemma NotAtStart(a: string, x: string, b: string, p: string)
    requires Free(p, Lower(x)) && p != ""
    ensures Occurs(Lower(a + x + b), p, |a|) ==> x == ""
  {
    if Occurs(Lower(a + x + b), p, |a|) {
      LowerConcat(a + x, b);
      LowerConcat(a, x);
      LocatedFree(Lower(a), Lower(x), Lower(b), p, |a|);
    }
  }

  /** `x` itself is not where `p` touches quoted text: it has no `p` at its start, or stands outside quotes. */
  ghost predicate Harmless(q: Quote, p: string, x: string)
  {
    x != "" && MeetsAtStart(p, x) && (Free(p, Lower(x)) || q.Open())
  }

  lemma TouchesAround(q: Quote, a: string, x: string, b: string, p: string)
    requires Plain(p) && p != "" && Harmless(Quotes(q, a), p, x) && Touches(q, a + x + b, p)
    ensures Touches(q, a, p) || Touches(Quotes(q, a + x), b, p)
  {
    var i :| TouchesAt(q, a + x + b, p, i);
    WhereAround(a, x, b, p, i);
    if i + |p| <= |a| {
      assert a + x + b == a + (x + b);
      TouchesEarlier(q, a, x + b, p, i);
    } else if i >= |a + x| {
      TouchesAfter(q, a + x, b, p, i);
    } else {
      AtStartHarmless(q, a, x, b, p);
    }
  }

  lemma AtStartHarmless(q: Quote, a: string, x: string, b: string, p: string)
    requires Plain(p) && p != "" && Harmless(Quotes(q, a), p, x)
    ensures !TouchesAt(q, a + x + b, p, |a|)
  {
    PlainTouchesAt(q, a + x + b, p, |a|);
    assert (a + x + b)[..|a|] == a;
    if Free(p, Lower(x)) {
      NotAtStart(a, x, b, p);
    }
  }

  lemma TouchesOn(q: Quote, a: string, x: string, b: string, p: string)
    requires Touches(q, a, p) || Touches(Quotes(q, a + x), b, p)
    ensures Touches(q, a + x + b, p)
  {
    if Touches(q, a, p) {
      var i :| TouchesAt(q, a, p, i);
      TouchesEarlier(q, a, x + b, p, i);
      assert a + x + b == a + (x + b);
    } else {
      var j :| TouchesAt(Quotes(q, a + x), b, p, j);
      TouchesLater(q, a + x, b, p, j);
    }
  }

  // ---- A replacement that leaves another needle's matches alone ----

  /** `p` cannot overlap the needle or the replacement, or only starts where they do while no match is quoted. */
  ghost predicate LeavesTouches(q: Quote, s: string, n: string, r: string, p: string)
  {
    && r != "" && FreeExcept(p, n, 0) && MeetsAtStart(p, r)
    && ((Free(p, n) && Free(p, Lower(r))) || (Plain(n) && !Touches(q, s, n)))
  }

  lemma MatchHarmless(q: Quote, a: string, m: string, b: string, n: string, r: string, p: string)
    requires Solitary(n) && Neutral(n) && Lower(m) == n && !Contains(Lower(a), n)
    requires LeavesTouches(q, a + m + b, n, r, p)
    ensures Harmless(Quotes(q, a), p, m) && Harmless(Quotes(q, a), p, r)
    ensures LeavesTouches(Quotes(q, a), b, n, r, p)
  {
    TouchesCut(q, a, m, b, n);
    NeutralMatch(q, a, m, n);
    if Plain(n) {
      PlainOfLower(m);
      QuotedPlain(Quotes(q, a), m);
    }
  }

  lemma {:induction false} TouchesKept(q: Quote, s: string, n: string, r: string, p: string)
    requires Solitary(n) && Neutral(n) && Plain(r) && Plain(p) && p != "" && LeavesTouches(q, s, n, r, p)
    ensures Touches(q, Replace(s, n, r), p) <==> Touches(q, s, p)
    decreases |s|
  {
    match Cut(s, n)
    case None =>
    case Some((a, b)) =>
      var m := CutMatch(s, n);
      CutParts(s, n);
      NeutralMatch(q, a, m, n);
      QuotesConcat(q, a, r);
      PlainKeepsQuotes(Quotes(q, a), r);
      MatchHarmless(q, a, m, b, n, r, p);
      TouchesKept(Quotes(q, a), b, n, r, p);
      SplitTouches(q, a, m, b, p);
      SplitTouches(q, a, r, Replace(b, n, r), p);
  }

  lemma SplitTouches(q: Quote, a: string, x: string, b: string, p: string)
    requires Plain(p) && p != "" && Harmless(Quotes(q, a), p, x)
    ensures Touches(q, a + x + b, p) <==> Touches(q, a, p) || Touches(Quotes(q, a + x), b, p)
  {
    if Touches(q, a + x + b, p) {
      TouchesAround(q, a, x, b, p);
    }
    if Touches(q, a, p) || Touches(Quotes(q, a + x), b, p) {
      TouchesOn(q, a, x, b, p);
    }
  }

  // ---- The literal replacements, judged by what they are given ----

  lemma BeginFacts()
    ensures FreeExcept(BEGIN_IMMEDIATE, BEGIN_IMMEDIATE_TRANSACTION, 0) && FreeExcept(BEGIN_IMMEDIATE, BEGIN, 0)
  {
    BeginStarts();
    HeadFree(BEGIN_IMMEDIATE, "beg", BEGIN_IMMEDIATE_TRANSACTION, 0);
    HeadFree(BEGIN_IMMEDIATE, "beg", BEGIN, 0);
  }

  lemma StartOccurs(h: string, n: string, p: string, i: int)
    requires Occurs(h, n, i) && StartsWith(n, p)
    ensures Occurs(h, p, i)
  {
    assert h[i..i + |p|] == h[i..i + |n|][0..|p|];
  }

  lemma LongerTouches(q: Quote, s: string, n: string, p: string)
    requires Plain(n) && Plain(p) && p != "" && StartsWith(n, p) && Touches(q, s, n)
    ensures Touches(q, s, p)
  {
    var i :| TouchesAt(q, s, n, i);
    StartOccurs(Lower(s), n, p, i);
    PlainTouchesAt(q, s, n, i);
    PlainTouchesAt(q, s, p, i);
  }

  lemma BeginWords()
    ensures Plain(BEGIN_IMMEDIATE_TRANSACTION) && Plain(BEGIN_IMMEDIATE)
    ensures StartsWith(BEGIN_IMMEDIATE_TRANSACTION, BEGIN_IMMEDIATE)
  {
  }

  lemma TransactionsSpareIff(a: string)
    ensures TransactionsSpare(a) <==> !Touches(OUTSIDE, a, BEGIN_IMMEDIATE)
  {
    BeginWords();
    if Touches(OUTSIDE, a, BEGIN_IMMEDIATE_TRANSACTION) {
      LongerTouches(OUTSIDE, a, BEGIN_IMMEDIATE_TRANSACTION, BEGIN_IMMEDIATE);
    } else {
      Lowered();
      BeginFacts();
      TransactionTelling();
      TouchesKept(OUTSIDE, a, BEGIN_IMMEDIATE_TRANSACTION, "BEGIN", BEGIN_IMMEDIATE);
    }
  }

  lemma CallsClashIfnull()
    ensures Free(STRFTIME, IFNULL) && Free(STRFTIME_SPACED, IFNULL)
  {
    EarlyIsLeft(STRFTIME, "ifn", |STRFTIME|);
    EarlyIsLeft(STRFTIME_SPACED, "ifn", |STRFTIME_SPACED|);
    HeadFree(STRFTIME, "ifn", IFNULL, |STRFTIME|);
    HeadFree(STRFTIME_SPACED, "ifn", IFNULL, |STRFTIME_SPACED|);
  }

  lemma CallsClashCoalesce()
    ensures Free(STRFTIME, COALESCE) && Free(STRFTIME_SPACED, COALESCE)
  {
    EarlyIsLeft(STRFTIME, "coa", |STRFTIME|);
    EarlyIsLeft(STRFTIME_SPACED, "coa", |STRFTIME_SPACED|);
    HeadFree(STRFTIME, "coa", COALESCE, |STRFTIME|);
    HeadFree(STRFTIME_SPACED, "coa", COALESCE, |STRFTIME_SPACED|);
  }

  lemma BeginClashes()
    ensures Free(BEGIN_IMMEDIATE, IFNULL) && Free(BEGIN_IMMEDIATE, COALESCE)
  {
    EarlyIsFree(BEGIN_IMMEDIATE, IFNULL);
    EarlyIsFree(BEGIN_IMMEDIATE, COALESCE);
  }

  lemma CallsKept(u: string)
    ensures var a := Replace(u, IFNULL, "COALESCE(");
            && (Contains(Lower(a), STRFTIME) <==> Contains(Lower(u), STRFTIME))
            && (Contains(Lower(a), STRFTIME_SPACED) <==> Contains(Lower(u), STRFTIME_SPACED))
  {
    Lowered();
    CallsClashIfnull();
    CallsClashCoalesce();
    PatternKept(u, IFNULL, "COALESCE(", STRFTIME);
    PatternKept(u, IFNULL, "COALESCE(", STRFTIME_SPACED);
  }

  lemma ImmediateKept(u: string)
    ensures Touches(OUTSIDE, Replace(u, IFNULL, "COALESCE("), BEGIN_IMMEDIATE) <==> Touches(OUTSIDE, u, BEGIN_IMMEDIATE)
  {
    Lowered();
    BeginClashes();
    IfnullTelling();
    TouchesKept(OUTSIDE, u, IFNULL, "COALESCE(", BEGIN_IMMEDIATE);
  }

  lemma FunctionsSpareIff(u: string)
    ensures FunctionsSpare(u) <==>
            !Touches(OUTSIDE, u, IFNULL) && !Contains(Lower(u), STRFTIME) && !Contains(Lower(u), STRFTIME_SPACED)
    ensures FunctionsSpare(u) ==> Functions(u) == Replace(u, IFNULL, "COALESCE(")
  {
    var r := "EXTRACT(EPOCH FROM now())::bigint";
    var a := Replace(u, IFNULL, "COALESCE(");
    CallsKept(u);
    CallsStart();
    CallTouches(OUTSIDE, a, STRFTIME);
    if !Contains(Lower(a), STRFTIME) {
      ReplaceNothing(a, STRFTIME, r);
      CallTouches(OUTSIDE, a, STRFTIME_SPACED);
      if !Contains(Lower(a), STRFTIME_SPACED) {
        ReplaceNothing(a, STRFTIME_SPACED, r);
      }
    }
  }

  /** No `IFNULL(` and no `BEGIN IMMEDIATE` inside quotes, and no call of `strftime` at all. */
  ghost predicate NothingToTouch(u: string)
  {
    && !Touches(OUTSIDE, u, IFNULL) && !Touches(OUTSIDE, u, BEGIN_IMMEDIATE)
    && !Contains(Lower(u), STRFTIME) && !Contains(Lower(u), STRFTIME_SPACED)
  }

  lemma SpareIff(u: string)
    ensures FunctionsSpare(u) && TransactionsSpare(Functions(u)) <==> NothingToTouch(u)
  {
    FunctionsSpareIff(u);
    ImmediateKept(u);
    TransactionsSpareIff(Functions(u));
  }

  // ---- The first two passes ----

  lemma {:induction false} MarkedTrim(s: string, t: string)
    requires Marked(s, t)
    ensures Marked(TrimStart(s), TrimStart(t))
  {
    if s != "" && IsSpace(s[0]) {
      MarkedTrim(s[1..], t[1..]);
    }
  }

  lemma MarkedAppends(s: string, t: string)
    requires Marked(s, t)
    ensures Appends(s) <==> Appends(t)
  {
    MarkedTrim(s, t);
    MarkedOccurs(TrimStart(s), TrimStart(t), INSERT_OR_IGNORE, 0);
    if StartsWith(Lower(TrimStart(s)), INSERT_OR_IGNORE) {
      var a, b := "INSERT INTO" + TrimStart(s)[|INSERT_OR_IGNORE|..], "INSERT INTO" + TrimStart(t)[|INSERT_OR_IGNORE|..];
      assert Marked(a, b);
      MarkedContains(a, b, ON_CONFLICT);
    }
  }

  lemma MarkedTouches(s: string, t: string, p: string)
    requires Marked(s, t) && '?' !in p && '$' !in p && Plain(p) && p != ""
    ensures Touches(OUTSIDE, s, p) <==> Touches(OUTSIDE, t, p)
  {
    forall i
      ensures TouchesAt(OUTSIDE, s, p, i) <==> TouchesAt(OUTSIDE, t, p, i)
    {
      MarkedOccurs(s, t, p, i);
      PlainTouchesAt(OUTSIDE, s, p, i);
      PlainTouchesAt(OUTSIDE, t, p, i);
      if 0 <= i <= |s| {
        SameQuotes(OUTSIDE, s[..i], t[..i]);
      }
    }
  }

  /** Text without quotes at the start of a statement touches nothing. */
  lemma PlainStart(x: string, s: string, p: string)
    requires Plain(x) && Plain(p) && p != ""
    ensures Touches(OUTSIDE, x + s, p) <==> Touches(OUTSIDE, s, p)
  {
    PlainKeepsQuotes(OUTSIDE, x);
    if Touches(OUTSIDE, x + s, p) {
      var i :| TouchesAt(OUTSIDE, x + s, p, i);
      StartsAfter(x, s, p, i);
      TouchesAfter(OUTSIDE, x, s, p, i);
    }
    if Touches(OUTSIDE, s, p) {
      var j :| TouchesAt(OUTSIDE, s, p, j);
      TouchesLater(OUTSIDE, x, s, p, j);
    }
  }

  lemma StartsAfter(x: string, s: string, p: string, i: int)
    requires Plain(x) && Plain(p) && p != "" && TouchesAt(OUTSIDE, x + s, p, i)
    ensures i > |x|
  {
    PlainTouchesAt(OUTSIDE, x + s, p, i);
    if i <= |x| {
      assert (x + s)[..i] == x[..i];
      PlainKeepsQuotes(OUTSIDE, x[..i]);
    }
  }

  lemma HeadTouches(s: string, head: string, p: string)
    requires StartsWith(Lower(TrimStart(s)), head) && Plain(head) && Plain(p) && p != ""
    ensures Touches(OUTSIDE, "INSERT INTO" + TrimStart(s)[|head|..], p) <==> Touches(OUTSIDE, s, p)
  {
    var rest := TrimStart(s)[|head|..];
    var w, m := HeadParts(s, head);
    PlainOfLower(m);
    PlainStart(w + m, rest, p);
    PlainStart("INSERT INTO", rest, p);
  }

  /** Text without quotes at the end of a statement that ends outside quotes touches nothing. */
  lemma PlainFinish(t: string, x: string, p: string)
    requires Plain(x) && Plain(p) && p != "" && Quotes(OUTSIDE, t).Open()
    ensures Touches(OUTSIDE, t + x, p) <==> Touches(OUTSIDE, t, p)
  {
    if Touches(OUTSIDE, t + x, p) {
      var i :| TouchesAt(OUTSIDE, t + x, p, i);
      EndsBefore(t, x, p, i);
      TouchesEarlier(OUTSIDE, t, x, p, i);
    }
    if Touches(OUTSIDE, t, p) {
      var i :| TouchesAt(OUTSIDE, t, p, i);
      TouchesEarlier(OUTSIDE, t, x, p, i);
    }
  }

  lemma EndsBefore(t: string, x: string, p: string, i: int)
    requires Plain(x) && Plain(p) && p != "" && Quotes(OUTSIDE, t).Open() && TouchesAt(OUTSIDE, t + x, p, i)
    ensures i + |p| <= |t|
  {
    PlainTouchesAt(OUTSIDE, t + x, p, i);
    if i >= |t| {
      assert (t + x)[..i] == t + x[..i - |t|];
      QuotesConcat(OUTSIDE, t, x[..i - |t|]);
      PlainKeepsQuotes(Quotes(OUTSIDE, t), x[..i - |t|]);
    } else if i + |p| > |t| {
      InsideMatch(t, x, p, i);
      assert t == t[..i] + t[i..] && (t + x)[..i] == t[..i];
      QuotesConcat(OUTSIDE, t[..i], t[i..]);
      PlainKeepsQuotes(Quotes(OUTSIDE, t[..i]), t[i..]);
    }
  }

  lemma InsideMatch(t: string, x: string, p: string, i: nat)
    requires Plain(p) && Occurs(Lower(t + x), p, i) && i < |t| < i + |p|
    ensures Plain(t[i..])
  {
    forall k | 0 <= k < |t[i..]|
      ensures t[i..][k] != '\'' && t[i..][k] != '"'
    {
      OccursAt(Lower(t + x), p, i, k);
      assert Lower(t + x)[i + k] == LowerChar(t[i + k]);
    }
  }

  lemma TailTouches(s: string, p: string)
    requires Plain(p) && p != "" && Quotes(OUTSIDE, s).Open()
    ensures Touches(OUTSIDE, TrimTail(s) + " ON CONFLICT DO NOTHING", p) <==> Touches(OUTSIDE, s, p)
  {
    var j := TrimTailParts(s);
    JunkIsPlain(j);
    TailAdds();
    QuotesConcat(OUTSIDE, TrimTail(s), j);
    PlainKeepsQuotes(Quotes(OUTSIDE, TrimTail(s)), j);
    PlainFinish(TrimTail(s), j, p);
    PlainFinish(TrimTail(s), " ON CONFLICT DO NOTHING", p);
  }

  lemma InsertOrTouches(s: string, p: string)
    requires Plain(p) && p != "" && (Appends(s) ==> Quotes(OUTSIDE, s).Open())
    ensures Touches(OUTSIDE, InsertOr(s), p) <==> Touches(OUTSIDE, s, p)
  {
    if StartsWith(Lower(TrimStart(s)), INSERT_OR_IGNORE) {
      var stmt := "INSERT INTO" + TrimStart(s)[|INSERT_OR_IGNORE|..];
      HeadTouches(s, INSERT_OR_IGNORE, p);
      HeadSpared(s, INSERT_OR_IGNORE);
      if Appends(s) {
        TailTouches(stmt, p);
      }
    } else if StartsWith(Lower(TrimStart(s)), INSERT_OR_REPLACE) && Contains(Lower(TrimStart(s)), ON_CONFLICT) {
      HeadTouches(s, INSERT_OR_REPLACE, p);
    }
  }

  lemma CallClashesHead(call: string, head: string)
    requires call == STRFTIME || call == STRFTIME_SPACED
    requires StartsWith(head, "ins") && NoStartIn(call, head)
    ensures Free(call, head)
  {
    EarlyIsLeft(call, "ins", |call|);
    HeadFree(call, "ins", head, |call|);
  }

  lemma CallClashesInsert(call: string)
    requires call == STRFTIME || call == STRFTIME_SPACED
    ensures Free(call, INSERT_INTO) && Free(call, INSERT_OR_IGNORE) && Free(call, INSERT_OR_REPLACE)
  {
    CallClashesHead(call, INSERT_INTO);
    CallClashesHead(call, INSERT_OR_IGNORE);
    CallClashesHead(call, INSERT_OR_REPLACE);
  }

  lemma CallClashesConflict(call: string)
    requires call == STRFTIME || call == STRFTIME_SPACED
    ensures Free(call, DO_NOTHING)
  {
    EarlyIsLeft(call, " on", |call|);
    HeadFree(call, " on", DO_NOTHING, |call|);
  }

  lemma CallIsBare(call: string)
    requires call == STRFTIME || call == STRFTIME_SPACED
    ensures call != "" && !IsJunk(call[|call| - 1]) && !IsSpace(call[0]) && '?' !in call && '$' !in call
  {
  }

  lemma CallFound(s: string, call: string)
    requires call == STRFTIME || call == STRFTIME_SPACED
    ensures Contains(Lower(InsertOr(Placeholders(s))), call) <==> Contains(Lower(s), call)
  {
    CallIsBare(call);
    CallClashesInsert(call);
    CallClashesConflict(call);
    PlaceholdersKeep(s, call);
    InsertOrKeepsPattern(Placeholders(s), call);
  }

  lemma NeedleFound(s: string, p: string)
    requires '?' !in p && '$' !in p && Plain(p) && p != "" && (Appends(s) ==> Quotes(OUTSIDE, s).Open())
    ensures Touches(OUTSIDE, InsertOr(Placeholders(s)), p) <==> Touches(OUTSIDE, s, p)
  {
    PlaceholdersMark(s);
    PlaceholdersSpare(s);
    MarkedAppends(s, Placeholders(s));
    MarkedTouches(s, Placeholders(s), p);
    InsertOrTouches(Placeholders(s), p);
  }

  lemma NothingToTouchKept(s: string)
    requires Appends(s) ==> Quotes(OUTSIDE, s).Open()
    ensures NothingToTouch(InsertOr(Placeholders(s))) <==> NothingToTouch(s)
  {
    NeedleFound(s, IFNULL);
    NeedleFound(s, BEGIN_IMMEDIATE);
    CallFound(s, STRFTIME);
    CallFound(s, STRFTIME_SPACED);
  }

  /** For every statement, the translation leaves all quoted text alone if and only if the statement has no
      `IFNULL(` and no `BEGIN IMMEDIATE` inside quotes, in any case, and no call of `strftime('%s','now')`, whose
      own arguments are quoted, and does not end inside a quote when ` ON CONFLICT DO NOTHING` is appended. */
  lemma DataKeptIff(s: string)
    ensures Quoted(OUTSIDE, ToPostgres(s)) == Quoted(OUTSIDE, s) <==>
            NothingToTouch(s) && (Appends(s) ==> Quotes(OUTSIDE, s).Open())
  {
    PlaceholdersMark(s);
    MarkedAppends(s, Placeholders(s));
    QuotedKeptIff(s);
    SpareIff(InsertOr(Placeholders(s)));
    if Appends(s) ==> Quotes(OUTSIDE, s).Open() {
      NothingToTouchKept(s);
    }
  }
}
