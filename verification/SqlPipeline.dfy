/** `rewrite_insert_or`, `rewrite_functions`, `rewrite_transactions` and the pipeline
    `to_postgres`. */
module SqlPipeline {
  import opened Text
  import opened SqlText
  import opened SqlWords
  import opened SqlTranslate

  // ---- Trimming ----

  function TrimSemicolons(s: string): string
  {
    if s != "" && s[|s| - 1] == ';' then TrimSemicolons(s[..|s| - 1]) else s
  }

  /** What is trimmed off the end. */
  predicate IsJunk(c: char) { IsSpace(c) || c == ';' }

  lemma {:induction false} TrimStartParts(s: string) returns (w: string)
    ensures s == w + TrimStart(s) && forall i :: 0 <= i < |w| ==> IsSpace(w[i])
    ensures TrimStart(s) == "" || !IsSpace(TrimStart(s)[0])
  {
    if s != "" && IsSpace(s[0]) {
      var v := TrimStartParts(s[1..]);
      w := [s[0]] + v;
      assert s == [s[0]] + s[1..];
    } else {
      w := "";
    }
  }

  lemma {:induction false} TrimStartOf(w: string, t: string)
    requires forall i :: 0 <= i < |w| ==> IsSpace(w[i])
    requires t == "" || !IsSpace(t[0])
    ensures TrimStart(w + t) == t
  {
    if w == "" {
      assert w + t == t;
    } else {
      TrimStartOf(w[1..], t);
      assert (w + t)[1..] == w[1..] + t;
    }
  }

  lemma {:induction false} TrimEndParts(s: string) returns (j: string)
    ensures s == TrimEnd(s) + j && forall i :: 0 <= i < |j| ==> IsJunk(j[i])
  {
    if s != "" && IsSpace(s[|s| - 1]) {
      var k := TrimEndParts(s[..|s| - 1]);
      j := k + [s[|s| - 1]];
      assert s == s[..|s| - 1] + [s[|s| - 1]];
    } else {
      j := "";
    }
  }

  lemma {:induction false} TrimSemicolonsParts(s: string) returns (j: string)
    ensures s == TrimSemicolons(s) + j && forall i :: 0 <= i < |j| ==> IsJunk(j[i])
  {
    if s != "" && s[|s| - 1] == ';' {
      var k := TrimSemicolonsParts(s[..|s| - 1]);
      j := k + [s[|s| - 1]];
      assert s == s[..|s| - 1] + [s[|s| - 1]];
    } else {
      j := "";
    }
  }

  function TrimTail(s: string): string
  {
    TrimEnd(TrimSemicolons(s))
  }

  lemma TrimTailParts(s: string) returns (j: string)
    ensures s == TrimTail(s) + j && forall i :: 0 <= i < |j| ==> IsJunk(j[i])
  {
    var k := TrimSemicolonsParts(s);
    var l := TrimEndParts(TrimSemicolons(s));
    j := l + k;
  }

  // ---- The rewrites ----

  ghost function InsertOr(sql: string): string
  {
    var t := TrimStart(sql);
    if StartsWith(Lower(t), INSERT_OR_IGNORE) then
      var stmt := "INSERT INTO" + t[|INSERT_OR_IGNORE|..];
      if Contains(Lower(stmt), ON_CONFLICT) then stmt else TrimTail(stmt) + " ON CONFLICT DO NOTHING"
    else if StartsWith(Lower(t), INSERT_OR_REPLACE) && Contains(Lower(t), ON_CONFLICT) then
      "INSERT INTO" + t[|INSERT_OR_REPLACE|..]
    else
      sql
  }

  ghost function Functions(sql: string): string
  {
    var a := Replace(sql, IFNULL, "COALESCE(");
    var b := Replace(a, STRFTIME, "EXTRACT(EPOCH FROM now())::bigint");
    Replace(b, STRFTIME_SPACED, "EXTRACT(EPOCH FROM now())::bigint")
  }

  ghost function Transactions(sql: string): string
  {
    Replace(Replace(sql, BEGIN_IMMEDIATE_TRANSACTION, "BEGIN"), BEGIN_IMMEDIATE, "BEGIN")
  }

  ghost function ToPostgres(sql: string): string
  {
    Transactions(Functions(InsertOr(Placeholders(sql))))
  }

  method RewriteInsertOr(sql: string) returns (out: string)
    ensures out == InsertOr(sql)
  {
    var trimmed := TrimStart(sql);
    var lowered := Lower(trimmed);
    if StartsWith(lowered, "insert or ignore into") {
      var rest := trimmed[|"insert or ignore into"|..];
      var stmt := "INSERT INTO" + rest;
      var found := FindFirst(Lower(stmt), "on conflict");
      if found.Some? {
        return stmt;
      }
      return TrimEnd(TrimSemicolons(stmt)) + " ON CONFLICT DO NOTHING";
    }
    var conflict := FindFirst(lowered, "on conflict");
    if StartsWith(lowered, "insert or replace into") && conflict.Some? {
      var rest := trimmed[|"insert or replace into"|..];
      return "INSERT INTO" + rest;
    }
    return sql;
  }

  lemma LoweredNeedles()
    ensures Lower("IFNULL(") == IFNULL && Lower("BEGIN IMMEDIATE") == BEGIN_IMMEDIATE
  {
  }

  lemma LoweredCalls()
    ensures Lower("strftime('%s','now')") == STRFTIME && Lower("strftime('%s', 'now')") == STRFTIME_SPACED
  {
  }

  lemma LoweredTransaction()
    ensures Lower("BEGIN IMMEDIATE TRANSACTION") == BEGIN_IMMEDIATE_TRANSACTION
  {
  }

  method RewriteFunctions(sql: string) returns (out: string)
    ensures out == Functions(sql)
  {
    LoweredNeedles();
    LoweredCalls();
    out := ReplaceAsciiCaseInsensitive(sql, "IFNULL(", "COALESCE(");
    out := ReplaceAsciiCaseInsensitive(out, "strftime('%s','now')", "EXTRACT(EPOCH FROM now())::bigint");
    out := ReplaceAsciiCaseInsensitive(out, "strftime('%s', 'now')", "EXTRACT(EPOCH FROM now())::bigint");
  }

  method RewriteTransactions(sql: string) returns (out: string)
    ensures out == Transactions(sql)
  {
    LoweredNeedles();
    LoweredTransaction();
    out := ReplaceAsciiCaseInsensitive(sql, "BEGIN IMMEDIATE TRANSACTION", "BEGIN");
    out := ReplaceAsciiCaseInsensitive(out, "BEGIN IMMEDIATE", "BEGIN");
  }

  method TranslateStatement(sql: string) returns (out: string)
    ensures out == ToPostgres(sql)
  {
    out := RewritePlaceholders(sql);
    out := RewriteInsertOr(out);
    out := RewriteFunctions(out);
    out := RewriteTransactions(out);
  }

  // ---- The placeholder pass finds nothing in a result ----

  lemma FunctionsSettled(s: string)
    requires Settled(OUTSIDE, s)
    ensures Settled(OUTSIDE, Functions(s))
  {
    PlainIsNeutral(IFNULL);
    CallsAreNeutral();
    var r := "EXTRACT(EPOCH FROM now())::bigint";
    ReplaceSettled(OUTSIDE, s, IFNULL, "COALESCE(");
    var a := Replace(s, IFNULL, "COALESCE(");
    ReplaceSettled(OUTSIDE, a, STRFTIME, r);
    ReplaceSettled(OUTSIDE, Replace(a, STRFTIME, r), STRFTIME_SPACED, r);
  }

  lemma TransactionsSettled(s: string)
    requires Settled(OUTSIDE, s)
    ensures Settled(OUTSIDE, Transactions(s))
  {
    PlainIsNeutral(BEGIN_IMMEDIATE_TRANSACTION);
    PlainIsNeutral(BEGIN_IMMEDIATE);
    ReplaceSettled(OUTSIDE, s, BEGIN_IMMEDIATE_TRANSACTION, "BEGIN");
    ReplaceSettled(OUTSIDE, Replace(s, BEGIN_IMMEDIATE_TRANSACTION, "BEGIN"), BEGIN_IMMEDIATE, "BEGIN");
  }

  lemma SplitAt(w: string, t: string, n: nat)
    requires n <= |t|
    ensures w + t == w + t[..n] + t[n..]
  {
  }

  lemma LowerOfStart(t: string, p: string)
    requires StartsWith(Lower(t), p)
    ensures |p| <= |t| && Lower(t[..|p|]) == p
  {
    LowerSlice(t, 0, |p|);
    assert t[0..|p|] == t[..|p|];
  }

  /** A statement head: white space and keywords, then the rest. */
  lemma HeadParts(s: string, p: string) returns (w: string, m: string)
    requires StartsWith(Lower(TrimStart(s)), p)
    ensures s == w + m + TrimStart(s)[|p|..] && Lower(m) == p
    ensures forall i :: 0 <= i < |w| ==> IsSpace(w[i])
  {
    w := TrimStartParts(s);
    LowerOfStart(TrimStart(s), p);
    m := TrimStart(s)[..|p|];
    SplitAt(w, TrimStart(s), |p|);
  }

  lemma SpacesArePlain(w: string)
    requires forall i :: 0 <= i < |w| ==> IsSpace(w[i])
    ensures Plain(w)
  {
  }

  /** White space and a keyword in any case leave the quote state alone. */
  lemma HeadKeepsQuotes(w: string, m: string, p: string)
    requires Plain(w) && Lower(m) == p && Plain(p)
    ensures Quotes(OUTSIDE, w + m) == OUTSIDE
  {
    QuotesConcat(OUTSIDE, w, m);
    PlainKeepsQuotes(OUTSIDE, w);
    QuotesIgnoreCase(OUTSIDE, m);
    PlainKeepsQuotes(OUTSIDE, p);
  }

  lemma InsertIntoSettled(rest: string)
    requires Settled(OUTSIDE, rest)
    ensures Settled(OUTSIDE, "INSERT INTO" + rest)
  {
    var head := "INSERT INTO";
    PlainKeepsQuotes(OUTSIDE, head);
    assert "" + head == head;
    SettledJoin(OUTSIDE, "", head, rest);
  }

  lemma HeadReplacedSettled(s: string, p: string)
    requires Settled(OUTSIDE, s) && StartsWith(Lower(TrimStart(s)), p) && Plain(p)
    ensures Settled(OUTSIDE, "INSERT INTO" + TrimStart(s)[|p|..])
  {
    var rest := TrimStart(s)[|p|..];
    var w, m := HeadParts(s, p);
    SpacesArePlain(w);
    HeadKeepsQuotes(w, m, p);
    SettledParts(OUTSIDE, w, m, rest);
    InsertIntoSettled(rest);
  }

  lemma ConflictAppendedSettled(s: string)
    requires Settled(OUTSIDE, s)
    ensures Settled(OUTSIDE, TrimTail(s) + " ON CONFLICT DO NOTHING")
  {
    var j := TrimTailParts(s);
    assert s == TrimTail(s) + j + "";
    SettledParts(OUTSIDE, TrimTail(s), j, "");
    SettledJoin(OUTSIDE, TrimTail(s), " ON CONFLICT DO NOTHING", "");
    assert TrimTail(s) + " ON CONFLICT DO NOTHING" + "" == TrimTail(s) + " ON CONFLICT DO NOTHING";
  }

  lemma InsertOrSettled(s: string)
    requires Settled(OUTSIDE, s)
    ensures Settled(OUTSIDE, InsertOr(s))
  {
    var t := TrimStart(s);
    if StartsWith(Lower(t), INSERT_OR_IGNORE) {
      HeadReplacedSettled(s, INSERT_OR_IGNORE);
      ConflictAppendedSettled("INSERT INTO" + t[|INSERT_OR_IGNORE|..]);
    } else if StartsWith(Lower(t), INSERT_OR_REPLACE) && Contains(Lower(t), ON_CONFLICT) {
      HeadReplacedSettled(s, INSERT_OR_REPLACE);
    }
  }

  lemma ResultSettled(s: string)
    ensures Settled(OUTSIDE, ToPostgres(s))
  {
    PlaceholdersSettle(s);
    InsertOrSettled(Placeholders(s));
    FunctionsSettled(InsertOr(Placeholders(s)));
    TransactionsSettled(Functions(InsertOr(Placeholders(s))));
  }

  // ---- The function rewrites find nothing in a result ----

  ghost predicate NoCalls(s: string)
  {
    && !Contains(Lower(s), IFNULL) && !Contains(Lower(s), STRFTIME) && !Contains(Lower(s), STRFTIME_SPACED)
  }

  lemma FunctionsGone(s: string)
    ensures NoCalls(Functions(s))
  {
    var r := "EXTRACT(EPOCH FROM now())::bigint";
    var a := Replace(s, IFNULL, "COALESCE(");
    var b := Replace(a, STRFTIME, r);
    Lowered();
    LoweredExtract();
    IfnullNotCreated();
    StrftimeNotCreated();
    SpacedNotCreated();
    NeedleGone(s, IFNULL, "COALESCE(");
    NeedleGone(a, STRFTIME, r);
    NeedleGone(b, STRFTIME_SPACED, r);
    if Contains(Lower(Functions(s)), IFNULL) {
      NotCreated(b, STRFTIME_SPACED, r, IFNULL);
      NotCreated(a, STRFTIME, r, IFNULL);
    }
    if Contains(Lower(Functions(s)), STRFTIME) {
      NotCreated(b, STRFTIME_SPACED, r, STRFTIME);
    }
  }

  /** What `BEGIN` cannot help to spell is not there after the transaction rewrite either. */
  lemma TransactionsNotCreated(s: string, p: string)
    requires Free(p, BEGIN) && Contains(Lower(Transactions(s)), p)
    ensures Contains(Lower(s), p)
  {
    Lowered();
    var a := Replace(s, BEGIN_IMMEDIATE_TRANSACTION, "BEGIN");
    NotCreated(a, BEGIN_IMMEDIATE, "BEGIN", p);
    NotCreated(s, BEGIN_IMMEDIATE_TRANSACTION, "BEGIN", p);
  }

  lemma ResultNoCalls(s: string)
    ensures NoCalls(ToPostgres(s))
  {
    var u := Functions(InsertOr(Placeholders(s)));
    FunctionsGone(InsertOr(Placeholders(s)));
    IfnullNotCreated();
    StrftimeNotCreated();
    SpacedNotCreated();
    if Contains(Lower(Transactions(u)), IFNULL) {
      TransactionsNotCreated(u, IFNULL);
    }
    if Contains(Lower(Transactions(u)), STRFTIME) {
      TransactionsNotCreated(u, STRFTIME);
    }
    if Contains(Lower(Transactions(u)), STRFTIME_SPACED) {
      TransactionsNotCreated(u, STRFTIME_SPACED);
    }
  }

  lemma NoCallsUnchanged(s: string)
    requires NoCalls(s)
    ensures Functions(s) == s
  {
    ReplaceNothing(s, IFNULL, "COALESCE(");
    ReplaceNothing(s, STRFTIME, "EXTRACT(EPOCH FROM now())::bigint");
    ReplaceNothing(s, STRFTIME_SPACED, "EXTRACT(EPOCH FROM now())::bigint");
  }
}
