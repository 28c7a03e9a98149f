/** When `to_postgres` is idempotent. The source says it is for statements containing none
    of its constructs; in fact it is for all statements except those that repeat
    `begin immediate` in one of six ways. */
module SqlIdempotence {
  import opened Wrappers
  import opened Text
  import opened SqlText
  import opened SqlWords
  import opened SqlTranslate
  import opened SqlPipeline

  // ---- `INSERT OR` finds nothing in a result ----

  ghost predicate Fires(s: string)
  {
    var low := Lower(TrimStart(s));
    StartsWith(low, INSERT_OR_IGNORE) || (StartsWith(low, INSERT_OR_REPLACE) && Contains(low, ON_CONFLICT))
  }

  lemma InsertIntoDoesNotFire(s: string)
    requires StartsWith(s, "INSERT INTO")
    ensures !Fires(s)
  {
    OccursAt(s, "INSERT INTO", 0, 0);
    OccursAt(s, "INSERT INTO", 0, 7);
    assert TrimStart(s) == s;
    assert Lower(s)[7] == 'i';
    if StartsWith(Lower(s), INSERT_OR_IGNORE) {
      OccursAt(Lower(s), INSERT_OR_IGNORE, 0, 7);
    }
    if StartsWith(Lower(s), INSERT_OR_REPLACE) {
      OccursAt(Lower(s), INSERT_OR_REPLACE, 0, 7);
    }
  }

  lemma KeptBeforeJunk(s: string, t: string, j: string, k: nat)
    requires s == t + j && k < |s| && !IsJunk(s[k]) && forall i :: 0 <= i < |j| ==> IsJunk(j[i])
    ensures k < |t|
  {
  }

  lemma TrimTailKeepsStart(s: string)
    requires StartsWith(s, "INSERT INTO")
    ensures StartsWith(TrimTail(s), "INSERT INTO")
  {
    var j := TrimTailParts(s);
    var t := TrimTail(s);
    OccursAt(s, "INSERT INTO", 0, 10);
    KeptBeforeJunk(s, t, j, 10);
    assert s[0..11] == t[0..11];
  }

  lemma InsertOrSettles(s: string)
    ensures !Fires(InsertOr(s))
  {
    var t := TrimStart(s);
    if StartsWith(Lower(t), INSERT_OR_IGNORE) {
      var stmt := "INSERT INTO" + t[|INSERT_OR_IGNORE|..];
      assert stmt[0..11] == "INSERT INTO";
      if Contains(Lower(stmt), ON_CONFLICT) {
        InsertIntoDoesNotFire(stmt);
      } else {
        TrimTailKeepsStart(stmt);
        var out := TrimTail(stmt) + " ON CONFLICT DO NOTHING";
        assert out[0..11] == TrimTail(stmt)[0..11];
        InsertIntoDoesNotFire(out);
      }
    } else if StartsWith(Lower(t), INSERT_OR_REPLACE) && Contains(Lower(t), ON_CONFLICT) {
      var stmt := "INSERT INTO" + t[|INSERT_OR_REPLACE|..];
      assert stmt[0..11] == "INSERT INTO";
      InsertIntoDoesNotFire(stmt);
    }
  }

  lemma SliceCons(c: char, h: string, i: nat, k: nat)
    requires i + k <= |h|
    ensures ([c] + h)[i + 1..i + 1 + k] == h[i..i + k]
  {
  }

  lemma OccursCons(c: char, h: string, n: string, j: int)
    requires n != "" && c != n[0]
    ensures Occurs([c] + h, n, j) <==> Occurs(h, n, j - 1)
  {
    if Occurs([c] + h, n, j) {
      OccursAt([c] + h, n, j, 0);
    }
    if 0 < j && j - 1 + |n| <= |h| {
      SliceCons(c, h, j - 1, |n|);
    }
  }

  lemma FindCons(c: char, h: string, n: string)
    requires n != "" && c != n[0]
    ensures Find([c] + h, n) == match Find(h, n) case None => None case Some(i) => Some(i + 1)
  {
    var g := [c] + h;
    forall j
      ensures Occurs(g, n, j) <==> Occurs(h, n, j - 1)
    {
      OccursCons(c, h, n, j);
    }
    if Find(h, n).Some? {
      assert Occurs(g, n, Find(h, n).value + 1);
    }
    if Find(g, n).Some? {
      assert Occurs(h, n, Find(g, n).value - 1);
    }
  }

  lemma CutCons(c: char, t: string, n: string)
    requires n != "" && LowerChar(c) != n[0]
    ensures Cut([c] + t, n) == match Cut(t, n) case None => None case Some((a, b)) => Some(([c] + a, b))
  {
    LowerConcat([c], t);
    assert Lower([c]) == [LowerChar(c)];
    FindCons(LowerChar(c), Lower(t), n);
    var s := [c] + t;
    var found := Find(Lower(t), n);
    if found.Some? {
      var i := found.value;
      assert s[..i + 1] == [c] + t[..i];
      assert s[i + 1 + |n|..] == t[i + |n|..];
    }
  }

  /** A character that cannot start the needle is copied. */
  lemma ReplaceCons(c: char, t: string, n: string, r: string)
    requires n != "" && LowerChar(c) != n[0]
    ensures Replace([c] + t, n, r) == [c] + Replace(t, n, r)
  {
    CutCons(c, t, n);
    if Cut(t, n).Some? {
      var (a, b) := Cut(t, n).value;
      Unfold([c] + t, n, r, [c] + a, b);
      Unfold(t, n, r, a, b);
      Assoc([c], a, r, Replace(b, n, r));
    }
  }

  lemma {:induction false} ReplaceAfterSpace(w: string, t: string, n: string, r: string)
    requires n != "" && !IsSpace(n[0]) && forall i :: 0 <= i < |w| ==> IsSpace(w[i])
    ensures Replace(w + t, n, r) == w + Replace(t, n, r)
  {
    if w == "" {
      assert w + t == t;
    } else {
      ReplaceAfterSpace(w[1..], t, n, r);
      ReplaceCons(w[0], w[1..] + t, n, r);
      ConsConcat(w, t);
      ConsConcat(w, Replace(t, n, r));
    }
  }

  lemma ConsConcat(w: string, t: string)
    requires w != ""
    ensures [w[0]] + (w[1..] + t) == w + t
  {
  }

  lemma TrimReplace(s: string, n: string, r: string)
    requires n != "" && r != "" && !IsSpace(n[0]) && !IsSpace(r[0])
    ensures TrimStart(Replace(s, n, r)) == Replace(TrimStart(s), n, r)
  {
    var t := TrimStart(s);
    var w := TrimStartParts(s);
    ReplaceAfterSpace(w, t, n, r);
    var x := Replace(t, n, r);
    if Cut(t, n).Some? {
      var m := CutMatch(t, n);
      var (a, b) := Cut(t, n).value;
      Unfold(t, n, r, a, b);
      assert a != "" ==> a[0] == t[0];
    }
    TrimStartOf(w, x);
  }

  lemma ReplaceDoesNotFire(s: string, n: string, r: string, l: string)
    requires n != "" && r != "" && !IsSpace(n[0]) && !IsSpace(r[0]) && Lower(r) == l
    requires HeadsClash(n) && HeadsClash(l) && Free(ON_CONFLICT, l) && !Fires(s)
    ensures !Fires(Replace(s, n, r))
  {
    var t := TrimStart(s);
    TrimReplace(s, n, r);
    StartKept(t, n, r, INSERT_OR_IGNORE);
    StartKept(t, n, r, INSERT_OR_REPLACE);
    if Contains(Lower(Replace(t, n, r)), ON_CONFLICT) {
      NotCreated(t, n, r, ON_CONFLICT);
    }
  }

  lemma FunctionsDoNotFire(s: string)
    requires !Fires(s)
    ensures !Fires(Functions(s))
  {
    var r := "EXTRACT(EPOCH FROM now())::bigint";
    var a := Replace(s, IFNULL, "COALESCE(");
    HeadsCoalesce();
    HeadsExtract();
    ConflictNotCreated();
    Lowered();
    LoweredExtract();
    ReplaceDoesNotFire(s, IFNULL, "COALESCE(", COALESCE);
    ReplaceDoesNotFire(a, STRFTIME, r, EXTRACT);
    ReplaceDoesNotFire(Replace(a, STRFTIME, r), STRFTIME_SPACED, r, EXTRACT);
  }

  lemma TransactionsDoNotFire(s: string)
    requires !Fires(s)
    ensures !Fires(Transactions(s))
  {
    HeadsTransactions();
    ConflictNotCreated();
    Lowered();
    ReplaceDoesNotFire(s, BEGIN_IMMEDIATE_TRANSACTION, "BEGIN", BEGIN);
    ReplaceDoesNotFire(Replace(s, BEGIN_IMMEDIATE_TRANSACTION, "BEGIN"), BEGIN_IMMEDIATE, "BEGIN", BEGIN);
  }

  lemma ResultDoesNotFire(s: string)
    ensures !Fires(ToPostgres(s))
  {
    var y := InsertOr(Placeholders(s));
    InsertOrSettles(Placeholders(s));
    FunctionsDoNotFire(y);
    TransactionsDoNotFire(Functions(y));
  }

  // ---- Repeated `begin immediate` ----

  ghost predicate Has(s: string, transaction: bool, e: string)
  {
    Contains(Lower(s), Stem(transaction) + e)
  }

  /** The statement holds, in any case, `begin immediate` or `begin immediate transaction
      immediate`, then ` immediat`, then the missing `e` or one of the two calls whose
      rewritten form starts with it. */
  ghost predicate Stutters(s: string)
  {
    exists transaction, e :: IsEnding(e) && Has(s, transaction, e)
  }

  /** The transaction rewrite leaves a `begin immediate` behind exactly when there was a
      repeated one. */
  lemma TransactionsLeave(u: string)
    ensures Contains(Lower(Transactions(u)), BEGIN_IMMEDIATE) <==> Has(u, false, "e") || Has(u, true, "e")
  {
    var v := Replace(u, BEGIN_IMMEDIATE_TRANSACTION, "BEGIN");
    ImmediateLeaves(v);
    TransactionCreates(u);
    Completed();
  }

  lemma ImmediateLeaves(v: string)
    ensures Contains(Lower(Replace(v, BEGIN_IMMEDIATE, "BEGIN")), BEGIN_IMMEDIATE) <==> Contains(Lower(v), BEGIN_TWICE)
  {
    Lowered();
    BeginParts();
    ImmediateFacts();
    NeedleLeft(v, "BEGIN", BEGIN, IMMEDIATE);
  }

  lemma TransactionCreates(u: string)
    ensures Contains(Lower(Replace(u, BEGIN_IMMEDIATE_TRANSACTION, "BEGIN")), BEGIN_TWICE) <==>
            Contains(Lower(u), BEGIN_TWICE) || Contains(Lower(u), BEGIN_IMMEDIATE_TRANSACTION + TWICE)
  {
    Lowered();
    BeginParts();
    TransactionFacts();
    HeadCreated(u, BEGIN_IMMEDIATE_TRANSACTION, "BEGIN", BEGIN, TWICE);
  }

  lemma IfnullKeeps(s: string, transaction: bool, e: string)
    requires IsEnding(e)
    ensures Has(Replace(s, IFNULL, "COALESCE("), transaction, e) <==> Has(s, transaction, e)
  {
    PartsIfnull();
    PartsCoalesce();
    EarlyCalls();
    Lowered();
    StutterFree(transaction, e, "ifn", IFNULL);
    StutterFree(transaction, e, "coa", COALESCE);
    PatternKept(s, IFNULL, "COALESCE(", Stem(transaction) + e);
  }

  lemma CallCreates(s: string, transaction: bool, call: string)
    requires call == STRFTIME || call == STRFTIME_SPACED
    ensures Has(Replace(s, call, "EXTRACT(EPOCH FROM now())::bigint"), transaction, "e")
       <==> Has(s, transaction, "e") || Has(s, transaction, call)
  {
    LoweredExtract();
    StutterCall(transaction, call);
    StutterExtract(transaction);
    assert EXTRACT[0..1] == "e";
    TailCreated(s, call, "EXTRACT(EPOCH FROM now())::bigint", Stem(transaction), "e");
  }

  lemma CallKeepsOther(s: string, transaction: bool)
    ensures Has(Replace(s, STRFTIME, "EXTRACT(EPOCH FROM now())::bigint"), transaction, STRFTIME_SPACED)
       <==> Has(s, transaction, STRFTIME_SPACED)
  {
    LoweredExtract();
    StutterOtherCall(transaction);
    StutterExtract(transaction);
    PatternKept(s, STRFTIME, "EXTRACT(EPOCH FROM now())::bigint", Stem(transaction) + STRFTIME_SPACED);
  }

  lemma FunctionsHave(s: string, transaction: bool)
    ensures Has(Functions(s), transaction, "e") <==>
            Has(s, transaction, "e") || Has(s, transaction, STRFTIME) || Has(s, transaction, STRFTIME_SPACED)
  {
    var a := Replace(s, IFNULL, "COALESCE(");
    var b := Replace(a, STRFTIME, "EXTRACT(EPOCH FROM now())::bigint");
    CallCreates(b, transaction, STRFTIME_SPACED);
    CallCreates(a, transaction, STRFTIME);
    CallKeepsOther(a, transaction);
    IfnullKeeps(s, transaction, "e");
    IfnullKeeps(s, transaction, STRFTIME);
    IfnullKeeps(s, transaction, STRFTIME_SPACED);
  }

  // ---- `INSERT OR` and the placeholders do not touch repetitions ----

  lemma StutterEnds(transaction: bool, e: string)
    requires IsEnding(e)
    ensures var p := Stem(transaction) + e; p != "" && !IsJunk(p[|p| - 1]) && !IsSpace(p[0])
  {
    StemStart(transaction, e);
  }

  lemma TrimmedHas(s: string, p: string)
    requires p != "" && !IsJunk(p[|p| - 1])
    ensures Contains(Lower(TrimTail(s)), p) <==> Contains(Lower(s), p)
  {
    var j := TrimTailParts(s);
    var t := TrimTail(s);
    LowerConcat(t, j);
    if Contains(Lower(s), p) {
      var i :| Occurs(Lower(s), p, i);
      OccursAt(Lower(s), p, i, |p| - 1);
      KeptBeforeJunk(s, t, j, i + |p| - 1);
      assert Lower(s)[i..i + |p|] == Lower(t)[i..i + |p|];
      assert Occurs(Lower(t), p, i);
    }
    ContainsSides(Lower(t), Lower(j), "", p);
    assert Lower(t) + Lower(j) + "" == Lower(s);
  }

  lemma SpaceHasNot(w: string, p: string)
    requires p != "" && !IsSpace(p[0]) && forall i :: 0 <= i < |w| ==> IsSpace(w[i])
    ensures !Contains(Lower(w), p)
  {
    forall i | 0 <= i && i + |p| <= |w|
      ensures !Occurs(Lower(w), p, i)
    {
      assert Lower(w)[i] == LowerChar(w[i]) == w[i];
      assert Lower(w)[i..i + |p|][0] == Lower(w)[i];
    }
  }

  lemma HeadReplacedHas(s: string, head: string, p: string)
    requires StartsWith(Lower(TrimStart(s)), head) && p != "" && !IsSpace(p[0])
    requires Free(p, head) && Free(p, INSERT_INTO)
    ensures Contains(Lower("INSERT INTO" + TrimStart(s)[|head|..]), p) <==> Contains(Lower(s), p)
  {
    var rest := TrimStart(s)[|head|..];
    var w, m := HeadParts(s, head);
    LowerConcat(w + m, rest);
    LowerConcat(w, m);
    FreeSplit(Lower(w), head, Lower(rest), p);
    SpaceHasNot(w, p);
    LoweredInsert();
    LowerConcat("INSERT INTO", rest);
    FreeSplit("", INSERT_INTO, Lower(rest), p);
    assert "" + INSERT_INTO + Lower(rest) == INSERT_INTO + Lower(rest);
    assert !Contains("", p);
  }

  lemma ConflictAppendedHas(s: string, p: string)
    requires p != "" && !IsJunk(p[|p| - 1]) && Free(p, DO_NOTHING)
    ensures Contains(Lower(TrimTail(s) + " ON CONFLICT DO NOTHING"), p) <==> Contains(Lower(s), p)
  {
    TrimmedHas(s, p);
    LoweredConflict();
    LowerConcat(TrimTail(s), " ON CONFLICT DO NOTHING");
    FreeSplit(Lower(TrimTail(s)), DO_NOTHING, "", p);
    assert Lower(TrimTail(s)) + DO_NOTHING + "" == Lower(TrimTail(s)) + DO_NOTHING;
    assert !Contains("", p);
  }

  lemma StutterInsert(transaction: bool, e: string)
    requires IsEnding(e)
    ensures var p := Stem(transaction) + e;
            Free(p, INSERT_INTO) && Free(p, INSERT_OR_IGNORE) && Free(p, INSERT_OR_REPLACE) && Free(p, DO_NOTHING)
  {
    EarlyCalls();
    PartsInsert();
    PartsConflict();
    StutterFree(transaction, e, "ins", INSERT_INTO);
    StutterFree(transaction, e, "ins", INSERT_OR_IGNORE);
    StutterFree(transaction, e, "ins", INSERT_OR_REPLACE);
    StutterFree(transaction, e, " on", DO_NOTHING);
  }

  lemma InsertOrKeepsPattern(s: string, p: string)
    requires p != "" && !IsJunk(p[|p| - 1]) && !IsSpace(p[0])
    requires Free(p, INSERT_INTO) && Free(p, INSERT_OR_IGNORE) && Free(p, INSERT_OR_REPLACE) && Free(p, DO_NOTHING)
    ensures Contains(Lower(InsertOr(s)), p) <==> Contains(Lower(s), p)
  {
    var t := TrimStart(s);
    if StartsWith(Lower(t), INSERT_OR_IGNORE) {
      HeadReplacedHas(s, INSERT_OR_IGNORE, p);
      ConflictAppendedHas("INSERT INTO" + t[|INSERT_OR_IGNORE|..], p);
    } else if StartsWith(Lower(t), INSERT_OR_REPLACE) && Contains(Lower(t), ON_CONFLICT) {
      HeadReplacedHas(s, INSERT_OR_REPLACE, p);
    }
  }

  lemma InsertOrKeeps(s: string, transaction: bool, e: string)
    requires IsEnding(e)
    ensures Has(InsertOr(s), transaction, e) <==> Has(s, transaction, e)
  {
    StutterEnds(transaction, e);
    StutterInsert(transaction, e);
    InsertOrKeepsPattern(s, Stem(transaction) + e);
  }

  lemma PlaceholdersKeep(s: string, p: string)
    requires '?' !in p && '$' !in p
    ensures Contains(Lower(Placeholders(s)), p) <==> Contains(Lower(s), p)
  {
    PlaceholdersMark(s);
    MarkedContains(s, Placeholders(s), p);
  }

  predicate Unmarked(s: string)
  {
    '?' !in s && '$' !in s
  }

  lemma UnmarkedConcat(a: string, b: string)
    requires Unmarked(a) && Unmarked(b)
    ensures Unmarked(a + b)
  {
  }

  lemma UnmarkedStem(transaction: bool)
    ensures Unmarked(Stem(transaction))
  {
    if transaction {
      UnmarkedConcat(BEGIN_IMMEDIATE_TRANSACTION, ALMOST_TWICE);
    }
  }

  lemma UnmarkedEnding(e: string)
    requires IsEnding(e)
    ensures Unmarked(e)
  {
  }

  lemma StutterPlain(transaction: bool, e: string)
    requires IsEnding(e)
    ensures Unmarked(Stem(transaction) + e)
  {
    UnmarkedStem(transaction);
    UnmarkedEnding(e);
    UnmarkedConcat(Stem(transaction), e);
  }

  lemma ResultHasBegin(s: string)
    ensures Contains(Lower(ToPostgres(s)), BEGIN_IMMEDIATE) <==> Stutters(s)
  {
    var y := InsertOr(Placeholders(s));
    TransactionsLeave(Functions(y));
    FunctionsHave(y, false);
    FunctionsHave(y, true);
    forall transaction, e | IsEnding(e)
      ensures Has(y, transaction, e) <==> Has(s, transaction, e)
    {
      InsertOrKeeps(Placeholders(s), transaction, e);
      StutterPlain(transaction, e);
      PlaceholdersKeep(s, Stem(transaction) + e);
    }
  }

  // ---- The theorem ----

  /** Translating twice is translating once, exactly for the statements that do not repeat
      `begin immediate`. */
  lemma IdempotentIff(s: string)
    ensures ToPostgres(ToPostgres(s)) == ToPostgres(s) <==> !Stutters(s)
  {
    var t := ToPostgres(s);
    ResultSettled(s);
    SettledUnchanged(t);
    ResultDoesNotFire(s);
    ResultNoCalls(s);
    NoCallsUnchanged(t);
    assert ToPostgres(t) == Transactions(t);
    ResultHasBegin(s);
    TransactionsChange(t);
  }

  lemma TransactionsChange(t: string)
    ensures Transactions(t) == t <==> !Contains(Lower(t), BEGIN_IMMEDIATE)
  {
    var v := Replace(t, BEGIN_IMMEDIATE_TRANSACTION, "BEGIN");
    ReplaceShortens(t, BEGIN_IMMEDIATE_TRANSACTION, "BEGIN");
    ReplaceShortens(v, BEGIN_IMMEDIATE, "BEGIN");
    if Contains(Lower(t), BEGIN_IMMEDIATE_TRANSACTION) {
      assert Occurs(BEGIN_IMMEDIATE_TRANSACTION, BEGIN_IMMEDIATE, 0);
      ContainsPart(Lower(t), BEGIN_IMMEDIATE_TRANSACTION, BEGIN_IMMEDIATE);
    } else {
      ReplaceNothing(t, BEGIN_IMMEDIATE_TRANSACTION, "BEGIN");
      if !Contains(Lower(t), BEGIN_IMMEDIATE) {
        ReplaceNothing(t, BEGIN_IMMEDIATE, "BEGIN");
      }
    }
  }

  lemma StemBegins(transaction: bool, e: string)
    ensures Occurs(Stem(transaction) + e, BEGIN_IMMEDIATE, 0)
  {
    assert BEGIN_ALMOST_TWICE[0..15] == BEGIN_IMMEDIATE;
    assert BEGIN_IMMEDIATE_TRANSACTION[0..15] == BEGIN_IMMEDIATE;
    assert (Stem(transaction) + e)[0..15] == Stem(transaction)[0..15];
  }

  /** In particular: without a `BEGIN IMMEDIATE` in any case, the translation is idempotent. */
  lemma IdempotentWithoutBeginImmediate(s: string)
    requires !Contains(Lower(s), BEGIN_IMMEDIATE)
    ensures ToPostgres(ToPostgres(s)) == ToPostgres(s)
  {
    forall transaction, e | Has(s, transaction, e)
      ensures false
    {
      var p := Stem(transaction) + e;
      StemBegins(transaction, e);
      ContainsPart(Lower(s), p, BEGIN_IMMEDIATE);
    }
    IdempotentIff(s);
  }

  /** The shortest failing statement. */
  lemma NotIdempotent()
    ensures ToPostgres(ToPostgres("BEGIN IMMEDIATE IMMEDIATE")) != ToPostgres("BEGIN IMMEDIATE IMMEDIATE")
  {
    var s := "BEGIN IMMEDIATE IMMEDIATE";
    assert Lower(s) == BEGIN_TWICE;
    Completed();
    assert Occurs(Lower(s), Stem(false) + "e", 0);
    assert IsEnding("e") && Has(s, false, "e");
    IdempotentIff(s);
  }
}
