/** The literal texts of `sql_translate.rs`, lower-cased, and which of them can overlap. A
    fact here is what the pipeline rests on: that no replacement, at or across its borders,
    completes a construct another rewrite would match. */
module SqlWords {
  import opened SqlText

  const IFNULL: string := "ifnull("
  const COALESCE: string := "coalesce("
  const STRFTIME: string := "strftime('%s','now')"
  const STRFTIME_SPACED: string := "strftime('%s', 'now')"
  const EXTRACT: string := "extract(epoch from now())::bigint"
  const BEGIN: string := "begin"
  const IMMEDIATE: string := " immediate"
  const BEGIN_IMMEDIATE: string := "begin immediate"
  const BEGIN_IMMEDIATE_TRANSACTION: string := "begin immediate transaction"
  const INSERT_OR_IGNORE: string := "insert or ignore into"
  const INSERT_OR_REPLACE: string := "insert or replace into"
  const INSERT_INTO: string := "insert into"
  const ON_CONFLICT: string := "on conflict"
  const DO_NOTHING: string := " on conflict do nothing"

  // A `begin immediate` that repeats itself, and what it is made of.
  const TWICE: string := " immediate immediate"
  const ALMOST_TWICE: string := " immediate immediat"
  const BEGIN_TWICE: string := "begin immediate immediate"
  const BEGIN_ALMOST_TWICE: string := "begin immediate immediat"

  lemma IfnullNotCreated()
    ensures Free(IFNULL, COALESCE) && Free(IFNULL, EXTRACT) && Free(IFNULL, BEGIN)
  {
    EarlyIsFree(IFNULL, COALESCE);
    EarlyIsFree(IFNULL, EXTRACT);
    EarlyIsFree(IFNULL, BEGIN);
  }

  lemma StrftimeNotExtract()
    ensures Free(STRFTIME, EXTRACT)
  {
    EarlyIsLeft(STRFTIME, "ext", |STRFTIME|);
    HeadFree(STRFTIME, "ext", EXTRACT, |STRFTIME|);
  }

  lemma StrftimeNotBegin()
    ensures Free(STRFTIME, BEGIN)
  {
    EarlyIsLeft(STRFTIME, "beg", |STRFTIME|);
    HeadFree(STRFTIME, "beg", BEGIN, |STRFTIME|);
  }

  lemma StrftimeNotCreated()
    ensures Free(STRFTIME, EXTRACT) && Free(STRFTIME, BEGIN)
  {
    StrftimeNotExtract();
    StrftimeNotBegin();
  }

  lemma SpacedNotExtract()
    ensures Free(STRFTIME_SPACED, EXTRACT)
  {
    EarlyIsLeft(STRFTIME_SPACED, "ext", |STRFTIME_SPACED|);
    HeadFree(STRFTIME_SPACED, "ext", EXTRACT, |STRFTIME_SPACED|);
  }

  lemma SpacedNotBegin()
    ensures Free(STRFTIME_SPACED, BEGIN)
  {
    EarlyIsLeft(STRFTIME_SPACED, "beg", |STRFTIME_SPACED|);
    HeadFree(STRFTIME_SPACED, "beg", BEGIN, |STRFTIME_SPACED|);
  }

  lemma SpacedNotCreated()
    ensures Free(STRFTIME_SPACED, EXTRACT) && Free(STRFTIME_SPACED, BEGIN)
  {
    SpacedNotExtract();
    SpacedNotBegin();
  }

  lemma ConflictNotCreated()
    ensures Free(ON_CONFLICT, COALESCE) && Free(ON_CONFLICT, EXTRACT) && Free(ON_CONFLICT, BEGIN)
  {
    ConflictNotCoalesce();
    ConflictNotExtract();
    EarlyIsFree(ON_CONFLICT, BEGIN);
  }

  lemma ConflictNotCoalesce()
    ensures Free(ON_CONFLICT, COALESCE)
  {
    EarlyIsFree(ON_CONFLICT, COALESCE);
  }

  lemma ConflictNotExtract()
    ensures Free(ON_CONFLICT, EXTRACT)
  {
    EarlyIsFree(ON_CONFLICT, EXTRACT);
  }

  /** Every part of a repeated `begin immediate` clashes with a text that starts with `h`. */
  ghost predicate PartsClash(h: string)
  {
    && LeftFree(BEGIN_TWICE, h) && LeftFree(BEGIN_ALMOST_TWICE, h)
    && LeftFree(BEGIN_IMMEDIATE_TRANSACTION, h) && LeftFree(TWICE, h) && LeftFree(ALMOST_TWICE, h)
  }

  lemma EarlyParts(h: string)
    requires EarlyLeft(BEGIN_TWICE, h, |BEGIN_TWICE|) && EarlyLeft(BEGIN_ALMOST_TWICE, h, |BEGIN_ALMOST_TWICE|)
    requires EarlyLeft(BEGIN_IMMEDIATE_TRANSACTION, h, |BEGIN_IMMEDIATE_TRANSACTION|)
    requires EarlyLeft(TWICE, h, |TWICE|) && EarlyLeft(ALMOST_TWICE, h, |ALMOST_TWICE|)
    ensures PartsClash(h)
  {
    EarlyIsLeft(BEGIN_TWICE, h, |BEGIN_TWICE|);
    EarlyIsLeft(BEGIN_ALMOST_TWICE, h, |BEGIN_ALMOST_TWICE|);
    EarlyIsLeft(BEGIN_IMMEDIATE_TRANSACTION, h, |BEGIN_IMMEDIATE_TRANSACTION|);
    EarlyIsLeft(TWICE, h, |TWICE|);
    EarlyIsLeft(ALMOST_TWICE, h, |ALMOST_TWICE|);
  }

  lemma PartsIfnull()
    ensures PartsClash("ifn")
  {
    EarlyParts("ifn");
  }

  lemma PartsCoalesce()
    ensures PartsClash("coa")
  {
    EarlyParts("coa");
  }

  lemma PartsInsert()
    ensures PartsClash("ins")
  {
    EarlyParts("ins");
  }

  lemma PartsConflict()
    ensures PartsClash(" on")
  {
    EarlyParts(" on");
  }

  lemma PartsStrftime()
    ensures PartsClash("str")
  {
    EarlyParts("str");
  }

  /** The two call texts clash with a text that starts with `h`. */
  ghost predicate CallsClash(h: string)
  {
    LeftFree(STRFTIME, h) && LeftFree(STRFTIME_SPACED, h)
  }

  lemma EarlyStrftime()
    ensures LeftFree(STRFTIME, "ifn") && LeftFree(STRFTIME, "coa") && LeftFree(STRFTIME, "ins") && LeftFree(STRFTIME, " on")
  {
    EarlyIsLeft(STRFTIME, "ifn", |STRFTIME|);
    EarlyIsLeft(STRFTIME, "coa", |STRFTIME|);
    EarlyIsLeft(STRFTIME, "ins", |STRFTIME|);
    EarlyIsLeft(STRFTIME, " on", |STRFTIME|);
  }

  lemma EarlySpaced()
    ensures LeftFree(STRFTIME_SPACED, "ifn") && LeftFree(STRFTIME_SPACED, "coa")
    ensures LeftFree(STRFTIME_SPACED, "ins") && LeftFree(STRFTIME_SPACED, " on")
  {
    EarlyIsLeft(STRFTIME_SPACED, "ifn", |STRFTIME_SPACED|);
    EarlyIsLeft(STRFTIME_SPACED, "coa", |STRFTIME_SPACED|);
    EarlyIsLeft(STRFTIME_SPACED, "ins", |STRFTIME_SPACED|);
    EarlyIsLeft(STRFTIME_SPACED, " on", |STRFTIME_SPACED|);
  }

  lemma EarlyCalls()
    ensures CallsClash("ifn") && CallsClash("coa") && CallsClash("ins") && CallsClash(" on")
  {
    EarlyStrftime();
    EarlySpaced();
  }

  // ---- Repeated `begin immediate` ----

  function Stem(transaction: bool): string
  {
    if transaction then BEGIN_IMMEDIATE_TRANSACTION + ALMOST_TWICE else BEGIN_ALMOST_TWICE
  }

  lemma Completed()
    ensures Stem(false) + "e" == BEGIN_TWICE && Stem(true) + "e" == BEGIN_IMMEDIATE_TRANSACTION + TWICE
  {
  }

  lemma StemClash(transaction: bool, h: string)
    requires PartsClash(h)
    ensures LeftFree(Stem(transaction), h) && LeftFree(Stem(transaction) + "e", h)
  {
    Completed();
    LeftBoth(BEGIN_IMMEDIATE_TRANSACTION, ALMOST_TWICE, h);
    LeftBoth(BEGIN_IMMEDIATE_TRANSACTION, TWICE, h);
  }

  /** What may follow a stem for the pipeline to see a repetition: the missing letter, or a
      call whose rewritten form supplies it. */
  predicate IsEnding(e: string)
  {
    e == "e" || e == STRFTIME || e == STRFTIME_SPACED
  }

  lemma StemStart(transaction: bool, e: string)
    ensures var p := Stem(transaction) + e; |p| > 1 && p[0] == 'b' && p[1] == 'e'
  {
  }

  /** Repetitions overlap none of the texts that start with `h`. */
  lemma StutterFree(transaction: bool, e: string, h: string, x: string)
    requires IsEnding(e) && PartsClash(h) && CallsClash(h) && StartsWith(x, h) && 'b' !in x
    ensures Free(Stem(transaction) + e, x)
  {
    var p := Stem(transaction) + e;
    StemClash(transaction, h);
    if e != "e" {
      LeftBoth(Stem(transaction), e, h);
    }
    StemStart(transaction, e);
    HeadFree(p, h, x, |p|);
  }

  /** Both call texts start alike and differ after the comma. */
  lemma CallStarts()
    ensures LeftExcept(STRFTIME, "str", 0) && LeftExcept(STRFTIME_SPACED, "str", 0)
    ensures DiffersAt(STRFTIME_SPACED, STRFTIME, 0, 14)
  {
    EarlyIsLeft(STRFTIME, "str", 0);
    EarlyIsLeft(STRFTIME_SPACED, "str", 0);
  }

  lemma StutterCall(transaction: bool, call: string)
    requires call == STRFTIME || call == STRFTIME_SPACED
    ensures Free(Stem(transaction) + "e", call)
    ensures FreeExcept(Stem(transaction) + call, call, |Stem(transaction)|)
  {
    var q := Stem(transaction);
    PartsStrftime();
    CallStarts();
    StemClash(transaction, "str");
    LeftConcat(q, call, "str", 0);
    StemStart(transaction, "e");
    StemStart(transaction, call);
    HeadFree(q + "e", "str", call, |q + "e"|);
    HeadFree(q + call, "str", call, |q|);
  }

  lemma StutterOtherCall(transaction: bool)
    ensures Free(Stem(transaction) + STRFTIME_SPACED, STRFTIME)
  {
    var q := Stem(transaction);
    var p := q + STRFTIME_SPACED;
    PartsStrftime();
    CallStarts();
    StemClash(transaction, "str");
    LeftConcat(q, STRFTIME_SPACED, "str", 0);
    StemStart(transaction, STRFTIME_SPACED);
    HeadFree(p, "str", STRFTIME, |q|);
    assert DiffersAt(p, STRFTIME, |q|, |q| + 14);
    ExceptIsFree(p, STRFTIME, |q|);
  }

  lemma ExtractStarts()
    ensures LeftFree(BEGIN_ALMOST_TWICE, "ext") && LeftFree(BEGIN_IMMEDIATE_TRANSACTION, "ext")
    ensures LeftFree(ALMOST_TWICE, "ext") && LeftFree(STRFTIME_SPACED, "ext")
    ensures LeftExcept(BEGIN_TWICE, "ext", 24) && LeftExcept(TWICE, "ext", 19)
  {
    ExtractMeetsTwice();
    EarlyIsLeft(BEGIN_ALMOST_TWICE, "ext", |BEGIN_ALMOST_TWICE|);
    EarlyIsLeft(BEGIN_IMMEDIATE_TRANSACTION, "ext", |BEGIN_IMMEDIATE_TRANSACTION|);
    EarlyIsLeft(ALMOST_TWICE, "ext", |ALMOST_TWICE|);
    EarlyIsLeft(STRFTIME_SPACED, "ext", |STRFTIME_SPACED|);
  }

  lemma ExtractMeetsTwice()
    ensures LeftExcept(BEGIN_TWICE, "ext", 24) && LeftExcept(TWICE, "ext", 19)
  {
    EarlyIsLeft(BEGIN_TWICE, "ext", 24);
    EarlyIsLeft(TWICE, "ext", 19);
  }

  /** The one overlap the pipeline has: the `e` that ends `immediate` starts `extract`. */
  lemma StutterExtract(transaction: bool)
    ensures FreeExcept(Stem(transaction) + "e", EXTRACT, |Stem(transaction)|)
    ensures Free(Stem(transaction) + STRFTIME_SPACED, EXTRACT)
  {
    var q := Stem(transaction);
    ExtractStarts();
    Completed();
    LeftConcat(BEGIN_IMMEDIATE_TRANSACTION, TWICE, "ext", 19);
    LeftBoth(BEGIN_IMMEDIATE_TRANSACTION, ALMOST_TWICE, "ext");
    LeftBoth(q, STRFTIME_SPACED, "ext");
    StemStart(transaction, "e");
    StemStart(transaction, STRFTIME_SPACED);
    OnlyBigint(q + "e");
    OnlyBigint(q + STRFTIME_SPACED);
    HeadFree(q + "e", "ext", EXTRACT, |q|);
    HeadFree(q + STRFTIME_SPACED, "ext", EXTRACT, |q + STRFTIME_SPACED|);
  }

  lemma OnlyBigint(p: string)
    requires |p| > 1 && p[0] == 'b' && p[1] == 'e'
    ensures NoStartIn(p, EXTRACT)
  {
  }

  lemma BeginStarts()
    ensures LeftExcept(BEGIN_TWICE, "beg", 0) && LeftExcept(BEGIN_IMMEDIATE, "beg", 0)
    ensures LeftExcept(BEGIN_IMMEDIATE_TRANSACTION, "beg", 0)
    ensures LeftFree(TWICE, "beg") && LeftFree(IMMEDIATE, "beg")
  {
    EarlyIsLeft(BEGIN_TWICE, "beg", 0);
    EarlyIsLeft(BEGIN_IMMEDIATE, "beg", 0);
    EarlyIsLeft(BEGIN_IMMEDIATE_TRANSACTION, "beg", 0);
    EarlyIsLeft(TWICE, "beg", |TWICE|);
    EarlyIsLeft(IMMEDIATE, "beg", |IMMEDIATE|);
  }

  lemma BeginParts()
    ensures BEGIN + IMMEDIATE == BEGIN_IMMEDIATE && BEGIN_IMMEDIATE + IMMEDIATE == BEGIN_TWICE && BEGIN + TWICE == BEGIN_TWICE
  {
  }

  lemma TwiceFacts()
    ensures Free(BEGIN_TWICE, BEGIN_IMMEDIATE_TRANSACTION) && FreeExcept(BEGIN_TWICE, BEGIN, 0)
  {
    BeginStarts();
    HeadFree(BEGIN_TWICE, "beg", BEGIN_IMMEDIATE_TRANSACTION, 0);
    assert DiffersAt(BEGIN_TWICE, BEGIN_IMMEDIATE_TRANSACTION, 0, 16);
    ExceptIsFree(BEGIN_TWICE, BEGIN_IMMEDIATE_TRANSACTION, 0);
    HeadFree(BEGIN_TWICE, "beg", BEGIN, 0);
  }

  lemma TransactionFacts()
    ensures Free(BEGIN + TWICE, BEGIN_IMMEDIATE_TRANSACTION) && FreeExcept(BEGIN + TWICE, BEGIN, 0)
    ensures LeftFree(TWICE, BEGIN_IMMEDIATE_TRANSACTION) && LeftFree(TWICE, BEGIN)
    ensures FreeExcept(BEGIN_IMMEDIATE_TRANSACTION + TWICE, BEGIN_IMMEDIATE_TRANSACTION, 0)
  {
    BeginParts();
    BeginStarts();
    TwiceFacts();
    LeftLonger(TWICE, "beg", BEGIN_IMMEDIATE_TRANSACTION, |TWICE|);
    LeftLonger(TWICE, "beg", BEGIN, |TWICE|);
    ExceptThenFree(BEGIN_IMMEDIATE_TRANSACTION, TWICE, "beg");
    HeadFree(BEGIN_IMMEDIATE_TRANSACTION + TWICE, "beg", BEGIN_IMMEDIATE_TRANSACTION, 0);
  }

  lemma ExceptThenFree(p: string, q: string, h: string)
    requires LeftExcept(p, h, 0) && LeftFree(q, h) && p != ""
    ensures LeftExcept(p + q, h, 0)
  {
    forall d | 0 < d < |p + q|
      ensures Clash(p + q, h, d)
    {
      if d < |p| {
        assert Clash(p, h, d);
        var k :| DiffersAt(p, h, d, k);
        assert DiffersAt(p + q, h, d, k);
      } else {
        assert Clash(q, h, d - |p|);
        var k :| DiffersAt(q, h, d - |p|, k);
        assert DiffersAt(p + q, h, d, k + |p|);
      }
    }
  }

  lemma ImmediateFacts()
    ensures LeftFree(IMMEDIATE, BEGIN + IMMEDIATE) && LeftFree(IMMEDIATE, BEGIN)
    ensures FreeExcept(BEGIN + IMMEDIATE, BEGIN, 0)
    ensures FreeExcept(BEGIN + IMMEDIATE + IMMEDIATE, BEGIN + IMMEDIATE, 0)
  {
    BeginParts();
    BeginStarts();
    LeftLonger(IMMEDIATE, "beg", BEGIN_IMMEDIATE, |IMMEDIATE|);
    LeftLonger(IMMEDIATE, "beg", BEGIN, |IMMEDIATE|);
    HeadFree(BEGIN_IMMEDIATE, "beg", BEGIN, 0);
    HeadFree(BEGIN_TWICE, "beg", BEGIN_IMMEDIATE, 0);
  }

  /** The statement heads of `INSERT OR` clash with everything the later rewrites touch. */
  ghost predicate HeadsClash(x: string)
  {
    LeftFree(INSERT_OR_IGNORE, x) && LeftFree(INSERT_OR_REPLACE, x)
  }

  lemma EarlyHeads(h: string, x: string)
    requires EarlyLeft(INSERT_OR_IGNORE, h, |INSERT_OR_IGNORE|) && EarlyLeft(INSERT_OR_REPLACE, h, |INSERT_OR_REPLACE|)
    requires StartsWith(x, h)
    ensures HeadsClash(x)
  {
    EarlyIsLeft(INSERT_OR_IGNORE, h, |INSERT_OR_IGNORE|);
    EarlyIsLeft(INSERT_OR_REPLACE, h, |INSERT_OR_REPLACE|);
    LeftLonger(INSERT_OR_IGNORE, h, x, |INSERT_OR_IGNORE|);
    LeftLonger(INSERT_OR_REPLACE, h, x, |INSERT_OR_REPLACE|);
  }

  lemma HeadsCoalesce()
    ensures HeadsClash(IFNULL) && HeadsClash(COALESCE)
  {
    EarlyHeads("ifn", IFNULL);
    EarlyHeads("coa", COALESCE);
  }

  lemma HeadsStrftime()
    ensures HeadsClash(STRFTIME) && HeadsClash(STRFTIME_SPACED)
  {
    EarlyHeads("str", STRFTIME);
    EarlyHeads("str", STRFTIME_SPACED);
  }

  lemma HeadsExtract()
    ensures HeadsClash(STRFTIME) && HeadsClash(STRFTIME_SPACED) && HeadsClash(EXTRACT)
  {
    HeadsStrftime();
    EarlyHeads("ext", EXTRACT);
  }

  lemma HeadsTransactions()
    ensures HeadsClash(BEGIN) && HeadsClash(BEGIN_IMMEDIATE) && HeadsClash(BEGIN_IMMEDIATE_TRANSACTION)
  {
    EarlyHeads("beg", BEGIN);
    EarlyHeads("beg", BEGIN_IMMEDIATE);
    EarlyHeads("beg", BEGIN_IMMEDIATE_TRANSACTION);
  }

  lemma Lowered()
    ensures Lower("COALESCE(") == COALESCE && Lower("BEGIN") == BEGIN
  {
  }

  lemma LoweredExtract()
    ensures Lower("EXTRACT(EPOCH FROM now())::bigint") == EXTRACT
  {
  }

  lemma LoweredInsert()
    ensures Lower("INSERT INTO") == INSERT_INTO
  {
  }

  lemma LoweredConflict()
    ensures Lower(" ON CONFLICT DO NOTHING") == DO_NOTHING
  {
  }
}
