/** Compact JSON text, and the proof that it determines the value: no two values print alike, whatever follows
    them. */
module JsonText {
  import opened CanonicalJson

  // ---- Strings ----

  function HexDigit(d: nat): (c: char)
    requires d < 16
  {
    if d < 10 then ('0' as int + d) as char else ('a' as int + d - 10) as char
  }

  function EscapeChar(c: char): (r: string)
    ensures r != ""
  {
    if c == '"' then "\\\""
    else if c == '\\' then "\\\\"
    else if c == '\U{8}' then "\\b"
    else if c == '\U{C}' then "\\f"
    else if c == '\n' then "\\n"
    else if c == '\r' then "\\r"
    else if c == '\t' then "\\t"
    else if c < ' ' then "\\u00" + [HexDigit(c as int / 16), HexDigit(c as int % 16)]
    else [c]
  }

  /** The escaped text and the closing quote. */
  function Escaped(s: string): (r: string)
    ensures r != ""
  {
    if s == "" then "\"" else EscapeChar(s[0]) + Escaped(s[1..])
  }

  function Quote(s: string): string
  {
    ['"'] + Escaped(s)
  }

  lemma HexDigitInjective(d: nat, e: nat)
    requires d < 16 && e < 16 && HexDigit(d) == HexDigit(e)
    ensures d == e
  {
  }

  /** A control character without a short escape. */
  predicate LongEscape(c: char)
  {
    c < ' ' && c !in "\U{8}\U{C}\n\r\t"
  }

  lemma LongEscapesDiffer(c: char, d: char, x: string, y: string)
    requires LongEscape(c) && LongEscape(d) && EscapeChar(c) + x == EscapeChar(d) + y
    ensures c == d && x == y
  {
    var p, q := EscapeChar(c) + x, EscapeChar(d) + y;
    assert p[4] == HexDigit(c as int / 16) && p[5] == HexDigit(c as int % 16) && p[6..] == x;
    assert q[4] == HexDigit(d as int / 16) && q[5] == HexDigit(d as int % 16) && q[6..] == y;
    HexDigitInjective(c as int / 16, d as int / 16);
    HexDigitInjective(c as int % 16, d as int % 16);
  }

  lemma ShortEscape(c: char, x: string)
    requires !LongEscape(c)
    ensures var p := EscapeChar(c) + x;
            if |EscapeChar(c)| == 1 then p[0] == c != '\\' && p[1..] == x
            else |EscapeChar(c)| == 2 && p[0] == '\\' && p[1] == EscapeChar(c)[1] != 'u' && p[2..] == x
  {
  }

  lemma LongStart(c: char, x: string)
    requires LongEscape(c)
    ensures (EscapeChar(c) + x)[0] == '\\' && (EscapeChar(c) + x)[1] == 'u'
  {
  }

  /** No escape is the start of another. */
  lemma EscapeCancels(c: char, d: char, x: string, y: string)
    requires EscapeChar(c) + x == EscapeChar(d) + y
    ensures c == d && x == y
  {
    if LongEscape(c) && LongEscape(d) {
      LongEscapesDiffer(c, d, x, y);
    } else if LongEscape(c) {
      LongStart(c, x);
      ShortEscape(d, y);
    } else if LongEscape(d) {
      LongStart(d, y);
      ShortEscape(c, x);
    } else {
      ShortEscape(c, x);
      ShortEscape(d, y);
    }
  }

  lemma EscapeNotQuote(c: char, x: string)
    ensures (EscapeChar(c) + x)[0] != '"'
  {
  }

  lemma EscapedStep(s: string, x: string)
    ensures s == "" ==> Escaped(s) + x == "\"" + x
    ensures s != "" ==> Escaped(s) + x == EscapeChar(s[0]) + (Escaped(s[1..]) + x)
  {
  }

  lemma {:induction false} EscapedCancels(s: string, t: string, x: string, y: string)
    requires Escaped(s) + x == Escaped(t) + y
    ensures s == t && x == y
    decreases |s|
  {
    EscapedStep(s, x);
    EscapedStep(t, y);
    if s == "" && t == "" {
      assert ("\"" + x)[1..] == x && ("\"" + y)[1..] == y;
    } else if s == "" {
      EscapeNotQuote(t[0], Escaped(t[1..]) + y);
    } else if t == "" {
      EscapeNotQuote(s[0], Escaped(s[1..]) + x);
    } else {
      EscapeCancels(s[0], t[0], Escaped(s[1..]) + x, Escaped(t[1..]) + y);
      EscapedCancels(s[1..], t[1..], x, y);
      assert s == [s[0]] + s[1..] && t == [t[0]] + t[1..];
    }
  }

  lemma DropFirst(c: char, e: string, x: string)
    ensures ([c] + e + x)[1..] == e + x
  {
  }

  lemma QuoteCancels(s: string, t: string, x: string, y: string)
    requires Quote(s) + x == Quote(t) + y
    ensures s == t && x == y
  {
    DropFirst('"', Escaped(s), x);
    DropFirst('"', Escaped(t), y);
    EscapedCancels(s, t, x, y);
  }

  // ---- Numbers ----

  predicate IsNumberChar(c: char)
  {
    '0' <= c <= '9' || c in "+-.eE"
  }

  predicate IsNumberText(s: string)
  {
    s != "" && ('0' <= s[0] <= '9' || s[0] == '-') && forall i :: 0 <= i < |s| ==> IsNumberChar(s[i])
  }

  /** What may follow a value: nothing, or one of the characters that end it. */
  predicate Ends(x: string)
  {
    x == "" || x[0] == ',' || x[0] == ']' || x[0] == '}'
  }

  lemma CharAfter(s: string, x: string)
    requires x != ""
    ensures (s + x)[|s|] == x[0]
  {
  }

  lemma NumberNotLonger(s: string, t: string, x: string, y: string)
    requires IsNumberText(t) && Ends(x) && s + x == t + y
    ensures |t| <= |s|
  {
    assert forall i :: 0 <= i < |t| ==> (s + x)[i] == t[i];
    if x != "" {
      CharAfter(s, x);
    }
  }

  lemma NumberCancels(s: string, t: string, x: string, y: string)
    requires IsNumberText(s) && IsNumberText(t) && Ends(x) && Ends(y) && s + x == t + y
    ensures s == t && x == y
  {
    NumberNotLonger(s, t, x, y);
    NumberNotLonger(t, s, y, x);
    assert s == (s + x)[..|s|] && t == (t + y)[..|t|];
    assert x == (s + x)[|s|..] && y == (t + y)[|t|..];
  }

  // ---- Values ----

  function Print(v: Value): (r: string)
    decreases v
  {
    match v
    case Null => "null"
    case Bool(b) => if b then "true" else "false"
    case Number(text) => text
    case Text(s) => Quote(s)
    case Array(items) => "[" + PrintItems(items, true)
    case Object(fields) => "{" + PrintFields(fields, true)
  }

  /** The items from here on and the closing bracket; all but the first follow a comma. */
  function PrintItems(items: seq<Value>, first: bool): string
    decreases items
  {
    if items == [] then "]"
    else (if first then "" else ",") + (Print(items[0]) + PrintItems(items[1..], false))
  }

  function PrintFields(fields: seq<Field>, first: bool): string
    decreases fields
  {
    if fields == [] then "}"
    else (if first then "" else ",")
         + (Quote(fields[0].key) + (":" + (Print(fields[0].value) + PrintFields(fields[1..], false))))
  }

  /** Every number in the value is a number's text. */
  predicate Printable(v: Value)
    decreases v
  {
    match v
    case Number(text) => IsNumberText(text)
    case Array(items) => forall i :: 0 <= i < |items| ==> Printable(items[i])
    case Object(fields) => forall i :: 0 <= i < |fields| ==> Printable(fields[i].value)
    case _ => true
  }

  /** The first character tells the kind of value. */
  predicate StartsAs(v: Value, c: char)
  {
    match v
    case Null => c == 'n'
    case Bool(b) => c == if b then 't' else 'f'
    case Number(_) => '0' <= c <= '9' || c == '-'
    case Text(_) => c == '"'
    case Array(_) => c == '['
    case Object(_) => c == '{'
  }

  lemma PrintStarts(v: Value, x: string)
    requires Printable(v)
    ensures Print(v) != "" && StartsAs(v, (Print(v) + x)[0])
  {
  }

  lemma ItemsEnd(items: seq<Value>)
    ensures PrintItems(items, false) != "" && Ends(PrintItems(items, false))
  {
  }

  lemma FieldsEnd(fields: seq<Field>)
    ensures PrintFields(fields, false) != "" && Ends(PrintFields(fields, false))
  {
  }

  predicate SameKind(u: Value, v: Value)
  {
    match u
    case Null => v.Null?
    case Bool(_) => u == v
    case Number(_) => v.Number?
    case Text(_) => v.Text?
    case Array(_) => v.Array?
    case Object(_) => v.Object?
  }

  lemma KindsAgree(u: Value, v: Value, c: char)
    requires StartsAs(u, c) && StartsAs(v, c)
    ensures SameKind(u, v)
  {
  }

  lemma AfterWord(v: Value, x: string)
    requires v.Null? || v.Bool?
    ensures (Print(v) + x)[|Print(v)|..] == x
  {
  }

  /** A printed value followed by an end determines the value and what follows. */
  lemma {:induction false} PrintCancels(u: Value, v: Value, x: string, y: string)
    requires Printable(u) && Printable(v) && Ends(x) && Ends(y) && Print(u) + x == Print(v) + y
    ensures u == v && x == y
    decreases u
  {
    PrintStarts(u, x);
    PrintStarts(v, y);
    KindsAgree(u, v, (Print(u) + x)[0]);
    if u.Null? || u.Bool? {
      AfterWord(u, x);
      AfterWord(v, y);
    } else if u.Number? {
      NumberCancels(u.text, v.text, x, y);
    } else if u.Text? {
      QuoteCancels(u.s, v.s, x, y);
    } else if u.Array? {
      AfterBracket(u, x);
      AfterBracket(v, y);
      ItemsCancel(u.items, v.items, true, x, y);
    } else {
      AfterBrace(u, x);
      AfterBrace(v, y);
      FieldsCancel(u.fields, v.fields, true, x, y);
    }
  }

  lemma AfterBracket(v: Value, x: string)
    requires v.Array?
    ensures |Print(v) + x| >= 1 && (Print(v) + x)[1..] == PrintItems(v.items, true) + x
  {
  }

  lemma AfterBrace(v: Value, x: string)
    requires v.Object?
    ensures |Print(v) + x| >= 1 && (Print(v) + x)[1..] == PrintFields(v.fields, true) + x
  {
  }

  lemma ItemsStart(items: seq<Value>, first: bool, x: string)
    requires forall i :: 0 <= i < |items| ==> Printable(items[i])
    ensures PrintItems(items, first) != ""
    ensures ((PrintItems(items, first) + x)[0] == ']') <==> items == []
  {
    if items != [] {
      PrintStarts(items[0], "");
    }
  }

  lemma ItemsStep(items: seq<Value>, first: bool, x: string)
    requires items != []
    ensures (PrintItems(items, first) + x)[if first then 0 else 1..] == Print(items[0]) + (PrintItems(items[1..], false) + x)
  {
  }

  lemma {:induction false} ItemsCancel(a: seq<Value>, b: seq<Value>, first: bool, x: string, y: string)
    requires forall i :: 0 <= i < |a| ==> Printable(a[i])
    requires forall i :: 0 <= i < |b| ==> Printable(b[i])
    requires PrintItems(a, first) + x == PrintItems(b, first) + y
    ensures a == b && x == y
    decreases a
  {
    ItemsStart(a, first, x);
    ItemsStart(b, first, y);
    if a == [] {
      assert (PrintItems(a, first) + x)[1..] == x && (PrintItems(b, first) + y)[1..] == y;
    } else {
      ItemsStep(a, first, x);
      ItemsStep(b, first, y);
      ItemsEnd(a[1..]);
      ItemsEnd(b[1..]);
      PrintCancels(a[0], b[0], PrintItems(a[1..], false) + x, PrintItems(b[1..], false) + y);
      ItemsCancel(a[1..], b[1..], false, x, y);
      assert a == [a[0]] + a[1..] && b == [b[0]] + b[1..];
    }
  }

  lemma FieldsStart(fields: seq<Field>, first: bool, x: string)
    ensures ((PrintFields(fields, first) + x)[0] == '}') <==> fields == []
  {
  }

  lemma Regroup(k: string, v: string, r: string, x: string)
    ensures k + (":" + (v + r)) + x == k + (":" + (v + (r + x)))
  {
  }

  lemma DropComma(first: bool, p: string, x: string)
    ensures ((if first then "" else ",") + p + x)[if first then 0 else 1..] == p + x
  {
  }

  lemma FieldsStep(fields: seq<Field>, first: bool, x: string)
    requires fields != []
    ensures |PrintFields(fields, first)| >= 1
    ensures (PrintFields(fields, first) + x)[if first then 0 else 1..] ==
            Quote(fields[0].key) + (":" + (Print(fields[0].value) + (PrintFields(fields[1..], false) + x)))
  {
    var k, v, r := Quote(fields[0].key), Print(fields[0].value), PrintFields(fields[1..], false);
    DropComma(first, k + (":" + (v + r)), x);
    Regroup(k, v, r, x);
  }

  lemma {:induction false} FieldsCancel(a: seq<Field>, b: seq<Field>, first: bool, x: string, y: string)
    requires forall i :: 0 <= i < |a| ==> Printable(a[i].value)
    requires forall i :: 0 <= i < |b| ==> Printable(b[i].value)
    requires PrintFields(a, first) + x == PrintFields(b, first) + y
    ensures a == b && x == y
    decreases a
  {
    FieldsStart(a, first, x);
    FieldsStart(b, first, y);
    if a == [] {
      assert (PrintFields(a, first) + x)[1..] == x && (PrintFields(b, first) + y)[1..] == y;
    } else {
      FieldsStep(a, first, x);
      FieldsStep(b, first, y);
      var p := Print(a[0].value) + (PrintFields(a[1..], false) + x);
      var q := Print(b[0].value) + (PrintFields(b[1..], false) + y);
      QuoteCancels(a[0].key, b[0].key, ":" + p, ":" + q);
      assert (":" + p)[1..] == p && (":" + q)[1..] == q;
      FieldsEnd(a[1..]);
      FieldsEnd(b[1..]);
      PrintCancels(a[0].value, b[0].value, PrintFields(a[1..], false) + x, PrintFields(b[1..], false) + y);
      FieldsCancel(a[1..], b[1..], false, x, y);
      assert a == [a[0]] + a[1..] && b == [b[0]] + b[1..];
    }
  }

  /** The text determines the value. */
  lemma PrintInjective(u: Value, v: Value)
    requires Printable(u) && Printable(v) && Print(u) == Print(v)
    ensures u == v
  {
    assert Print(u) + "" == Print(v) + "";
    PrintCancels(u, v, "", "");
  }
}
