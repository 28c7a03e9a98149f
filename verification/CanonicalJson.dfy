/** Canonical JSON: object keys sorted at every level, everything else kept. Two values have one canonical
    form exactly if they differ in the order of object keys only. */
module CanonicalJson {
  import opened Wrappers
  import opened Order

  /** A JSON value. A number is the text it prints as. */
  datatype Value =
    | Null
    | Bool(b: bool)
    | Number(text: string)
    | Text(s: string)
    | Array(items: seq<Value>)
    | Object(fields: seq<Field>)

  datatype Field = Field(key: string, value: Value)

  /** The value under a key; of several fields with one key, the last. */
  function Lookup(fields: seq<Field>, key: string): Option<Value>
  {
    if fields == [] then None else
    var last := fields[|fields| - 1];
    if last.key == key then Some(last.value) else Lookup(fields[..|fields| - 1], key)
  }

  // ---- Sorting by key ----

  /** Puts a field in its place among fields sorted by key, replacing one with the same key. */
  function InsertField(s: seq<Field>, f: Field): seq<Field>
  {
    if s == [] then [f] else
    var last := s[|s| - 1];
    if StringLt(last.key, f.key) then s + [f]
    else if last.key == f.key then s[..|s| - 1] + [f]
    else InsertField(s[..|s| - 1], f) + [last]
  }

  function Sorted(fields: seq<Field>): seq<Field>
  {
    if fields == [] then [] else InsertField(Sorted(fields[..|fields| - 1]), fields[|fields| - 1])
  }

  predicate KeysAscending(s: seq<Field>)
  {
    forall i, j :: 0 <= i < j < |s| ==> StringLt(s[i].key, s[j].key)
  }

  /** Every key of `s` comes before `key`. */
  predicate KeysBelow(s: seq<Field>, key: string)
  {
    forall i :: 0 <= i < |s| ==> StringLt(s[i].key, key)
  }

  lemma AscendingLast(s: seq<Field>)
    requires s != [] && KeysAscending(s)
    ensures KeysAscending(s[..|s| - 1]) && KeysBelow(s[..|s| - 1], s[|s| - 1].key)
  {
  }

  lemma AscendingAppend(s: seq<Field>, f: Field)
    requires KeysAscending(s) && KeysBelow(s, f.key)
    ensures KeysAscending(s + [f])
  {
  }

  lemma BelowTransitive(s: seq<Field>, a: string, b: string)
    requires KeysBelow(s, a) && StringLt(a, b)
    ensures KeysBelow(s, b)
  {
    forall i | 0 <= i < |s|
      ensures StringLt(s[i].key, b)
    {
      StringLtTransitive(s[i].key, a, b);
    }
  }

  lemma {:induction false} InsertBelow(s: seq<Field>, f: Field, key: string)
    requires KeysBelow(s, key) && StringLt(f.key, key)
    ensures KeysBelow(InsertField(s, f), key)
    decreases |s|
  {
    if s != [] {
      InsertBelow(s[..|s| - 1], f, key);
    }
  }

  lemma {:induction false} InsertAscendingKeys(s: seq<Field>, f: Field)
    requires KeysAscending(s)
    ensures KeysAscending(InsertField(s, f))
    decreases |s|
  {
    if s != [] {
      var last := s[|s| - 1];
      AscendingLast(s);
      if StringLt(last.key, f.key) {
        BelowTransitive(s[..|s| - 1], last.key, f.key);
        AscendingAppend(s, f);
      } else if last.key == f.key {
        AscendingAppend(s[..|s| - 1], f);
      } else {
        StringLtTrichotomy(last.key, f.key);
        InsertAscendingKeys(s[..|s| - 1], f);
        InsertBelow(s[..|s| - 1], f, last.key);
        AscendingAppend(InsertField(s[..|s| - 1], f), last);
      }
    }
  }

  lemma LookupAppend(s: seq<Field>, f: Field, key: string)
    ensures Lookup(s + [f], key) == if f.key == key then Some(f.value) else Lookup(s, key)
  {
    assert (s + [f])[..|s|] == s;
  }

  lemma {:induction false} LookupInsert(s: seq<Field>, f: Field, key: string)
    requires KeysAscending(s)
    ensures Lookup(InsertField(s, f), key) == if f.key == key then Some(f.value) else Lookup(s, key)
    decreases |s|
  {
    if s == [] {
      LookupAppend([], f, key);
      assert [] + [f] == [f];
    } else {
      var last := s[|s| - 1];
      AscendingLast(s);
      LookupAppend(s, f, key);
      LookupAppend(s[..|s| - 1], f, key);
      LookupInsert(s[..|s| - 1], f, key);
      LookupAppend(InsertField(s[..|s| - 1], f), last, key);
    }
  }

  /** Sorting orders the keys and keeps every lookup. */
  lemma {:induction false} SortedTells(fields: seq<Field>, key: string)
    ensures KeysAscending(Sorted(fields))
    ensures Lookup(Sorted(fields), key) == Lookup(fields, key)
    decreases |fields|
  {
    if fields != [] {
      var rest := fields[..|fields| - 1];
      SortedTells(rest, key);
      InsertAscendingKeys(Sorted(rest), fields[|fields| - 1]);
      LookupInsert(Sorted(rest), fields[|fields| - 1], key);
    }
  }

  lemma {:induction false} LookupBelow(s: seq<Field>, key: string)
    requires KeysBelow(s, key)
    ensures Lookup(s, key).None?
    decreases |s|
  {
    if s != [] {
      StringLtTrichotomy(s[|s| - 1].key, key);
      LookupBelow(s[..|s| - 1], key);
    }
  }

  predicate HasKey(s: seq<Field>, key: string)
  {
    exists i :: 0 <= i < |s| && s[i].key == key
  }

  lemma {:induction false} LookupFinds(s: seq<Field>, key: string)
    ensures Lookup(s, key).Some? <==> HasKey(s, key)
    decreases |s|
  {
    if s != [] {
      LookupFinds(s[..|s| - 1], key);
      if s[|s| - 1].key != key && Lookup(s, key).None? {
        assert forall i :: 0 <= i < |s| - 1 ==> s[i] == s[..|s| - 1][i];
      }
    }
  }

  /** The greatest key of one list is not above that of another that knows it. */
  lemma LastNotAbove(s: seq<Field>, t: seq<Field>)
    requires s != [] && t != [] && KeysAscending(t)
    requires Lookup(t, s[|s| - 1].key).Some?
    ensures !StringLt(t[|t| - 1].key, s[|s| - 1].key)
  {
    var key := s[|s| - 1].key;
    if StringLt(t[|t| - 1].key, key) {
      AscendingLast(t);
      BelowTransitive(t[..|t| - 1], t[|t| - 1].key, key);
      LookupBelow(t, key);
    }
  }

  lemma LookupLast(s: seq<Field>)
    ensures s != [] ==> Lookup(s, s[|s| - 1].key) == Some(s[|s| - 1].value)
  {
  }

  /** A list sorted by key is fixed by its lookups. */
  lemma {:induction false} AscendingFieldsUnique(s: seq<Field>, t: seq<Field>)
    requires KeysAscending(s) && KeysAscending(t)
    requires forall key :: Lookup(s, key) == Lookup(t, key)
    ensures s == t
    decreases |s|
  {
    LookupLast(t);
    if s != [] {
      var a := s[|s| - 1];
      assert Lookup(t, a.key) == Some(a.value);
      var b := t[|t| - 1];
      assert Lookup(s, b.key) == Some(b.value);
      LastNotAbove(s, t);
      LastNotAbove(t, s);
      StringLtTrichotomy(a.key, b.key);
      AscendingLast(s);
      AscendingLast(t);
      var p, q := s[..|s| - 1], t[..|t| - 1];
      LookupBelow(p, a.key);
      LookupBelow(q, a.key);
      forall key
        ensures Lookup(p, key) == Lookup(q, key)
      {
        assert Lookup(s, key) == Lookup(t, key);
      }
      AscendingFieldsUnique(p, q);
      assert s == p + [a] && t == q + [b];
    }
  }

  lemma {:induction false} AscendingSorted(s: seq<Field>)
    requires KeysAscending(s)
    ensures Sorted(s) == s
    decreases |s|
  {
    if s != [] {
      var rest := s[..|s| - 1];
      AscendingLast(s);
      AscendingSorted(rest);
      if rest != [] {
        assert StringLt(rest[|rest| - 1].key, s[|s| - 1].key);
      }
      assert s == rest + [s[|s| - 1]];
    }
  }

  // ---- The canonical form ----

  function Canon(v: Value): (r: Value)
    decreases v
  {
    match v
    case Array(items) => Array(seq(|items|, i requires 0 <= i < |items| => Canon(items[i])))
    case Object(fields) => Object(Sorted(CanonFields(v)))
    case _ => v
  }

  function CanonFields(v: Value): (r: seq<Field>)
    requires v.Object?
    ensures |r| == |v.fields|
    ensures forall i :: 0 <= i < |r| ==> r[i].key == v.fields[i].key
    decreases v, 0
  {
    seq(|v.fields|, i requires 0 <= i < |v.fields| => Field(v.fields[i].key, Canon(v.fields[i].value)))
  }

  /** No object has two fields with one key. */
  predicate DistinctKeys(v: Value)
    decreases v
  {
    match v
    case Array(items) => forall i :: 0 <= i < |items| ==> DistinctKeys(items[i])
    case Object(fields) =>
      && (forall i, j :: 0 <= i < j < |fields| ==> fields[i].key != fields[j].key)
      && (forall i :: 0 <= i < |fields| ==> DistinctKeys(fields[i].value))
    case _ => true
  }

  /** Each list has the keys of the other. */
  predicate SameKeys(s: seq<Field>, t: seq<Field>)
  {
    && (forall i :: 0 <= i < |s| ==> HasKey(t, s[i].key))
    && (forall j :: 0 <= j < |t| ==> HasKey(s, t[j].key))
  }

  /** Equal up to the order of object keys. */
  predicate Same(u: Value, v: Value)
    decreases u
  {
    match u
    case Array(items) =>
      v.Array? && |items| == |v.items| && forall i :: 0 <= i < |items| ==> Same(items[i], v.items[i])
    case Object(fields) =>
      && v.Object? && SameKeys(fields, v.fields)
      && forall i, j :: 0 <= i < |fields| && 0 <= j < |v.fields| && fields[i].key == v.fields[j].key ==>
           Same(fields[i].value, v.fields[j].value)
    case _ => u == v
  }

  predicate UniqueKeys(fields: seq<Field>)
  {
    forall i, j :: 0 <= i < j < |fields| ==> fields[i].key != fields[j].key
  }

  lemma {:induction false} LookupAt(fields: seq<Field>, i: nat)
    requires UniqueKeys(fields) && i < |fields|
    ensures Lookup(fields, fields[i].key) == Some(fields[i].value)
    decreases |fields|
  {
    var rest := fields[..|fields| - 1];
    if i < |rest| {
      LookupAt(rest, i);
    }
  }

  /** Looking up in the canonical form gives the canonical form of what the key had. */
  lemma CanonLookup(v: Value, key: string)
    requires v.Object?
    ensures Canon(v).Object? && KeysAscending(Canon(v).fields)
    ensures Lookup(Canon(v).fields, key) ==
            if Lookup(v.fields, key).Some? then Some(Canon(Lookup(v.fields, key).value)) else None
  {
    SortedTells(CanonFields(v), key);
    LookupCanonFields(v, |v.fields|, key);
    assert CanonFields(v)[..|v.fields|] == CanonFields(v) && v.fields[..|v.fields|] == v.fields;
  }

  lemma {:induction false} LookupCanonFields(v: Value, n: nat, key: string)
    requires v.Object? && n <= |v.fields|
    ensures Lookup(CanonFields(v)[..n], key) ==
            if Lookup(v.fields[..n], key).Some? then Some(Canon(Lookup(v.fields[..n], key).value)) else None
    decreases n
  {
    if n > 0 {
      LookupCanonFields(v, n - 1, key);
      assert CanonFields(v)[..n][..n - 1] == CanonFields(v)[..n - 1];
      assert v.fields[..n][..n - 1] == v.fields[..n - 1];
    }
  }

  /** The canonical form of the value at index `i`, as looked up. */
  lemma CanonAt(v: Value, i: nat)
    requires v.Object? && UniqueKeys(v.fields) && i < |v.fields|
    ensures Lookup(Canon(v).fields, v.fields[i].key) == Some(Canon(v.fields[i].value))
  {
    CanonLookup(v, v.fields[i].key);
    LookupAt(v.fields, i);
  }

  lemma CanonKeys(v: Value, key: string)
    requires v.Object?
    ensures Lookup(Canon(v).fields, key).Some? <==> HasKey(v.fields, key)
  {
    CanonLookup(v, key);
    LookupFinds(v.fields, key);
  }

  lemma CanonItems(v: Value, i: nat)
    requires v.Array? && i < |v.items|
    ensures Canon(v).Array? && |Canon(v).items| == |v.items| && Canon(v).items[i] == Canon(v.items[i])
  {
  }

  /** Values with one canonical form differ in key order only. */
  lemma {:induction false} SameIfCanonEqual(u: Value, v: Value)
    requires DistinctKeys(u) && DistinctKeys(v) && Canon(u) == Canon(v)
    ensures Same(u, v)
    decreases u, 1
  {
    match u {
      case Array(_) => SameItems(u, v);
      case Object(_) => SameFields(u, v);
      case _ =>
    }
  }

  lemma {:induction false} SameItems(u: Value, v: Value)
    requires u.Array? && DistinctKeys(u) && DistinctKeys(v) && Canon(u) == Canon(v)
    ensures Same(u, v)
    decreases u, 0
  {
    assert v.Array? && |Canon(u).items| == |u.items| && |Canon(v).items| == |v.items|;
    forall i | 0 <= i < |u.items|
      ensures Same(u.items[i], v.items[i])
    {
      CanonItems(u, i);
      CanonItems(v, i);
      SameIfCanonEqual(u.items[i], v.items[i]);
    }
  }

  lemma {:induction false} SameFields(u: Value, v: Value)
    requires u.Object? && DistinctKeys(u) && DistinctKeys(v) && Canon(u) == Canon(v)
    ensures Same(u, v)
    decreases u, 0
  {
    assert v.Object?;
    forall i, j | 0 <= i < |u.fields| && 0 <= j < |v.fields| && u.fields[i].key == v.fields[j].key
      ensures Same(u.fields[i].value, v.fields[j].value)
    {
      SameCanonAt(u, v, i, j);
      SameIfCanonEqual(u.fields[i].value, v.fields[j].value);
    }
    CanonSameKeys(u, v);
  }

  lemma SameCanonAt(u: Value, v: Value, i: nat, j: nat)
    requires u.Object? && v.Object? && DistinctKeys(u) && DistinctKeys(v) && Canon(u) == Canon(v)
    requires i < |u.fields| && j < |v.fields| && u.fields[i].key == v.fields[j].key
    ensures Canon(u.fields[i].value) == Canon(v.fields[j].value)
    ensures DistinctKeys(u.fields[i].value) && DistinctKeys(v.fields[j].value)
  {
    CanonAt(u, i);
    CanonAt(v, j);
  }

  lemma CanonSameKeys(u: Value, v: Value)
    requires u.Object? && v.Object? && Canon(u) == Canon(v)
    ensures SameKeys(u.fields, v.fields)
  {
    forall key
      ensures HasKey(u.fields, key) <==> HasKey(v.fields, key)
    {
      CanonKeys(u, key);
      CanonKeys(v, key);
    }
  }

  /** Values that differ in key order only have one canonical form. */
  lemma {:induction false} CanonEqualIfSame(u: Value, v: Value)
    requires DistinctKeys(u) && DistinctKeys(v) && Same(u, v)
    ensures Canon(u) == Canon(v)
    decreases u, 2
  {
    match u {
      case Array(_) => CanonEqualItems(u, v);
      case Object(_) => CanonEqualFields(u, v);
      case _ =>
    }
  }

  lemma {:induction false} CanonEqualItems(u: Value, v: Value)
    requires u.Array? && DistinctKeys(u) && DistinctKeys(v) && Same(u, v)
    ensures Canon(u) == Canon(v)
    decreases u, 1
  {
    forall i | 0 <= i < |u.items|
      ensures Canon(u.items[i]) == Canon(v.items[i])
    {
      CanonEqualIfSame(u.items[i], v.items[i]);
    }
    assert Canon(u).items == Canon(v).items;
  }

  lemma {:induction false} CanonEqualFields(u: Value, v: Value)
    requires u.Object? && DistinctKeys(u) && DistinctKeys(v) && Same(u, v)
    ensures Canon(u) == Canon(v)
    decreases u, 1
  {
    forall key
      ensures Lookup(Canon(u).fields, key) == Lookup(Canon(v).fields, key)
    {
      CanonEqualAt(u, v, key);
    }
    CanonLookup(u, "");
    CanonLookup(v, "");
    AscendingFieldsUnique(Canon(u).fields, Canon(v).fields);
  }

  lemma {:induction false} CanonEqualAt(u: Value, v: Value, key: string)
    requires u.Object? && DistinctKeys(u) && DistinctKeys(v) && Same(u, v)
    ensures Lookup(Canon(u).fields, key) == Lookup(Canon(v).fields, key)
    decreases u, 0
  {
    CanonKeys(u, key);
    CanonKeys(v, key);
    SameHasKey(u.fields, v.fields, key);
    if HasKey(u.fields, key) {
      var i :| 0 <= i < |u.fields| && u.fields[i].key == key;
      var j :| 0 <= j < |v.fields| && v.fields[j].key == key;
      CanonAt(u, i);
      CanonAt(v, j);
      CanonEqualIfSame(u.fields[i].value, v.fields[j].value);
    }
  }

  lemma SameHasKey(s: seq<Field>, t: seq<Field>, key: string)
    requires SameKeys(s, t)
    ensures HasKey(s, key) <==> HasKey(t, key)
  {
  }

  lemma CanonEqualIff(u: Value, v: Value)
    requires DistinctKeys(u) && DistinctKeys(v)
    ensures Canon(u) == Canon(v) <==> Same(u, v)
  {
    if Canon(u) == Canon(v) {
      SameIfCanonEqual(u, v);
    }
    if Same(u, v) {
      CanonEqualIfSame(u, v);
    }
  }

  /** Sorted keys at every level. */
  predicate Canonical(v: Value)
    decreases v
  {
    match v
    case Array(items) => forall i :: 0 <= i < |items| ==> Canonical(items[i])
    case Object(fields) => KeysAscending(fields) && forall i :: 0 <= i < |fields| ==> Canonical(fields[i].value)
    case _ => true
  }

  lemma {:induction false} InsertMembers(s: seq<Field>, f: Field, g: Field)
    requires g in InsertField(s, f)
    ensures g == f || g in s
    decreases |s|
  {
    if s != [] && g in InsertField(s[..|s| - 1], f) && InsertField(s, f) == InsertField(s[..|s| - 1], f) + [s[|s| - 1]] {
      InsertMembers(s[..|s| - 1], f, g);
    }
  }

  lemma {:induction false} SortedMembers(s: seq<Field>, g: Field)
    requires g in Sorted(s)
    ensures g in s
    decreases |s|
  {
    if s != [] {
      InsertMembers(Sorted(s[..|s| - 1]), s[|s| - 1], g);
      if g in Sorted(s[..|s| - 1]) {
        SortedMembers(s[..|s| - 1], g);
      }
    }
  }

  lemma {:induction false} CanonIsCanonical(v: Value)
    ensures Canonical(Canon(v))
    decreases v
  {
    match v {
      case Array(items) =>
        forall i | 0 <= i < |items|
          ensures Canonical(Canon(items[i]))
        {
          CanonIsCanonical(items[i]);
        }
      case Object(fields) =>
        CanonLookup(v, "");
        var r := Canon(v).fields;
        forall k | 0 <= k < |r|
          ensures Canonical(r[k].value)
        {
          SortedMembers(CanonFields(v), r[k]);
          var i :| 0 <= i < |fields| && CanonFields(v)[i] == r[k];
          CanonIsCanonical(fields[i].value);
        }
      case _ =>
    }
  }

  lemma {:induction false} CanonicalUnchanged(v: Value)
    requires Canonical(v)
    ensures Canon(v) == v
    decreases v
  {
    match v {
      case Array(items) =>
        forall i | 0 <= i < |items|
          ensures Canon(items[i]) == items[i]
        {
          CanonicalUnchanged(items[i]);
        }
        assert Canon(v).items == items;
      case Object(fields) =>
        forall i | 0 <= i < |fields|
          ensures CanonFields(v)[i] == fields[i]
        {
          CanonicalUnchanged(fields[i].value);
        }
        assert CanonFields(v) == fields;
        AscendingSorted(fields);
      case _ =>
    }
  }

  /** Canonicalizing gives sorted keys at every level, and doing it again changes nothing. */
  lemma CanonIdempotent(v: Value)
    ensures Canonical(Canon(v)) && Canon(Canon(v)) == Canon(v)
  {
    CanonIsCanonical(v);
    CanonicalUnchanged(Canon(v));
  }
}
