/** Owner sessions: a signed bearer token that names an owner and the epoch it was minted under, and the
    table of epochs that revokes them. */
module Sessions {
  import opened Wrappers
  import opened Text

  const SESSION_TTL_SECS: int := 3600

  // ---- Fields separated by a bar ----

  predicate NoBar(s: string)
  {
    '|' !in s
  }

  function Split(s: string): (r: seq<string>)
    ensures |r| >= 1
  {
    if s == "" then [""] else
    var rest := Split(s[1..]);
    if s[0] == '|' then [""] + rest else [[s[0]] + rest[0]] + rest[1..]
  }

  function Bars(s: string): nat
  {
    if s == "" then 0 else Bars(s[1..]) + if s[0] == '|' then 1 else 0
  }

  lemma {:induction false} SplitOne(a: string)
    requires NoBar(a)
    ensures Split(a) == [a]
  {
    if a != "" {
      assert a[0] in a && forall c :: c in a[1..] ==> c in a;
      SplitOne(a[1..]);
      assert a == [a[0]] + a[1..];
    }
  }

  lemma {:induction false} SplitFirst(a: string, b: string)
    requires NoBar(a)
    ensures Split(a + "|" + b) == [a] + Split(b)
  {
    var s := a + "|" + b;
    if a == "" {
      assert s[1..] == b;
    } else {
      assert a[0] in a && forall c :: c in a[1..] ==> c in a;
      SplitFirst(a[1..], b);
      assert s[1..] == a[1..] + "|" + b;
      assert a == [a[0]] + a[1..];
    }
  }

  lemma {:induction false} SplitLength(s: string)
    ensures |Split(s)| == Bars(s) + 1
  {
    if s != "" {
      SplitLength(s[1..]);
    }
  }

  lemma {:induction false} BarsConcat(a: string, b: string)
    ensures Bars(a + b) == Bars(a) + Bars(b)
  {
    if a == "" {
      assert a + b == b;
    } else {
      assert (a + b)[1..] == a[1..] + b;
      BarsConcat(a[1..], b);
    }
  }

  lemma {:induction false} BarsZero(s: string)
    ensures Bars(s) == 0 <==> NoBar(s)
  {
    if s != "" {
      BarsZero(s[1..]);
      assert s == [s[0]] + s[1..];
    }
  }

  /** `rfind('|')`: what stands before and after the last bar. */
  function SplitLast(s: string): Option<(string, string)>
  {
    if s == "" then None
    else if s[|s| - 1] == '|' then Some((s[..|s| - 1], ""))
    else
      var rest := SplitLast(s[..|s| - 1]);
      if rest.None? then None else Some((rest.value.0, rest.value.1 + [s[|s| - 1]]))
  }

  lemma {:induction false} SplitLastOf(a: string, b: string)
    requires NoBar(b)
    ensures SplitLast(a + "|" + b) == Some((a, b))
    decreases |b|
  {
    var s := a + "|" + b;
    if b == "" {
      assert s[..|s| - 1] == a;
    } else {
      var c := b[..|b| - 1];
      assert b[|b| - 1] in b && forall x :: x in c ==> x in b;
      SplitLastOf(a, c);
      assert s[..|s| - 1] == a + "|" + c;
      assert b == c + [b[|b| - 1]];
    }
  }

  lemma {:induction false} SplitLastParts(s: string)
    ensures SplitLast(s).Some? ==> s == SplitLast(s).value.0 + "|" + SplitLast(s).value.1
    decreases |s|
  {
    if s != "" {
      SplitLastParts(s[..|s| - 1]);
      assert s == s[..|s| - 1] + [s[|s| - 1]];
    }
  }

  // ---- The token ----

  predicate IsKeyImage(s: string)
  {
    |Utf8(s)| == 64 && forall c :: c in s ==> IsHexDigit(c)
  }

  datatype Verified = Verified(keyImage: string, epoch: int)

  /** The keyed hash under the server's session key, as lower-case hex; only its alphabet matters here. */
  ghost predicate HexMac(mac: string -> string)
  {
    forall p :: NoBar(mac(p))
  }

  function Payload(tenant: string, keyImage: string, epoch: int, expiresAt: int): string
  {
    "v3" + "|" + (tenant + "|" + (keyImage + "|" + (Decimal(epoch) + "|" + Decimal(expiresAt))))
  }

  function Issue(mac: string -> string, tenant: string, keyImage: string, epoch: int, now: int): (string, int)
  {
    var payload := Payload(tenant, keyImage, epoch, now + SESSION_TTL_SECS);
    (payload + "|" + mac(payload), now + SESSION_TTL_SECS)
  }

  function ReadFields(fields: seq<string>, tenant: string, now: int): Option<Verified>
  {
    if |fields| != 5 || fields[0] != "v3" || fields[1] != tenant then None
    else if !IsKeyImage(fields[2]) then None
    else
      var epoch, expiresAt := ParseI64(fields[3]), ParseI64(fields[4]);
      if epoch.None? || expiresAt.None? || now > expiresAt.value then None
      else Some(Verified(fields[2], epoch.value))
  }

  function Verify(mac: string -> string, session: string, tenant: string, now: int): Option<Verified>
  {
    var parts := SplitLast(session);
    if parts.None? then None
    else if mac(parts.value.0) != parts.value.1 then None
    else ReadFields(Split(parts.value.0), tenant, now)
  }

  lemma DecimalHasNoBar(n: int)
    ensures NoBar(Decimal(n))
  {
  }

  lemma PayloadFields(tenant: string, keyImage: string, epoch: int, expiresAt: int)
    requires NoBar(tenant) && NoBar(keyImage)
    ensures Split(Payload(tenant, keyImage, epoch, expiresAt)) == ["v3", tenant, keyImage, Decimal(epoch), Decimal(expiresAt)]
  {
    var e, x := Decimal(epoch), Decimal(expiresAt);
    DecimalHasNoBar(epoch);
    DecimalHasNoBar(expiresAt);
    SplitFirst("v3", tenant + "|" + (keyImage + "|" + (e + "|" + x)));
    SplitFirst(tenant, keyImage + "|" + (e + "|" + x));
    SplitFirst(keyImage, e + "|" + x);
    SplitFirst(e, x);
    SplitOne(x);
  }

  lemma BarAdds(a: string, b: string)
    ensures Bars(a + "|" + b) == Bars(a) + 1 + Bars(b)
  {
    BarsConcat(a + "|", b);
    BarsConcat(a, "|");
  }

  lemma PayloadFieldCount(tenant: string, keyImage: string, epoch: int, expiresAt: int)
    ensures |Split(Payload(tenant, keyImage, epoch, expiresAt))| == 5 <==> NoBar(tenant) && NoBar(keyImage)
  {
    var e, x := Decimal(epoch), Decimal(expiresAt);
    DecimalHasNoBar(epoch);
    DecimalHasNoBar(expiresAt);
    BarsZero(e);
    BarsZero(x);
    BarsZero(tenant);
    BarsZero(keyImage);
    BarsZero("v3");
    BarAdds("v3", tenant + "|" + (keyImage + "|" + (e + "|" + x)));
    BarAdds(tenant, keyImage + "|" + (e + "|" + x));
    BarAdds(keyImage, e + "|" + x);
    BarAdds(e, x);
    SplitLength(Payload(tenant, keyImage, epoch, expiresAt));
  }

  /** A minted token verifies exactly for the tenant it was minted for, until it expires, and gives back the
      owner and the epoch; a tenant name with a bar in it, or an owner that is no key image, never verifies. */
  lemma VerifyOfIssue(mac: string -> string, tenant: string, keyImage: string, epoch: int, issuedAt: int, expected: string, now: int)
    requires HexMac(mac) && IsI64(epoch) && IsI64(issuedAt + SESSION_TTL_SECS)
    ensures Verify(mac, Issue(mac, tenant, keyImage, epoch, issuedAt).0, expected, now) ==
            if expected == tenant && NoBar(tenant) && IsKeyImage(keyImage) && now <= issuedAt + SESSION_TTL_SECS
            then Some(Verified(keyImage, epoch)) else None
  {
    var expiresAt := issuedAt + SESSION_TTL_SECS;
    var payload := Payload(tenant, keyImage, epoch, expiresAt);
    SplitLastOf(payload, mac(payload));
    if NoBar(tenant) && NoBar(keyImage) {
      PayloadFields(tenant, keyImage, epoch, expiresAt);
      ParseOfDecimal(epoch);
      ParseOfDecimal(expiresAt);
    } else {
      PayloadFieldCount(tenant, keyImage, epoch, expiresAt);
    }
  }

  /** What verifies is some payload with its own signature: five fields that name the tenant, a key image, and
      two numbers of which the second has not passed. */
  lemma VerifySound(mac: string -> string, session: string, tenant: string, now: int)
    requires Verify(mac, session, tenant, now).Some?
    ensures exists payload, e, x ::
              && session == payload + "|" + mac(payload)
              && Split(payload) == ["v3", tenant, Verify(mac, session, tenant, now).value.keyImage, e, x]
              && ParseI64(e) == Some(Verify(mac, session, tenant, now).value.epoch)
              && ParseI64(x).Some? && now <= ParseI64(x).value
    ensures IsKeyImage(Verify(mac, session, tenant, now).value.keyImage)
  {
    SplitLastParts(session);
    var payload := SplitLast(session).value.0;
    var f := Split(payload);
    assert f == ["v3", tenant, f[2], f[3], f[4]];
  }

  // ---- Epochs and revocation ----

  type Epochs = map<string, int>

  datatype Step = Enrol(keyImage: string) | Revoke(keyImage: string)

  /** The stored epoch; an owner without a credential row has epoch 0. */
  function CurrentEpoch(rows: Epochs, keyImage: string): int
  {
    if keyImage in rows then rows[keyImage] else 0
  }

  /** The epoch as the server reads it: a query that fails reads as 0 too. */
  function ReadEpoch(rows: Epochs, keyImage: string, fails: bool): int
  {
    if fails then 0 else CurrentEpoch(rows, keyImage)
  }

  /** Enrolling twice keeps the first row; revoking an owner without a row updates nothing. */
  function Next(rows: Epochs, step: Step): Epochs
  {
    match step
    case Enrol(k) => if k in rows then rows else rows[k := 0]
    case Revoke(k) => if k in rows then rows[k := rows[k] + 1] else rows
  }

  function After(steps: seq<Step>): Epochs
  {
    if steps == [] then map[] else Next(After(steps[..|steps| - 1]), steps[|steps| - 1])
  }

  predicate Revokes(steps: seq<Step>, i: nat, keyImage: string)
  {
    i < |steps| && steps[i] == Revoke(keyImage) && keyImage in After(steps[..i])
  }

  lemma AfterOne(steps: seq<Step>, n: nat)
    requires n < |steps|
    ensures After(steps[..n + 1]) == Next(After(steps[..n]), steps[n])
  {
    assert steps[..n + 1][..n] == steps[..n];
  }

  /** An epoch never falls, and it rises exactly when a revocation finds the owner's row. */
  lemma {:induction false} EpochRises(steps: seq<Step>, n: nat, m: nat, keyImage: string)
    requires n <= m <= |steps|
    ensures CurrentEpoch(After(steps[..n]), keyImage) <= CurrentEpoch(After(steps[..m]), keyImage)
    ensures CurrentEpoch(After(steps[..n]), keyImage) == CurrentEpoch(After(steps[..m]), keyImage) <==>
            forall i :: n <= i < m ==> !Revokes(steps, i, keyImage)
    decreases m
  {
    if n < m {
      EpochRises(steps, n, m - 1, keyImage);
      AfterOne(steps, m - 1);
      if Revokes(steps, m - 1, keyImage) {
        assert n <= m - 1 < m;
      }
    }
  }

  function Authenticate(mac: string -> string, rows: Epochs, session: string, tenant: string, now: int, fails: bool): Option<string>
  {
    var v := Verify(mac, session, tenant, now);
    if v.None? || ReadEpoch(rows, v.value.keyImage, fails) != v.value.epoch then None else Some(v.value.keyImage)
  }

  /** The token minted after `n` steps of a run. */
  function Minted(mac: string -> string, steps: seq<Step>, n: nat, tenant: string, keyImage: string, issuedAt: int, fails: bool): string
    requires n <= |steps|
  {
    Issue(mac, tenant, keyImage, ReadEpoch(After(steps[..n]), keyImage, fails), issuedAt).0
  }

  predicate NotRevoked(steps: seq<Step>, n: nat, m: nat, keyImage: string)
  {
    forall i :: n <= i < m ==> !Revokes(steps, i, keyImage)
  }

  /** The epoch is 0 exactly until the first revocation that finds the row. */
  lemma EpochZero(steps: seq<Step>, n: nat, keyImage: string)
    requires n <= |steps|
    ensures 0 <= CurrentEpoch(After(steps[..n]), keyImage)
    ensures CurrentEpoch(After(steps[..n]), keyImage) == 0 <==> NotRevoked(steps, 0, n, keyImage)
  {
    assert After(steps[..0]) == map[];
    EpochRises(steps, 0, n, keyImage);
  }

  /** A session minted at one point of a run and used at a later one authenticates its owner exactly while it
      has not expired and its epoch still reads the same. If both reads of the epoch succeed that means that no
      revocation has reached the owner's row in between. A read that failed at minting counts every
      revocation so far against the session, and a read that fails at use lets through exactly the sessions
      of epoch 0: those minted before any revocation, or with a failed read. */
  lemma SessionLives(mac: string -> string, steps: seq<Step>, n: nat, m: nat, tenant: string, keyImage: string, issuedAt: int, now: int,
                     mintFails: bool, useFails: bool)
    requires HexMac(mac) && n <= m <= |steps| && NoBar(tenant) && IsKeyImage(keyImage)
    requires IsI64(CurrentEpoch(After(steps[..n]), keyImage)) && IsI64(issuedAt + SESSION_TTL_SECS)
    ensures var token := Minted(mac, steps, n, tenant, keyImage, issuedAt, mintFails);
            var got := Authenticate(mac, After(steps[..m]), token, tenant, now, useFails);
            && (got == Some(keyImage) <==>
                  && now <= issuedAt + SESSION_TTL_SECS
                  && (if useFails then mintFails || NotRevoked(steps, 0, n, keyImage)
                      else NotRevoked(steps, if mintFails then 0 else n, m, keyImage)))
            && (got.None? || got == Some(keyImage))
  {
    VerifyOfIssue(mac, tenant, keyImage, ReadEpoch(After(steps[..n]), keyImage, mintFails), issuedAt, tenant, now);
    EpochRises(steps, n, m, keyImage);
    EpochZero(steps, n, keyImage);
    EpochZero(steps, m, keyImage);
  }

  lemma {:induction false} RowStays(steps: seq<Step>, n: nat, m: nat, keyImage: string)
    requires n <= m <= |steps| && keyImage in After(steps[..n])
    ensures keyImage in After(steps[..m])
    decreases m
  {
    if n < m {
      RowStays(steps, n, m - 1, keyImage);
      AfterOne(steps, m - 1);
    }
  }

  /** After a revocation of an owner with a credential row, an unexpired session is refused exactly if the
      read of the epoch succeeds or the session was minted at a positive epoch. */
  lemma RevocationEndsSessions(mac: string -> string, steps: seq<Step>, n: nat, i: nat, m: nat, tenant: string, keyImage: string, issuedAt: int, now: int,
                               useFails: bool)
    requires HexMac(mac) && n <= i < m <= |steps| && NoBar(tenant) && IsKeyImage(keyImage)
    requires IsI64(CurrentEpoch(After(steps[..n]), keyImage)) && IsI64(issuedAt + SESSION_TTL_SECS)
    requires keyImage in After(steps[..n]) && steps[i] == Revoke(keyImage)
    ensures Authenticate(mac, After(steps[..m]), Minted(mac, steps, n, tenant, keyImage, issuedAt, false), tenant, now, useFails).None? <==>
            now > issuedAt + SESSION_TTL_SECS || !useFails || CurrentEpoch(After(steps[..n]), keyImage) > 0
  {
    RowStays(steps, n, i, keyImage);
    assert Revokes(steps, i, keyImage);
    SessionLives(mac, steps, n, m, tenant, keyImage, issuedAt, now, false, useFails);
    EpochZero(steps, n, keyImage);
  }

  /** A revoked session that still authenticates: the owner has a row, and the next read of it fails. */
  lemma RevokedButUnread(mac: string -> string, tenant: string, keyImage: string, issuedAt: int)
    requires HexMac(mac) && NoBar(tenant) && IsKeyImage(keyImage) && IsI64(issuedAt + SESSION_TTL_SECS)
    ensures var steps := [Enrol(keyImage), Revoke(keyImage)];
            && keyImage in After(steps[..1]) && CurrentEpoch(After(steps), keyImage) == 1
            && Authenticate(mac, After(steps), Minted(mac, steps, 1, tenant, keyImage, issuedAt, false), tenant, issuedAt, true) == Some(keyImage)
  {
    var steps := [Enrol(keyImage), Revoke(keyImage)];
    assert steps[..2] == steps && After(steps[..0]) == map[];
    AfterOne(steps, 0);
    AfterOne(steps, 1);
    RevocationEndsSessions(mac, steps, 1, 1, 2, tenant, keyImage, issuedAt, issuedAt, true);
    SessionLives(mac, steps, 1, 2, tenant, keyImage, issuedAt, issuedAt, false, true);
  }

  /** Without a row the revocation is lost: the session goes on authenticating. */
  lemma RevocationWithoutRow(mac: string -> string, tenant: string, keyImage: string, issuedAt: int)
    requires HexMac(mac) && NoBar(tenant) && IsKeyImage(keyImage) && IsI64(issuedAt + SESSION_TTL_SECS)
    ensures var steps := [Revoke(keyImage)];
            Authenticate(mac, After(steps), Minted(mac, steps, 0, tenant, keyImage, issuedAt, false), tenant, issuedAt, false) == Some(keyImage)
  {
    var steps := [Revoke(keyImage)];
    assert steps[..1] == steps && After(steps[..0]) == map[];
    SessionLives(mac, steps, 0, 1, tenant, keyImage, issuedAt, issuedAt, false, false);
  }

  class CredentialTable {
    var rows: Epochs

    constructor ()
      ensures rows == map[]
    {
      rows := map[];
    }

    /** Advances the epoch of an owner with a row and returns the epoch as read back, which is 0 when that read
        fails; an update that fails changes nothing. */
    method RevokeAll(keyImage: string, updateFails: bool, readFails: bool) returns (r: Result<int, string>)
      modifies this
      ensures r.Err? <==> updateFails
      ensures r.Err? ==> rows == old(rows)
      ensures r.Ok? ==> rows == Next(old(rows), Revoke(keyImage))
      ensures r.Ok? && !readFails ==> r.value == CurrentEpoch(old(rows), keyImage) + if keyImage in old(rows) then 1 else 0
      ensures r.Ok? && readFails ==> r.value == 0
    {
      if updateFails {
        return Err("bump session_epoch");
      }
      if keyImage in rows {
        rows := rows[keyImage := rows[keyImage] + 1];
      }
      return Ok(ReadEpoch(rows, keyImage, readFails));
    }

    /** Keeps an existing row, and changes nobody's epoch. */
    method Store(keyImage: string, fails: bool) returns (r: Result<(), string>)
      modifies this
      ensures r.Err? <==> fails
      ensures rows == if fails then old(rows) else Next(old(rows), Enrol(keyImage))
      ensures forall k :: CurrentEpoch(rows, k) == CurrentEpoch(old(rows), k)
    {
      if fails {
        return Err("authentication credential conflict");
      }
      if keyImage !in rows {
        rows := rows[keyImage := 0];
      }
      return Ok(());
    }
  }
}
