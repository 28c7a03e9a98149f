/** The wire form of a Solana memo transaction: the variable-length `compact-u16` and the legacy message. */
module SolanaMemo {
  import opened Wrappers

  // ---- compact-u16 ----

  /** Seven bits a byte, low bits first; the high bit says that more follow. */
  function Compact(n: nat): (r: seq<Byte>)
    ensures r != []
  {
    if n < 128 then [n] else [128 + n % 128] + Compact(n / 128)
  }

  method EncodeCompactU16(n: nat) returns (r: seq<Byte>)
    requires n < 65536
    ensures r == Compact(n)
    ensures |r| == if n < 128 then 1 else if n < 16384 then 2 else 3
  {
    r := [];
    var rest := n;
    while true
      invariant 0 <= rest <= n && r + Compact(rest) == Compact(n)
      decreases rest
    {
      var low := rest % 128;
      var was := rest;
      rest := rest / 128;
      if rest == 0 {
        r := r + [low];
        CompactLength(n);
        return;
      }
      assert r + Compact(was) == r + [128 + low] + Compact(rest);
      r := r + [128 + low];
    }
  }

  lemma CompactLength(n: nat)
    requires n < 65536
    ensures |Compact(n)| == if n < 128 then 1 else if n < 16384 then 2 else 3
  {
    if n >= 128 {
      assert |Compact(n)| == 1 + |Compact(n / 128)|;
      if n >= 16384 {
        assert |Compact(n / 128)| == 1 + |Compact(n / 128 / 128)|;
      }
    }
  }

  /** A reader of the same form, and what it leaves unread. */
  function Decode(s: seq<Byte>): Option<(nat, seq<Byte>)>
  {
    if s == [] then None
    else if s[0] < 128 then Some((s[0], s[1..]))
    else
      var more := Decode(s[1..]);
      if more.None? then None else Some((s[0] - 128 + 128 * more.value.0, more.value.1))
  }

  lemma {:induction false} DecodeOfCompact(n: nat, x: seq<Byte>)
    ensures Decode(Compact(n) + x) == Some((n, x))
    decreases n
  {
    var s := Compact(n) + x;
    if n < 128 {
      assert s[1..] == x;
    } else {
      assert s[1..] == Compact(n / 128) + x;
      DecodeOfCompact(n / 128, x);
    }
  }

  /** No encoding is the start of another. */
  lemma CompactCancels(m: nat, n: nat, x: seq<Byte>, y: seq<Byte>)
    requires Compact(m) + x == Compact(n) + y
    ensures m == n && x == y
  {
    DecodeOfCompact(m, x);
    DecodeOfCompact(n, y);
  }

  /** Of all the bytes that read as a number, its encoding is the only shortest. */
  lemma {:induction false} CompactShortest(s: seq<Byte>)
    requires Decode(s).Some? && Decode(s).value.1 == []
    ensures var n := Decode(s).value.0; |Compact(n)| <= |s| && (|Compact(n)| == |s| ==> Compact(n) == s)
    decreases |s|
  {
    if s[0] < 128 {
      assert s == [s[0]] + s[1..];
    } else {
      CompactShortest(s[1..]);
      var more: int := Decode(s[1..]).value.0;
      var n: int := s[0] as int - 128 + 128 * more;
      assert s == [s[0]] + s[1..];
      if more > 0 {
        assert n / 128 == more && n % 128 == s[0] - 128;
      }
    }
  }

  // ---- The legacy message ----

  type Key = k: seq<Byte> | |k| == 32 witness seq(32, i => 0)

  const HEADER: seq<Byte> := [1, 0, 1]

  /** The length is stored in sixteen bits; a longer memo wraps. */
  function MemoPart(memo: seq<Byte>): seq<Byte>
  {
    Compact(|memo| % 65536) + memo
  }

  function Message(signer: Key, program: Key, memo: seq<Byte>, blockhash: Key): seq<Byte>
  {
    HEADER + Compact(2) + signer + program + blockhash + Compact(1) + [1] + Compact(0) + MemoPart(memo)
  }

  method BuildLegacyMessage(signer: Key, program: Key, memo: seq<Byte>, blockhash: Key) returns (msg: seq<Byte>)
    ensures msg == Message(signer, program, memo, blockhash)
  {
    msg := HEADER;
    var part := EncodeCompactU16(2);
    msg := msg + part;
    msg := msg + signer;
    msg := msg + program;
    msg := msg + blockhash;
    part := EncodeCompactU16(1);
    msg := msg + part;
    msg := msg + [1];
    part := EncodeCompactU16(0);
    msg := msg + part;
    part := EncodeCompactU16(|memo| % 65536);
    msg := msg + part;
    msg := msg + memo;
    assert msg == Message(signer, program, memo, blockhash);
  }

  datatype Parsed = Parsed(signer: seq<Byte>, program: seq<Byte>, blockhash: seq<Byte>, memo: seq<Byte>)

  /** Everything before the memo: the header, two accounts, the block hash, and one instruction of the second
      account without account indices. */
  const PREFIX_LENGTH: nat := 103

  /** A reader of the wire form, which takes exactly as many memo bytes as the length says. */
  function Parse(msg: seq<Byte>): Option<Parsed>
  {
    if |msg| < PREFIX_LENGTH || msg[..4] != [1, 0, 1, 2] || msg[100..103] != [1, 1, 0] then None
    else
      var memo := Decode(msg[103..]);
      if memo.None? || |memo.value.1| != memo.value.0 then None
      else Some(Parsed(msg[4..36], msg[36..68], msg[68..100], memo.value.1))
  }

  lemma Layout(signer: Key, program: Key, memo: seq<Byte>, blockhash: Key)
    ensures var msg := Message(signer, program, memo, blockhash);
            && |msg| >= PREFIX_LENGTH && msg[..4] == [1, 0, 1, 2] && msg[4..36] == signer && msg[36..68] == program
            && msg[68..100] == blockhash && msg[100..103] == [1, 1, 0] && msg[103..] == MemoPart(memo)
  {
    var msg := Message(signer, program, memo, blockhash);
    var head: seq<Byte> := [1, 0, 1, 2];
    var call: seq<Byte> := [1, 1, 0];
    assert msg == head + signer + program + blockhash + call + MemoPart(memo);
  }

  /** A reader gets back the signer, the program, the block hash and the memo exactly if the memo is shorter
      than 65536 bytes. */
  lemma ParseOfMessage(signer: Key, program: Key, memo: seq<Byte>, blockhash: Key)
    ensures Parse(Message(signer, program, memo, blockhash)) ==
            if |memo| < 65536 then Some(Parsed(signer, program, blockhash, memo)) else None
  {
    Layout(signer, program, memo, blockhash);
    DecodeOfCompact(|memo| % 65536, memo);
  }

  /** Even where the length wraps, the bytes determine the message. */
  lemma MessageInjective(s: Key, p: Key, m: seq<Byte>, b: Key, s': Key, p': Key, m': seq<Byte>, b': Key)
    requires Message(s, p, m, b) == Message(s', p', m', b')
    ensures s == s' && p == p' && m == m' && b == b'
  {
    Layout(s, p, m, b);
    Layout(s', p', m', b');
    CompactCancels(|m| % 65536, |m'| % 65536, m, m');
  }
}
