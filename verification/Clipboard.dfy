/** The clipboard sequence: OSC 52 over base64, and its passthrough inside tmux. */
module Clipboard {
  import opened Bytes

  const PAD: byte := '=' as int

  /** ESC ] 5 2 ; c ; */
  const OSC52: seq<byte> := [0x1b, 0x5d, 0x35, 0x32, 0x3b, 0x63, 0x3b]
  const BEL: byte := 7

  /** ESC P t m u x ; */
  const TMUX: seq<byte> := [0x1b, 0x50, 0x74, 0x6d, 0x75, 0x78, 0x3b]

  /** ESC \ */
  const ST: seq<byte> := [0x1b, 0x5c]

  // ----- Base64, section 4 of RFC 4648 -----

  function Symbol(n: nat): byte
    requires n < 64
  {
    if n < 26 then 'A' as int + n
    else if n < 52 then 'a' as int + n - 26
    else if n < 62 then '0' as int + n - 52
    else if n == 62 then '+' as int
    else '/' as int
  }

  function SymbolValue(b: byte): (r: Option<nat>)
    ensures r.Some? ==> r.value < 64
  {
    if 'A' as int <= b <= 'Z' as int then Some(b - 'A' as int)
    else if 'a' as int <= b <= 'z' as int then Some(b - 'a' as int + 26)
    else if '0' as int <= b <= '9' as int then Some(b - '0' as int + 52)
    else if b == '+' as int then Some(62)
    else if b == '/' as int then Some(63)
    else None
  }

  /** Up to three bytes as one number, missing ones as zero. */
  function Packed(chunk: seq<byte>): nat
    requires 1 <= |chunk| <= 3
  {
    var x: nat, y: nat, z: nat :=
      chunk[0], if |chunk| > 1 then chunk[1] else 0, if |chunk| > 2 then chunk[2] else 0;
    x * 65536 + y * 256 + z
  }

  /** Four symbols for one to three bytes. */
  function Group(chunk: seq<byte>): (r: seq<byte>)
    requires 1 <= |chunk| <= 3
    ensures |r| == 4
  {
    var n := Packed(chunk);
    [Symbol(n / 262144 % 64),
     Symbol(n / 4096 % 64),
     if |chunk| > 1 then Symbol(n / 64 % 64) else PAD,
     if |chunk| > 2 then Symbol(n % 64) else PAD]
  }

  function Base64(bytes: seq<byte>): seq<byte> {
    if bytes == [] then []
    else if |bytes| <= 3 then Group(bytes)
    else Group(bytes[..3]) + Base64(bytes[3..])
  }

  /** The bytes of four symbols; padding only at the end, and no bits behind it. */
  function Ungroup(s: seq<byte>): (r: Option<seq<byte>>)
    requires |s| == 4
  {
    var a, b, c, d := SymbolValue(s[0]), SymbolValue(s[1]), SymbolValue(s[2]), SymbolValue(s[3]);
    if a.None? || b.None? then None
    else
      var first := a.value * 4 + b.value / 16;
      if s[2] == PAD then
        if s[3] == PAD && b.value % 16 == 0 then Some([first]) else None
      else if c.None? then None
      else
        var second := b.value % 16 * 16 + c.value / 4;
        if s[3] == PAD then
          if c.value % 4 == 0 then Some([first, second]) else None
        else if d.None? then None
        else Some([first, second, c.value % 4 * 64 + d.value])
  }

  /** A base64 decoder: whole groups of four, a short one only at the end. */
  function Unbase64(s: seq<byte>): Option<seq<byte>> {
    if s == [] then Some([])
    else if |s| < 4 then None
    else
      var first := Ungroup(s[..4]);
      if first.None? || (|first.value| < 3 && |s| > 4) then None
      else
        var rest := Unbase64(s[4..]);
        if rest.None? then None else Some(first.value + rest.value)
  }

  lemma SymbolRoundTrip(n: nat)
    requires n < 64
    ensures SymbolValue(Symbol(n)) == Some(n) && Symbol(n) != PAD && Symbol(n) != ESC
  {
  }

  lemma Quotient(n: nat, k: nat, q: nat, r: nat)
    requires r < k && n == q * k + r
    ensures n / k == q && n % k == r
  {
    SameRemainder(q, r, n / k, n % k, k);
  }

  lemma SameRemainder(q: nat, r: nat, p: nat, s: nat, k: nat)
    requires r < k && s < k && q * k + r == p * k + s
    ensures q == p && r == s
  {
    assert (p - q) * k == p * k - q * k;
    if q != p {
      Whole(if q < p then p - q else q - p, k);
    }
  }

  lemma Whole(d: nat, k: nat)
    requires d > 0
    ensures d * k >= k
  {
  }

  /** Three bytes as four sextets. */
  lemma Sextets(x: byte, y: byte, z: byte, n: nat)
    requires n == x * 65536 + y * 256 + z
    ensures n / 262144 % 64 == x / 4 && n / 4096 % 64 == x % 4 * 16 + y / 16
    ensures n / 64 % 64 == y % 16 * 4 + z / 64 && n % 64 == z % 64
  {
    var a, b, c, d, e, f := x / 4, x % 4, y / 16, y % 16, z / 64, z % 64;
    assert x == 4 * a + b && y == 16 * c + d && z == 64 * e + f;
    Quotient(n, 262144, a, b * 65536 + y * 256 + z);
    Quotient(a, 64, 0, a);
    Quotient(n, 4096, x * 16 + c, d * 256 + z);
    Quotient(x * 16 + c, 64, a, b * 16 + c);
    Quotient(n, 64, x * 1024 + y * 4 + e, f);
    Quotient(x * 1024 + y * 4 + e, 64, x * 16 + c, d * 4 + e);
  }

  lemma GroupRoundTrip(chunk: seq<byte>)
    requires 1 <= |chunk| <= 3
    ensures Ungroup(Group(chunk)) == Some(chunk)
  {
    hide Symbol, SymbolValue;
    var x: byte, y: byte, z: byte :=
      chunk[0], if |chunk| > 1 then chunk[1] else 0, if |chunk| > 2 then chunk[2] else 0;
    var a, b, c, d := x / 4, x % 4 * 16 + y / 16, y % 16 * 4 + z / 64, z % 64;
    Sextets(x, y, z, Packed(chunk));
    SymbolRoundTrip(a);
    SymbolRoundTrip(b);
    SymbolRoundTrip(c);
    SymbolRoundTrip(d);
    Bits(x, y, z);
    NoPad();
    assert chunk == if |chunk| == 1 then [x] else if |chunk| == 2 then [x, y] else [x, y, z];
    assert Group(chunk) == [Symbol(a), Symbol(b), if |chunk| > 1 then Symbol(c) else PAD,
                            if |chunk| > 2 then Symbol(d) else PAD];
  }

  /** The sextets of three bytes, put together again. */
  lemma Bits(x: byte, y: byte, z: byte)
    ensures var b, c := x % 4 * 16 + y / 16, y % 16 * 4 + z / 64;
      && x / 4 * 4 + b / 16 == x && b % 16 * 16 + c / 4 == y && c % 4 * 64 + z % 64 == z
      && b % 16 == y / 16 && c % 4 == z / 64
  {
    Quotient(x % 4 * 16 + y / 16, 16, x % 4, y / 16);
    Quotient(y % 16 * 4 + z / 64, 4, y % 16, z / 64);
  }

  lemma NoPad()
    ensures SymbolValue(PAD).None?
  {
  }

  /** Decoding what was encoded gives the bytes back. */
  lemma {:induction false} Base64RoundTrip(bytes: seq<byte>)
    ensures Unbase64(Base64(bytes)) == Some(bytes)
  {
    hide Group, Ungroup;
    if bytes != [] {
      if |bytes| <= 3 {
        GroupRoundTrip(bytes);
        assert Group(bytes)[..4] == Group(bytes) && Group(bytes)[4..] == [];
        assert bytes + [] == bytes;
      } else {
        var first, rest := bytes[..3], bytes[3..];
        GroupRoundTrip(first);
        Base64RoundTrip(rest);
        var s := Group(first) + Base64(rest);
        assert s[..4] == Group(first) && s[4..] == Base64(rest);
        assert first + rest == bytes;
      }
    }
  }

  // ----- OSC 52 -----

  lemma {:induction false} Base64Step(bytes: seq<byte>, i: nat)
    requires i % 3 == 0 && i < |bytes|
    ensures var j := if |bytes| - i < 3 then |bytes| else i + 3;
      Base64(bytes[..j]) == Base64(bytes[..i]) + Group(bytes[i..j])
    decreases i
  {
    hide Group;
    var j := if |bytes| - i < 3 then |bytes| else i + 3;
    if i == 0 {
      assert bytes[0..j] == bytes[..j];
    } else {
      var tail := bytes[3..];
      Base64Step(tail, i - 3);
      assert tail[..i - 3] == bytes[3..i] == bytes[..i][3..];
      assert tail[..j - 3] == bytes[3..j] == bytes[..j][3..];
      assert tail[i - 3..j - 3] == bytes[i..j];
      assert bytes[..i][..3] == bytes[..3] == bytes[..j][..3];
      assert i == 3 ==> Base64(bytes[..i]) == Group(bytes[..3]) + Base64(bytes[..i][3..]);
      assert Base64(bytes[..j]) == Group(bytes[..3]) + Base64(bytes[..j][3..]);
      assert Base64(bytes[..i]) == Group(bytes[..3]) + Base64(bytes[..i][3..]);
    }
  }

  /** The sequence that puts `text` on the system clipboard. */
  function Sequence(text: seq<byte>): seq<byte> {
    OSC52 + Base64(text) + [BEL]
  }

  method Osc52(text: seq<byte>) returns (out: seq<byte>)
    ensures out == Sequence(text)
  {
    hide Base64, Group;
    out := OSC52;
    var i := 0;
    Base64Empty();
    while i < |text|
      invariant i <= |text| && (i < |text| ==> i % 3 == 0)
      invariant out == OSC52 + Base64(text[..i])
    {
      var j := if |text| - i < 3 then |text| else i + 3;
      Base64Step(text, i);
      out := out + Group(text[i..j]);
      i := j;
    }
    assert text[..i] == text;
    out := out + [BEL];
  }

  lemma Base64Empty()
    ensures Base64([]) == []
  {
  }

  /** The payload of an OSC 52 sequence. */
  function Payload(s: seq<byte>): Option<seq<byte>> {
    if |s| >= |OSC52| + 1 && OSC52 <= s && s[|s| - 1] == BEL then Some(s[|OSC52|..|s| - 1]) else None
  }

  // ----- tmux -----

  function Doubled(s: seq<byte>): seq<byte> {
    if s == [] then []
    else (if s[0] == ESC then [ESC, ESC] else [s[0]]) + Doubled(s[1..])
  }

  lemma {:induction false} DoubledSnoc(s: seq<byte>, b: byte)
    ensures Doubled(s + [b]) == Doubled(s) + if b == ESC then [ESC, ESC] else [b]
  {
    if s == [] {
      assert [b][1..] == [];
    } else {
      DoubledSnoc(s[1..], b);
      assert (s + [b])[1..] == s[1..] + [b];
    }
  }

  /** What tmux passes on: everything up to the terminator, each doubled ESC as one; and what follows. */
  function Undoubled(s: seq<byte>): Option<(seq<byte>, seq<byte>)> {
    if |s| < 2 then None
    else if s[0] != ESC then Prefixed(s[0], Undoubled(s[1..]))
    else if s[1] == ESC then Prefixed(ESC, Undoubled(s[2..]))
    else if s[1] == ST[1] then Some(([], s[2..]))
    else None
  }

  function Prefixed(b: byte, r: Option<(seq<byte>, seq<byte>)>): Option<(seq<byte>, seq<byte>)> {
    if r.None? then None else Some(([b] + r.value.0, r.value.1))
  }

  function Unwrapped(s: seq<byte>): Option<(seq<byte>, seq<byte>)> {
    if TMUX <= s then Undoubled(s[|TMUX|..]) else None
  }

  lemma {:induction false} UndoublesDoubled(s: seq<byte>, rest: seq<byte>)
    ensures Undoubled(Doubled(s) + ST + rest) == Some((s, rest))
  {
    var t := Doubled(s) + ST + rest;
    if s == [] {
      assert t == ST + rest && t[2..] == rest;
    } else {
      UndoublesDoubled(s[1..], rest);
      var later := Doubled(s[1..]) + ST + rest;
      if s[0] == ESC {
        assert t == [ESC, ESC] + later && t[2..] == later;
      } else {
        assert t == [s[0]] + later && t[1..] == later;
      }
      assert [s[0]] + s[1..] == s;
    }
  }

  /** The passthrough of a sequence. */
  function Wrapped(inner: seq<byte>): seq<byte> {
    TMUX + Doubled(inner) + ST
  }

  method Osc52Tmux(text: seq<byte>) returns (out: seq<byte>)
    ensures out == Wrapped(Sequence(text))
  {
    hide Base64, Doubled;
    var inner := Osc52(text);
    out := TMUX;
    assert inner[..0] == [];
    NothingDoubled();
    for i := 0 to |inner|
      invariant out == TMUX + Doubled(inner[..i])
    {
      assert inner[..i + 1] == inner[..i] + [inner[i]];
      DoubledSnoc(inner[..i], inner[i]);
      if inner[i] == ESC {
        out := out + [ESC];
      }
      out := out + [inner[i]];
    }
    assert inner[..|inner|] == inner;
    out := out + ST;
  }

  lemma NothingDoubled()
    ensures Doubled([]) == []
  {
  }

  /** From the passthrough back to the text: tmux undoes its wrapping whatever comes after it, and the payload of what
      it passes on decodes to the text. */
  lemma ClipboardRoundTrip(text: seq<byte>, rest: seq<byte>)
    ensures var plain := Sequence(text);
      && Unwrapped(Wrapped(plain) + rest) == Some((plain, rest))
      && Payload(plain) == Some(Base64(text)) && Unbase64(Payload(plain).value) == Some(text)
  {
    hide Base64, Doubled, Undoubled, Unbase64;
    var plain := Sequence(text);
    var t := Wrapped(plain) + rest;
    assert t[|TMUX|..] == Doubled(plain) + ST + rest;
    UndoublesDoubled(plain, rest);
    assert plain[|OSC52|..|plain| - 1] == Base64(text);
    Base64RoundTrip(text);
  }
}
