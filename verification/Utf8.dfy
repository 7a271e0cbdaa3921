/** UTF-8 as RFC 3629 defines it: the encoder of section 3 and the byte syntax of section 4. */
module Utf8 {
  import opened Bytes

  predicate IsScalar(v: nat) {
    v < 0xd800 || 0xe000 <= v < 0x11_0000
  }

  predicate Tail(b: byte) {
    0x80 <= b < 0xc0
  }

  function EncodeScalar(v: nat): (s: seq<byte>)
    requires IsScalar(v)
    ensures 1 <= |s| <= 4
    ensures forall i :: 0 < i < |s| ==> Tail(s[i])
    ensures s[0] < 0x80 <==> v < 0x80
    ensures v < 0x80 ==> s == [v]
    ensures v >= 0x80 ==> 0xc2 <= s[0] <= 0xf4 && |s| >= 2
  {
    if v < 0x80 then [v]
    else if v < 0x800 then [0xc0 + v / 64, 0x80 + v % 64]
    else if v < 0x1_0000 then [0xe0 + v / 64 / 64, 0x80 + v / 64 % 64, 0x80 + v % 64]
    else [0xf0 + v / 64 / 64 / 64, 0x80 + v / 64 / 64 % 64, 0x80 + v / 64 % 64, 0x80 + v % 64]
  }

  /** How many bytes the well-formed scalar at the start of `s` takes; 0 when there is none. */
  function ScalarLen(s: seq<byte>): (n: nat)
    ensures n <= |s| && n <= 4
    ensures s == [] ==> n == 0
  {
    if |s| >= 1 && s[0] < 0x80 then 1
    else if |s| >= 2 && 0xc2 <= s[0] <= 0xdf && Tail(s[1]) then 2
    else if |s| >= 3 && 0xe0 <= s[0] <= 0xef && SecondOk(s[0], s[1]) && Tail(s[2]) then 3
    else if |s| >= 4 && 0xf0 <= s[0] <= 0xf4 && SecondOk(s[0], s[1]) && Tail(s[2]) && Tail(s[3]) then 4
    else 0
  }

  /** The second byte of a three- or four-byte form: no overlong form, no surrogate, nothing past U+10FFFF. */
  predicate SecondOk(first: byte, second: byte) {
    && Tail(second)
    && (first == 0xe0 ==> second >= 0xa0)
    && (first == 0xed ==> second < 0xa0)
    && (first == 0xf0 ==> second >= 0x90)
    && (first == 0xf4 ==> second < 0x90)
  }

  /** The scalar at the start of `s`. */
  function FirstScalar(s: seq<byte>): (v: nat)
    requires ScalarLen(s) > 0
    ensures IsScalar(v)
  {
    var n := ScalarLen(s);
    if n == 1 then s[0]
    else if n == 2 then Joined(s[0] - 0xc0, s[1])
    else if n == 3 then Joined(Joined(s[0] - 0xe0, s[1]), s[2])
    else Joined(Joined(Joined(s[0] - 0xf0, s[1]), s[2]), s[3])
  }

  /** Six more bits from a continuation byte. */
  function Joined(high: nat, tail: byte): (v: nat)
    requires Tail(tail)
    ensures v / 64 == high && 0x80 + v % 64 == tail
  {
    high * 64 + (tail - 0x80)
  }

  lemma ScalarOfEncoding(v: nat, rest: seq<byte>)
    requires IsScalar(v)
    ensures ScalarLen(EncodeScalar(v) + rest) == |EncodeScalar(v)|
    ensures FirstScalar(EncodeScalar(v) + rest) == v
  {
  }

  lemma EncodingOfScalar(s: seq<byte>)
    requires ScalarLen(s) > 0
    ensures EncodeScalar(FirstScalar(s)) == s[..ScalarLen(s)]
  {
  }

  /** What `str::from_utf8` accepts. */
  predicate Valid(s: seq<byte>) {
    s == [] || (ScalarLen(s) > 0 && Valid(s[ScalarLen(s)..]))
  }

  /** The scalars (`chars()`) of valid text. */
  function Scalars(s: seq<byte>): seq<nat>
    requires Valid(s)
  {
    if s == [] then [] else [FirstScalar(s)] + Scalars(s[ScalarLen(s)..])
  }

  function EncodeAll(vs: seq<nat>): seq<byte>
    requires forall i :: 0 <= i < |vs| ==> IsScalar(vs[i])
  {
    if vs == [] then [] else EncodeScalar(vs[0]) + EncodeAll(vs[1..])
  }

  /** Encoding and decoding are inverse: text is valid exactly when it encodes some scalars. */
  lemma {:induction false} ScalarsOfEncoding(vs: seq<nat>)
    requires forall i :: 0 <= i < |vs| ==> IsScalar(vs[i])
    ensures Valid(EncodeAll(vs)) && Scalars(EncodeAll(vs)) == vs
  {
    hide EncodeScalar, FirstScalar, ScalarLen;
    if vs == [] {
    } else {
      var e, rest := EncodeScalar(vs[0]), EncodeAll(vs[1..]);
      ScalarOfEncoding(vs[0], rest);
      ScalarsOfEncoding(vs[1..]);
      var s := e + rest;
      assert s[|e|..] == rest && s != [];
      assert [vs[0]] + vs[1..] == vs;
    }
  }

  /** The first scalar and the rest. */
  lemma Unfolded(s: seq<byte>)
    requires Valid(s) && s != []
    ensures 0 < ScalarLen(s) <= |s| && Valid(s[ScalarLen(s)..])
    ensures Scalars(s) == [FirstScalar(s)] + Scalars(s[ScalarLen(s)..])
  {
    hide FirstScalar;
  }

  lemma EncodeCons(v: nat, vs: seq<nat>)
    requires IsScalar(v) && forall i :: 0 <= i < |vs| ==> IsScalar(vs[i])
    ensures forall i :: 0 <= i < |[v] + vs| ==> IsScalar(([v] + vs)[i])
    ensures EncodeAll([v] + vs) == EncodeScalar(v) + EncodeAll(vs)
  {
    hide EncodeScalar, IsScalar;
    assert ([v] + vs)[1..] == vs;
  }

  lemma {:induction false} EncodingOfScalars(s: seq<byte>)
    requires Valid(s)
    ensures forall i :: 0 <= i < |Scalars(s)| ==> IsScalar(Scalars(s)[i])
    ensures EncodeAll(Scalars(s)) == s
    decreases |s|
  {
    hide EncodeScalar, FirstScalar, ScalarLen, IsScalar;
    if s == [] {
    } else {
      hide Valid, Scalars, EncodeAll;
      Unfolded(s);
      var n := ScalarLen(s);
      EncodingOfScalars(s[n..]);
      EncodingOfScalar(s);
      EncodeCons(FirstScalar(s), Scalars(s[n..]));
      assert s == s[..n] + s[n..];
    }
  }

  predicate Ascii(s: seq<byte>) {
    forall i :: 0 <= i < |s| ==> s[i] < 0x80
  }

  /** `char::is_control`: the C0 and C1 controls and DEL. */
  predicate IsControl(v: nat) {
    v < 0x20 || 0x7f <= v < 0xa0
  }

  /** The bidirectional overrides and isolates. */
  predicate IsBidi(v: nat) {
    0x202a <= v <= 0x202e || 0x2066 <= v <= 0x2069
  }
}
