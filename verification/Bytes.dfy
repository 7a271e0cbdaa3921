/** Bytes and the unsigned big-endian integers every wire format of the terminal port uses. */
module Bytes {

  type byte = x: int | 0 <= x < 256

  const ESC: byte := 0x1b

  function Least(a: nat, b: nat): nat {
    if a <= b then a else b
  }

  datatype Option<+T> = None | Some(value: T)

  datatype Result<+T, +E> = Ok(value: T) | Err(error: E) {
    predicate IsFailure() {
      Err?
    }

    function PropagateFailure<U>(): Result<U, E>
      requires Err?
    {
      Err(error)
    }

    function Extract(): T
      requires Ok?
    {
      value
    }
  }

  /** The outcome of an operation with nothing to return. */
  datatype Io = Done | Failed {
    predicate IsFailure() {
      Failed?
    }

    function PropagateFailure(): Io
      requires Failed?
    {
      Failed
    }
  }

  function Pow256(width: nat): (p: nat)
    ensures p > 0
  {
    if width == 0 then 1 else 256 * Pow256(width - 1)
  }

  /** The low `width` bytes of `n`, most significant first (`to_be_bytes`). */
  function Be(n: nat, width: nat): (s: seq<byte>)
    ensures |s| == width
  {
    if width == 0 then [] else Be(n / 256, width - 1) + [n % 256]
  }

  /** The unsigned value of a big-endian field (`from_be_bytes`). */
  function Value(s: seq<byte>): (n: nat)
    ensures n < Pow256(|s|)
  {
    if s == [] then 0 else Value(s[..|s| - 1]) * 256 + s[|s| - 1]
  }

  lemma {:induction false} ValueOfBe(n: nat, width: nat)
    requires n < Pow256(width)
    ensures Value(Be(n, width)) == n
  {
    if width == 0 {
    } else {
      ValueOfBe(n / 256, width - 1);
      assert Be(n, width)[..width - 1] == Be(n / 256, width - 1);
    }
  }

  lemma {:induction false} BeOfValue(s: seq<byte>)
    ensures Be(Value(s), |s|) == s
  {
    if s == [] {
    } else {
      BeOfValue(s[..|s| - 1]);
    }
  }

  /** A fixed-width field can be read back in only one way, whatever follows it. */
  lemma FieldUnique(a: nat, b: nat, width: nat, s: seq<byte>, t: seq<byte>)
    requires a < Pow256(width) && b < Pow256(width)
    requires Be(a, width) + s == Be(b, width) + t
    ensures a == b && s == t
  {
    assert Be(a, width) == (Be(a, width) + s)[..width] == (Be(b, width) + t)[..width] == Be(b, width);
    assert s == (Be(a, width) + s)[width..] == (Be(b, width) + t)[width..] == t;
    ValueOfBe(a, width);
    ValueOfBe(b, width);
  }

  lemma Widths()
    ensures Pow256(0) == 1 && Pow256(1) == 256 && Pow256(2) == 0x1_0000
    ensures Pow256(4) == 0x1_0000_0000 && Pow256(8) == 0x1_0000_0000_0000_0000
  {
    assert Pow256(3) == 0x100_0000;
    assert Pow256(6) == 0x1_0000_0000_0000;
  }

  /** Adjacent slices join. */
  lemma Join(b: seq<byte>, i: nat, j: nat, k: nat)
    requires i <= j <= k <= |b|
    ensures b[i..j] + b[j..k] == b[i..k]
  {
  }

  /** A slice of a slice. */
  lemma Within(b: seq<byte>, o: nat, n: nat, i: nat, j: nat)
    requires o + n <= |b| && i <= j <= n
    ensures b[o..o + n][i..j] == b[o + i..o + j]
  {
    var c := b[o..o + n];
    forall k | 0 <= k < j - i ensures c[i..j][k] == b[o + i..o + j][k] {
      assert c[i..j][k] == c[i + k] == b[o + i + k];
    }
  }

  /** Reading `e` at `o` when `e` and `rest` are all that is left. */
  lemma Peel(b: seq<byte>, o: nat, e: seq<byte>, rest: seq<byte>)
    requires o <= |b| && b[o..] == e + rest
    ensures o + |e| <= |b| && b[o..o + |e|] == e && b[o + |e|..] == rest
  {
    assert b[o..o + |e|] == b[o..][..|e|];
    assert b[o + |e|..] == b[o..][|e|..];
  }
}
