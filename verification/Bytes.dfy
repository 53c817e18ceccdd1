/** Octets, big-endian integers and ASCII case, shared by the wire codec. */
module Bytes {
  newtype byte = x: int | 0 <= x < 0x100
  type u16 = x: int | 0 <= x < 0x1_0000
  type u32 = x: int | 0 <= x < 0x1_0000_0000

  datatype Option<+T> = None | Some(value: T)
  datatype Result<+T, +E> = Ok(value: T) | Err(error: E)

  function U16At(b: seq<byte>, i: nat): (r: u16)
    requires i + 2 <= |b|
  {
    b[i] as int * 0x100 + b[i + 1] as int
  }

  function U32At(b: seq<byte>, i: nat): (r: u32)
    requires i + 4 <= |b|
  {
    (U16At(b, i) as int) * 0x1_0000 + U16At(b, i + 2)
  }

  function U16Bytes(x: u16): (r: seq<byte>)
    ensures |r| == 2 && U16At(r, 0) == x
  {
    [(x / 0x100) as byte, (x % 0x100) as byte]
  }

  function U32Bytes(x: u32): (r: seq<byte>)
    ensures |r| == 4
  {
    U16Bytes(x / 0x1_0000) + U16Bytes(x % 0x1_0000)
  }

  /** Overwrite the two octets at `i`. */
  function PutU16(b: seq<byte>, i: nat, x: u16): (r: seq<byte>)
    requires i + 2 <= |b|
    ensures |r| == |b| && U16At(r, i) == x
    ensures forall k :: 0 <= k < |b| && k != i && k != i + 1 ==> r[k] == b[k]
  {
    b[i := (x / 0x100) as byte][i + 1 := (x % 0x100) as byte]
  }

  lemma Assoc<T>(a: seq<T>, b: seq<T>, c: seq<T>)
    ensures a + (b + c) == a + b + c
  {
  }

  lemma PutBack(b: seq<byte>, i: nat)
    requires i + 2 <= |b|
    ensures PutU16(b, i, U16At(b, i)) == b
  {
  }

  lemma Cut3(b: seq<byte>, i: nat, j: nat)
    requires i <= j <= |b|
    ensures b == b[..i] + b[i..j] + b[j..]
  {
  }

  /** `x` stands in `b` at offset `o`. */
  predicate At(b: seq<byte>, o: nat, x: seq<byte>) {
    o + |x| <= |b| && b[o..o + |x|] == x
  }

  lemma AtConcat(b: seq<byte>, o: nat, x: seq<byte>, y: seq<byte>)
    ensures At(b, o, x + y) <==> At(b, o, x) && At(b, o + |x|, y)
  {
    var n := |x| + |y|;
    if o + n <= |b| {
      assert b[o..o + n] == b[o..o + |x|] + b[o + |x|..o + n];
      if At(b, o, x + y) {
        assert x == (x + y)[..|x|] == b[o..o + n][..|x|] == b[o..o + |x|];
        assert y == (x + y)[|x|..] == b[o..o + n][|x|..] == b[o + |x|..o + n];
      }
    }
  }

  lemma AtSingle(b: seq<byte>, o: nat, x: byte)
    ensures At(b, o, [x]) <==> o < |b| && b[o] == x
  {
    if o < |b| {
      assert b[o..o + 1] == [b[o]];
    }
  }

  lemma AtPoint(b: seq<byte>, o: nat, x: seq<byte>, i: nat)
    requires At(b, o, x) && i < |x|
    ensures b[o + i] == x[i]
  {
    assert b[o..o + |x|][i] == x[i];
  }

  /** `c` repeats at `p` what `b` holds between `o` and `e`. */
  predicate Same(b: seq<byte>, o: nat, e: nat, c: seq<byte>, p: nat) {
    o <= e <= |b| && At(c, p, b[o..e])
  }

  lemma SameAt(b: seq<byte>, o: nat, x: seq<byte>, c: seq<byte>, p: nat)
    requires At(b, o, x) && Same(b, o, o + |x|, c, p)
    ensures At(c, p, x)
  {
  }

  lemma SamePoint(b: seq<byte>, o: nat, e: nat, c: seq<byte>, p: nat, k: nat)
    requires Same(b, o, e, c, p) && o <= k < e
    ensures p + (k - o) < |c| && c[p + (k - o)] == b[k]
  {
    AtPoint(c, p, b[o..e], k - o);
  }

  lemma SamePart(b: seq<byte>, o: nat, e: nat, c: seq<byte>, p: nat, k: nat)
    requires Same(b, o, e, c, p) && o <= k <= e
    ensures Same(b, o, k, c, p) && Same(b, k, e, c, p + (k - o))
  {
    assert b[o..e] == b[o..k] + b[k..e];
    AtConcat(c, p, b[o..k], b[k..e]);
  }

  // ---- ASCII case (RFC 4343 section 3) ----

  function LowerByte(x: byte): (r: byte) {
    if 0x41 <= x <= 0x5A then x + 0x20 else x
  }

  function Lower(b: seq<byte>): (r: seq<byte>)
    ensures |r| == |b|
  {
    seq(|b|, i requires 0 <= i < |b| => LowerByte(b[i]))
  }

  /** Equality up to ASCII case. */
  predicate EqFold(a: seq<byte>, b: seq<byte>) {
    Lower(a) == Lower(b)
  }

  lemma LowerConcat(a: seq<byte>, b: seq<byte>)
    ensures Lower(a + b) == Lower(a) + Lower(b)
  {
  }

  /** `x` stands in `b` at offset `o`, up to ASCII case. */
  predicate AtFold(b: seq<byte>, o: nat, x: seq<byte>) {
    o + |x| <= |b| && EqFold(b[o..o + |x|], x)
  }

  lemma AtFoldConcat(b: seq<byte>, o: nat, x: seq<byte>, y: seq<byte>)
    requires AtFold(b, o, x + y)
    ensures AtFold(b, o, x) && AtFold(b, o + |x|, y)
  {
    var p, q := b[o..o + |x|], b[o + |x|..o + |x| + |y|];
    assert b[o..o + |x + y|] == p + q;
    LowerConcat(p, q);
    LowerConcat(x, y);
    assert Lower(p) == (Lower(p) + Lower(q))[..|x|] == (Lower(x) + Lower(y))[..|x|] == Lower(x);
    assert Lower(q) == (Lower(p) + Lower(q))[|x|..] == (Lower(x) + Lower(y))[|x|..] == Lower(y);
  }

  function Min(a: nat, b: nat): nat { if a <= b then a else b }
  function Max(a: nat, b: nat): nat { if a >= b then a else b }
}
