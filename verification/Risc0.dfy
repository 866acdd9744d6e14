/**
 The risc0-serde instruction encoding: a writer that appends 32-bit words for a value tree
 and a reader that recovers the value from a type description.
 */
module Risc0 {
  import opened Bytes

  /** A value tree of the encoder. Strings are their UTF-8 bytes; numbers are unbounded as in the source. */
  datatype R0Value =
    | Bool(b: bool)
    | U8(n: int) | U16(n: int) | U32(n: int) | Char(n: int)
    | U64(n: int) | I64(n: int)
    | U128(n: int)
    | Str(s: seq<byte>)
    | Octets(o: seq<byte>)
    | Array(elems: seq<R0Value>)
    | Vec(elems: seq<R0Value>)
    | Opt(value: Option<R0Value>)
    | Tuple(elems: seq<R0Value>)
    | Variant(index: int, fields: seq<R0Value>)

  /** The JavaScript conversion `w >>> 0`. */
  function Word(n: int): u32 {
    n % 0x1_0000_0000
  }

  /** Byte i of a list, or 0 past its end. */
  function ByteOrZero(b: seq<byte>, i: nat): byte {
    if i < |b| then b[i] else 0
  }

  /** Bytes packed four to a word, low byte first, the last word padded with zeros. */
  function Packed(b: seq<byte>): (ws: seq<u32>)
    ensures |ws| == (|b| + 3) / 4
  {
    seq((|b| + 3) / 4, k requires k >= 0 => PackedWord(b, 4 * k))
  }

  function PackedWord(b: seq<byte>, i: nat): u32 {
    BytesWord(ByteOrZero(b, i), ByteOrZero(b, i + 1), ByteOrZero(b, i + 2), ByteOrZero(b, i + 3))
  }

  /** The first word, then the packing of what is left. */
  lemma PackedUnfold(b: seq<byte>)
    requires b != []
    ensures Packed(b) == [PackedWord(b, 0)] + Packed(Tail4(b))
  {
    var p, q := Packed(b), Packed(Tail4(b));
    forall k | 1 <= k < |p|
      ensures p[k] == q[k - 1]
    {
      TailBytes(b, 4 * k);
    }
  }

  lemma TailBytes(b: seq<byte>, i: nat)
    requires 4 <= i
    ensures PackedWord(b, i) == PackedWord(Tail4(b), i - 4)
  {
    assert forall m: nat :: m >= 4 ==> ByteOrZero(b, m) == ByteOrZero(Tail4(b), m - 4);
  }

  function Tail4(b: seq<byte>): (r: seq<byte>)
    ensures |r| == if |b| <= 4 then 0 else |b| - 4
  {
    if |b| <= 4 then [] else b[4..]
  }

  /** Byte i of a number, `(n >> 8i) & 0xff`. */
  function ByteAt(n: int, i: nat): byte {
    n / Pow256(i) % 0x100
  }

  function Octets16(n: int): (b: seq<byte>)
    ensures |b| == 16
  {
    seq(16, i requires 0 <= i < 16 => ByteAt(n, i))
  }

  function ByteWords(b: seq<byte>): (ws: seq<u32>)
    ensures |ws| == |b|
  {
    seq(|b|, i requires 0 <= i < |b| => b[i])
  }

  /** The words appended for a value. */
  function Encode(v: R0Value): seq<u32>
    decreases v, 1
  {
    match v
    case Bool(b) => [if b then 1 else 0]
    case U8(n) => [Word(n)]
    case U16(n) => [Word(n)]
    case U32(n) => [Word(n)]
    case Char(n) => [Word(n)]
    case U64(n) => [Word(n), Word(n / 0x1_0000_0000)]
    case I64(n) => [Word(n), Word(n / 0x1_0000_0000)]
    case U128(n) => Packed(Octets16(n))
    case Str(s) => [Word(|s|)] + Packed(s)
    case Octets(o) => [Word(|o|)] + ByteWords(o)
    case Array(elems) => EncodeAll(elems)
    case Tuple(elems) => EncodeAll(elems)
    case Vec(elems) => [Word(|elems|)] + EncodeAll(elems)
    case Opt(None) => [0]
    case Opt(Some(x)) => [1] + Encode(x)
    case Variant(index, fields) => [Word(index)] + EncodeAll(fields)
  }

  function EncodeAll(vs: seq<R0Value>): seq<u32>
    decreases vs, 0
  {
    if vs == [] then [] else Encode(vs[0]) + EncodeAll(vs[1..])
  }

  /** A list of string arguments. */
  function StrArgs(strs: seq<seq<byte>>): seq<R0Value> {
    if strs == [] then [] else [Str(strs[0])] + StrArgs(strs[1..])
  }

  lemma EncodeOne(v: R0Value)
    ensures EncodeAll([v]) == Encode(v)
  {
    assert [v][1..] == [] && EncodeAll([v]) == Encode(v) + EncodeAll([v][1..]);
  }

  /** The words of each kind of number, a word or two words with the low one first. */
  lemma NumbersSpelled(w: u32, hi: u32)
    ensures Encode(Bool(false)) == [0] && Encode(Bool(true)) == [1]
    ensures Encode(U8(w)) == Encode(U16(w)) == Encode(U32(w)) == Encode(Char(w)) == [w]
    ensures Encode(U64(w + 0x1_0000_0000 * hi)) == Encode(I64(w + 0x1_0000_0000 * hi)) == [w, hi]
    ensures Encode(I64(-1)) == [0xFFFF_FFFF, 0xFFFF_FFFF]
  {
    assert (w + 0x1_0000_0000 * hi) / 0x1_0000_0000 == hi;
  }

  /** Lengths and markers come first, then the parts in order; arrays and tuples have neither. */
  lemma CompoundsSpelled(index: u32, v: R0Value, vs: seq<R0Value>)
    requires |vs| < 0x1_0000_0000
    ensures Encode(Opt(None)) == [0] && Encode(Opt(Some(v))) == [1] + Encode(v)
    ensures Encode(Array([])) == [] && Encode(Array(vs)) == Encode(Tuple(vs))
    ensures Encode(Array([v] + vs)) == Encode(v) + Encode(Array(vs))
    ensures Encode(Vec(vs)) == [|vs|] + Encode(Array(vs)) && Encode(Variant(index, vs)) == [index] + Encode(Array(vs))
  {
    assert ([v] + vs)[1..] == vs;
  }

  /** Text is its length and its bytes, four to a word; a byte vector is its length and a word for each byte. */
  lemma BytesSpelled(b0: byte, b1: byte, b2: byte, b3: byte, b4: byte)
    ensures Encode(Str([b0, b1, b2, b3, b4])) == [5, b0 + 0x100 * b1 + 0x1_0000 * b2 + 0x100_0000 * b3, b4]
    ensures Encode(Octets([b0, b1])) == [2, b0, b1]
  {
    assert ByteWords([b0, b1]) == [b0, b1];
    var b := [b0, b1, b2, b3, b4];
    assert PackedWord(b, 0) == BytesWord(b0, b1, b2, b3) && PackedWord(b, 4) == BytesWord(b4, 0, 0, 0);
    hide PackedWord;
    assert Packed(b) == [PackedWord(b, 0), PackedWord(b, 4)];
  }

  lemma {:induction false} EncodeAllAppend(a: seq<R0Value>, b: seq<R0Value>)
    ensures EncodeAll(a + b) == EncodeAll(a) + EncodeAll(b)
  {
    if a == [] {
      assert a + b == b;
    } else {
      EncodeAllAppend(a[1..], b);
      assert (a + b)[1..] == a[1..] + b;
      Assoc(Encode(a[0]), EncodeAll(a[1..]), EncodeAll(b));
    }
  }

  /** A JavaScript number after a bit operation: the signed reading of its low 32 bits. */
  function ToInt32(n: int): int {
    if Word(n) < 0x8000_0000 then Word(n) else Word(n) - 0x1_0000_0000
  }

  /** Bitwise or, bit by bit from the lowest. */
  function BitOr(a: nat, b: nat): nat {
    if a == 0 && b == 0 then 0 else (if a % 2 == 1 || b % 2 == 1 then 1 else 0) + 2 * BitOr(a / 2, b / 2)
  }

  function Pow2(k: nat): (p: nat)
    ensures p >= 1
  {
    if k == 0 then 1 else 2 * Pow2(k - 1)
  }

  lemma {:induction false} BitOrZero(b: nat)
    ensures BitOr(0, b) == b
  {
    if b > 0 {
      BitOrZero(b / 2);
    }
  }

  /** Or-ing in a number whose bits all lie above those of the other is adding it. */
  lemma {:induction false} BitOrAbove(a: nat, c: nat, k: nat)
    requires a < Pow2(k)
    ensures BitOr(a, c * Pow2(k)) == a + c * Pow2(k)
    decreases k
  {
    if k == 0 {
      BitOrZero(c);
    } else {
      var half := c * Pow2(k - 1);
      assert c * Pow2(k) == 2 * half;
      BitOrAbove(a / 2, c, k - 1);
      assert a == 2 * (a / 2) + a % 2 && (2 * half) / 2 == half && (2 * half) % 2 == 0;
    }
  }

  /** The place value of byte j of a word, as a power of two. */
  function BytePlace(j: nat): (p: nat)
    requires j < 4
  {
    if j == 0 then 1 else if j == 1 then 0x100 else if j == 2 then 0x1_0000 else 0x100_0000
  }

  lemma BytePlaceIsPower(j: nat)
    requires j < 4
    ensures BytePlace(j) == Pow2(8 * j)
  {
    Pow2Byte(0);
    Pow2Byte(8);
    Pow2Byte(16);
  }

  lemma Pow2Byte(k: nat)
    ensures Pow2(k + 8) == 0x100 * Pow2(k)
  {
    assert Pow2(k + 4) == 0x10 * Pow2(k) by {
      assert Pow2(k + 2) == 4 * Pow2(k);
    }
    assert Pow2(k + 6) == 4 * Pow2(k + 4);
  }

  /** `w |= b << 8j`: the or of the two 32-bit patterns, read as a signed number. */
  function OrByte(w: int, b: byte, j: nat): int
    requires j < 4
  {
    ToInt32(BitOr(Word(w), b * BytePlace(j)))
  }

  /** For a byte above every bit of w so far the or is a sum. */
  lemma OrByteAdds(w: int, b: byte, j: nat)
    requires j < 4 && Word(w) < BytePlace(j)
    ensures OrByte(w, b, j) == ToInt32(Word(w) + b * BytePlace(j))
  {
    BytePlaceIsPower(j);
    BitOrAbove(Word(w), b, 8 * j);
  }

  lemma OrBytesIsWord(b0: byte, b1: byte, b2: byte, b3: byte)
    ensures Word(OrByte(OrByte(OrByte(OrByte(0, b0, 0), b1, 1), b2, 2), b3, 3)) == BytesWord(b0, b1, b2, b3)
  {
    hide OrByte, BitOr, ToInt32, Word;
    SmallNumber(0);
    OrByteAdds(0, b0, 0);
    var w1 := OrByte(0, b0, 0);
    SmallNumber(b0);
    OrByteAdds(w1, b1, 1);
    var w2 := OrByte(w1, b1, 1);
    SmallNumber(b0 + b1 * 0x100);
    OrByteAdds(w2, b2, 2);
    var w3 := OrByte(w2, b2, 2);
    SmallNumber(b0 + b1 * 0x100 + b2 * 0x1_0000);
    OrByteAdds(w3, b3, 3);
    assert Word(w3) + b3 * 0x100_0000 == BytesWord(b0, b1, b2, b3);
    WordOfToInt32(BytesWord(b0, b1, b2, b3));
  }

  lemma SmallNumber(n: int)
    requires 0 <= n < 0x8000_0000
    ensures Word(n) == n && ToInt32(n) == n
  {
  }

  /** Signed or not, a number keeps its low 32 bits. */
  lemma WordOfToInt32(n: u32)
    ensures Word(n) == n && Word(ToInt32(n)) == n
  {
    if n >= 0x8000_0000 {
      assert n - 0x1_0000_0000 == -1 * 0x1_0000_0000 + n;
    }
  }

  class WordWriter {
    var words: seq<u32>

    constructor ()
      ensures words == []
    {
      words := [];
    }

    method Push(w: int)
      modifies this
      ensures words == old(words) + [Word(w)]
    {
      words := words + [w % 0x1_0000_0000];
    }

    method PushBytesPadded(bytes: seq<byte>)
      modifies this
      ensures words == old(words) + Packed(bytes)
    {
      var i := 0;
      ghost var rest := Packed(bytes);
      while i < |bytes|
        invariant rest == Packed(From(bytes, i))
        invariant old(words) + Packed(bytes) == words + rest
      {
        var w := OrFour(bytes, i);
        PackedStep(bytes, i);
        Assoc(words, [Word(w)], rest[1..]);
        Push(w);
        rest := rest[1..];
        i := i + 4;
      }
    }
  }

  /** The inner loop: up to four bytes from i on, or-ed into one number. */
  method OrFour(bytes: seq<byte>, i: nat) returns (w: int)
    ensures w == OrPrefix(bytes, i, 4)
  {
    w := 0;
    var j := 0;
    while j < 4
      invariant 0 <= j <= 4
      invariant w == OrPrefix(bytes, i, j)
    {
      w := OrByte(w, ByteOrZero(bytes, i + j), j);
      j := j + 1;
    }
  }

  function From(b: seq<byte>, i: nat): seq<byte> {
    if i < |b| then b[i..] else []
  }

  function OrPrefix(b: seq<byte>, i: nat, j: nat): int
    requires j <= 4
  {
    if j == 0 then 0 else OrByte(OrPrefix(b, i, j - 1), ByteOrZero(b, i + j - 1), j - 1)
  }

  lemma PackedStep(b: seq<byte>, i: nat)
    requires i < |b|
    ensures Packed(From(b, i)) == [Word(OrPrefix(b, i, 4))] + Packed(From(b, i + 4))
  {
    var rest := b[i..];
    var b0, b1, b2, b3 := b[i], ByteOrZero(b, i + 1), ByteOrZero(b, i + 2), ByteOrZero(b, i + 3);
    PackedUnfold(rest);
    assert PackedWord(rest, 0) == BytesWord(b0, b1, b2, b3);
    assert Tail4(rest) == From(b, i + 4);
    OrBytesIsWord(b0, b1, b2, b3);
    assert OrPrefix(b, i, 1) == OrByte(0, b0, 0);
    assert OrPrefix(b, i, 2) == OrByte(OrPrefix(b, i, 1), b1, 1);
    assert OrPrefix(b, i, 3) == OrByte(OrPrefix(b, i, 2), b2, 2);
  }

  /** Appends the encoding of one value. */
  method EncodeInto(w: WordWriter, v: R0Value)
    modifies w
    ensures w.words == old(w.words) + Encode(v)
    decreases v, 1
  {
    ghost var start := w.words;
    match v
    case Bool(b) => w.Push(if b then 1 else 0);
    case U8(n) => w.Push(n);
    case U16(n) => w.Push(n);
    case U32(n) => w.Push(n);
    case Char(n) => w.Push(n);
    case U64(n) => PushPair(w, n);
    case I64(n) => PushPair(w, n);
    case U128(n) =>
      var b := seq(16, i requires 0 <= i < 16 => ByteAt(n, i));
      w.PushBytesPadded(b);
    case Str(s) =>
      w.Push(|s|);
      w.PushBytesPadded(s);
      Assoc(start, [Word(|s|)], Packed(s));
    case Octets(o) =>
      w.Push(|o|);
      PushEach(w, o);
      Assoc(start, [Word(|o|)], ByteWords(o));
    case Array(elems) => EncodeEach(w, elems);
    case Tuple(elems) => EncodeEach(w, elems);
    case Vec(elems) =>
      w.Push(|elems|);
      EncodeEach(w, elems);
      Assoc(start, [Word(|elems|)], EncodeAll(elems));
    case Opt(None) => w.Push(0);
    case Opt(Some(x)) =>
      w.Push(1);
      EncodeInto(w, x);
      Assoc(start, [1], Encode(x));
    case Variant(index, fields) =>
      w.Push(index);
      EncodeEach(w, fields);
      Assoc(start, [Word(index)], EncodeAll(fields));
  }

  method PushPair(w: WordWriter, n: int)
    modifies w
    ensures w.words == old(w.words) + [Word(n), Word(n / 0x1_0000_0000)]
  {
    w.Push(n % 0x1_0000_0000);
    w.Push(n / 0x1_0000_0000 % 0x1_0000_0000);
  }

  method PushEach(w: WordWriter, o: seq<byte>)
    modifies w
    ensures w.words == old(w.words) + ByteWords(o)
  {
    for k := 0 to |o|
      invariant w.words == old(w.words) + ByteWords(o)[..k]
    {
      w.Push(o[k]);
      assert ByteWords(o)[..k + 1] == ByteWords(o)[..k] + [Word(o[k])];
    }
  }

  method EncodeEach(w: WordWriter, elems: seq<R0Value>)
    modifies w
    ensures w.words == old(w.words) + EncodeAll(elems)
    decreases elems, 0
  {
    for k := 0 to |elems|
      invariant w.words + EncodeAll(elems[k..]) == old(w.words) + EncodeAll(elems)
    {
      assert elems[k..][1..] == elems[k + 1..];
      EncodeInto(w, elems[k]);
    }
  }

  /** Variant index and arguments as words. */
  method EncodeInstruction(variantIndex: int, args: seq<R0Value>) returns (words: seq<u32>)
    ensures words == [Word(variantIndex)] + EncodeAll(args)
  {
    var w := new WordWriter();
    EncodeInto(w, Variant(variantIndex, args));
    words := w.words;
  }
}
