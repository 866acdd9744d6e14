/** Bytes, 32-bit words in little-endian byte order, and lower-case hexadecimal text. */
module Bytes {
  type byte = b: int | 0 <= b < 0x100
  type u32 = w: int | 0 <= w < 0x1_0000_0000
  type u64 = n: int | 0 <= n < 0x1_0000_0000_0000_0000
  type u128 = n: int | 0 <= n < 0x1_0000_0000_0000_0000_0000_0000_0000_0000

  /** 32-byte identifiers, digests and seeds. */
  type Id32 = b: seq<byte> | |b| == 32 witness seq(32, _ => 0)

  datatype Option<+T> = None | Some(value: T)
  datatype Result<+T, +E> = Ok(value: T) | Err(error: E)

  lemma Assoc<T>(a: seq<T>, b: seq<T>, c: seq<T>)
    ensures a + (b + c) == (a + b) + c
  {
  }

  /** The four little-endian bytes of a word. */
  function WordBytes(w: u32): (b: seq<byte>)
    ensures |b| == 4
  {
    [w % 0x100, w / 0x100 % 0x100, w / 0x1_0000 % 0x100, w / 0x100_0000]
  }

  function BytesWord(b0: byte, b1: byte, b2: byte, b3: byte): u32 {
    b0 + 0x100 * b1 + 0x1_0000 * b2 + 0x100_0000 * b3
  }

  lemma WordBytesInverse(w: u32)
    ensures var b := WordBytes(w); BytesWord(b[0], b[1], b[2], b[3]) == w
  {
    var h, m, t := w / 0x100, w / 0x1_0000, w / 0x100_0000;
    assert w == w % 0x100 + 0x100 * h;
    assert m == h / 0x100 && h == h % 0x100 + 0x100 * m;
    assert t == m / 0x100 && m == m % 0x100 + 0x100 * t;
  }

  lemma BytesWordInverse(b0: byte, b1: byte, b2: byte, b3: byte)
    ensures WordBytes(BytesWord(b0, b1, b2, b3)) == [b0, b1, b2, b3]
  {
    var h := b1 + 0x100 * b2 + 0x1_0000 * b3;
    var m := b2 + 0x100 * b3;
    LowByte(b0, h);
    LowByte(b1, m);
    LowByte(b2, b3);
    assert (b0 + 0x100 * h) / 0x1_0000 == m && (b0 + 0x100 * h) / 0x100_0000 == b3;
  }

  /** The little-endian bytes of a list of words, one word after the other. */
  function WordsBytes(ws: seq<u32>): (b: seq<byte>)
    ensures |b| == 4 * |ws|
  {
    if ws == [] then [] else WordBytes(ws[0]) + WordsBytes(ws[1..])
  }

  /** Whole little-endian words of a byte list; up to three trailing bytes are dropped. */
  function BytesWords(b: seq<byte>): (ws: seq<u32>)
    ensures |ws| == |b| / 4
  {
    if |b| < 4 then [] else [BytesWord(b[0], b[1], b[2], b[3])] + BytesWords(b[4..])
  }

  lemma {:induction false} WordsBytesInverse(ws: seq<u32>)
    ensures BytesWords(WordsBytes(ws)) == ws
  {
    if ws != [] {
      WordBytesInverse(ws[0]);
      WordsBytesInverse(ws[1..]);
      assert WordsBytes(ws)[4..] == WordsBytes(ws[1..]);
      assert ws == [ws[0]] + ws[1..];
    }
  }

  lemma {:induction false} BytesWordsInverse(b: seq<byte>)
    requires |b| % 4 == 0
    ensures WordsBytes(BytesWords(b)) == b
  {
    if b != [] {
      BytesWordInverse(b[0], b[1], b[2], b[3]);
      BytesWordsInverse(b[4..]);
      assert b == b[..4] + b[4..];
    }
  }

  /** Byte k of a word list sits in word k / 4. */
  lemma {:induction false} WordsBytesAt(ws: seq<u32>, i: nat)
    requires i < |ws|
    ensures WordsBytes(ws)[4 * i .. 4 * i + 4] == WordBytes(ws[i])
  {
    if i > 0 {
      WordsBytesAt(ws[1..], i - 1);
      assert WordsBytes(ws)[4 * i .. 4 * i + 4] == WordsBytes(ws[1..])[4 * i - 4 .. 4 * i];
    }
  }

  /** The n lowest bytes of a number, least significant first (Rust's to_le_bytes). */
  function LittleEndian(n: nat, width: nat): (b: seq<byte>)
    ensures |b| == width
    decreases width
  {
    if width == 0 then [] else [n % 0x100] + LittleEndian(n / 0x100, width - 1)
  }

  function FromLittleEndian(b: seq<byte>): nat {
    if b == [] then 0 else b[0] + 0x100 * FromLittleEndian(b[1..])
  }

  function Pow256(n: nat): (p: nat)
    ensures p >= 1
  {
    if n == 0 then 1 else 0x100 * Pow256(n - 1)
  }

  lemma {:induction false} LittleEndianInverse(n: nat, width: nat)
    requires n < Pow256(width)
    ensures FromLittleEndian(LittleEndian(n, width)) == n
    decreases width
  {
    if width > 0 {
      LittleEndianInverse(n / 0x100, width - 1);
      assert LittleEndian(n, width)[1..] == LittleEndian(n / 0x100, width - 1);
    }
  }

  lemma {:induction false} FromLittleEndianInverse(b: seq<byte>)
    ensures FromLittleEndian(b) < Pow256(|b|)
    ensures LittleEndian(FromLittleEndian(b), |b|) == b
  {
    if b != [] {
      FromLittleEndianInverse(b[1..]);
      var n := FromLittleEndian(b[1..]);
      LowByte(b[0], n);
      assert FromLittleEndian(b) == b[0] + 0x100 * n;
      assert b == [b[0]] + b[1..];
    }
  }

  lemma LowByte(b: byte, n: nat)
    ensures (b + 0x100 * n) % 0x100 == b && (b + 0x100 * n) / 0x100 == n
  {
  }

  // ---- text ---------------------------------------------------------------------------

  /** The bytes of plain text. */
  function Ascii(s: string): (b: seq<byte>)
    requires forall k :: 0 <= k < |s| ==> s[k] < '\U{0080}'
    ensures |b| == |s| && forall k :: 0 <= k < |s| ==> b[k] == s[k] as int
  {
    seq(|s|, k requires 0 <= k < |s| => s[k] as int)
  }

  // ---- UTF-8 text as JavaScript decodes it ------------------------------------------

  const BYTE_ORDER_MARK: seq<byte> := [0xEF, 0xBB, 0xBF]

  /** `new TextDecoder().decode` on well-formed text: one leading byte order mark is dropped. */
  function WithoutMark(s: seq<byte>): seq<byte> {
    if BYTE_ORDER_MARK <= s then s[3..] else s
  }

  /** The text decoder on any bytes: malformed text becomes well-formed by replacement characters. */
  type TextDecoder = seq<byte> -> seq<byte>

  ghost predicate DecodesText(text: TextDecoder, valid: seq<byte> -> bool) {
    forall s :: DecodesOne(text, valid, s)
  }

  predicate DecodesOne(text: TextDecoder, valid: seq<byte> -> bool, s: seq<byte>) {
    valid(text(s)) && (valid(s) ==> text(s) == WithoutMark(s))
  }

  /** Text the decoder hands out byte for byte. */
  predicate Plain(valid: seq<byte> -> bool, s: seq<byte>) {
    valid(s) && !(BYTE_ORDER_MARK <= s)
  }

  lemma PlainText(text: TextDecoder, valid: seq<byte> -> bool, s: seq<byte>)
    requires DecodesOne(text, valid, s)
    ensures text(s) == s <==> Plain(valid, s)
  {
    if BYTE_ORDER_MARK <= s {
      assert |WithoutMark(s)| < |s|;
    }
  }

  // ---- hexadecimal text -------------------------------------------------------------

  function HexDigit(n: nat): (c: char)
    requires n < 16
    ensures IsHexDigit(c) && HexValue(c) == n && !('A' <= c <= 'F')
  {
    if n < 10 then ('0' as int + n) as char else ('a' as int + n - 10) as char
  }

  predicate IsHexDigit(c: char) {
    '0' <= c <= '9' || 'a' <= c <= 'f' || 'A' <= c <= 'F'
  }

  /** Value of a hexadecimal digit; other characters count as 0. */
  function HexValue(c: char): (n: nat)
    ensures n < 16
  {
    if '0' <= c <= '9' then c as int - '0' as int
    else if 'a' <= c <= 'f' then c as int - 'a' as int + 10
    else if 'A' <= c <= 'F' then c as int - 'A' as int + 10
    else 0
  }

  /** The digits spelled out: sixteen are printed, and the six letters are read in either case. */
  lemma HexSpelled(n: nat, c: char)
    requires n < 16
    ensures HexDigit(n) == "0123456789abcdef"[n]
    ensures HexValue("0123456789abcdef"[n]) == n && HexValue("0123456789ABCDEF"[n]) == n
    ensures IsHexDigit(c) <==> c in "0123456789abcdefABCDEF"
  {
    assert c in "0123456789abcdefABCDEF" ==>
        exists k :: 0 <= k < 22 && c == "0123456789abcdefABCDEF"[k];
    if '0' <= c <= '9' {
      assert "0123456789abcdefABCDEF"[c as int - '0' as int] == c;
    } else if 'a' <= c <= 'f' {
      assert "0123456789abcdefABCDEF"[c as int - 'a' as int + 10] == c;
    } else if 'A' <= c <= 'F' {
      assert "0123456789abcdefABCDEF"[c as int - 'A' as int + 16] == c;
    }
  }

  predicate IsHex(s: string) {
    forall k :: 0 <= k < |s| ==> IsHexDigit(s[k])
  }

  /** Two lower-case digits a byte, high digit first. */
  function ToHex(b: seq<byte>): (s: string)
    ensures |s| == 2 * |b|
  {
    if b == [] then "" else [HexDigit(b[0] / 16), HexDigit(b[0] % 16)] + ToHex(b[1..])
  }

  /** A byte for every two characters; an odd last character is dropped. */
  function FromHex(s: string): (b: seq<byte>)
    ensures |b| == |s| / 2
  {
    if |s| < 2 then [] else [16 * HexValue(s[0]) + HexValue(s[1])] + FromHex(s[2..])
  }

  /** The same hexadecimal text with its letters in lower case. */
  function LowerHex(s: string): (r: string)
    ensures |r| == |s|
  {
    seq(|s|, k requires 0 <= k < |s| => HexDigit(HexValue(s[k])))
  }

  lemma {:induction false} ToHexIsHex(b: seq<byte>)
    ensures IsHex(ToHex(b))
  {
    if b != [] {
      ToHexIsHex(b[1..]);
    }
  }

  /** Byte k is printed as two characters, the high digit first, and read back from them. */
  lemma {:induction false} HexAt(b: seq<byte>, k: nat)
    requires k < |b|
    ensures ToHex(b)[2 * k] == "0123456789abcdef"[b[k] / 16]
    ensures ToHex(b)[2 * k + 1] == "0123456789abcdef"[b[k] % 16]
  {
    if k > 0 {
      assert ToHex(b) == [HexDigit(b[0] / 16), HexDigit(b[0] % 16)] + ToHex(b[1..]);
      hide ToHex;
      HexAt(b[1..], k - 1);
    } else {
      HexSpelled(b[0] / 16, '0');
      HexSpelled(b[0] % 16, '0');
    }
  }

  lemma {:induction false} HexInverse(b: seq<byte>)
    ensures FromHex(ToHex(b)) == b
  {
    if b != [] {
      HexInverse(b[1..]);
      FromHexCons(HexDigit(b[0] / 16), HexDigit(b[0] % 16), ToHex(b[1..]));
    }
  }

  lemma FromHexCons(c: char, d: char, rest: string)
    ensures FromHex([c, d] + rest) == [16 * HexValue(c) + HexValue(d)] + FromHex(rest)
  {
    assert ([c, d] + rest)[2..] == rest;
  }

  lemma ToHexCons(b: byte, rest: seq<byte>)
    ensures ToHex([b] + rest) == [HexDigit(b / 16), HexDigit(b % 16)] + ToHex(rest)
  {
    assert ([b] + rest)[1..] == rest;
  }

  lemma HexPairByte(hi: nat, lo: nat)
    requires hi < 16 && lo < 16
    ensures (16 * hi + lo) / 16 == hi && (16 * hi + lo) % 16 == lo
  {
  }

  lemma {:induction false} FromHexInverse(s: string)
    requires |s| % 2 == 0
    ensures ToHex(FromHex(s)) == LowerHex(s)
  {
    if s != "" {
      FromHexInverse(s[2..]);
      HexPairByte(HexValue(s[0]), HexValue(s[1]));
      ToHexCons(16 * HexValue(s[0]) + HexValue(s[1]), FromHex(s[2..]));
      assert LowerHex(s) == [HexDigit(HexValue(s[0])), HexDigit(HexValue(s[1]))] + LowerHex(s[2..]);
    }
  }
}
