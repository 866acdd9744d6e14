/**
 The typed instruction decoder of the approval gate, and the proof that it inverts the encoder.
 Values are read as trees; turning a tree into display text is not part of this module.
 */
module InstructionReader {
  import opened Bytes
  import opened Risc0
  import Radix

  /** The argument types an interface description may name. */
  datatype R0Type =
    | TBool | TU8 | TU16 | TU32 | TChar | TU64 | TI64 | TU128 | TString
    | TArray(el: R0Type, n: nat) | TVec(el: R0Type) | TOption(el: R0Type)

  /** A value and the position behind it, or "instruction data truncated". */
  datatype Read<+T> = Done(value: T, at: nat) | Truncated

  function ReadWord(ws: seq<u32>, i: nat): Read<u32> {
    if i < |ws| then Done(ws[i], i + 1) else Truncated
  }

  /** n bytes packed in the words from i on. */
  function ReadBytes(ws: seq<u32>, i: nat, n: nat): Read<seq<byte>> {
    var end := i + (n + 3) / 4;
    if end <= |ws| then Done(PackedBytes(ws, i, n), end) else Truncated
  }

  function PackedBytes(ws: seq<u32>, i: nat, n: nat): (b: seq<byte>)
    requires i + (n + 3) / 4 <= |ws|
    ensures |b| == n
  {
    seq(n, m requires 0 <= m < n => WordBytes(ws[i + m / 4])[m % 4])
  }

  function ReadPair(ws: seq<u32>, i: nat): Read<nat> {
    if i + 2 <= |ws| then Done(TwoWords(ws[i], ws[i + 1]), i + 2) else Truncated
  }

  function TwoWords(lo: u32, hi: u32): nat {
    lo + 0x1_0000_0000 * hi
  }

  function ReadQuad(ws: seq<u32>, i: nat): Read<nat> {
    if i + 4 <= |ws| then Done(FourWords(ws[i], ws[i + 1], ws[i + 2], ws[i + 3]), i + 4) else Truncated
  }

  function FourWords(w0: u32, w1: u32, w2: u32, w3: u32): nat {
    w0 + 0x1_0000_0000 * w1 + 0x1_0000_0000_0000_0000 * w2 + 0x1_0000_0000_0000_0000_0000_0000 * w3
  }

  /** Reads one value of a type from position i. */
  function Decode(t: R0Type, ws: seq<u32>, i: nat): Read<R0Value>
    decreases t, 0
  {
    match t
    case TBool => if i < |ws| then Done(Bool(ws[i] != 0), i + 1) else Truncated
    case TU8 => if i < |ws| then Done(U8(ws[i]), i + 1) else Truncated
    case TU16 => if i < |ws| then Done(U16(ws[i]), i + 1) else Truncated
    case TU32 => if i < |ws| then Done(U32(ws[i]), i + 1) else Truncated
    case TChar => if i < |ws| then Done(Char(ws[i]), i + 1) else Truncated
    case TU64 =>
      (match ReadPair(ws, i)
       case Truncated => Truncated
       case Done(n, at) => Done(U64(n), at))
    case TI64 =>
      (match ReadPair(ws, i)
       case Truncated => Truncated
       case Done(n, at) => Done(I64(n), at))
    case TU128 =>
      (match ReadQuad(ws, i)
       case Truncated => Truncated
       case Done(n, at) => Done(U128(n), at))
    case TString =>
      if i < |ws| then
        match ReadBytes(ws, i + 1, ws[i])
        case Truncated => Truncated
        case Done(s, at) => Done(Str(WithoutMark(s)), at)
      else Truncated
    case TArray(el, n) =>
      (match DecodeMany(el, n, ws, i)
       case Truncated => Truncated
       case Done(vs, at) => Done(Array(vs), at))
    case TVec(el) =>
      if i < |ws| then
        match DecodeMany(el, ws[i], ws, i + 1)
        case Truncated => Truncated
        case Done(vs, at) => Done(Vec(vs), at)
      else Truncated
    case TOption(el) =>
      if i >= |ws| then Truncated
      else if ws[i] == 0 then Done(Opt(None), i + 1)
      else
        match Decode(el, ws, i + 1)
        case Truncated => Truncated
        case Done(v, at) => Done(Opt(Some(v)), at)
  }

  /** Words no encoder writes: any nonzero word is read as true, or as announcing a value. */
  lemma NonzeroReads(el: R0Type, ws: seq<u32>, i: nat)
    requires i < |ws|
    ensures Decode(TBool, ws, i) == Done(Bool(ws[i] > 0), i + 1)
    ensures Decode(TOption(el), ws, i).Done? && ws[i] > 0 ==> Decode(TOption(el), ws, i).value.value.Some?
    ensures Decode(TOption(el), ws, i) == Done(Opt(None), i + 1) <==> ws[i] == 0
  {
  }

  /** n values of one type in a row. */
  function DecodeMany(el: R0Type, n: nat, ws: seq<u32>, i: nat): Read<seq<R0Value>>
    decreases el, n + 1
  {
    if n == 0 then Done([], i)
    else match Decode(el, ws, i)
         case Truncated => Truncated
         case Done(v, at) =>
           match DecodeMany(el, n - 1, ws, at)
           case Truncated => Truncated
           case Done(vs, end) => Done([v] + vs, end)
  }

  /** An argument list, one type after the other. */
  function DecodeArgs(types: seq<R0Type>, ws: seq<u32>, i: nat): Read<seq<R0Value>> {
    if types == [] then Done([], i)
    else match Decode(types[0], ws, i)
         case Truncated => Truncated
         case Done(v, at) =>
           match DecodeArgs(types[1..], ws, at)
           case Truncated => Truncated
           case Done(vs, end) => Done([v] + vs, end)
  }

  /** The values a type admits, as the on-chain types bound them. */
  predicate HasType(v: R0Value, t: R0Type)
    decreases t, 0
  {
    match t
    case TBool => v.Bool?
    case TU8 => v.U8? && 0 <= v.n < 0x100
    case TU16 => v.U16? && 0 <= v.n < 0x1_0000
    case TU32 => v.U32? && 0 <= v.n < 0x1_0000_0000
    case TChar => v.Char? && 0 <= v.n < 0x1_0000_0000
    case TU64 => v.U64? && 0 <= v.n < 0x1_0000_0000_0000_0000
    case TI64 => v.I64? && -0x8000_0000_0000_0000 <= v.n < 0x8000_0000_0000_0000
    case TU128 => v.U128? && 0 <= v.n < 0x1_0000_0000_0000_0000_0000_0000_0000_0000
    case TString => v.Str? && |v.s| < 0x1_0000_0000
    case TArray(el, n) => (v.Array? || v.Tuple?) && |v.elems| == n && AllHaveType(v.elems, el)
    case TVec(el) =>
      (v.Vec? && |v.elems| < 0x1_0000_0000 && AllHaveType(v.elems, el))
      || (v.Octets? && el == TU8 && |v.o| < 0x1_0000_0000)
    case TOption(el) => v.Opt? && (v.value.Some? ==> HasType(v.value.value, el))
  }

  predicate AllHaveType(vs: seq<R0Value>, el: R0Type)
    decreases el, |vs| + 1
  {
    vs == [] || (HasType(vs[0], el) && AllHaveType(vs[1..], el))
  }

  /**
   What the reader makes of a well-typed value: tuples read as arrays, byte vectors as vectors
   of u8, a signed 64-bit number as its value modulo 2^64, a string without a leading byte order mark.
   */
  function Norm(v: R0Value): R0Value
    decreases v, 1
  {
    match v
    case I64(n) => I64(n % 0x1_0000_0000_0000_0000)
    case Str(s) => Str(WithoutMark(s))
    case Octets(o) => Vec(U8s(o))
    case Array(elems) => Array(NormAll(elems))
    case Tuple(elems) => Array(NormAll(elems))
    case Vec(elems) => Vec(NormAll(elems))
    case Opt(Some(x)) => Opt(Some(Norm(x)))
    case _ => v
  }

  function NormAll(vs: seq<R0Value>): (r: seq<R0Value>)
    ensures |r| == |vs|
    decreases vs, 0
  {
    if vs == [] then [] else [Norm(vs[0])] + NormAll(vs[1..])
  }

  function U8s(o: seq<byte>): seq<R0Value> {
    if o == [] then [] else [U8(o[0])] + U8s(o[1..])
  }

  /** The words e stand in ws from position i on. */
  predicate Segment(ws: seq<u32>, i: nat, e: seq<u32>)
    decreases |e|
  {
    if e == [] then i <= |ws| else i < |ws| && ws[i] == e[0] && Segment(ws, i + 1, e[1..])
  }

  lemma {:induction false} SegmentSlice(ws: seq<u32>, i: nat, e: seq<u32>)
    ensures Segment(ws, i, e) <==> i + |e| <= |ws| && ws[i..i + |e|] == e
    decreases |e|
  {
    if e != [] {
      SegmentSlice(ws, i + 1, e[1..]);
      if i + |e| <= |ws| {
        assert ws[i..i + |e|] == [ws[i]] + ws[i + 1..i + |e|];
        assert e == [e[0]] + e[1..];
      }
    }
  }

  lemma {:induction false} SegmentSplit(ws: seq<u32>, i: nat, a: seq<u32>, b: seq<u32>)
    requires Segment(ws, i, a + b)
    ensures Segment(ws, i, a) && Segment(ws, i + |a|, b)
    decreases |a|
  {
    if a == [] {
      assert a + b == b;
      SegmentSlice(ws, i, b);
    } else {
      assert (a + b)[1..] == a[1..] + b && (a + b)[0] == a[0];
      SegmentSplit(ws, i + 1, a[1..], b);
    }
  }

  lemma SegmentWord(ws: seq<u32>, i: nat, w: u32, rest: seq<u32>)
    requires Segment(ws, i, [w] + rest)
    ensures i < |ws| && ws[i] == w && Segment(ws, i + 1, rest)
  {
    assert ([w] + rest)[1..] == rest;
  }

  /** Packing pads to whole words and loses nothing. */
  lemma UnpackPacked(b: seq<byte>, ws: seq<u32>, i: nat)
    requires i + |Packed(b)| <= |ws| && ws[i..i + |Packed(b)|] == Packed(b)
    ensures PackedBytes(ws, i, |b|) == b
  {
    forall m | 0 <= m < |b|
      ensures PackedBytes(ws, i, |b|)[m] == b[m]
    {
      var k := m / 4;
      assert ws[i + k] == ws[i..i + |Packed(b)|][k] == Packed(b)[k] == PackedWord(b, 4 * k);
      BytesWordInverse(ByteOrZero(b, 4 * k), ByteOrZero(b, 4 * k + 1), ByteOrZero(b, 4 * k + 2),
                       ByteOrZero(b, 4 * k + 3));
      assert WordBytes(PackedWord(b, 4 * k))[m % 4] == ByteOrZero(b, 4 * k + m % 4);
    }
  }

  lemma PairOfNumber(n: int)
    ensures Word(n) + 0x1_0000_0000 * Word(n / 0x1_0000_0000) == n % 0x1_0000_0000_0000_0000
  {
    var q := n / 0x1_0000_0000;
    assert n == Word(n) + 0x1_0000_0000 * q;
    assert q == Word(q) + 0x1_0000_0000 * (q / 0x1_0000_0000);
  }

  lemma DivDiv(n: nat, a: nat, b: nat)
    requires a > 0 && b > 0
    ensures a * b > 0 && n / (a * b) == n / a / b
  {
    Radix.MulMonotone(1, a, 1, b);
    SplitTwice(n, a, b, n / a, n % a, n / a / b, n / a % b);
    Quotient(n, a * b, n / a / b, a * (n / a % b) + n % a);
  }

  /** A number split by a, and its quotient by b, is split by a * b. */
  lemma SplitTwice(n: nat, a: nat, b: nat, q: nat, r: nat, k: nat, s: nat)
    requires n == a * q + r && r < a && q == b * k + s && s < b
    ensures n == a * b * k + (a * s + r) && a * s + r < a * b
  {
    Radix.MulAssociative(a, b, k);
    RemainderBound(a, b, r, s);
    Distribute(a, b * k, s);
  }

  lemma Quotient(n: nat, d: nat, k: nat, r: nat)
    requires n == d * k + r && r < d
    ensures n / d == k
  {
    Radix.SameLowDigit(d, n % d, r, n / d, k);
  }

  lemma Distribute(a: nat, x: nat, y: nat)
    ensures a * (x + y) == a * x + a * y
  {
  }

  lemma RemainderBound(a: nat, b: nat, r: nat, s: nat)
    requires r < a && s < b
    ensures a * s + r < a * b
  {
    Radix.MulMonotone(a, a, s + 1, b);
    Distribute(a, s, 1);
  }

  lemma NextByte(n: nat, i: nat)
    ensures n / Pow256(i + 1) == n / Pow256(i) / 0x100
  {
    DivDiv(n, Pow256(i), 0x100);
  }

  /** Byte k of the little-endian form counts 256 to the k. */
  lemma {:induction false} LittleEndianAt(n: nat, width: nat, k: nat)
    requires k < width
    ensures LittleEndian(n, width)[k] == ByteAt(n, k)
    decreases width
  {
    if k > 0 {
      LittleEndianAt(n / 0x100, width - 1, k - 1);
      DivDiv(n, 0x100, Pow256(k - 1));
    }
  }

  /** The sixteen bytes picked one by one are the little-endian form of the number. */
  lemma OctetsAreLittleEndian(n: nat)
    ensures Octets16(n) == LittleEndian(n, 16)
  {
    forall k | 0 <= k < 16
      ensures Octets16(n)[k] == LittleEndian(n, 16)[k]
    {
      LittleEndianAt(n, 16, k);
    }
  }

  lemma FourBytesAt(n: nat, i: nat)
    ensures BytesWord(ByteAt(n, i), ByteAt(n, i + 1), ByteAt(n, i + 2), ByteAt(n, i + 3)) == Word(n / Pow256(i))
    ensures n / Pow256(i + 4) == n / Pow256(i) / 0x1_0000_0000
  {
    NextByte(n, i);
    NextByte(n, i + 1);
    NextByte(n, i + 2);
    NextByte(n, i + 3);
    LowWord(n / Pow256(i));
  }

  lemma LowWord(x: nat)
    ensures BytesWord(x % 0x100, x / 0x100 % 0x100, x / 0x100 / 0x100 % 0x100, x / 0x100 / 0x100 / 0x100 % 0x100)
            == Word(x)
    ensures x / 0x100 / 0x100 / 0x100 / 0x100 == x / 0x1_0000_0000
  {
    var a := x / 0x100;
    var b := a / 0x100;
    var c := b / 0x100;
    assert c / 0x100 == x / 0x1_0000_0000;
    assert x == x % 0x100 + 0x100 * (a % 0x100) + 0x1_0000 * (b % 0x100) + 0x100_0000 * (c % 0x100)
                + 0x1_0000_0000 * (c / 0x100);
  }

  lemma QuadOfNumber(n: u128)
    ensures |Packed(Octets16(n))| == 4
    ensures var p := Packed(Octets16(n)); FourWords(p[0], p[1], p[2], p[3]) == n
  {
    var p, h := Packed(Octets16(n)), 0x1_0000_0000;
    assert n == n / Pow256(0);
    NumberWord(n, n, 0);
    NumberWord(n, n / h, 1);
    NumberWord(n, n / h / h, 2);
    NumberWord(n, n / h / h / h, 3);
    FourWordsOf(n);
  }

  /** Word k of a number, and the number shifted to the next one. */
  lemma NumberWord(n: nat, x: nat, k: nat)
    requires k < 4 && x == n / Pow256(4 * k)
    ensures Packed(Octets16(n))[k] == Word(x)
    ensures x / 0x1_0000_0000 == n / Pow256(4 * (k + 1))
  {
    var b := Octets16(n);
    assert Packed(b)[k] == BytesWord(b[4 * k], b[4 * k + 1], b[4 * k + 2], b[4 * k + 3]);
    FourBytesAt(n, 4 * k);
  }

  lemma FourWordsOf(n: u128)
    ensures var h := 0x1_0000_0000;
            FourWords(Word(n), Word(n / h), Word(n / h / h), Word(n / h / h / h)) == n
  {
    var h := 0x1_0000_0000;
    var a := n / h;
    var b := a / h;
    assert n == Word(n) + h * a && a == Word(a) + h * b && b == Word(b) + h * (b / h);
    assert b / h < h;
  }

  /** Decoding at any place where the encoding of a well-typed value stands recovers the value. */
  lemma {:induction false} RoundTrip(v: R0Value, t: R0Type, ws: seq<u32>, i: nat)
    requires HasType(v, t) && Segment(ws, i, Encode(v))
    ensures Decode(t, ws, i) == Done(Norm(v), i + |Encode(v)|)
    decreases t, 0
  {
    match t
    case TBool => RoundTripWord(v, t, ws, i);
    case TU8 => RoundTripWord(v, t, ws, i);
    case TU16 => RoundTripWord(v, t, ws, i);
    case TU32 => RoundTripWord(v, t, ws, i);
    case TChar => RoundTripWord(v, t, ws, i);
    case TU64 => RoundTripWide(v, t, ws, i);
    case TI64 => RoundTripWide(v, t, ws, i);
    case TU128 => RoundTripWide(v, t, ws, i);
    case TString => RoundTripText(v, ws, i);
    case TArray(el, n) => RoundTripMany(v.elems, el, ws, i);
    case TVec(el) =>
      if v.Vec? {
        RoundTripVec(v.elems, Word(|v.elems|), el, ws, i);
      } else {
        RoundTripOctetVec(v, ws, i);
      }
    case TOption(el) =>
      if v.value.Some? {
        RoundTripSome(v.value.value, el, ws, i);
      } else {
        RoundTripNone(v, el, ws, i);
      }
  }

  lemma RoundTripNone(v: R0Value, el: R0Type, ws: seq<u32>, i: nat)
    requires v == Opt(None) && Segment(ws, i, Encode(v))
    ensures Decode(TOption(el), ws, i) == Done(Norm(v), i + 1) && |Encode(v)| == 1
  {
    assert Encode(v) == [0] + [];
    SegmentWord(ws, i, 0, []);
  }

  lemma RoundTripWide(v: R0Value, t: R0Type, ws: seq<u32>, i: nat)
    requires (t.TU64? || t.TI64? || t.TU128?) && HasType(v, t) && Segment(ws, i, Encode(v))
    ensures Decode(t, ws, i) == Done(Norm(v), i + |Encode(v)|)
  {
    hide Segment, ReadPair, ReadQuad, Decode;
    if t.TU128? {
      RoundTripQuad(v, ws, i);
      WideReads(ws, i, v.n);
    } else {
      RoundTripPair(v, ws, i);
      WideReads(ws, i, v.n % 0x1_0000_0000_0000_0000);
    }
  }

  lemma WideReads(ws: seq<u32>, i: nat, n: nat)
    ensures ReadPair(ws, i) == Done(n, i + 2) ==>
              Decode(TU64, ws, i) == Done(U64(n), i + 2) && Decode(TI64, ws, i) == Done(I64(n), i + 2)
    ensures ReadQuad(ws, i) == Done(n, i + 4) ==> Decode(TU128, ws, i) == Done(U128(n), i + 4)
  {
  }

  lemma RoundTripText(v: R0Value, ws: seq<u32>, i: nat)
    requires v.Str? && HasType(v, TString) && Segment(ws, i, Encode(v))
    ensures Decode(TString, ws, i) == Done(Norm(v), i + |Encode(v)|)
  {
    RoundTripString(v.s, Word(|v.s|), ws, i);
  }

  lemma {:induction false} RoundTripSome(x: R0Value, el: R0Type, ws: seq<u32>, i: nat)
    requires HasType(x, el) && Segment(ws, i, [1] + Encode(x))
    ensures i < |ws| && ws[i] == 1 && Decode(el, ws, i + 1) == Done(Norm(x), i + 1 + |Encode(x)|)
    decreases el, 1
  {
    SegmentWord(ws, i, 1, Encode(x));
    RoundTrip(x, el, ws, i + 1);
  }

  lemma {:induction false} RoundTripVec(vs: seq<R0Value>, len: u32, el: R0Type, ws: seq<u32>, i: nat)
    requires |vs| == len && AllHaveType(vs, el) && Segment(ws, i, [len] + EncodeAll(vs))
    ensures i < |ws| && ws[i] == len
    ensures DecodeMany(el, len, ws, i + 1) == Done(NormAll(vs), i + 1 + |EncodeAll(vs)|)
    decreases el, |vs| + 2
  {
    SegmentWord(ws, i, len, EncodeAll(vs));
    RoundTripMany(vs, el, ws, i + 1);
  }

  lemma RoundTripWord(v: R0Value, t: R0Type, ws: seq<u32>, i: nat)
    requires (t.TBool? || t.TU8? || t.TU16? || t.TU32? || t.TChar?) && HasType(v, t)
    requires Segment(ws, i, Encode(v))
    ensures Decode(t, ws, i) == Done(Norm(v), i + 1) && |Encode(v)| == 1
  {
    assert Encode(v) == [Encode(v)[0]] + [];
    SegmentWord(ws, i, Encode(v)[0], []);
  }

  lemma RoundTripOctetVec(v: R0Value, ws: seq<u32>, i: nat)
    requires v.Octets? && HasType(v, TVec(TU8)) && Segment(ws, i, Encode(v))
    ensures Decode(TVec(TU8), ws, i) == Done(Norm(v), i + |Encode(v)|)
  {
    SegmentWord(ws, i, |v.o|, ByteWords(v.o));
    RoundTripOctets(v.o, ws, i + 1);
    assert DecodeMany(TU8, ws[i], ws, i + 1) == Done(U8s(v.o), i + 1 + |v.o|);
  }

  lemma RoundTripPair(v: R0Value, ws: seq<u32>, i: nat)
    requires (v.U64? && 0 <= v.n < 0x1_0000_0000_0000_0000) || v.I64?
    requires Segment(ws, i, Encode(v))
    ensures ReadPair(ws, i) == Done(v.n % 0x1_0000_0000_0000_0000, i + 2)
  {
    var hi := Word(v.n / 0x1_0000_0000);
    assert Encode(v) == [Word(v.n)] + [hi];
    SegmentWord(ws, i, Word(v.n), [hi]);
    assert [hi] == [hi] + [];
    SegmentWord(ws, i + 1, hi, []);
    PairOfNumber(v.n);
  }

  lemma RoundTripQuad(v: R0Value, ws: seq<u32>, i: nat)
    requires v.U128? && HasType(v, TU128) && Segment(ws, i, Encode(v))
    ensures ReadQuad(ws, i) == Done(v.n, i + 4) && |Encode(v)| == 4
  {
    QuadOfNumber(v.n);
    var p := Packed(Octets16(v.n));
    SegmentSlice(ws, i, p);
    assert p[0] == ws[i] && p[1] == ws[i + 1] && p[2] == ws[i + 2] && p[3] == ws[i + 3];
  }

  lemma RoundTripString(s: seq<byte>, len: u32, ws: seq<u32>, i: nat)
    requires |s| == len && Segment(ws, i, [len] + Packed(s))
    ensures i < |ws| && ws[i] == len && ReadBytes(ws, i + 1, len) == Done(s, i + 1 + |Packed(s)|)
  {
    SegmentWord(ws, i, len, Packed(s));
    ReadPacked(s, ws, i + 1);
  }

  lemma ReadPacked(s: seq<byte>, ws: seq<u32>, i: nat)
    requires Segment(ws, i, Packed(s))
    ensures ReadBytes(ws, i, |s|) == Done(s, i + |Packed(s)|)
  {
    SegmentSlice(ws, i, Packed(s));
    UnpackPacked(s, ws, i);
  }

  lemma {:induction false} RoundTripMany(vs: seq<R0Value>, el: R0Type, ws: seq<u32>, i: nat)
    requires AllHaveType(vs, el) && Segment(ws, i, EncodeAll(vs))
    ensures DecodeMany(el, |vs|, ws, i) == Done(NormAll(vs), i + |EncodeAll(vs)|)
    decreases el, |vs| + 1
  {
    if vs != [] {
      var mid := i + |Encode(vs[0])|;
      EncodedHead(vs, ws, i, mid);
      RoundTrip(vs[0], el, ws, i);
      RoundTripMany(vs[1..], el, ws, mid);
      ManyStep(el, |vs[1..]|, ws, i, Norm(vs[0]), mid, NormAll(vs[1..]), i + |EncodeAll(vs)|);
    }
  }

  lemma EncodedHead(vs: seq<R0Value>, ws: seq<u32>, i: nat, mid: nat)
    requires vs != [] && Segment(ws, i, EncodeAll(vs)) && mid == i + |Encode(vs[0])|
    ensures Segment(ws, i, Encode(vs[0])) && Segment(ws, mid, EncodeAll(vs[1..]))
    ensures mid + |EncodeAll(vs[1..])| == i + |EncodeAll(vs)|
  {
    assert EncodeAll(vs) == Encode(vs[0]) + EncodeAll(vs[1..]);
    hide EncodeAll, Encode, Segment;
    SegmentSplit(ws, i, Encode(vs[0]), EncodeAll(vs[1..]));
  }

  lemma ManyStep(el: R0Type, n: nat, ws: seq<u32>, i: nat, v: R0Value, at: nat, vs: seq<R0Value>, end: nat)
    requires Decode(el, ws, i) == Done(v, at) && DecodeMany(el, n, ws, at) == Done(vs, end)
    ensures DecodeMany(el, n + 1, ws, i) == Done([v] + vs, end)
  {
  }

  lemma {:induction false} RoundTripOctets(o: seq<byte>, ws: seq<u32>, i: nat)
    requires Segment(ws, i, ByteWords(o))
    ensures DecodeMany(TU8, |o|, ws, i) == Done(U8s(o), i + |o|)
    decreases |o|
  {
    if o != [] {
      assert ByteWords(o) == [Word(o[0])] + ByteWords(o[1..]);
      SegmentWord(ws, i, o[0], ByteWords(o[1..]));
      RoundTripOctets(o[1..], ws, i + 1);
    }
  }

  predicate ArgsHaveTypes(args: seq<R0Value>, types: seq<R0Type>) {
    |args| == |types| && (args == [] || (HasType(args[0], types[0]) && ArgsHaveTypes(args[1..], types[1..])))
  }

  /** A whole argument list is recovered, and reading stops exactly behind it. */
  lemma {:induction false} RoundTripArgs(args: seq<R0Value>, types: seq<R0Type>, ws: seq<u32>, i: nat)
    requires ArgsHaveTypes(args, types) && Segment(ws, i, EncodeAll(args))
    ensures DecodeArgs(types, ws, i) == Done(NormAll(args), i + |EncodeAll(args)|)
    decreases |args|
  {
    if args != [] {
      var mid := i + |Encode(args[0])|;
      EncodedHead(args, ws, i, mid);
      RoundTrip(args[0], types[0], ws, i);
      RoundTripArgs(args[1..], types[1..], ws, mid);
      ArgsStep(types, ws, i, Norm(args[0]), mid, NormAll(args[1..]), i + |EncodeAll(args)|);
    }
  }

  lemma ArgsStep(types: seq<R0Type>, ws: seq<u32>, i: nat, v: R0Value, at: nat, vs: seq<R0Value>, end: nat)
    requires types != [] && Decode(types[0], ws, i) == Done(v, at) && DecodeArgs(types[1..], ws, at) == Done(vs, end)
    ensures DecodeArgs(types, ws, i) == Done([v] + vs, end)
  {
  }

  /** The same on prefix ++ encoding ++ suffix. */
  lemma RoundTripWithin(args: seq<R0Value>, types: seq<R0Type>, before: seq<u32>, after: seq<u32>)
    requires ArgsHaveTypes(args, types)
    ensures DecodeArgs(types, before + EncodeAll(args) + after, |before|)
         == Done(NormAll(args), |before| + |EncodeAll(args)|)
  {
    var ws := before + EncodeAll(args) + after;
    SegmentSlice(ws, |before|, EncodeAll(args));
    RoundTripArgs(args, types, ws, |before|);
  }

  /** Argument lists are uniquely parsed: the words of one list never begin with those of another. */
  lemma ArgsUnique(a: seq<R0Value>, b: seq<R0Value>, types: seq<R0Type>, after: seq<u32>, after': seq<u32>)
    requires ArgsHaveTypes(a, types) && ArgsHaveTypes(b, types)
    requires EncodeAll(a) + after == EncodeAll(b) + after'
    ensures NormAll(a) == NormAll(b) && EncodeAll(a) == EncodeAll(b) && after == after'
  {
    ReadFront(a, types, after);
    ReadFront(b, types, after');
    var ws, n := EncodeAll(a) + after, |EncodeAll(a)|;
    assert EncodeAll(a) == ws[..n] && after == ws[n..];
    assert EncodeAll(b) == ws[..n] && after' == ws[n..];
  }

  lemma ReadFront(args: seq<R0Value>, types: seq<R0Type>, after: seq<u32>)
    requires ArgsHaveTypes(args, types)
    ensures DecodeArgs(types, EncodeAll(args) + after, 0) == Done(NormAll(args), |EncodeAll(args)|)
  {
    assert [] + EncodeAll(args) + after == EncodeAll(args) + after;
    RoundTripWithin(args, types, [], after);
  }

  // ---- the reader itself ---------------------------------------------------------------

  class WordReader {
    const words: seq<u32>
    var i: nat  // never past the end of words

    constructor (words: seq<u32>)
      ensures this.words == words && i == 0
    {
      this.words := words;
      i := 0;
    }

    /** The reader stands behind the value read, or reported truncated data. */
    ghost predicate After<T>(r: Read<T>, got: Option<T>)
      reads this
    {
      match r
      case Done(value, at) => got == Some(value) && i == at
      case Truncated => got == None
    }

    method U32() returns (r: Option<u32>)
      requires i <= |words|
      modifies this
      ensures i <= |words| && After(ReadWord(words, old(i)), r)
    {
      if i >= |words| {
        return None;
      }
      r := Some(words[i]);
      i := i + 1;
    }

    method Octets(n: nat) returns (r: Option<seq<byte>>)
      requires i <= |words|
      modifies this
      ensures i <= |words| && After(ReadBytes(words, old(i), n), r)
    {
      hide WordBytes, PackedBytes;
      ghost var start := i;
      var out := new byte[n](_ => 0);
      var k := 0;
      while k < n
        invariant k % 4 == 0 && k <= n + 3 && i == start + k / 4 && start <= i <= |words|
        invariant forall m :: 0 <= m < k && m < n ==> out[m] == WordBytes(words[start + m / 4])[m % 4]
      {
        var w := U32();
        if w.None? {
          return None;
        }
        FillWord(out, k, w.value);
        assert forall m :: k <= m < k + 4 ==> start + m / 4 == i - 1 && m % 4 == m - k;
        k := k + 4;
      }
      AllUnpacked(out[..], words, start);
      r := Some(out[..]);
    }
  }

  lemma AllUnpacked(out: seq<byte>, ws: seq<u32>, i: nat)
    requires i + (|out| + 3) / 4 <= |ws|
    requires forall m :: 0 <= m < |out| ==> out[m] == WordBytes(ws[i + m / 4])[m % 4]
    ensures out == PackedBytes(ws, i, |out|)
  {
  }

  /** The inner loop: the bytes of one word, low byte first, as far as the buffer reaches. */
  method FillWord(out: array<byte>, k: nat, w: u32)
    modifies out
    ensures forall m :: 0 <= m < k && m < out.Length ==> out[m] == old(out[m])
    ensures forall m :: k <= m < k + 4 && m < out.Length ==> out[m] == WordBytes(w)[m - k]
  {
    var j := 0;
    while j < 4 && k + j < out.Length
      invariant 0 <= j <= 4
      invariant forall m :: 0 <= m < k && m < out.Length ==> out[m] == old(out[m])
      invariant forall m :: k <= m < k + j && m < out.Length ==> out[m] == WordBytes(w)[m - k]
    {
      out[k + j] := WordBytes(w)[j];
      j := j + 1;
    }
  }

  /** Reads one value; a truncated instruction stops the whole decoding. */
  method DecodeValue(r: WordReader, t: R0Type) returns (v: Option<R0Value>)
    requires r.i <= |r.words|
    modifies r
    ensures r.i <= |r.words| && r.After(Decode(t, r.words, old(r.i)), v)
    decreases t, 0
  {
    match t
    case TBool => var w := r.U32(); v := if w.None? then None else Some(Bool(w.value != 0));
    case TU8 => var w := r.U32(); v := if w.None? then None else Some(U8(w.value));
    case TU16 => var w := r.U32(); v := if w.None? then None else Some(U16(w.value));
    case TU32 => var w := r.U32(); v := if w.None? then None else Some(U32(w.value));
    case TChar => var w := r.U32(); v := if w.None? then None else Some(Char(w.value));
    case TU64 => var n := DecodePair(r); v := if n.None? then None else Some(U64(n.value));
    case TI64 => var n := DecodePair(r); v := if n.None? then None else Some(I64(n.value));
    case TU128 => var n := DecodeQuad(r); v := if n.None? then None else Some(U128(n.value));
    case TString =>
      var len := r.U32();
      if len.None? {
        return None;
      }
      var s := r.Octets(len.value);
      v := if s.None? then None else Some(Str(WithoutMark(s.value)));
    case TArray(el, n) =>
      var vs := DecodeEach(r, el, n);
      v := if vs.None? then None else Some(Array(vs.value));
    case TVec(el) =>
      var len := r.U32();
      if len.None? {
        return None;
      }
      var vs := DecodeEach(r, el, len.value);
      v := if vs.None? then None else Some(Vec(vs.value));
    case TOption(el) =>
      var tag := r.U32();
      if tag.None? {
        return None;
      }
      if tag.value == 0 {
        return Some(Opt(None));
      }
      var x := DecodeValue(r, el);
      v := if x.None? then None else Some(Opt(x));
  }

  method DecodePair(r: WordReader) returns (n: Option<nat>)
    requires r.i <= |r.words|
    modifies r
    ensures r.i <= |r.words| && r.After(ReadPair(r.words, old(r.i)), n)
  {
    var lo := r.U32();
    if lo.None? {
      return None;
    }
    var hi := r.U32();
    n := if hi.None? then None else Some(TwoWords(lo.value, hi.value));
  }

  method DecodeQuad(r: WordReader) returns (n: Option<nat>)
    requires r.i <= |r.words|
    modifies r
    ensures r.i <= |r.words| && r.After(ReadQuad(r.words, old(r.i)), n)
  {
    var w0, w1, w2, w3;
    w0 := r.U32();
    if w0.None? { return None; }
    w1 := r.U32();
    if w1.None? { return None; }
    w2 := r.U32();
    if w2.None? { return None; }
    w3 := r.U32();
    n := if w3.None? then None else Some(FourWords(w0.value, w1.value, w2.value, w3.value));
  }

  method DecodeEach(r: WordReader, el: R0Type, n: nat) returns (vs: Option<seq<R0Value>>)
    requires r.i <= |r.words|
    modifies r
    ensures r.i <= |r.words| && r.After(DecodeMany(el, n, r.words, old(r.i)), vs)
    decreases el, n + 1
  {
    var vals: seq<R0Value> := [];
    var k := 0;
    PrependNothing(DecodeMany(el, n, r.words, r.i));
    while k < n
      invariant 0 <= k <= n && r.i <= |r.words|
      invariant DecodeMany(el, n, r.words, old(r.i)) == Prepend(vals, DecodeMany(el, n - k, r.words, r.i))
    {
      ghost var rest := DecodeMany(el, n - k, r.words, r.i);
      var v := DecodeValue(r, el);
      if v.None? {
        return None;
      }
      PrependMore(vals, v.value, DecodeMany(el, n - k - 1, r.words, r.i));
      vals := vals + [v.value];
      k := k + 1;
    }
    assert vals + [] == vals;
    vs := Some(vals);
  }

  function Prepend(vals: seq<R0Value>, r: Read<seq<R0Value>>): Read<seq<R0Value>> {
    match r
    case Truncated => Truncated
    case Done(vs, at) => Done(vals + vs, at)
  }

  lemma PrependNothing(r: Read<seq<R0Value>>)
    ensures Prepend([], r) == r
  {
    if r.Done? {
      assert [] + r.value == r.value;
    }
  }

  lemma PrependMore(vals: seq<R0Value>, v: R0Value, r: Read<seq<R0Value>>)
    ensures Prepend(vals, Prepend([v], r)) == Prepend(vals + [v], r)
  {
    if r.Done? {
      Assoc(vals, [v], r.value);
    }
  }
}
