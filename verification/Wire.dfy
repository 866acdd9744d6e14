/**
 The hexadecimal wire form of instructions: the SDK's encoder, the hand-rolled encoders of the
 wallet front end, the front end's decoder, the native worker's reader, and program ids.
 Texts are sequences of UTF-16 code units.
 */
module Wire {
  import opened Bytes
  import opened Risc0
  import opened InstructionReader
  import opened AccountIds

  /** `(w >> 8k) & 0xff`: the shift works on the signed reading of the low 32 bits. */
  function ShiftByte(w: int, k: nat): byte
    requires k < 4
  {
    ToInt32(w) / (if k == 0 then 1 else if k == 1 then 0x100 else if k == 2 then 0x1_0000 else 0x100_0000) % 0x100
  }

  /** The sign does not reach the four bytes. */
  lemma ShiftByteIsWordByte(w: int)
    ensures [ShiftByte(w, 0), ShiftByte(w, 1), ShiftByte(w, 2), ShiftByte(w, 3)] == WordBytes(Word(w))
  {
    var u := Word(w);
    if u >= 0x8000_0000 {
      NegativeShifts(u);
    }
  }

  lemma NegativeShifts(u: u32)
    ensures (u - 0x1_0000_0000) % 0x100 == u % 0x100
    ensures (u - 0x1_0000_0000) / 0x100 % 0x100 == u / 0x100 % 0x100
    ensures (u - 0x1_0000_0000) / 0x1_0000 % 0x100 == u / 0x1_0000 % 0x100
    ensures (u - 0x1_0000_0000) / 0x100_0000 % 0x100 == u / 0x100_0000
  {
    DropMultiple(u / 0x100, 0x1_0000);
    DropMultiple(u / 0x1_0000, 0x100);
    DropMultiple(u / 0x100_0000, 1);
    DropMultiple(u, 0x100_0000);
    assert (u - 0x1_0000_0000) / 0x100 == u / 0x100 - 0x100 * 0x1_0000;
    assert (u - 0x1_0000_0000) / 0x1_0000 == u / 0x1_0000 - 0x100 * 0x100;
    assert (u - 0x1_0000_0000) / 0x100_0000 == u / 0x100_0000 - 0x100;
  }

  lemma DropMultiple(x: int, k: nat)
    ensures (x - 0x100 * k) % 0x100 == x % 0x100
  {
  }

  function Words(ws: seq<int>): seq<u32> {
    if ws == [] then [] else [Word(ws[0])] + Words(ws[1..])
  }

  lemma {:induction false} WordsAppend(a: seq<int>, b: seq<int>)
    ensures Words(a + b) == Words(a) + Words(b)
  {
    if a == [] {
      assert a + b == b;
    } else {
      WordsAppend(a[1..], b);
      assert (a + b)[0] == a[0] && (a + b)[1..] == a[1..] + b;
      Assoc([Word(a[0])], Words(a[1..]), Words(b));
    }
  }

  lemma WordsBytesCons(w: u32, rest: seq<u32>)
    ensures WordsBytes([w] + rest) == WordBytes(w) + WordsBytes(rest)
  {
    assert ([w] + rest)[1..] == rest;
  }

  /** Hexadecimal text of words, signed or not, lowest byte first. */
  method WordsToHex(words: seq<int>) returns (hex: string)
    ensures hex == ToHex(WordsBytes(Words(words)))
  {
    var b: seq<byte> := [];
    var i := 0;
    while i < |words|
      invariant 0 <= i <= |words|
      invariant WordsBytes(Words(words)) == b + WordsBytes(Words(words[i..]))
    {
      ShiftByteIsWordByte(words[i]);
      assert words[i..][1..] == words[i + 1..];
      WordsBytesCons(Word(words[i]), Words(words[i + 1..]));
      Assoc(b, WordBytes(Word(words[i])), WordsBytes(Words(words[i + 1..])));
      b := b + [ShiftByte(words[i], 0), ShiftByte(words[i], 1), ShiftByte(words[i], 2), ShiftByte(words[i], 3)];
      i := i + 1;
    }
    assert words[i..] == [] && b + [] == b;
    hex := ToHex(b);
  }

  /** The wire text of an instruction. */
  function InstructionHex(index: int, args: seq<R0Value>): string {
    ToHex(WordsBytes([Word(index)] + EncodeAll(args)))
  }

  /** The bytes printed for index 1 and the number 0x12345678: each word with its lowest byte first. */
  lemma InstructionSpelled()
    ensures InstructionHex(1, [U32(0x1234_5678)]) == ToHex([1, 0, 0, 0, 0x78, 0x56, 0x34, 0x12])
  {
    EncodeOne(U32(0x1234_5678));
    assert Encode(U32(0x1234_5678)) == [0x1234_5678] == [0x1234_5678] + [];
    WordsBytesCons(1, [0x1234_5678]);
    WordsBytesCons(0x1234_5678, []);
    assert WordBytes(1) + (WordBytes(0x1234_5678) + []) == [1, 0, 0, 0, 0x78, 0x56, 0x34, 0x12];
  }

  method InstructionDataHex(variantIndex: int, args: seq<R0Value>) returns (hex: string)
    ensures hex == InstructionHex(variantIndex, args)
  {
    var words := EncodeInstruction(variantIndex, args);
    UnsignedWords(words);
    hex := WordsToHex(words);
  }

  lemma {:induction false} UnsignedWords(ws: seq<u32>)
    ensures Words(ws) == ws
  {
    if ws != [] {
      UnsignedWords(ws[1..]);
      assert ws == [ws[0]] + ws[1..];
    }
  }

  /**
   The encoder that publishPointer and buildTestimonialCall each write out by hand: variant 0 and
   a list of strings, every word kept as the signed number the bit operations produce.
   */
  method HandRolledHex(strs: seq<seq<byte>>) returns (hex: string)
    ensures hex == InstructionHex(0, StrArgs(strs))
  {
    var words: seq<int> := [0];
    var k := 0;
    while k < |strs|
      invariant 0 <= k <= |strs|
      invariant [Word(0)] + EncodeAll(StrArgs(strs)) == Words(words) + EncodeAll(StrArgs(strs[k..]))
    {
      var b := strs[k];
      assert strs[k..][1..] == strs[k + 1..];
      StrArgsStep(b, strs[k + 1..]);
      ghost var rest := EncodeAll(StrArgs(strs[k + 1..]));
      var more := HandRolledString(b);
      WordsAppend(words, more);
      Assoc(Words(words), Words(more), rest);
      words := words + more;
      k := k + 1;
    }
    assert strs[k..] == [] && Words(words) + [] == Words(words);
    hex := WordsToHex(words);
  }

  lemma StrArgsStep(b: seq<byte>, rest: seq<seq<byte>>)
    ensures EncodeAll(StrArgs([b] + rest)) == Encode(Str(b)) + EncodeAll(StrArgs(rest))
  {
    assert ([b] + rest)[1..] == rest;
    assert ([Str(b)] + StrArgs(rest))[1..] == StrArgs(rest);
  }

  /** Length and packed bytes of one string. */
  method HandRolledString(b: seq<byte>) returns (words: seq<int>)
    ensures Words(words) == Encode(Str(b))
  {
    words := [|b|];
    WordsOne(|b|);
    var i := 0;
    ghost var rest := Packed(b);
    assert From(b, 0) == b;
    while i < |b|
      invariant rest == Packed(From(b, i))
      invariant Encode(Str(b)) == Words(words) + rest
    {
      var w := OrFourAtOnce(b, i);
      PackedStep(b, i);
      WordsAppend(words, [w]);
      WordsOne(w);
      Assoc(Words(words), [Word(w)], rest[1..]);
      words := words + [w];
      rest := rest[1..];
      i := i + 4;
    }
    assert rest == [] && Words(words) + [] == Words(words);
  }

  lemma WordsOne(w: int)
    ensures Words([w]) == [Word(w)]
  {
    assert [w][1..] == [];
  }

  /** Four bytes or-ed in one expression. */
  method OrFourAtOnce(b: seq<byte>, i: nat) returns (w: int)
    ensures w == OrPrefix(b, i, 4)
  {
    var b0, b1, b2, b3 := ByteOrZero(b, i), ByteOrZero(b, i + 1), ByteOrZero(b, i + 2), ByteOrZero(b, i + 3);
    w := OrByte(OrByte(OrByte(OrByte(0, b0, 0), b1, 1), b2, 2), b3, 3);
    assert OrPrefix(b, i, 1) == OrByte(0, b0, 0);
    assert OrPrefix(b, i, 2) == OrByte(OrPrefix(b, i, 1), b1, 1);
    assert OrPrefix(b, i, 3) == OrByte(OrPrefix(b, i, 2), b2, 2);
  }

  // ---- readers ---------------------------------------------------------------------------

  predicate IsJsSpace(c: char) {
    c in {'\t', '\n', '\U{B}', '\U{C}', '\r', ' ', '\U{A0}', '\U{1680}', '\U{2028}', '\U{2029}', '\U{202F}',
          '\U{205F}', '\U{3000}', '\U{FEFF}'}
    || '\U{2000}' <= c <= '\U{200A}'
  }

  /** `parseInt` of two characters in base 16, stored in a byte: what is not a number stores 0. */
  function ParsePair(c: char, d: char): byte {
    if IsHexDigit(c) then
      if IsHexDigit(d) then 16 * HexValue(c) + HexValue(d) else HexValue(c)
    else if !IsHexDigit(d) then 0
    else if c == '-' then (0x100 - HexValue(d)) % 0x100
    else if c == '+' || IsJsSpace(c) then HexValue(d)
    else 0
  }

  function ParsePairs(hex: string): (b: seq<byte>)
    ensures |b| == |hex| / 2
  {
    if |hex| < 2 then [] else [ParsePair(hex[0], hex[1])] + ParsePairs(hex[2..])
  }

  lemma {:induction false} ParsePairsOfHex(hex: string)
    requires IsHex(hex)
    ensures ParsePairs(hex) == FromHex(hex)
    decreases |hex|
  {
    if |hex| >= 2 {
      ParsePairsOfHex(hex[2..]);
    }
  }

  datatype DecodeError = DataTruncated | NoSuchInstruction

  /** The front end's decoder: any text reads as some words; then index, table lookup and arguments. */
  method DecodeR0Instruction(dataHex: string, idl: seq<seq<R0Type>>)
    returns (r: Result<(nat, seq<R0Value>), DecodeError>)
    ensures r == DecodeInstruction(BytesWords(ParsePairs(dataHex)), idl)
  {
    var bytes: seq<byte> := [];
    var i := 0;
    while i < |dataHex| / 2
      invariant 0 <= i <= |dataHex| / 2
      invariant ParsePairs(dataHex) == bytes + ParsePairs(dataHex[2 * i..])
    {
      assert dataHex[2 * i..][2..] == dataHex[2 * (i + 1)..];
      Assoc(bytes, [ParsePair(dataHex[2 * i], dataHex[2 * i + 1])], ParsePairs(dataHex[2 * (i + 1)..]));
      bytes := bytes + [ParsePair(dataHex[2 * i], dataHex[2 * i + 1])];
      i := i + 1;
    }
    assert ParsePairs(dataHex[2 * i..]) == [] && bytes + [] == bytes;
    var words := SignedWords(bytes);
    var reader := new WordReader(words);
    var index := reader.U32();
    if index.None? {
      return Err(DataTruncated);
    }
    if index.value >= |idl| {
      return Err(NoSuchInstruction);
    }
    var args := DecodeArguments(reader, idl[index.value]);
    if args.None? {
      return Err(DataTruncated);
    }
    r := Ok((index.value, args.value));
  }

  /** Words from bytes by or-ing shifted bytes, stored unsigned. */
  method SignedWords(bytes: seq<byte>) returns (words: seq<u32>)
    ensures words == BytesWords(bytes)
  {
    words := [];
    var i := 0;
    while i < |bytes| / 4
      invariant 0 <= i <= |bytes| / 4
      invariant BytesWords(bytes) == words + BytesWords(bytes[4 * i..])
    {
      var rest := bytes[4 * i..];
      assert rest[4..] == bytes[4 * (i + 1)..];
      var w := OrByte(OrByte(OrByte(OrByte(0, rest[0], 0), rest[1], 1), rest[2], 2), rest[3], 3);
      OrBytesIsWord(rest[0], rest[1], rest[2], rest[3]);
      Assoc(words, [Word(w)], BytesWords(rest[4..]));
      words := words + [Word(w)];
      i := i + 1;
    }
    assert BytesWords(bytes[4 * i..]) == [] && words + [] == words;
  }

  method DecodeArguments(r: WordReader, types: seq<R0Type>) returns (args: Option<seq<R0Value>>)
    requires r.i <= |r.words|
    modifies r
    ensures r.i <= |r.words| && r.After(DecodeArgs(types, r.words, old(r.i)), args)
  {
    var vals: seq<R0Value> := [];
    var k := 0;
    PrependNothing(DecodeArgs(types, r.words, r.i));
    assert types[0..] == types;
    while k < |types|
      invariant 0 <= k <= |types| && r.i <= |r.words|
      invariant DecodeArgs(types, r.words, old(r.i)) == Prepend(vals, DecodeArgs(types[k..], r.words, r.i))
    {
      assert types[k..][1..] == types[k + 1..];
      var v := DecodeValue(r, types[k]);
      if v.None? {
        return None;
      }
      PrependMore(vals, v.value, DecodeArgs(types[k + 1..], r.words, r.i));
      vals := vals + [v.value];
      k := k + 1;
    }
    assert vals + [] == vals;
    args := Some(vals);
  }

  /** Index word, then the arguments the interface lists for it. */
  function DecodeInstruction(words: seq<u32>, idl: seq<seq<R0Type>>): Result<(nat, seq<R0Value>), DecodeError> {
    if words == [] then Err(DataTruncated)
    else if words[0] >= |idl| then Err(NoSuchInstruction)
    else match DecodeArgs(idl[words[0]], words, 1)
         case Truncated => Err(DataTruncated)
         case Done(args, _) => Ok((words[0], args))
  }

  /** It refuses exactly data without an index, an index past the interface, and data that ends too early. */
  lemma DecodeRefusals(words: seq<u32>, idl: seq<seq<R0Type>>)
    ensures DecodeInstruction(words, idl) == Err(NoSuchInstruction) <==> words != [] && words[0] >= |idl|
    ensures DecodeInstruction(words, idl) == Err(DataTruncated)
       <==> words == [] || (words[0] < |idl| && DecodeArgs(idl[words[0]], words, 1) == Truncated)
  {
  }

  /** Two characters that are no pair of digits: a digit before another character counts alone, else nothing does. */
  lemma OddPairs(c: char, d: char)
    requires c !in {'+', '-'} && !IsJsSpace(c)
    ensures IsHexDigit(c) && !IsHexDigit(d) ==> ParsePair(c, d) == HexValue(c)
    ensures !IsHexDigit(c) ==> ParsePair(c, d) == 0
  {
  }

  /** What the SDK encodes, the approval gate decodes: same instruction, same argument values. */
  lemma DecodeEncoded(index: nat, args: seq<R0Value>, idl: seq<seq<R0Type>>)
    requires index < |idl| && index < 0x1_0000_0000 && ArgsHaveTypes(args, idl[index])
    ensures DecodeInstruction(BytesWords(ParsePairs(InstructionHex(index, args))), idl) == Ok((index, NormAll(args)))
  {
    ReadersAgree([Word(index)] + EncodeAll(args));
    DecodeEncodedWords(index, args, [], idl);
    assert [Word(index)] + EncodeAll(args) + [] == [Word(index)] + EncodeAll(args);
  }

  /** Words after the last argument are not looked at. */
  lemma DecodeEncodedWords(index: nat, args: seq<R0Value>, after: seq<u32>, idl: seq<seq<R0Type>>)
    requires index < |idl| && index < 0x1_0000_0000 && ArgsHaveTypes(args, idl[index])
    ensures DecodeInstruction([Word(index)] + EncodeAll(args) + after, idl) == Ok((index, NormAll(args)))
  {
    assert ([Word(index)] + EncodeAll(args) + after)[0] == index;
    RoundTripWithin(args, idl[index], [Word(index)], after);
  }

  /** The worker's reader: hexadecimal text of whole words, or an error. */
  function WorkerWords(hex: string): Option<seq<u32>> {
    if |hex| % 2 != 0 || !IsHex(hex) then None           // hex::decode fails
    else if (|hex| / 2) % 4 != 0 then None               // not whole words
    else Some(BytesWords(FromHex(hex)))
  }

  /** The worker accepts exactly hexadecimal text of whole words, eight digits each. */
  lemma WorkerAccepts(hex: string)
    ensures WorkerWords(hex).Some? <==> |hex| % 8 == 0 && IsHex(hex)
  {
    hide BytesWords, FromHex, IsHex;
    WholeWords(|hex|);
  }

  lemma WholeWords(n: nat)
    ensures n % 8 == 0 <==> n % 2 == 0 && n / 2 % 4 == 0
  {
    var q, r := n / 8, n % 8;
    assert n == 8 * q + r && n / 2 == 4 * q + r / 2;
  }

  /** Both readers invert the SDK's text form of any words. */
  lemma ReadersAgree(words: seq<u32>)
    ensures var hex := ToHex(WordsBytes(words));
            WorkerWords(hex) == Some(words) && BytesWords(ParsePairs(hex)) == words
  {
    var b := WordsBytes(words);
    ToHexIsHex(b);
    HexInverse(b);
    ParsePairsOfHex(ToHex(b));
    WordsBytesInverse(words);
  }

  /**
   Conversely, what the worker accepts the front end reads alike, and writing it back gives the text in
   lower case.
   */
  lemma WorkerTextIsCanonical(hex: string)
    requires WorkerWords(hex).Some?
    ensures BytesWords(ParsePairs(hex)) == WorkerWords(hex).value
    ensures ToHex(WordsBytes(WorkerWords(hex).value)) == LowerHex(hex)
  {
    ParsePairsOfHex(hex);
    BytesWordsInverse(FromHex(hex));
    FromHexInverse(hex);
  }

  // ---- program ids -----------------------------------------------------------------------

  /** `u32::from_str_radix` on eight hexadecimal digits. */
  function BigEndianHex(s: string): u32
    requires |s| == 8
  {
    var b := FromHex(s);
    BytesWord(b[3], b[2], b[1], b[0])
  }

  function SwapBytes(w: u32): u32 {
    var b := WordBytes(w);
    BytesWord(b[3], b[2], b[1], b[0])
  }

  /** The program id a text names: 64 hex digits after an optional prefix, eight to a word. */
  function ProgramId(s: string): Option<seq<u32>> {
    var bare := Bare(s);
    if |bare| == 64 && IsHex(bare) then Some(BytesWords(FromHex(bare))) else None
  }

  method ParseProgramId(s: string) returns (id: Option<seq<u32>>)
    ensures id == ProgramId(s)
    ensures id.Some? <==> |Bare(s)| == 64 && IsHex(Bare(s))
  {
    hide BytesWords, FromHex;
    var bare := Bare(s);
    if |bare| != 64 || !IsHex(bare) {
      return None;
    }
    var words := SwappedWords(bare);
    id := Some(words);
  }

  /** Eight digits to a word, read from the highest byte and swapped. */
  method SwappedWords(bare: string) returns (words: seq<u32>)
    requires |bare| == 64
    ensures words == BytesWords(FromHex(bare))
  {
    assert BytesWords(FromHex("")) == [];
    hide SwapBytes, BigEndianHex, BytesWords, FromHex;
    words := [];
    var i := 0;
    while i < 8
      invariant 0 <= i <= 8
      invariant BytesWords(FromHex(bare)) == words + BytesWords(FromHex(bare[8 * i..]))
    {
      NextProgramWord(bare, words, i);
      words := words + [SwapBytes(BigEndianHex(bare[8 * i..8 * i + 8]))];
      i := i + 1;
    }
    assert bare[8 * i..] == "" && words + [] == words;
  }

  lemma NextProgramWord(bare: string, words: seq<u32>, i: nat)
    requires |bare| == 64 && i < 8
    requires BytesWords(FromHex(bare)) == words + BytesWords(FromHex(bare[8 * i..]))
    ensures BytesWords(FromHex(bare))
         == (words + [SwapBytes(BigEndianHex(bare[8 * i..8 * i + 8]))]) + BytesWords(FromHex(bare[8 * (i + 1)..]))
  {
    hide SwapBytes, BigEndianHex, BytesWords, FromHex;
    var left := bare[8 * i..];
    assert left[..8] == bare[8 * i..8 * i + 8] && left[8..] == bare[8 * (i + 1)..];
    ProgramIdWord(left);
    Assoc(words, [SwapBytes(BigEndianHex(left[..8]))], BytesWords(FromHex(left[8..])));
  }

  lemma ProgramIdWord(s: string)
    requires |s| >= 8
    ensures BytesWords(FromHex(s)) == [SwapBytes(BigEndianHex(s[..8]))] + BytesWords(FromHex(s[8..]))
  {
    var b := FromHex(s[..8]);
    BytesWordInverse(b[3], b[2], b[1], b[0]);
    FromHexAppend(s[..8], s[8..]);
    assert s == s[..8] + s[8..];
    assert (b + FromHex(s[8..]))[4..] == FromHex(s[8..]);
  }

  lemma {:induction false} FromHexAppend(s: string, t: string)
    requires |s| % 2 == 0
    ensures FromHex(s + t) == FromHex(s) + FromHex(t)
    decreases |s|
  {
    if s == "" {
      assert s + t == t;
    } else {
      FromHexAppend(s[2..], t);
      FromHexCons(s[0], s[1], s[2..]);
      FromHexCons(s[0], s[1], s[2..] + t);
      assert s == [s[0], s[1]] + s[2..] && s + t == [s[0], s[1]] + (s[2..] + t);
      Assoc([16 * HexValue(s[0]) + HexValue(s[1])], FromHex(s[2..]), FromHex(t));
    }
  }

  /** Printing a program id and parsing it is the identity. */
  lemma ProgramIdRoundTrip(id: seq<u32>)
    requires |id| == 8
    ensures ProgramId(ToHex(WordsBytes(id))) == Some(id)
  {
    ReadersAgree(id);
    ToHexIsHex(WordsBytes(id));
    NoPrefix(ToHex(WordsBytes(id)));
  }

  /** A program's account id is the very bytes its 64-digit text denotes as an account id. */
  lemma ProgramAccountBytes(s: string)
    requires ProgramId(s).Some?
    ensures IdBytes(s) == Some(WordsBytes(ProgramId(s).value)) && |ProgramId(s).value| == 8
  {
    hide WordsBytes, BytesWords, FromHex, IsHex, Bare;
    BytesWordsInverse(FromHex(Bare(s)));
  }
}
