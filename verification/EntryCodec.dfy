/**
 The registry entry's Borsh layout: the guest's writer and strict reader, the native decoder and
 the TypeScript decoder without bounds checks.
 */
module EntryCodec {
  import opened Bytes
  import Base58
  import Risc0

  /** A registry entry. Strings are their UTF-8 bytes. */
  datatype Entry = Entry(
    programId: Id32, author: Id32, kind: byte,
    name: seq<byte>, version: seq<byte>, description: seq<byte>, tags: seq<byte>, idlCid: seq<byte>,
    sourceCid: seq<byte>, repoUrl: seq<byte>, commit: seq<byte>, buildConfig: seq<byte>,
    registeredAt: u64)

  const KIND_DEPLOYER: byte := 0
  const KIND_THIRD_PARTY: byte := 1

  /** The nine string fields in layout order. */
  function Strings(e: Entry): (s: seq<seq<byte>>)
    ensures |s| == 9
  {
    [e.name, e.version, e.description, e.tags, e.idlCid, e.sourceCid, e.repoUrl, e.commit, e.buildConfig]
  }

  /** What the two client decoders hand out. */
  datatype EntryView = EntryView(
    programId: string, author: string, kind: string, strings: seq<seq<byte>>, registeredAt: nat)

  /** The same fields before ids become text. */
  datatype RawEntry = RawEntry(programId: seq<byte>, author: seq<byte>, isDeployer: bool, strings: seq<seq<byte>>,
                               registeredAt: nat)

  function Display(r: Option<RawEntry>): Option<EntryView> {
    match r
    case None => None
    case Some(e) => Some(EntryView(Base58.Encode(e.programId), Base58.Encode(e.author), KindName(e.isDeployer),
                                   e.strings, e.registeredAt))
  }

  function KindName(isDeployer: bool): string {
    if isDeployer then "deployer" else "third_party"
  }

  function View(e: Entry): EntryView {
    EntryView(Base58.Encode(e.programId), Base58.Encode(e.author), KindName(e.kind == 0), Strings(e), e.registeredAt)
  }

  // ---- writer ---------------------------------------------------------------------------

  function StringBytes(s: seq<byte>): seq<byte> {
    LengthBytes(|s|) + s
  }

  /** A 32-bit little-endian length field. */
  function LengthBytes(n: nat): (b: seq<byte>)
    ensures |b| == 4
  {
    seq(4, i requires 0 <= i < 4 => Risc0.ByteAt(n, i))
  }

  function StringsBytes(ss: seq<seq<byte>>): seq<byte> {
    if ss == [] then [] else StringBytes(ss[0]) + StringsBytes(ss[1..])
  }

  function Header(e: Entry): (h: seq<byte>)
    ensures |h| == 65
  {
    e.programId + e.author + [e.kind]
  }

  /** `borsh::to_vec`: fixed fields, length-prefixed strings, timestamp. */
  function Serialize(e: Entry): seq<byte> {
    Header(e) + StringsBytes(Strings(e)) + LittleEndian(e.registeredAt, 8)
  }

  predicate Below(limit: nat, ss: seq<seq<byte>>) {
    ss == [] || (|ss[0]| < limit && Below(limit, ss[1..]))
  }

  /** Strings whose lengths fit the 32-bit length field. */
  predicate Short(ss: seq<seq<byte>>) {
    Below(0x1_0000_0000, ss)
  }

  /** Strings are shorter than all of them written out. */
  lemma {:induction false} PiecesBelow(ss: seq<seq<byte>>, limit: nat)
    requires |StringsBytes(ss)| < limit
    ensures Below(limit, ss)
  {
    if ss != [] {
      PiecesBelow(ss[1..], limit);
    }
  }

  // ---- bounds-checked readers -------------------------------------------------------------

  /** One length-prefixed string, and the offset behind it. */
  function ReadString(data: seq<byte>, off: nat): Option<(seq<byte>, nat)> {
    if off + 4 > |data| then None
    else
      var end := off + 4 + FromLittleEndian(data[off..off + 4]);
      if end > |data| then None else Some((data[off + 4..end], end))
  }

  /** n strings from an offset, and the offset behind them. */
  function ReadStrings(data: seq<byte>, off: nat, n: nat): Option<(seq<seq<byte>>, nat)>
    decreases n
  {
    if n == 0 then Some(([], off))
    else match ReadString(data, off)
         case None => None
         case Some((s, next)) =>
           match ReadStrings(data, next, n - 1)
           case None => None
           case Some((rest, end)) => Some(([s] + rest, end))
  }

  /** Everything behind the 65 fixed bytes: n strings, timestamp, and where reading stopped. */
  function ReadTail(data: seq<byte>, n: nat): Option<(seq<seq<byte>>, nat, nat)> {
    if |data| < 65 then None
    else match ReadStrings(data, 65, n)
         case None => None
         case Some((ss, off)) =>
           if off + 8 > |data| then None
           else Some((ss, FromLittleEndian(data[off..off + 8]), off + 8))
  }

  predicate AllValid(valid: seq<byte> -> bool, ss: seq<seq<byte>>) {
    ss == [] || (valid(ss[0]) && AllValid(valid, ss[1..]))
  }

  /** The check of a decoder that replaces malformed text instead of rejecting it. */
  predicate Anything(s: seq<byte>) {
    true
  }

  /** The native decoder; `valid` is the UTF-8 check. Trailing bytes are ignored. */
  function NativeDecode(data: seq<byte>, valid: seq<byte> -> bool): Option<EntryView> {
    Display(NativeFields(data, valid, 9))
  }

  function NativeFields(data: seq<byte>, valid: seq<byte> -> bool, n: nat): Option<RawEntry> {
    match ReadTail(data, n)
    case None => None
    case Some((ss, at, _)) =>
      if AllValid(valid, ss) then
        Some(RawEntry(data[0..32], data[32..64], data[64] == 0, ss, at))
      else None
  }

  /** The guest's strict reader: every byte must be used. */
  function Deserialize(data: seq<byte>, valid: seq<byte> -> bool): Option<Entry> {
    match ReadTail(data, 9)
    case None => None
    case Some((ss, at, end)) =>
      if end == |data| && |ss| == 9 && at < 0x1_0000_0000_0000_0000 && AllValid(valid, ss) then
        Some(Entry(data[..32], data[32..64], data[64],
                   ss[0], ss[1], ss[2], ss[3], ss[4], ss[5], ss[6], ss[7], ss[8], at))
      else None
  }

  // ---- the unchecked reader ---------------------------------------------------------------

  /** `data[i]` under a bit operation: undefined counts as 0. */
  function At(data: seq<byte>, i: int): byte {
    if 0 <= i < |data| then data[i] else 0
  }

  /** JavaScript's `slice`: negative positions count from the end, everything is clamped. */
  function Slice(data: seq<byte>, from: int, to: int): seq<byte> {
    var a, b := Clamp(|data|, from), Clamp(|data|, to);
    if a <= b then data[a..b] else []
  }

  function Clamp(n: nat, i: int): (r: nat)
    ensures r <= n
  {
    if i < 0 then (if n + i < 0 then 0 else n + i) else if i < n then i else n
  }

  /** The signed 32-bit length field at an offset. */
  function SignedLength(data: seq<byte>, off: int): int {
    Signed(FromLittleEndian(Field(data, off)))
  }

  function Field(data: seq<byte>, off: int): (f: seq<byte>)
    ensures |f| == 4
  {
    [At(data, off), At(data, off + 1), At(data, off + 2), At(data, off + 3)]
  }

  function Signed(w: nat): int {
    if w < 0x8000_0000 then w else w - 0x1_0000_0000
  }

  /** One string of the loose reader. */
  function LooseString(data: seq<byte>, off: int): (seq<byte>, int) {
    var end := off + 4 + SignedLength(data, off);
    (Slice(data, off + 4, end), end)
  }

  function LooseStrings(data: seq<byte>, off: int, n: nat): (seq<seq<byte>>, int)
    decreases n
  {
    if n == 0 then ([], off)
    else
      var (s, next) := LooseString(data, off);
      var (rest, end) := LooseStrings(data, next, n - 1);
      ([s] + rest, end)
  }

  /** Every string through a text decoder. */
  function Texts(text: TextDecoder, ss: seq<seq<byte>>): seq<seq<byte>> {
    if ss == [] then [] else [text(ss[0])] + Texts(text, ss[1..])
  }

  function InText(text: TextDecoder, r: Option<RawEntry>): Option<RawEntry> {
    match r
    case None => None
    case Some(e) => Some(e.(strings := Texts(text, e.strings)))
  }

  /** The TypeScript decoder: only `BigInt(undefined)` in the timestamp can throw. */
  function LooseDecode(data: seq<byte>, text: TextDecoder): Option<EntryView> {
    Display(InText(text, LooseFields(data, 9)))
  }

  function LooseFields(data: seq<byte>, n: nat): Option<RawEntry> {
    var (ss, off) := LooseStrings(data, 65, n);
    if 0 <= off && off + 8 <= |data| then
      Some(RawEntry(Slice(data, 0, 32), Slice(data, 32, 64), 64 < |data| && data[64] == 0, ss,
                    FromLittleEndian(data[off..off + 8])))
    else None
  }

  /** None of the n length fields the loose reader meets has its sign bit set. */
  predicate LengthsBelow2G(data: seq<byte>, off: nat, n: nat)
    decreases n
  {
    n == 0 || (SignedLength(data, off) >= 0 && LengthsBelow2G(data, off + 4 + SignedLength(data, off), n - 1))
  }

  // ---- what the checked readers read ------------------------------------------------------

  lemma FourBytes(f: seq<byte>)
    requires |f| == 4
    ensures FromLittleEndian(f) == BytesWord(f[0], f[1], f[2], f[3])
  {
    assert FromLittleEndian(f) == f[0] + 0x100 * FromLittleEndian(f[1..]);
    assert FromLittleEndian(f[1..]) == f[1] + 0x100 * FromLittleEndian(f[2..]) by { assert f[1..][1..] == f[2..]; }
    assert FromLittleEndian(f[2..]) == f[2] + 0x100 * FromLittleEndian(f[3..]) by { assert f[2..][1..] == f[3..]; }
    assert FromLittleEndian(f[3..]) == f[3] by { assert f[3..][1..] == []; }
  }

  lemma LengthBytesAre(n: u32)
    ensures LengthBytes(n) == WordBytes(n)
  {
    assert Pow256(0) == 1 && Pow256(1) == 0x100 && Pow256(2) == 0x1_0000 && Pow256(3) == 0x100_0000;
    var b := LengthBytes(n);
    assert b[0] == n % 0x100 && b[1] == n / 0x100 % 0x100 && b[2] == n / 0x1_0000 % 0x100;
    assert b[3] == n / 0x100_0000 % 0x100;
  }

  lemma LengthInverse(n: u32)
    ensures FromLittleEndian(LengthBytes(n)) == n
  {
    FourBytes(LengthBytes(n));
    LengthBytesAre(n);
    WordBytesInverse(n);
  }

  lemma LengthOnly(f: seq<byte>)
    requires |f| == 4
    ensures FromLittleEndian(f) < 0x1_0000_0000 && LengthBytes(FromLittleEndian(f)) == f
  {
    FourBytes(f);
    BytesWordInverse(f[0], f[1], f[2], f[3]);
    LengthBytesAre(FromLittleEndian(f));
    assert f == [f[0], f[1], f[2], f[3]];
  }

  lemma WrittenString(data: seq<byte>, off: nat, s: seq<byte>)
    requires |s| < 0x1_0000_0000
    requires off + 4 + |s| <= |data| && data[off..off + 4 + |s|] == StringBytes(s)
    ensures ReadString(data, off) == Some((s, off + 4 + |s|))
  {
    var all := data[off..off + 4 + |s|];
    assert data[off..off + 4] == all[..4] == LengthBytes(|s|);
    assert data[off + 4..off + 4 + |s|] == all[4..] == s;
    LengthInverse(|s|);
  }

  lemma OnlyWrittenString(data: seq<byte>, off: nat)
    requires ReadString(data, off).Some?
    ensures var (s, end) := ReadString(data, off).value;
            end == off + 4 + |s| <= |data| && |s| < 0x1_0000_0000 && data[off..end] == StringBytes(s)
  {
    LengthOnly(data[off..off + 4]);
    var (s, end) := ReadString(data, off).value;
    assert data[off..end] == data[off..off + 4] + s;
  }

  lemma StringPrefix(data: seq<byte>, off: nat, k: nat)
    requires ReadString(data, off).Some? && k <= |data|
    ensures ReadString(data[..k], off) == if ReadString(data, off).value.1 <= k then ReadString(data, off) else None
  {
    var (s, end) := ReadString(data, off).value;
    if off + 4 <= k {
      assert data[..k][off..off + 4] == data[off..off + 4];
    }
    if end <= k {
      assert data[..k][off + 4..end] == s;
    }
  }

  /** Strings laid out by the writer are read back, wherever they stand. */
  lemma {:induction false} ReadWritten(data: seq<byte>, off: nat, ss: seq<seq<byte>>)
    requires Short(ss)
    requires off + |StringsBytes(ss)| <= |data| && data[off..off + |StringsBytes(ss)|] == StringsBytes(ss)
    ensures ReadStrings(data, off, |ss|) == Some((ss, off + |StringsBytes(ss)|))
    decreases |ss|
  {
    if ss != [] {
      var mid, end := off + |StringBytes(ss[0])|, off + |StringsBytes(ss)|;
      assert data[off..mid] == data[off..end][..mid - off] == StringBytes(ss[0]);
      assert data[mid..end] == data[off..end][mid - off..] == StringsBytes(ss[1..]);
      WrittenString(data, off, ss[0]);
      ReadWritten(data, mid, ss[1..]);
      assert ss == [ss[0]] + ss[1..];
    }
  }

  /** Whatever is read was laid out by the writer. */
  lemma {:induction false} ReadOnlyWritten(data: seq<byte>, off: nat, n: nat)
    requires ReadStrings(data, off, n).Some? && off <= |data|
    ensures var (ss, end) := ReadStrings(data, off, n).value;
            |ss| == n && off <= end <= |data| && Short(ss) && data[off..end] == StringsBytes(ss)
    decreases n
  {
    if n > 0 {
      var (s, mid) := ReadString(data, off).value;
      OnlyWrittenString(data, off);
      ReadOnlyWritten(data, mid, n - 1);
      var (rest, end) := ReadStrings(data, mid, n - 1).value;
      assert ([s] + rest)[1..] == rest;
      assert data[off..end] == data[off..mid] + data[mid..end];
    }
  }

  /** Cutting the data off either changes nothing or makes the read fail. */
  lemma {:induction false} ReadPrefix(data: seq<byte>, off: nat, n: nat, k: nat)
    requires ReadStrings(data, off, n).Some? && off <= |data| && k <= |data|
    ensures var end := ReadStrings(data, off, n).value.1;
            && off <= end <= |data|
            && (end <= k ==> ReadStrings(data[..k], off, n) == ReadStrings(data, off, n))
            && (end > k && (n > 0 || off <= k) ==> ReadStrings(data[..k], off, n) == None)
    decreases n
  {
    ReadOnlyWritten(data, off, n);
    if n > 0 {
      var (s, mid) := ReadString(data, off).value;
      OnlyWrittenString(data, off);
      StringPrefix(data, off, k);
      ReadPrefix(data, mid, n - 1, k);
    }
  }

  lemma TailOfSerialized(e: Entry, trail: seq<byte>)
    requires Short(Strings(e))
    ensures ReadTail(Serialize(e) + trail, 9) == Some((Strings(e), e.registeredAt, |Serialize(e)|))
  {
    var data := Serialize(e) + trail;
    var body := StringsBytes(Strings(e));
    var off := 65 + |body|;
    hide StringsBytes, ReadStrings, LittleEndian, FromLittleEndian, Short;
    assert data[65..off] == body;
    ReadWritten(data, 65, Strings(e));
    assert data[off..off + 8] == LittleEndian(e.registeredAt, 8);
    TimeBack(e.registeredAt);
  }

  lemma TimeBack(at: u64)
    ensures FromLittleEndian(LittleEndian(at, 8)) == at
  {
    assert Pow256(4) == 0x1_0000_0000;
    assert Pow256(8) == 0x1_0000_0000_0000_0000;
    LittleEndianInverse(at, 8);
  }

  lemma HeaderOfSerialized(e: Entry, trail: seq<byte>)
    ensures var data := Serialize(e) + trail;
            |data| >= 65 && data[..32] == e.programId && data[32..64] == e.author && data[64] == e.kind
  {
    var data := Serialize(e) + trail;
    assert data[..65] == Header(e);
    assert data[..32] == data[..65][..32] && data[32..64] == data[..65][32..64] && data[64] == data[..65][64];
  }

  // ---- the layout, field by field --------------------------------------------------------------

  /** A string as it stands in an entry: four bytes of length, lowest first, then the bytes. */
  predicate IsText(block: seq<byte>, s: seq<byte>) {
    |block| == 4 + |s| && BytesWord(block[0], block[1], block[2], block[3]) == |s| && block[4..] == s
  }

  predicate IsTime(block: seq<byte>, at: u64) {
    |block| == 8
    && at == BytesWord(block[0], block[1], block[2], block[3])
             + 0x1_0000_0000 * BytesWord(block[4], block[5], block[6], block[7])
  }

  function Joined(blocks: seq<seq<byte>>): seq<byte> {
    if blocks == [] then [] else blocks[0] + Joined(blocks[1..])
  }

  /** The blocks of an entry's bytes, from first to last. */
  predicate IsLayout(e: Entry, blocks: seq<seq<byte>>) {
    && |blocks| == 13
    && blocks[0] == e.programId && blocks[1] == e.author && blocks[2] == [e.kind]
    && IsText(blocks[3], e.name) && IsText(blocks[4], e.version) && IsText(blocks[5], e.description)
    && IsText(blocks[6], e.tags) && IsText(blocks[7], e.idlCid) && IsText(blocks[8], e.sourceCid)
    && IsText(blocks[9], e.repoUrl) && IsText(blocks[10], e.commit) && IsText(blocks[11], e.buildConfig)
    && IsTime(blocks[12], e.registeredAt)
  }

  /** An entry is written as those blocks, one after the other. */
  lemma LayoutSpelled(e: Entry, blocks: seq<seq<byte>>)
    requires IsLayout(e, blocks)
    ensures Serialize(e) == Joined(blocks)
  {
    var texts, time := blocks[3..12], blocks[12];
    TextBlocks(texts, Strings(e));
    TimeBlock(time, e.registeredAt);
    hide Strings, StringsBytes, IsText, IsTime, Serialize;
    assert blocks[1..][1..] == blocks[2..] && blocks[2..][1..] == blocks[3..] == texts + [time];
    JoinedLast(texts, time);
    assert Joined(blocks[2..]) == [e.kind] + Joined(blocks[3..]);
    assert Joined(blocks[1..]) == e.author + Joined(blocks[2..]);
    HeaderFirst(e, StringsBytes(Strings(e)), time);
  }

  lemma HeaderFirst(e: Entry, body: seq<byte>, time: seq<byte>)
    ensures e.programId + (e.author + ([e.kind] + (body + time))) == Header(e) + body + time
  {
  }

  lemma {:induction false} JoinedLast(blocks: seq<seq<byte>>, last: seq<byte>)
    ensures Joined(blocks + [last]) == Joined(blocks) + last
  {
    if blocks == [] {
      assert [] + [last] == [last] && [last][1..] == [];
    } else {
      JoinedLast(blocks[1..], last);
      assert (blocks + [last])[1..] == blocks[1..] + [last];
    }
  }

  lemma {:induction false} TextBlocks(blocks: seq<seq<byte>>, ss: seq<seq<byte>>)
    requires |blocks| == |ss| && forall k :: 0 <= k < |ss| ==> IsText(blocks[k], ss[k])
    ensures Joined(blocks) == StringsBytes(ss)
  {
    if ss != [] {
      TextBlock(blocks[0], ss[0]);
      TextBlocks(blocks[1..], ss[1..]);
    }
  }

  lemma TextBlock(block: seq<byte>, s: seq<byte>)
    requires IsText(block, s)
    ensures block == StringBytes(s)
  {
    FourBytes(block[..4]);
    LengthOnly(block[..4]);
    assert block == block[..4] + block[4..];
  }

  lemma TimeBlock(block: seq<byte>, at: u64)
    requires IsTime(block, at)
    ensures block == LittleEndian(at, 8)
  {
    EightBytes(block);
    FromLittleEndianInverse(block);
  }

  lemma EightBytes(b: seq<byte>)
    requires |b| == 8
    ensures FromLittleEndian(b) == BytesWord(b[0], b[1], b[2], b[3]) + 0x1_0000_0000 * BytesWord(b[4], b[5], b[6], b[7])
  {
    var hi := b[4..];
    FourBytes(hi);
    assert b[3..][1..] == hi && b[2..][1..] == b[3..] && b[1..][1..] == b[2..];
    assert FromLittleEndian(b[3..]) == b[3] + 0x100 * FromLittleEndian(hi);
    assert FromLittleEndian(b[2..]) == b[2] + 0x100 * FromLittleEndian(b[3..]);
    assert FromLittleEndian(b[1..]) == b[1] + 0x100 * FromLittleEndian(b[2..]);
  }

  /** Bytes an entry's strings take. */
  function TextSize(ss: seq<seq<byte>>): nat {
    if ss == [] then 0 else 4 + |ss[0]| + TextSize(ss[1..])
  }

  lemma {:induction false} TextsTake(ss: seq<seq<byte>>)
    ensures |StringsBytes(ss)| == TextSize(ss)
  {
    if ss != [] {
      TextsTake(ss[1..]);
    }
  }

  /** The native decoder returns the written fields, whatever follows the entry. */
  lemma NativeReadsWriter(e: Entry, trail: seq<byte>, valid: seq<byte> -> bool)
    requires Short(Strings(e)) && AllValid(valid, Strings(e))
    ensures NativeDecode(Serialize(e) + trail, valid) == Some(View(e))
  {
    TailOfSerialized(e, trail);
    HeaderOfSerialized(e, trail);
  }

  /** The guest reads an entry exactly from the bytes it would write for it. */
  lemma GuestBijection(data: seq<byte>, e: Entry, valid: seq<byte> -> bool)
    ensures Deserialize(data, valid) == Some(e)
       <==> data == Serialize(e) && Short(Strings(e)) && AllValid(valid, Strings(e))
  {
    if Deserialize(data, valid) == Some(e) {
      DeserializeOnlySerialized(data, e, valid);
    }
    if data == Serialize(e) && Short(Strings(e)) && AllValid(valid, Strings(e)) {
      TailOfSerialized(e, []);
      HeaderOfSerialized(e, []);
      assert Serialize(e) + [] == data;
    }
  }

  lemma DeserializeOnlySerialized(data: seq<byte>, e: Entry, valid: seq<byte> -> bool)
    requires Deserialize(data, valid) == Some(e)
    ensures data == Serialize(e) && Short(Strings(e)) && AllValid(valid, Strings(e))
  {
    var (ss, at, end) := ReadTail(data, 9).value;
    TailOnlyWritten(data, 9);
    NineStrings(ss, e);
    HeaderOf(data, e);
    Assemble(data, |data| - 8, Header(e), StringsBytes(ss), LittleEndian(e.registeredAt, 8));
  }

  lemma TailOnlyWritten(data: seq<byte>, n: nat)
    requires ReadTail(data, n).Some?
    ensures var (ss, at, end) := ReadTail(data, n).value;
            && 73 <= end <= |data| && Short(ss)
            && data[65..end - 8] == StringsBytes(ss) && data[end - 8..end] == LittleEndian(at, 8)
  {
    ReadOnlyWritten(data, 65, n);
    var off := ReadStrings(data, 65, n).value.1;
    FromLittleEndianInverse(data[off..off + 8]);
  }

  lemma NineStrings(ss: seq<seq<byte>>, e: Entry)
    requires |ss| == 9 && ss[0] == e.name && ss[1] == e.version && ss[2] == e.description && ss[3] == e.tags
    requires ss[4] == e.idlCid && ss[5] == e.sourceCid && ss[6] == e.repoUrl && ss[7] == e.commit
    requires ss[8] == e.buildConfig
    ensures ss == Strings(e)
  {
  }

  lemma HeaderOf(data: seq<byte>, e: Entry)
    requires |data| >= 65 && data[..32] == e.programId && data[32..64] == e.author && data[64] == e.kind
    ensures data[..65] == Header(e)
  {
  }

  lemma Assemble(data: seq<byte>, off: nat, head: seq<byte>, body: seq<byte>, time: seq<byte>)
    requires 65 <= off && off + 8 == |data| && data[..65] == head && data[65..off] == body && data[off..off + 8] == time
    ensures data == head + body + time
  {
  }

  /** No strict prefix of a written entry is accepted by either checked reader. */
  lemma CheckedPrefixesRejected(e: Entry, k: nat, valid: seq<byte> -> bool)
    requires Short(Strings(e)) && k < |Serialize(e)|
    ensures NativeDecode(Serialize(e)[..k], valid) == None && Deserialize(Serialize(e)[..k], valid) == None
  {
    TailOfSerialized(e, []);
    assert Serialize(e) + [] == Serialize(e);
    ReadPrefix(Serialize(e), 65, 9, k);
  }

  // ---- the unchecked reader agrees --------------------------------------------------------

  lemma LooseStringFollows(data: seq<byte>, off: nat)
    requires SignedLength(data, off) >= 0
    ensures match ReadString(data, off)
            case Some((s, end)) => LooseString(data, off) == (s, end)
            case None => LooseString(data, off).1 > |data|
    ensures LooseString(data, off).1 >= off + 4
  {
    if off + 4 <= |data| {
      WholeField(data, off);
      LengthOnly(data[off..off + 4]);
    }
  }

  lemma WholeField(data: seq<byte>, off: nat)
    requires off + 4 <= |data|
    ensures Field(data, off) == data[off..off + 4]
  {
    var f := data[off..off + 4];
    assert f[0] == data[off] && f[1] == data[off + 1] && f[2] == data[off + 2] && f[3] == data[off + 3];
  }

  /** Without signed lengths the two readers take the same strings, or the loose one runs past the end. */
  lemma {:induction false} LooseFollows(data: seq<byte>, off: nat, n: nat)
    requires LengthsBelow2G(data, off, n)
    ensures LooseStrings(data, off, n).1 >= off
    ensures match ReadStrings(data, off, n)
            case Some((ss, end)) => LooseStrings(data, off, n) == (ss, end)
            case None => LooseStrings(data, off, n).1 > |data|
    decreases n
  {
    if n > 0 {
      LooseStringFollows(data, off);
      LooseFollows(data, off + 4 + SignedLength(data, off), n - 1);
    }
  }

  lemma FieldsAgree(data: seq<byte>, n: nat)
    requires LengthsBelow2G(data, 65, n)
    ensures LooseFields(data, n) == NativeFields(data, Anything, n)
  {
    LooseFollows(data, 65, n);
    if |data| < 65 {
      assert LooseStrings(data, 65, n).1 >= 65;
    } else if ReadStrings(data, 65, n).Some? {
      EverythingValid(ReadStrings(data, 65, n).value.0);
      SliceInside(data, 0, 32);
      SliceInside(data, 32, 64);
    }
  }

  lemma SliceInside(data: seq<byte>, a: nat, b: nat)
    requires a <= b <= |data|
    ensures Slice(data, a, b) == data[a..b]
  {
  }

  lemma {:induction false} EverythingValid(ss: seq<seq<byte>>)
    ensures AllValid(Anything, ss)
  {
    if ss != [] {
      EverythingValid(ss[1..]);
    }
  }

  /** A length field with its sign bit set asks for more bytes than data below 2 GiB has. */
  lemma {:induction false} SignBitEndsReading(data: seq<byte>, off: nat, n: nat)
    requires |data| < 0x8000_0000 && !LengthsBelow2G(data, off, n)
    ensures ReadStrings(data, off, n) == None
    decreases n
  {
    if ReadString(data, off).Some? {
      WholeField(data, off);
      LengthOnly(data[off..off + 4]);
      if SignedLength(data, off) >= 0 {
        SignBitEndsReading(data, off + 4 + SignedLength(data, off), n - 1);
      }
    }
  }

  predicate AllPlain(valid: seq<byte> -> bool, ss: seq<seq<byte>>) {
    ss == [] || (Plain(valid, ss[0]) && AllPlain(valid, ss[1..]))
  }

  /** Validity and text decoding leave a list of strings alone together exactly when all are plain. */
  lemma {:induction false} TextsPlain(text: TextDecoder, valid: seq<byte> -> bool, ss: seq<seq<byte>>)
    requires DecodesText(text, valid)
    ensures AllValid(valid, ss) && Texts(text, ss) == ss <==> AllPlain(valid, ss)
  {
    if ss != [] {
      assert DecodesOne(text, valid, ss[0]);
      assert Texts(text, ss)[0] == text(ss[0]) && Texts(text, ss)[1..] == Texts(text, ss[1..]);
      assert AllValid(valid, ss) <==> valid(ss[0]) && AllValid(valid, ss[1..]);
      hide DecodesOne, Texts, AllValid;
      PlainText(text, valid, ss[0]);
      TextsPlain(text, valid, ss[1..]);
      assert ss == [ss[0]] + ss[1..];
    }
  }

  /** On data without sign bits the raw fields are the same; the two differ in what they do with text. */
  lemma TextDecides(data: seq<byte>, text: TextDecoder, valid: seq<byte> -> bool, n: nat)
    requires DecodesText(text, valid) && LengthsBelow2G(data, 65, n)
    ensures LooseFields(data, n) == None ==> NativeFields(data, valid, n) == None
    ensures LooseFields(data, n).Some? ==>
              (NativeFields(data, valid, n) == InText(text, LooseFields(data, n))
               <==> AllPlain(valid, LooseStrings(data, 65, n).0))
  {
    FieldsAgree(data, n);
    if ReadTail(data, n).Some? {
      EverythingValid(ReadTail(data, n).value.0);
      TextsPlain(text, valid, ReadTail(data, n).value.0);
    }
  }

  /** Printing ids loses nothing. */
  lemma DisplayInjective(a: Option<RawEntry>, b: Option<RawEntry>)
    ensures Display(a) == Display(b) <==> a == b
  {
    if a.Some? && b.Some? {
      Base58.DecodeEncode(a.value.programId);
      Base58.DecodeEncode(b.value.programId);
      Base58.DecodeEncode(a.value.author);
      Base58.DecodeEncode(b.value.author);
    }
  }

  /**
   When the two client decoders agree. What the TypeScript decoder rejects, the native one rejects. An
   entry it accepts, both show alike if and only if no length field it met has its sign bit set and every
   string is well-formed and starts with no byte order mark.
   */
  lemma DecodersAgree(data: seq<byte>, text: TextDecoder, valid: seq<byte> -> bool)
    requires DecodesText(text, valid) && |data| < 0x8000_0000
    ensures LooseDecode(data, text) == None ==> NativeDecode(data, valid) == None
    ensures LooseDecode(data, text).Some? ==>
              (NativeDecode(data, valid) == LooseDecode(data, text)
               <==> LengthsBelow2G(data, 65, 9) && AllPlain(valid, LooseStrings(data, 65, 9).0))
  {
    DisplayInjective(NativeFields(data, valid, 9), InText(text, LooseFields(data, 9)));
    FieldsCompare(data, text, valid, 9);
  }

  lemma FieldsCompare(data: seq<byte>, text: TextDecoder, valid: seq<byte> -> bool, n: nat)
    requires DecodesText(text, valid) && |data| < 0x8000_0000
    ensures LooseFields(data, n) == None ==> NativeFields(data, valid, n) == None
    ensures LooseFields(data, n).Some? ==>
              (NativeFields(data, valid, n) == InText(text, LooseFields(data, n))
               <==> LengthsBelow2G(data, 65, n) && AllPlain(valid, LooseStrings(data, 65, n).0))
  {
    if LengthsBelow2G(data, 65, n) {
      TextDecides(data, text, valid, n);
    } else {
      SignBitEndsReading(data, 65, n);
    }
  }

  /** Reading a cut-off entry never meets a sign bit: missing bytes count as 0. */
  lemma {:induction false} PrefixLengthsSmall(data: seq<byte>, off: nat, n: nat, k: nat)
    requires ReadStrings(data, off, n).Some? && Below(0x8000_0000, ReadStrings(data, off, n).value.0)
    requires off <= |data| && k <= |data|
    ensures LengthsBelow2G(data[..k], off, n)
    decreases n
  {
    if n > 0 {
      var p := data[..k];
      var (s, mid) := ReadString(data, off).value;
      OnlyWrittenString(data, off);
      FirstBelow(0x8000_0000, s, ReadStrings(data, mid, n - 1).value.0);
      PartialLength(data, off, k);
      if off + 4 <= k {
        PrefixLengthsSmall(data, mid, n - 1, k);
      } else {
        PastEnd(p, off + 4 + SignedLength(p, off), n - 1);
      }
    }
  }

  lemma FirstBelow(limit: nat, s: seq<byte>, rest: seq<seq<byte>>)
    requires Below(limit, [s] + rest)
    ensures |s| < limit && Below(limit, rest)
  {
    assert ([s] + rest)[1..] == rest;
  }

  /** A length field below 2 GiB stays non-negative when bytes are missing. */
  lemma PartialLength(data: seq<byte>, off: nat, k: nat)
    requires ReadString(data, off).Some? && |ReadString(data, off).value.0| < 0x8000_0000 && k <= |data|
    ensures SignedLength(data[..k], off) >= 0
    ensures off + 4 <= k ==> off + 4 + SignedLength(data[..k], off) == ReadString(data, off).value.1
  {
    var f, g := data[off..off + 4], Field(data[..k], off);
    OnlyWrittenString(data, off);
    FourBytes(f);
    FourBytes(g);
    assert forall i :: 0 <= i < 4 ==> g[i] == f[i] || g[i] == 0;
    if off + 4 <= k {
      assert g == f;
    }
  }

  lemma NothingThere(p: seq<byte>, off: nat)
    requires off >= |p|
    ensures SignedLength(p, off) == 0
  {
    assert Field(p, off) == [0, 0, 0, 0];
    FourBytes(Field(p, off));
  }

  lemma {:induction false} PastEnd(p: seq<byte>, off: nat, n: nat)
    requires off >= |p|
    ensures LengthsBelow2G(p, off, n)
    decreases n
  {
    if n > 0 {
      NothingThere(p, off);
      PastEnd(p, off + 4, n - 1);
    }
  }

  /** The entry as the TypeScript decoder shows it: no string keeps a leading byte order mark. */
  function TextView(e: Entry): EntryView {
    View(e).(strings := Texts(WithoutMark, Strings(e)))
  }

  lemma {:induction false} ValidTexts(text: TextDecoder, valid: seq<byte> -> bool, ss: seq<seq<byte>>)
    requires DecodesText(text, valid) && AllValid(valid, ss)
    ensures Texts(text, ss) == Texts(WithoutMark, ss)
  {
    if ss != [] {
      assert DecodesOne(text, valid, ss[0]);
      ValidTexts(text, valid, ss[1..]);
    }
  }

  lemma LooseFieldsWritten(e: Entry, trail: seq<byte>)
    requires Below(0x8000_0000, Strings(e))
    ensures LooseFields(Serialize(e) + trail, 9)
         == Some(RawEntry(e.programId, e.author, e.kind == 0, Strings(e), e.registeredAt))
  {
    var data := Serialize(e) + trail;
    BelowMore(Strings(e));
    TailOfSerialized(e, trail);
    HeaderOfSerialized(e, trail);
    PrefixLengthsSmall(data, 65, 9, |data|);
    assert data[..|data|] == data;
    FieldsAgree(data, 9);
    EverythingValid(Strings(e));
  }

  /**
   The TypeScript decoder returns the written fields when every string is shorter than 2 GiB, except for
   leading byte order marks: it shows the entry as written exactly when no string starts with one.
   */
  lemma LooseReadsWriter(e: Entry, trail: seq<byte>, text: TextDecoder, valid: seq<byte> -> bool)
    requires DecodesText(text, valid) && AllValid(valid, Strings(e)) && Below(0x8000_0000, Strings(e))
    ensures LooseDecode(Serialize(e) + trail, text) == Some(TextView(e))
    ensures LooseDecode(Serialize(e) + trail, text) == Some(View(e)) <==> AllPlain(valid, Strings(e))
  {
    LooseFieldsWritten(e, trail);
    ValidTexts(text, valid, Strings(e));
    TextsPlain(text, valid, Strings(e));
  }

  lemma {:induction false} BelowMore(ss: seq<seq<byte>>)
    requires Below(0x8000_0000, ss)
    ensures Short(ss)
  {
    if ss != [] {
      BelowMore(ss[1..]);
    }
  }

  /** And it throws on every strict prefix, although it never checks a bound. */
  lemma LoosePrefixesRejected(e: Entry, k: nat, text: TextDecoder)
    requires Below(0x8000_0000, Strings(e)) && k < |Serialize(e)|
    ensures LooseDecode(Serialize(e)[..k], text) == None
  {
    BelowMore(Strings(e));
    TailOfSerialized(e, []);
    assert Serialize(e) + [] == Serialize(e);
    PrefixLengthsSmall(Serialize(e), 65, 9, k);
    FieldsAgree(Serialize(e)[..k], 9);
    CheckedPrefixesRejected(e, k, Anything);
  }

  /** A length field of -4 sends the loose reader back to itself: it accepts 73 bytes the native one rejects. */
  lemma SignedLengthsDiverge(header: seq<byte>, tail: seq<byte>, text: TextDecoder)
    requires |header| == 65 && |tail| == 4
    ensures var data := header + [0xFC, 0xFF, 0xFF, 0xFF] + tail;
            LooseDecode(data, text).Some? && NativeDecode(data, Anything) == None
  {
    var data := header + [0xFC, 0xFF, 0xFF, 0xFF] + tail;
    assert Field(data, 65) == data[65..69] == [0xFC, 0xFF, 0xFF, 0xFF];
    FourBytes(data[65..69]);
    Stuck(data, 9);
    assert ReadString(data, 65) == None;
    assert ReadStrings(data, 65, 9) == None;
  }

  lemma {:induction false} Stuck(data: seq<byte>, n: nat)
    requires SignedLength(data, 65) == -4
    ensures LooseStrings(data, 65, n).1 == 65
  {
    if n > 0 {
      Stuck(data, n - 1);
    }
  }

  // ---- the decoders as written --------------------------------------------------------------

  /** Puts strings already read in front of a later result. */
  function Before(ss: seq<seq<byte>>, r: Option<(seq<seq<byte>>, nat)>): Option<(seq<seq<byte>>, nat)> {
    match r
    case None => None
    case Some((rest, end)) => Some((ss + rest, end))
  }

  lemma BeforeMore(ss: seq<seq<byte>>, s: seq<byte>, r: Option<(seq<seq<byte>>, nat)>)
    ensures Before(ss, Before([s], r)) == Before(ss + [s], r)
  {
    if r.Some? {
      Assoc(ss, [s], r.value.0);
    }
  }

  lemma BeforeNothing(r: Option<(seq<seq<byte>>, nat)>)
    ensures Before([], r) == r
  {
    if r.Some? {
      assert [] + r.value.0 == r.value.0;
    }
  }

  /** `take` of the native decoder: n bytes, or None when they are not there. */
  method Take(data: seq<byte>, off: nat, n: nat) returns (r: Option<seq<byte>>)
    ensures r == if off + n <= |data| then Some(data[off..off + n]) else None
  {
    var end := off + n;
    r := if end <= |data| then Some(data[off..end]) else None;
  }

  /** The string reads of the native decoder, one after the other from a moving offset. */
  method TakeStrings(data: seq<byte>, start: nat, n: nat, valid: seq<byte> -> bool)
    returns (r: Option<(seq<seq<byte>>, nat)>)
    ensures r.Some? ==> r == ReadStrings(data, start, n) && AllValid(valid, r.value.0)
    ensures r.None? ==> ReadStrings(data, start, n).None? || !AllValid(valid, ReadStrings(data, start, n).value.0)
  {
    var ss: seq<seq<byte>> := [];
    var off: nat := start;
    var k := 0;
    BeforeNothing(ReadStrings(data, start, n));
    while k < n
      invariant 0 <= k <= n && AllValid(valid, ss)
      invariant ReadStrings(data, start, n) == Before(ss, ReadStrings(data, off, n - k))
    {
      var taken := TakeString(data, off);
      NextString(data, off, n - k, ss);
      if taken.None? {
        return None;
      }
      var (s, next) := taken.value;
      if !valid(s) {
        InvalidInside(valid, ss, s, ReadStrings(data, next, n - k - 1));
        return None;
      }
      ValidAppend(valid, ss, s);
      ss, off, k := ss + [s], next, k + 1;
    }
    assert ss + [] == ss;
    r := Some((ss, off));
  }

  /** One string: its length field, then as many bytes. */
  method TakeString(data: seq<byte>, off: nat) returns (r: Option<(seq<byte>, nat)>)
    ensures r == ReadString(data, off)
  {
    var field := Take(data, off, 4);
    if field.None? {
      return None;
    }
    var s := Take(data, off + 4, FromLittleEndian(field.value));
    r := if s.None? then None else Some((s.value, off + 4 + |s.value|));
  }

  lemma NextString(data: seq<byte>, off: nat, n: nat, ss: seq<seq<byte>>)
    requires n > 0
    ensures match ReadString(data, off)
            case None => ReadStrings(data, off, n) == None
            case Some((s, next)) =>
              Before(ss, ReadStrings(data, off, n)) == Before(ss + [s], ReadStrings(data, next, n - 1))
  {
    if ReadString(data, off).Some? {
      var (s, next) := ReadString(data, off).value;
      BeforeMore(ss, s, ReadStrings(data, next, n - 1));
    }
  }

  lemma {:induction false} ValidAppend(valid: seq<byte> -> bool, ss: seq<seq<byte>>, s: seq<byte>)
    requires AllValid(valid, ss) && valid(s)
    ensures AllValid(valid, ss + [s])
  {
    if ss != [] {
      ValidAppend(valid, ss[1..], s);
      assert (ss + [s])[1..] == ss[1..] + [s];
    }
  }

  lemma {:induction false} InvalidInside(valid: seq<byte> -> bool, ss: seq<seq<byte>>, s: seq<byte>,
                                         r: Option<(seq<seq<byte>>, nat)>)
    requires !valid(s)
    ensures Before(ss + [s], r).Some? ==> !AllValid(valid, Before(ss + [s], r).value.0)
  {
    if r.Some? {
      NotAllValid(valid, ss, s, r.value.0);
    }
  }

  lemma {:induction false} NotAllValid(valid: seq<byte> -> bool, ss: seq<seq<byte>>, s: seq<byte>, rest: seq<seq<byte>>)
    requires !valid(s)
    ensures !AllValid(valid, ss + [s] + rest)
  {
    if ss != [] {
      NotAllValid(valid, ss[1..], s, rest);
      assert (ss + [s] + rest)[1..] == ss[1..] + [s] + rest;
    }
  }

  /** The native decoder as written: every read through `take`, the strings in layout order. */
  method DecodeEntryNative(data: seq<byte>, valid: seq<byte> -> bool) returns (r: Option<EntryView>)
    ensures r == NativeDecode(data, valid)
  {
    var e := TakeFields(data, valid, 9);
    if e.None? {
      return None;
    }
    var program := Base58.Base58Encode(e.value.programId);
    var author := Base58.Base58Encode(e.value.author);
    r := Some(EntryView(program, author, KindName(e.value.isDeployer), e.value.strings, e.value.registeredAt));
  }

  method TakeFields(data: seq<byte>, valid: seq<byte> -> bool, n: nat) returns (r: Option<RawEntry>)
    ensures r == NativeFields(data, valid, n)
  {
    var program := Take(data, 0, 32);
    var author := Take(data, 32, 32);
    var kind := Take(data, 64, 1);
    if program.None? || author.None? || kind.None? {
      return None;
    }
    var strings := TakeStrings(data, 65, n, valid);
    if strings.None? {
      return None;
    }
    var (ss, off) := strings.value;
    var time := Take(data, off, 8);
    if time.None? {
      return None;
    }
    r := Some(RawEntry(program.value, author.value, kind.value[0] == 0, ss, FromLittleEndian(time.value)));
  }

  /** The TypeScript decoder as written: a moving offset that nothing checks. */
  method DecodeEntryLoose(data: seq<byte>, text: TextDecoder) returns (r: Option<EntryView>)
    ensures r == LooseDecode(data, text)
  {
    var e := SliceFields(data, text, 9);
    if e.None? {
      return None;
    }
    var program := Base58.Base58Encode(e.value.programId);
    var author := Base58.Base58Encode(e.value.author);
    r := Some(EntryView(program, author, KindName(e.value.isDeployer), e.value.strings, e.value.registeredAt));
  }

  method SliceFields(data: seq<byte>, text: TextDecoder, n: nat) returns (r: Option<RawEntry>)
    ensures r == InText(text, LooseFields(data, n))
  {
    var program := Slice(data, 0, 32);
    var author := Slice(data, 32, 64);
    var isDeployer := 64 < |data| && data[64] == 0;
    var ss, off := SliceStrings(data, text, 65, n);
    var time := LooseU64(data, off);
    r := if time.None? then None else Some(RawEntry(program, author, isDeployer, ss, time.value));
  }

  method SliceStrings(data: seq<byte>, text: TextDecoder, start: int, n: nat) returns (ss: seq<seq<byte>>, off: int)
    ensures ss == Texts(text, LooseStrings(data, start, n).0) && off == LooseStrings(data, start, n).1
  {
    hide Slice, SignedLength;
    ss, off := [], start;
    var k := 0;
    assert [] + Texts(text, LooseStrings(data, start, n).0) == Texts(text, LooseStrings(data, start, n).0);
    while k < n
      invariant 0 <= k <= n
      invariant Texts(text, LooseStrings(data, start, n).0) == ss + Texts(text, LooseStrings(data, off, n - k).0)
      invariant LooseStrings(data, start, n).1 == LooseStrings(data, off, n - k).1
    {
      LooseStep(data, text, off, n - k, ss);
      var s, next := SliceString(data, text, off);
      ss, off, k := ss + [s], next, k + 1;
    }
    assert ss + [] == ss;
  }

  method SliceString(data: seq<byte>, text: TextDecoder, start: int) returns (s: seq<byte>, off: int)
    ensures s == text(LooseString(data, start).0) && off == LooseString(data, start).1
  {
    var len := SignedLength(data, start);
    off := start + 4;
    s := text(Slice(data, off, off + len));
    off := off + len;
  }

  /** One string read, the others still to come. */
  lemma LooseStep(data: seq<byte>, text: TextDecoder, off: int, n: nat, ss: seq<seq<byte>>)
    requires n > 0
    ensures var (s, next) := LooseString(data, off);
            ss + Texts(text, LooseStrings(data, off, n).0)
              == (ss + [text(s)]) + Texts(text, LooseStrings(data, next, n - 1).0)
            && LooseStrings(data, off, n).1 == LooseStrings(data, next, n - 1).1
  {
    var (s, next) := LooseString(data, off);
    var rest := LooseStrings(data, next, n - 1).0;
    assert ([s] + rest)[1..] == rest;
    Assoc(ss, [text(s)], Texts(text, rest));
  }

  /** `v |= BigInt(data[off++]) << 8i` for eight bytes; an undefined byte throws. */
  method LooseU64(data: seq<byte>, start: int) returns (v: Option<nat>)
    ensures v == if 0 <= start && start + 8 <= |data| then Some(FromLittleEndian(data[start..start + 8])) else None
  {
    var bytes: seq<byte> := [];
    var i := 0;
    while i < 8
      invariant 0 <= i <= 8 && |bytes| == i
      invariant i > 0 ==> 0 <= start && start + i <= |data| && bytes == data[start..start + i]
    {
      if !(0 <= start + i < |data|) {
        return None;
      }
      bytes := bytes + [data[start + i]];
      i := i + 1;
    }
    v := Some(FromLittleEndian(bytes));
  }
}
