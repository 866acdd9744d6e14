/** The registry's instructions as words, and the mirror enum the registrable programs carry. */
module RegistryWire {
  import opened Bytes
  import opened Risc0
  import opened InstructionReader
  import opened EntryCodec

  /** The string fields given at registration. */
  datatype Meta = Meta(
    name: seq<byte>, version: seq<byte>, description: seq<byte>, tags: seq<byte>, idlCid: seq<byte>,
    sourceCid: seq<byte>, repoUrl: seq<byte>, commit: seq<byte>, buildConfig: seq<byte>)

  /** The string fields an update replaces: all but the name. */
  datatype Update = Update(
    version: seq<byte>, description: seq<byte>, tags: seq<byte>, idlCid: seq<byte>,
    sourceCid: seq<byte>, repoUrl: seq<byte>, commit: seq<byte>, buildConfig: seq<byte>)

  function MetaStrings(m: Meta): (s: seq<seq<byte>>)
    ensures |s| == 9
  {
    [m.name, m.version, m.description, m.tags, m.idlCid, m.sourceCid, m.repoUrl, m.commit, m.buildConfig]
  }

  function MetaOf(s: seq<seq<byte>>): Meta
    requires |s| == 9
  {
    Meta(s[0], s[1], s[2], s[3], s[4], s[5], s[6], s[7], s[8])
  }

  function UpdateStrings(u: Update): (s: seq<seq<byte>>)
    ensures |s| == 8
  {
    [u.version, u.description, u.tags, u.idlCid, u.sourceCid, u.repoUrl, u.commit, u.buildConfig]
  }

  function UpdateOf(s: seq<seq<byte>>): Update
    requires |s| == 8
  {
    Update(s[0], s[1], s[2], s[3], s[4], s[5], s[6], s[7])
  }

  /** The registry's six instructions, in the order of its generated enum. */
  datatype RegistryIx =
    | RegisterDeployer(program: Id32, meta: Meta, at: u64)
    | RegisterSelf(program: Id32, meta: Meta, at: u64)
    | RegisterThirdParty(meta: Meta, at: u64)
    | UpdateDeployer(program: Id32, update: Update)
    | UpdateThirdParty(update: Update)
    | UpdateSelf(update: Update)

  // ---- argument pieces ------------------------------------------------------------------

  function IdWords(id: Id32): (ws: seq<u32>)
    ensures |ws| == 32
  {
    ByteWords(id)
  }

  function OneString(s: seq<byte>): seq<u32> {
    [Word(|s|)] + Packed(s)
  }

  function StringWords(ss: seq<seq<byte>>): seq<u32> {
    if ss == [] then [] else OneString(ss[0]) + StringWords(ss[1..])
  }

  function TimeWords(at: u64): seq<u32> {
    [Word(at), Word(at / 0x1_0000_0000)]
  }

  /** A 32-byte array: one word a byte, words above 255 refused. */
  function ReadId(ws: seq<u32>, i: nat): Read<Id32> {
    if i + 32 <= |ws| && (forall k :: i <= k < i + 32 ==> ws[k] < 0x100)
    then Done(seq(32, k requires 0 <= k < 32 => ws[i + k]), i + 32)
    else Truncated
  }

  function ReadTexts(ws: seq<u32>, i: nat, n: nat): Read<seq<seq<byte>>>
    decreases n
  {
    if n == 0 then Done([], i)
    else if i >= |ws| then Truncated
    else match ReadBytes(ws, i + 1, ws[i])
         case Truncated => Truncated
         case Done(s, at) =>
           match ReadTexts(ws, at, n - 1)
           case Truncated => Truncated
           case Done(rest, end) => Done([s] + rest, end)
  }

  lemma ReadIdWritten(id: Id32, ws: seq<u32>, i: nat)
    requires Segment(ws, i, IdWords(id))
    ensures ReadId(ws, i) == Done(id, i + 32)
  {
    SegmentSlice(ws, i, IdWords(id));
    var seg := ws[i..i + 32];
    assert forall k :: 0 <= k < 32 ==> seg[k] == ws[i + k] == id[k];
    assert seq(32, k requires 0 <= k < 32 => ws[i + k]) == id;
  }

  lemma {:induction false} ReadTextsWritten(ss: seq<seq<byte>>, ws: seq<u32>, i: nat)
    requires Short(ss) && Segment(ws, i, StringWords(ss))
    ensures ReadTexts(ws, i, |ss|) == Done(ss, i + |StringWords(ss)|)
    decreases |ss|
  {
    if ss != [] {
      hide ReadTexts, ReadBytes, Segment, OneString, StringWords, Below;
      var mid, rest := i + |OneString(ss[0])|, ss[1..];
      assert |ss| == |rest| + 1 && Short(rest) by { ShortRest(ss); }
      HeadString(ss, ws, i, mid);
      ReadTextsWritten(rest, ws, mid);
      FirstString(ws, i, ss[0], mid, rest, i + |StringWords(ss)|);
      assert ss == [ss[0]] + rest;
    }
  }

  lemma ShortRest(ss: seq<seq<byte>>)
    requires ss != [] && Short(ss)
    ensures Short(ss[1..])
  {
  }

  lemma HeadString(ss: seq<seq<byte>>, ws: seq<u32>, i: nat, mid: nat)
    requires ss != [] && Short(ss) && Segment(ws, i, StringWords(ss)) && mid == i + |OneString(ss[0])|
    ensures i < |ws| && ReadBytes(ws, i + 1, ws[i]) == Done(ss[0], mid) && Segment(ws, mid, StringWords(ss[1..]))
    ensures i + |StringWords(ss)| == mid + |StringWords(ss[1..])|
  {
    assert StringWords(ss) == OneString(ss[0]) + StringWords(ss[1..]);
    hide StringWords, ReadBytes, Packed;
    SegmentSplit(ws, i, OneString(ss[0]), StringWords(ss[1..]));
    RoundTripString(ss[0], Word(|ss[0]|), ws, i);
  }

  lemma FirstString(ws: seq<u32>, i: nat, s: seq<byte>, mid: nat, rest: seq<seq<byte>>, end: nat)
    requires i < |ws| && ReadBytes(ws, i + 1, ws[i]) == Done(s, mid)
    requires ReadTexts(ws, mid, |rest|) == Done(rest, end)
    ensures ReadTexts(ws, i, |rest| + 1) == Done([s] + rest, end)
  {
  }

  lemma {:induction false} ReadTextsCount(ws: seq<u32>, i: nat, n: nat)
    ensures ReadTexts(ws, i, n).Done? ==> |ReadTexts(ws, i, n).value| == n
    decreases n
  {
    if n > 0 && i < |ws| && ReadBytes(ws, i + 1, ws[i]).Done? {
      ReadTextsCount(ws, ReadBytes(ws, i + 1, ws[i]).at, n - 1);
    }
  }

  // ---- whole instructions -----------------------------------------------------------------

  /** What an instruction consists of on the wire. */
  datatype Parts = Parts(index: u32, id: Option<Id32>, strings: seq<seq<byte>>, at: Option<u64>)

  /** Which parts follow a variant index: an id, so many strings, a timestamp. */
  datatype Shape = Shape(hasId: bool, count: nat, timed: bool)

  function ShapeOf(index: u32): Option<Shape> {
    if index == 0 || index == 1 then Some(Shape(true, 9, true))
    else if index == 2 then Some(Shape(false, 9, true))
    else if index == 3 then Some(Shape(true, 8, false))
    else if index == 4 || index == 5 then Some(Shape(false, 8, false))
    else None
  }

  function PartsOf(ix: RegistryIx): Parts {
    match ix
    case RegisterDeployer(p, m, at) => Parts(0, Some(p), MetaStrings(m), Some(at))
    case RegisterSelf(p, m, at) => Parts(1, Some(p), MetaStrings(m), Some(at))
    case RegisterThirdParty(m, at) => Parts(2, None, MetaStrings(m), Some(at))
    case UpdateDeployer(p, u) => Parts(3, Some(p), UpdateStrings(u), None)
    case UpdateThirdParty(u) => Parts(4, None, UpdateStrings(u), None)
    case UpdateSelf(u) => Parts(5, None, UpdateStrings(u), None)
  }

  predicate Fits(p: Parts, shape: Shape) {
    p.id.Some? == shape.hasId && |p.strings| == shape.count && p.at.Some? == shape.timed
  }

  function IxOf(p: Parts): Option<RegistryIx> {
    if ShapeOf(p.index).None? || !Fits(p, ShapeOf(p.index).value) then None
    else if p.index == 0 then Some(RegisterDeployer(p.id.value, MetaOf(p.strings), p.at.value))
    else if p.index == 1 then Some(RegisterSelf(p.id.value, MetaOf(p.strings), p.at.value))
    else if p.index == 2 then Some(RegisterThirdParty(MetaOf(p.strings), p.at.value))
    else if p.index == 3 then Some(UpdateDeployer(p.id.value, UpdateOf(p.strings)))
    else if p.index == 4 then Some(UpdateThirdParty(UpdateOf(p.strings)))
    else Some(UpdateSelf(UpdateOf(p.strings)))
  }

  lemma PartsInverse(ix: RegistryIx)
    ensures IxOf(PartsOf(ix)) == Some(ix)
    ensures ShapeOf(PartsOf(ix).index).Some? && Fits(PartsOf(ix), ShapeOf(PartsOf(ix).index).value)
  {
  }

  function IdPart(id: Option<Id32>): seq<u32> {
    if id.Some? then IdWords(id.value) else []
  }

  function TimePart(at: Option<u64>): seq<u32> {
    if at.Some? then TimeWords(at.value) else []
  }

  /** Variant index, then the fields in declaration order. */
  function EncodeParts(p: Parts): seq<u32> {
    [p.index] + (IdPart(p.id) + (StringWords(p.strings) + TimePart(p.at)))
  }

  function EncodeIx(ix: RegistryIx): seq<u32> {
    EncodeParts(PartsOf(ix))
  }

  function ReadIdPart(ws: seq<u32>, i: nat, wanted: bool): Read<Option<Id32>> {
    if !wanted then Done(None, i)
    else match ReadId(ws, i)
         case Truncated => Truncated
         case Done(id, at) => Done(Some(id), at)
  }

  function ReadTimePart(ws: seq<u32>, i: nat, wanted: bool): Read<Option<u64>> {
    if !wanted then Done(None, i)
    else if i + 2 <= |ws| then Done(Some(TwoWords(ws[i], ws[i + 1])), i + 2)
    else Truncated
  }

  function ReadParts(ws: seq<u32>, shape: Shape): Read<Parts>
    requires ws != []
  {
    match ReadIdPart(ws, 1, shape.hasId)
    case Truncated => Truncated
    case Done(id, i) =>
      match ReadTexts(ws, i, shape.count)
      case Truncated => Truncated
      case Done(ss, j) =>
        match ReadTimePart(ws, j, shape.timed)
        case Truncated => Truncated
        case Done(at, end) => Done(Parts(ws[0], id, ss, at), end)
  }

  /** The guest's view of instruction data; None makes the call fail. Trailing words are ignored. */
  function DecodeIx(ws: seq<u32>, utf8: seq<byte> -> bool): Option<RegistryIx> {
    if ws == [] || ShapeOf(ws[0]).None? then None
    else match ReadParts(ws, ShapeOf(ws[0]).value)
         case Truncated => None
         case Done(p, _) => if AllValid(utf8, p.strings) then IxOf(p) else None
  }

  lemma IxOfParts(p: Parts)
    requires IxOf(p).Some?
    ensures PartsOf(IxOf(p).value) == p
  {
  }

  /** A decoded instruction carries valid UTF-8 only. */
  lemma DecodedValid(ws: seq<u32>, utf8: seq<byte> -> bool)
    requires DecodeIx(ws, utf8).Some?
    ensures AllValid(utf8, PartsOf(DecodeIx(ws, utf8).value).strings)
  {
    IxOfParts(ReadParts(ws, ShapeOf(ws[0]).value).value);
  }

  lemma PartsWritten(p: Parts, shape: Shape, ws: seq<u32>)
    requires Fits(p, shape) && Short(p.strings) && Segment(ws, 0, EncodeParts(p))
    ensures ws != [] && ReadParts(ws, shape) == Done(p, |EncodeParts(p)|)
  {
    hide Segment, StringWords, IdPart, TimePart, ReadTexts, ReadIdPart, ReadTimePart, ReadParts;
    var i := 1 + |IdPart(p.id)|;
    var j := i + |StringWords(p.strings)|;
    ThreeSegments(ws, p.index, IdPart(p.id), StringWords(p.strings), TimePart(p.at));
    assert ReadIdPart(ws, 1, shape.hasId) == Done(p.id, i) by { IdWritten(p.id, ws, 1); }
    assert ReadTexts(ws, i, shape.count) == Done(p.strings, j) by { ReadTextsWritten(p.strings, ws, i); }
    assert ReadTimePart(ws, j, shape.timed) == Done(p.at, j + |TimePart(p.at)|) by { TimeWritten(p.at, ws, j); }
    JoinParts(ws, shape, p, i, j, j + |TimePart(p.at)|);
  }

  lemma ThreeSegments(ws: seq<u32>, index: u32, a: seq<u32>, b: seq<u32>, c: seq<u32>)
    requires Segment(ws, 0, [index] + (a + (b + c)))
    ensures ws != [] && ws[0] == index
    ensures Segment(ws, 1, a) && Segment(ws, 1 + |a|, b) && Segment(ws, 1 + |a| + |b|, c)
  {
    SegmentWord(ws, 0, index, a + (b + c));
    SegmentSplit(ws, 1, a, b + c);
    SegmentSplit(ws, 1 + |a|, b, c);
  }

  lemma WrittenThenAfter(p: Parts, shape: Shape, after: seq<u32>)
    requires Fits(p, shape) && Short(p.strings)
    ensures var ws := EncodeParts(p) + after;
            ws != [] && ws[0] == p.index && ReadParts(ws, shape) == Done(p, |EncodeParts(p)|)
  {
    var ws := EncodeParts(p) + after;
    SegmentSlice(ws, 0, EncodeParts(p));
    PartsWritten(p, shape, ws);
  }

  lemma JoinParts(ws: seq<u32>, shape: Shape, p: Parts, i: nat, j: nat, end: nat)
    requires ws != [] && ws[0] == p.index
    requires ReadIdPart(ws, 1, shape.hasId) == Done(p.id, i)
    requires ReadTexts(ws, i, shape.count) == Done(p.strings, j)
    requires ReadTimePart(ws, j, shape.timed) == Done(p.at, end)
    ensures ReadParts(ws, shape) == Done(p, end)
  {
  }

  lemma IdWritten(id: Option<Id32>, ws: seq<u32>, i: nat)
    requires Segment(ws, i, IdPart(id))
    ensures ReadIdPart(ws, i, id.Some?) == Done(id, i + |IdPart(id)|)
  {
    if id.Some? {
      ReadIdWritten(id.value, ws, i);
    }
  }

  lemma TimeWritten(at: Option<u64>, ws: seq<u32>, j: nat)
    requires Segment(ws, j, TimePart(at))
    ensures ReadTimePart(ws, j, at.Some?) == Done(at, j + |TimePart(at)|)
  {
    if at.Some? {
      var hi := Word(at.value / 0x1_0000_0000);
      assert TimePart(at) == [Word(at.value)] + [hi];
      SegmentWord(ws, j, Word(at.value), [hi]);
      assert [hi] == [hi] + [];
      SegmentWord(ws, j + 1, hi, []);
      PairOfNumber(at.value);
    }
  }

  /** Every instruction is recovered from its words, whatever follows them. */
  lemma IxRoundTrip(ix: RegistryIx, after: seq<u32>, utf8: seq<byte> -> bool)
    requires Short(PartsOf(ix).strings) && AllValid(utf8, PartsOf(ix).strings)
    ensures DecodeIx(EncodeIx(ix) + after, utf8) == Some(ix)
  {
    PartsInverse(ix);
    WrittenThenAfter(PartsOf(ix), ShapeOf(PartsOf(ix).index).value, after);
  }

  /** A registration's arguments as its handler lists them. */
  function RegistrationArgs(m: Meta, at: u64): seq<R0Value> {
    StrArgs([m.name, m.version, m.description, m.tags, m.idlCid, m.sourceCid, m.repoUrl, m.commit, m.buildConfig])
    + [U64(at)]
  }

  function UpdateArgs(u: Update): seq<R0Value> {
    StrArgs([u.version, u.description, u.tags, u.idlCid, u.sourceCid, u.repoUrl, u.commit, u.buildConfig])
  }

  /** The three registrations as their variant numbers and their arguments by name. */
  lemma RegistrationsSpelled(p: Id32, m: Meta, at: u64)
    ensures EncodeIx(RegisterDeployer(p, m, at)) == Encode(Variant(0, [Array(U8s(p))] + RegistrationArgs(m, at)))
    ensures EncodeIx(RegisterSelf(p, m, at)) == Encode(Variant(1, [Array(U8s(p))] + RegistrationArgs(m, at)))
    ensures EncodeIx(RegisterThirdParty(m, at)) == Encode(Variant(2, RegistrationArgs(m, at)))
  {
    hide EncodeAll, U8s, StrArgs, StringWords, RegistrationArgs, MetaStrings, IdWords, TimeWords;
    RegistrationWords(p, m, at);
    assert [] + (StringWords(MetaStrings(m)) + TimeWords(at)) == StringWords(MetaStrings(m)) + TimeWords(at);
  }

  /** And the three updates. */
  lemma UpdatesSpelled(p: Id32, u: Update)
    ensures EncodeIx(UpdateDeployer(p, u)) == Encode(Variant(3, [Array(U8s(p))] + UpdateArgs(u)))
    ensures EncodeIx(UpdateThirdParty(u)) == Encode(Variant(4, UpdateArgs(u)))
    ensures EncodeIx(UpdateSelf(u)) == Encode(Variant(5, UpdateArgs(u)))
  {
    hide EncodeAll, U8s, StrArgs, StringWords, UpdateArgs, UpdateStrings, IdWords, TimeWords;
    UpdateWords(p, u);
    var ws := StringWords(UpdateStrings(u));
    assert ws + [] == ws && [] + ws == ws;
  }

  lemma RegistrationWords(p: Id32, m: Meta, at: u64)
    ensures EncodeAll(RegistrationArgs(m, at)) == StringWords(MetaStrings(m)) + TimeWords(at)
    ensures EncodeAll([Array(U8s(p))] + RegistrationArgs(m, at))
         == IdWords(p) + (StringWords(MetaStrings(m)) + TimeWords(at))
  {
    MirrorFields(p, MetaStrings(m), [U64(at)]);
    EncodeAllAppend(StrArgs(MetaStrings(m)), [U64(at)]);
    EncodeStrArgs(MetaStrings(m));
    EncodeOne(U64(at));
  }

  lemma UpdateWords(p: Id32, u: Update)
    ensures EncodeAll(UpdateArgs(u)) == StringWords(UpdateStrings(u))
    ensures EncodeAll([Array(U8s(p))] + UpdateArgs(u)) == IdWords(p) + StringWords(UpdateStrings(u))
  {
    MirrorFields(p, UpdateStrings(u), []);
    EncodeStrArgs(UpdateStrings(u));
    assert UpdateArgs(u) + [] == UpdateArgs(u) && StringWords(UpdateStrings(u)) + [] == StringWords(UpdateStrings(u));
  }

  /** The mirror enum of the registrable programs: two variants are placeholders that only hold an index. */
  datatype MirrorIx =
    | MirrorRegisterDeployer(program: Id32, name: seq<byte>, version: seq<byte>, description: seq<byte>,
                             tags: seq<byte>, idlCid: seq<byte>, sourceCid: seq<byte>, repoUrl: seq<byte>,
                             commit: seq<byte>, buildConfig: seq<byte>, registeredAt: u64)
    | MirrorRegisterSelf
    | MirrorRegisterThirdParty
    | MirrorUpdateDeployer(program: Id32, version: seq<byte>, description: seq<byte>, tags: seq<byte>,
                           idlCid: seq<byte>, sourceCid: seq<byte>, repoUrl: seq<byte>, commit: seq<byte>,
                           buildConfig: seq<byte>)

  /** Position of a variant in the mirror's declaration, then its fields as the serializer meets them. */
  function EncodeMirror(m: MirrorIx): seq<u32> {
    match m
    case MirrorRegisterDeployer(p, name, version, description, tags, idl, source, repo, commit, build, at) =>
      Encode(Variant(0, [Array(U8s(p))]
                        + (StrArgs([name, version, description, tags, idl, source, repo, commit, build]) + [U64(at)])))
    case MirrorRegisterSelf => Encode(Variant(1, []))
    case MirrorRegisterThirdParty => Encode(Variant(2, []))
    case MirrorUpdateDeployer(p, version, description, tags, idl, source, repo, commit, build) =>
      Encode(Variant(3, [Array(U8s(p))]
                        + (StrArgs([version, description, tags, idl, source, repo, commit, build]) + [])))
  }

  lemma {:induction false} EncodeStrArgs(ss: seq<seq<byte>>)
    ensures EncodeAll(StrArgs(ss)) == StringWords(ss)
  {
    if ss != [] {
      EncodeStrArgs(ss[1..]);
      assert ([Str(ss[0])] + StrArgs(ss[1..]))[1..] == StrArgs(ss[1..]);
    }
  }

  lemma {:induction false} EncodeU8s(o: seq<byte>)
    ensures EncodeAll(U8s(o)) == ByteWords(o)
  {
    if o != [] {
      EncodeU8s(o[1..]);
      assert ([U8(o[0])] + U8s(o[1..]))[1..] == U8s(o[1..]);
      assert ByteWords(o) == [o[0]] + ByteWords(o[1..]);
    }
  }

  lemma MirrorFields(p: Id32, ss: seq<seq<byte>>, tail: seq<R0Value>)
    ensures EncodeAll([Array(U8s(p))] + (StrArgs(ss) + tail)) == IdWords(p) + (StringWords(ss) + EncodeAll(tail))
  {
    EncodeAllAppend([Array(U8s(p))], StrArgs(ss) + tail);
    EncodeAllAppend(StrArgs(ss), tail);
    EncodeOne(Array(U8s(p)));
    EncodeU8s(p);
    EncodeStrArgs(ss);
  }

  function MirrorMeta(m: MirrorIx): Meta
    requires m.MirrorRegisterDeployer?
  {
    Meta(m.name, m.version, m.description, m.tags, m.idlCid, m.sourceCid, m.repoUrl, m.commit, m.buildConfig)
  }

  function MirrorUpdate(m: MirrorIx): Update
    requires m.MirrorUpdateDeployer?
  {
    Update(m.version, m.description, m.tags, m.idlCid, m.sourceCid, m.repoUrl, m.commit, m.buildConfig)
  }

  /** The two real variants of the mirror encode as the registry's own instructions 0 and 3. */
  lemma MirrorIsInstruction(m: MirrorIx)
    ensures m.MirrorRegisterDeployer? ==>
              EncodeMirror(m) == EncodeIx(RegisterDeployer(m.program, MirrorMeta(m), m.registeredAt))
    ensures m.MirrorUpdateDeployer? ==> EncodeMirror(m) == EncodeIx(UpdateDeployer(m.program, MirrorUpdate(m)))
  {
    if m.MirrorRegisterDeployer? {
      MirrorRegisterWords(m.program, MirrorMeta(m), m.registeredAt);
    } else if m.MirrorUpdateDeployer? {
      MirrorFields(m.program, UpdateStrings(MirrorUpdate(m)), []);
    }
  }

  lemma MirrorRegisterWords(p: Id32, m: Meta, at: u64)
    ensures Encode(Variant(0, [Array(U8s(p))] + (StrArgs(MetaStrings(m)) + [U64(at)])))
         == EncodeIx(RegisterDeployer(p, m, at))
  {
    MirrorFields(p, MetaStrings(m), [U64(at)]);
    EncodeOne(U64(at));
  }
}
