/** The registrable programs: self-registration hooks and the pointer program's write-once records. */
module Programs {
  import opened Bytes
  import opened Pda
  import opened Chain
  import opened EntryCodec
  import opened RegistryWire
  import opened InstructionReader
  import opened Risc0

  // ---- self-registration hooks (the same text in the testimonial and the pointer program) -----

  datatype HookIx =
    | HookRegister(registry: Id32, meta: Meta, at: u64)
    | HookUpdate(registry: Id32, update: Update)

  /** Instruction 1 is register_self, instruction 2 update_self. */
  function HookParts(ix: HookIx): Parts {
    match ix
    case HookRegister(r, m, at) => Parts(1, Some(r), MetaStrings(m), Some(at))
    case HookUpdate(r, u) => Parts(2, Some(r), UpdateStrings(u), None)
  }

  function HookShape(index: u32): Option<Shape> {
    if index == 1 then Some(Shape(true, 9, true))
    else if index == 2 then Some(Shape(true, 8, false))
    else None
  }

  function HookOf(p: Parts): Option<HookIx> {
    if HookShape(p.index).None? || !Fits(p, HookShape(p.index).value) then None
    else if p.index == 1 then Some(HookRegister(p.id.value, MetaOf(p.strings), p.at.value))
    else Some(HookUpdate(p.id.value, UpdateOf(p.strings)))
  }

  function DecodeHook(ws: seq<u32>, utf8: seq<byte> -> bool): Option<HookIx> {
    if ws == [] || HookShape(ws[0]).None? then None
    else match ReadParts(ws, HookShape(ws[0]).value)
         case Truncated => None
         case Done(p, _) => if AllValid(utf8, p.strings) then HookOf(p) else None
  }

  lemma HookInverse(ix: HookIx)
    ensures HookOf(HookParts(ix)) == Some(ix)
    ensures HookShape(HookParts(ix).index).Some? && Fits(HookParts(ix), HookShape(HookParts(ix).index).value)
  {
  }

  lemma HookOfParts(p: Parts)
    requires HookOf(p).Some?
    ensures HookParts(HookOf(p).value) == p
  {
  }

  lemma HookRoundTrip(ix: HookIx, after: seq<u32>, utf8: seq<byte> -> bool)
    requires Short(HookParts(ix).strings) && AllValid(utf8, HookParts(ix).strings)
    ensures DecodeHook(EncodeParts(HookParts(ix)) + after, utf8) == Some(ix)
  {
    var p := HookParts(ix);
    HookInverse(ix);
    WrittenThenAfter(p, HookShape(p.index).value, after);
  }

  /** The hooks' two instructions as their variant numbers and their arguments by name. */
  lemma HooksSpelled(r: Id32, m: Meta, u: Update, at: u64)
    ensures EncodeParts(HookParts(HookRegister(r, m, at)))
         == Encode(Variant(1, [Array(U8s(r))] + RegistrationArgs(m, at)))
    ensures EncodeParts(HookParts(HookUpdate(r, u))) == Encode(Variant(2, [Array(U8s(r))] + UpdateArgs(u)))
  {
    hide EncodeAll, U8s, StrArgs, StringWords, RegistrationArgs, UpdateArgs, MetaStrings, UpdateStrings, IdWords,
        TimeWords;
    RegistrationWords(r, m, at);
    UpdateWords(r, u);
    assert StringWords(UpdateStrings(u)) + [] == StringWords(UpdateStrings(u));
  }

  function ProgramIdFromBytes(b: Id32): ProgramId {
    BytesWords(b)
  }

  lemma ProgramIdBytesInverse(p: ProgramId, b: Id32)
    ensures ProgramIdFromBytes(IdBytes(p)) == p && IdBytes(ProgramIdFromBytes(b)) == b
  {
    WordsBytesInverse(p);
    BytesWordsInverse(b);
  }

  function MirrorRegister(self: Id32, m: Meta, at: u64): MirrorIx {
    MirrorRegisterDeployer(self, m.name, m.version, m.description, m.tags, m.idlCid, m.sourceCid, m.repoUrl,
                           m.commit, m.buildConfig, at)
  }

  function MirrorUpdateOf(self: Id32, u: Update): MirrorIx {
    MirrorUpdateDeployer(self, u.version, u.description, u.tags, u.idlCid, u.sourceCid, u.repoUrl,
                         u.commit, u.buildConfig)
  }

  /** register_self and update_self of a registrable program: check the address, then call the registry. */
  function HookExec(net: Net, self: ProgramId, acc: Accounts, ix: HookIx, mentions: seq<Mention>): Outcome {
    if |mentions| != 1 then Err(BadMentions)
    else
      var registry := ProgramIdFromBytes(ix.registry);
      var expected := AddressOf(net, registry, Deployer(IdBytes(self)));
      if mentions[0].id != expected then Err(Custom(5))
      else match ix
           case HookRegister(_, m, at) =>
             if Chain.Read(acc, mentions[0].id) != DEFAULT_ACCOUNT then Err(Custom(6))
             else Ok(Effect(acc, [Call(registry, EncodeMirror(MirrorRegister(IdBytes(self), m, at)), mentions)]))
           case HookUpdate(_, u) =>
             Ok(Effect(acc, [Call(registry, EncodeMirror(MirrorUpdateOf(IdBytes(self), u)), mentions)]))
  }

  // ---- pointer records ------------------------------------------------------------------------

  datatype PublishIx = PublishIx(key: seq<byte>, value: seq<byte>)

  function DecodePublish(ws: seq<u32>, utf8: seq<byte> -> bool): Option<PublishIx> {
    if ws == [] || ws[0] != 0 then None
    else match ReadParts(ws, Shape(false, 2, false))
         case Truncated => None
         case Done(p, _) =>
           if |p.strings| == 2 && AllValid(utf8, p.strings) then Some(PublishIx(p.strings[0], p.strings[1])) else None
  }

  /** Borsh bytes of a record: publisher, then the length-prefixed value. */
  function RecordBytes(publisher: Id32, value: seq<byte>): seq<byte> {
    publisher + StringBytes(value)
  }

  function PublishExec(net: Net, acc: Accounts, ix: PublishIx, mentions: seq<Mention>): Outcome {
    if |mentions| != 2 then Err(BadMentions)
    else if |ix.key| > 32 then Err(WrongAddress)        // the key does not fit a seed
    else
      var id, publisher := mentions[0].id, mentions[1];
      if id != AddressOf(net, net.pointer, Pointer(Pad(ix.key))) then Err(WrongAddress)
      else if Chain.Read(acc, id) != DEFAULT_ACCOUNT then Err(AlreadyInitialized)
      else if !publisher.signed then Err(MissingSignature)
      else if ix.key == [] then Err(Custom(1))
      else if ix.value == [] || |ix.value| > 128 then Err(Custom(2))
      else if |RecordBytes(publisher.id, ix.value)| > net.dataCap then Err(Custom(3))
      else Ok(Effect(acc[id := Account(net.pointer, 0, 0, RecordBytes(publisher.id, ix.value))], []))
  }

  /** The value in a record's bytes. */
  function RecordValue(data: seq<byte>): Option<seq<byte>> {
    if |data| < 36 then None
    else
      var len := SignedLength(data, 32);
      if |data| < 36 + len then None else Some(Slice(data, 36, 36 + len))
  }

  /** What the front end's resolver makes of an account's data: the value as decoded text. */
  function ResolveData(data: seq<byte>): Option<seq<byte>> {
    match RecordValue(data)
    case None => None
    case Some(value) => Some(WithoutMark(value))
  }

  /** The resolver reads back what was published, except for a leading byte order mark. */
  lemma ResolvePublished(publisher: Id32, value: seq<byte>)
    requires |value| < 0x8000_0000
    ensures RecordValue(RecordBytes(publisher, value)) == Some(value)
    ensures ResolveData(RecordBytes(publisher, value)) == Some(value) <==> !(BYTE_ORDER_MARK <= value)
  {
    var data := RecordBytes(publisher, value);
    WholeField(data, 32);
    assert data[32..36] == LengthBytes(|value|);
    LengthInverse(|value|);
    assert data[36..36 + |value|] == value;
    if BYTE_ORDER_MARK <= value {
      assert |WithoutMark(value)| < |value|;
    }
  }

  /** The front end's key: the first 32 characters of the 64-character pointer. */
  function PointerKey(ptr: seq<byte>): (key: seq<byte>)
    ensures key <= ptr && |key| == if |ptr| <= 32 then |ptr| else 32
  {
    if |ptr| <= 32 then ptr else ptr[..32]
  }
}
