/**
 The registry SDK end to end: what it prints, the worker re-reads, the guests decode, the chain stores and
 clients read back.
 */
module Sdk {
  import opened Bytes
  import opened Chain
  import opened EntryCodec
  import opened InstructionReader
  import opened RegistryWire
  import opened Risc0
  import opened Runs
  import opened SelfRegistration
  import opened Transactions
  import AccountIds
  import Base58
  import Pda
  import PdaText
  import Programs
  import Registry
  import Wire

  /** Arguments as the SDK lists them: an id as an array of bytes, strings, a timestamp. */
  function Args(id: Option<Id32>, strings: seq<seq<byte>>, at: Option<u64>): seq<R0Value> {
    (if id.Some? then [Array(U8s(id.value))] else [])
    + (StrArgs(strings) + (if at.Some? then [U64(at.value)] else []))
  }

  function Text(p: Parts): string {
    Wire.InstructionHex(p.index, Args(p.id, p.strings, p.at))
  }

  lemma ArgsAreParts(p: Parts)
    ensures [Word(p.index)] + EncodeAll(Args(p.id, p.strings, p.at)) == EncodeParts(p)
  {
    var head := if p.id.Some? then [Array(U8s(p.id.value))] else [];
    var tail := if p.at.Some? then [U64(p.at.value)] else [];
    EncodeAllAppend(head, StrArgs(p.strings) + tail);
    EncodeAllAppend(StrArgs(p.strings), tail);
    EncodeStrArgs(p.strings);
    if p.id.Some? {
      EncodeOne(Array(U8s(p.id.value)));
      EncodeU8s(p.id.value);
    }
    if p.at.Some? {
      EncodeOne(U64(p.at.value));
    }
  }

  /** The SDK's text, read by the worker, is the instruction's words. */
  lemma TextArrives(p: Parts)
    ensures Wire.WorkerWords(Text(p)) == Some(EncodeParts(p))
  {
    ArgsAreParts(p);
    Wire.ReadersAgree(EncodeParts(p));
  }

  predicate Sendable(utf8: seq<byte> -> bool, ss: seq<seq<byte>>) {
    Short(ss) && AllValid(utf8, ss)
  }

  /** Every instruction of the registry, printed by the SDK, reaches the registry as that instruction. */
  lemma InstructionArrives(ix: RegistryIx, utf8: seq<byte> -> bool)
    requires Sendable(utf8, PartsOf(ix).strings)
    ensures var ws := Wire.WorkerWords(Text(PartsOf(ix)));
            ws.Some? && DecodeIx(ws.value, utf8) == Some(ix)
  {
    TextArrives(PartsOf(ix));
    assert EncodeParts(PartsOf(ix)) + [] == EncodeParts(PartsOf(ix));
    IxRoundTrip(ix, [], utf8);
  }

  /** So does every call of a self-registration hook reach the testimonial and the pointer program. */
  lemma HookArrives(ix: Programs.HookIx, utf8: seq<byte> -> bool)
    requires Sendable(utf8, Programs.HookParts(ix).strings)
    ensures var ws := Wire.WorkerWords(Text(Programs.HookParts(ix)));
            ws.Some? && Programs.DecodeHook(ws.value, utf8) == Some(ix)
  {
    TextArrives(Programs.HookParts(ix));
    assert EncodeParts(Programs.HookParts(ix)) + [] == EncodeParts(Programs.HookParts(ix));
    Programs.HookRoundTrip(ix, [], utf8);
  }

  /** registerDeployer's text is a register_self call for every registrable program, the registry included. */
  lemma RegisterDeployerArrives(registry: Id32, m: Meta, at: u64, utf8: seq<byte> -> bool)
    requires Sendable(utf8, MetaStrings(m))
    ensures var ws := Wire.WorkerWords(Text(Parts(1, Some(registry), MetaStrings(m), Some(at))));
            && ws.Some?
            && Programs.DecodeHook(ws.value, utf8) == Some(Programs.HookRegister(registry, m, at))
            && DecodeIx(ws.value, utf8) == Some(RegisterSelf(registry, m, at))
  {
    HookArrives(Programs.HookRegister(registry, m, at), utf8);
    InstructionArrives(RegisterSelf(registry, m, at), utf8);
  }

  function DeployerEntryPda(sha: Pda.Sha, registryProgram: string, program: string): Option<string> {
    match AccountIds.IdBytes(registryProgram)
    case None => None
    case Some(r) =>
      match AccountIds.IdBytes(program)
      case None => None
      case Some(p) =>
        if |r| != 32 || |p| != 32 then None else Some(Base58.Encode(PdaText.PdaOf(sha, r, [Pda.DEPLOYER_SEED, p])))
  }

  lemma DeployerEntryText(net: Net, p: ProgramId, registryText: string, programText: string)
    requires AccountIds.IdBytes(registryText) == Some(IdBytes(net.registry))
    requires AccountIds.IdBytes(programText) == Some(IdBytes(p))
    ensures var text := DeployerEntryPda(net.sha, registryText, programText);
            text.Some? && AccountIds.IdBytes(text.value) == Some(AddressOf(net, net.registry, Pda.Deployer(IdBytes(p))))
  {
    var id := AddressOf(net, net.registry, Pda.Deployer(IdBytes(p)));
    PdaText.SeedListsDerive(net.sha, IdBytes(net.registry), Pda.Deployer(IdBytes(p)));
    AccountIds.PrintedIdsParse(id, Base58.Encode(id));
  }

  /** What a client shows of an entry a program registered for itself. */
  function Shown(p: ProgramId, strings: seq<seq<byte>>, at: u64): EntryView {
    EntryView(Base58.Encode(IdBytes(p)), Base58.Encode(IdBytes(p)), "deployer", strings, at)
  }

  /**
   The native client shows the registered fields; the TypeScript client shows them without leading byte
   order marks, which is the same exactly when there are none.
   */
  predicate BothShow(net: Net, text: TextDecoder, data: seq<byte>, p: ProgramId, m: Meta, at: u64) {
    && NativeDecode(data, net.utf8) == Some(Shown(p, MetaStrings(m), at))
    && LooseDecode(data, text) == Some(Shown(p, Texts(WithoutMark, MetaStrings(m)), at))
    && (LooseDecode(data, text) == NativeDecode(data, net.utf8) <==> AllPlain(net.utf8, MetaStrings(m)))
  }

  lemma StoredShows(net: Net, text: TextDecoder, p: ProgramId, m: Meta, at: u64)
    requires Sound(net) && |Serialize(OwnEntry(p, m, at))| <= net.dataCap && AllValid(net.utf8, MetaStrings(m))
    requires DecodesText(text, net.utf8)
    ensures BothShow(net, text, Serialize(OwnEntry(p, m, at)), p, m, at)
  {
    var e := OwnEntry(p, m, at);
    assert Serialize(e) + [] == Serialize(e) && Strings(e) == MetaStrings(m);
    PiecesBelow(Strings(e), 0x8000_0000);
    BelowMore(Strings(e));
    LooseReadsWriter(e, [], text, net.utf8);
    NativeReadsWriter(e, [], net.utf8);
  }

  /**
   Registration end to end. Given a text of the registry's id and the text by which the worker knows a
   registrable program, the SDK derives the entry's address and prints the call; sent as read by the
   worker, the transaction can complete, and once it has, both clients show the registered fields under
   that address, the TypeScript one without leading byte order marks.
   */
  lemma RegistrationShows(net: Net, c: Config, p: ProgramId, registryText: string, programText: string, m: Meta,
                          at: u64, signed: bool, rest: seq<Move>, decoder: TextDecoder)
    requires Sound(net) && Idle(c) && (p == net.registry || p == net.pointer || p == net.testimonial)
    requires AccountIds.IdBytes(registryText) == Some(IdBytes(net.registry))
    requires Wire.ProgramId(programText) == Some(p)
    requires Sendable(net.utf8, MetaStrings(m)) && Known(net, net.registry, Pda.Deployer(IdBytes(p)))
    requires FieldsGood(net, p, m, at) && DecodesText(decoder, net.utf8)
    requires Chain.Read(c.committed, AddressOf(net, net.registry, Pda.Deployer(IdBytes(p)))) == DEFAULT_ACCOUNT
    ensures var text := DeployerEntryPda(net.sha, registryText, programText);
            var ws := Wire.WorkerWords(Text(Parts(1, Some(IdBytes(net.registry)), MetaStrings(m), Some(at))));
            && text.Some? && AccountIds.IdBytes(text.value).Some? && |AccountIds.IdBytes(text.value).value| == 32
            && ws.Some?
            && var id := AccountIds.IdBytes(text.value).value;
               var c1 := Next(c, Begin(Call(p, ws.value, [Mention(id, signed)])));
               && (exists moves :: ValidRun(net, c1, moves) && !Final(c1, moves).busy)
               && (ValidRun(net, c1, rest) && NoBegin(rest) && !Final(c1, rest).busy ==>
                     BothShow(net, decoder, Chain.Read(Final(c1, rest).committed, id).data, p, m, at))
  {
    Wire.ProgramAccountBytes(programText);
    DeployerEntryText(net, p, registryText, programText);
    RegisterDeployerArrives(IdBytes(net.registry), m, at, net.utf8);
    var id := AddressOf(net, net.registry, Pda.Deployer(IdBytes(p)));
    var ws := Wire.WorkerWords(Text(Parts(1, Some(IdBytes(net.registry)), MetaStrings(m), Some(at)))).value;
    Registers(net, c, p, ws, m, at, Mention(id, signed), rest);
    StoredShows(net, decoder, p, m, at);
  }

  lemma Registers(net: Net, c: Config, p: ProgramId, ws: seq<u32>, m: Meta, at: u64, mention: Mention, rest: seq<Move>)
    requires Sound(net) && Idle(c) && IsSelfRegistration(net, Call(p, ws, [mention]), m, at)
    requires Known(net, net.registry, Pda.Deployer(IdBytes(p))) && CanRegister(net, c.committed, p, [mention], m, at)
    ensures var c1 := Next(c, Begin(Call(p, ws, [mention])));
            && (exists moves :: ValidRun(net, c1, moves) && !Final(c1, moves).busy)
            && (ValidRun(net, c1, rest) && NoBegin(rest) && !Final(c1, rest).busy ==>
                  Chain.Read(Final(c1, rest).committed, mention.id).data == Serialize(OwnEntry(p, m, at)))
  {
    var call := Call(p, ws, [mention]);
    SelfRegistrationIsAtomic(net, c, call, m, at, rest);
    var moves := Completion(net, c.committed, p, [mention], m, at);
    assert ValidRun(net, Next(c, Begin(call)), moves);
  }
}
