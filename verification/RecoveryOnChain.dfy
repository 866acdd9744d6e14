/** Recovery through the chain: the pointer published by a transaction is the one recovery resolves. */
module RecoveryOnChain {
  import opened Bytes
  import opened Chain
  import opened InstructionReader
  import opened Risc0
  import opened RegistryWire
  import opened Runs
  import opened RunTheorems
  import AccountIds
  import Base58
  import EntryCodec
  import Outcomes
  import Pda
  import PdaText
  import Programs
  import Recovery
  import Transactions
  import Wire

  predicate IsAscii(s: string) {
    forall k :: 0 <= k < |s| ==> s[k] < '\U{0080}'
  }

  function AsText(b: seq<byte>): string {
    seq(|b|, k requires 0 <= k < |b| => b[k] as char)
  }

  /** UTF-8 bytes of plain text; other text does not occur here. */
  function TextBytes(s: string): seq<byte> {
    if IsAscii(s) then Ascii(s) else []
  }

  lemma AsciiInverse(s: string)
    requires IsAscii(s)
    ensures AsText(TextBytes(s)) == s && !(BYTE_ORDER_MARK <= TextBytes(s))
  {
    assert BYTE_ORDER_MARK[0] == 0xEF;
  }

  /** The text publishPointer prints, read by the worker, is a publish instruction for key and value. */
  lemma PublishArrives(key: seq<byte>, value: seq<byte>, utf8: seq<byte> -> bool)
    requires EntryCodec.Short([key, value]) && EntryCodec.AllValid(utf8, [key, value])
    ensures var ws := Wire.WorkerWords(Wire.InstructionHex(0, StrArgs([key, value])));
            ws.Some? && Programs.DecodePublish(ws.value, utf8) == Some(Programs.PublishIx(key, value))
  {
    var p := Parts(0, None, [key, value], None);
    EncodeStrArgs([key, value]);
    assert [Word(0)] + EncodeAll(StrArgs([key, value])) == EncodeParts(p);
    Wire.ReadersAgree(EncodeParts(p));
    WrittenThenAfter(p, Shape(false, 2, false), []);
    assert EncodeParts(p) + [] == EncodeParts(p);
  }

  /** The resolver recovery is given: the chain's record, as text. */
  function ChainResolver(net: Net, acc: Accounts, programId: string): Recovery.Resolver {
    ptr => if IsAscii(ptr) then Found(Resolve(net, acc, programId, TextBytes(ptr))) else None
  }

  function Found(value: Option<seq<byte>>): Option<string> {
    match value
    case None => None
    case Some(b) => Some(AsText(b))
  }

  /** A derived pointer is plain hexadecimal text. */
  lemma PointerIsAscii(c: Recovery.Crypto, prf: seq<byte>)
    ensures IsAscii(Recovery.DerivedPtr(c, prf))
  {
    ToHexIsHex(c.prfPtr(prf));
  }

  /**
   Onboard, publish, recover: once a transaction that publishes the onboarding's pointer has been
   committed, then in every later state of the chain, passkey and device share together bring back the
   original vault key and blob.
   */
  lemma PublishedRecovers(c: Recovery.Crypto, n: Recovery.Enrollment, o: Recovery.Onboarded, storage: Recovery.Storage,
                          net: Net, genesis: Accounts, first: seq<Move>, e: Effect, rest: seq<Move>, last: seq<Move>,
                          programId: string)
    requires Recovery.Contracts(c) && Recovery.Stands(c, n, o, storage)
    requires IsAscii(o.pointerValue)
    requires Sound(net) && Genesis(net, genesis) && ValidRun(net, Start(genesis), first)
    requires AccountIds.IdBytes(programId) == Some(IdBytes(net.pointer))
    requires var s := Final(Start(genesis), first);
             && Enabled(net, s, Execute(e)) && s.stack[0].call.program == net.pointer && !IsHook(s.stack[0].call)
             && Programs.DecodePublish(s.stack[0].call.data, net.utf8)
                == Some(Programs.PublishIx(Programs.PointerKey(TextBytes(o.ptr)), TextBytes(o.pointerValue)))
    requires var s := Next(Final(Start(genesis), first), Execute(e));
             StaysOpen(rest) && ValidRun(net, s, rest) && Enabled(net, Final(s, rest), Commit)
             && ValidRun(net, Next(Final(s, rest), Commit), last)
    ensures var s := Final(Next(Final(Next(Final(Start(genesis), first), Execute(e)), rest), Commit), last);
            Recovery.RecoveredVault(c, Recovery.Factors(Some(n.prf), None, Some(o.sDev)), storage,
                                    Some(ChainResolver(net, s.committed, programId)))
            == Ok(Recovery.Vault(o.vaultKey, n.blob))
  {
    var ptr := TextBytes(o.ptr);
    var ix := Programs.PublishIx(Programs.PointerKey(ptr), TextBytes(o.pointerValue));
    var s := Final(Next(Final(Next(Final(Start(genesis), first), Execute(e)), rest), Commit), last);
    AsciiInverse(o.pointerValue);
    PublishedResolves(net, genesis, first, e, rest, last, ix, programId, ptr);
    FromPointer(c, n, o, storage, net, s.committed, programId);
  }

  lemma FromPointer(c: Recovery.Crypto, n: Recovery.Enrollment, o: Recovery.Onboarded, storage: Recovery.Storage,
                    net: Net, acc: Accounts, programId: string)
    requires Recovery.Contracts(c) && Recovery.Stands(c, n, o, storage)
    requires IsAscii(o.pointerValue)
    requires Resolve(net, acc, programId, TextBytes(o.ptr)) == Some(TextBytes(o.pointerValue))
    ensures Recovery.RecoveredVault(c, Recovery.Factors(Some(n.prf), None, Some(o.sDev)), storage,
                                    Some(ChainResolver(net, acc, programId)))
         == Ok(Recovery.Vault(o.vaultKey, n.blob))
  {
    AsciiInverse(o.pointerValue);
    PointerIsAscii(c, n.prf);
    assert o.ptr == Recovery.DerivedPtr(c, n.prf);
    var resolver := Some(ChainResolver(net, acc, programId));
    assert Recovery.Published(o, resolver);
    Recovery.EndToEnd(c, n, o, storage,
                      Recovery.Factors(Some(n.prf), None, Some(o.sDev)), resolver);
  }

  /** What publishPointer publishes for an onboarding. */
  function PointerIx(o: Recovery.Onboarded): Programs.PublishIx {
    Programs.PublishIx(Programs.PointerKey(TextBytes(o.ptr)), TextBytes(o.pointerValue))
  }

  function PublishText(ix: Programs.PublishIx): string {
    Wire.InstructionHex(0, StrArgs([ix.key, ix.value]))
  }

  /** The record's account as the front end names it. */
  function RecordText(net: Net, programId: string, o: Recovery.Onboarded): Option<string> {
    PdaText.PointerPda(net.sha, programId, PointerIx(o).key)
  }

  /** Text of the pointer value that a record can hold. */
  predicate Fits(net: Net, o: Recovery.Onboarded) {
    IsAscii(o.pointerValue) && 1 <= |o.pointerValue| <= 128 && 36 + |o.pointerValue| <= net.dataCap
  }

  lemma PointerIxBounds(c: Recovery.Crypto, prf: seq<byte>, o: Recovery.Onboarded)
    requires o.ptr == Recovery.DerivedPtr(c, prf) && IsAscii(o.pointerValue)
    ensures |PointerIx(o).key| == 32 && |PointerIx(o).value| == |o.pointerValue|
  {
    PointerIsAscii(c, prf);
  }

  lemma PrintedCall(net: Net, programId: string, o: Recovery.Onboarded, acc: Accounts, publisher: Id32)
    requires Sound(net) && AccountIds.IdBytes(programId) == Some(IdBytes(net.pointer))
    requires |PointerIx(o).key| == 32 && |PointerIx(o).value| == |o.pointerValue| && Fits(net, o)
    requires EntryCodec.AllValid(net.utf8, [PointerIx(o).key, PointerIx(o).value])
    requires Chain.Read(acc, AddressOf(net, net.pointer, Pda.Pointer(Pda.Pad(PointerIx(o).key)))) == DEFAULT_ACCOUNT
    ensures var text := RecordText(net, programId, o);
            var ws := Wire.WorkerWords(PublishText(PointerIx(o)));
            && text.Some? && AccountIds.IdBytes(text.value).Some? && |AccountIds.IdBytes(text.value).value| == 32
            && ws.Some?
            && var mentions := [Mention(AccountIds.IdBytes(text.value).value, false), Mention(publisher, true)];
               Outcomes.IsPublish(net, Call(net.pointer, ws.value, mentions), PointerIx(o))
               && Outcomes.Publishable(net, acc, PointerIx(o), mentions)
  {
    hide Programs.DecodePublish, Wire.WorkerWords, Wire.InstructionHex, PdaText.PointerPda, EntryCodec.AllValid,
        AccountIds.IdBytes, IsAscii;
    var ix := PointerIx(o);
    PdaText.PointerPdaText(net.sha, programId, IdBytes(net.pointer), ix.key);
    var id := AddressOf(net, net.pointer, Pda.Pointer(Pda.Pad(ix.key)));
    AccountIds.PrintedIdsParse(id, Base58.Encode(id));
    PublishArrives(ix.key, ix.value, net.utf8);
    IndexIsZero(ix);
  }

  lemma IndexIsZero(ix: Programs.PublishIx)
    ensures var ws := Wire.WorkerWords(PublishText(ix)); ws.Some? && ws.value != [] && ws.value[0] == 0
  {
    Wire.ReadersAgree([Word(0)] + EncodeAll(StrArgs([ix.key, ix.value])));
  }

  /**
   From onboarding to recovery through the chain. From any reachable state between transactions in which
   the pointer's record is unused, the call the front end prints and the worker sends can complete if the
   pointer value has at most 128 plain characters; and once it has, passkey and device share bring back the
   original vault key and blob in every later state.
   */
  lemma OnboardPublishRecover(c: Recovery.Crypto, n: Recovery.Enrollment, o: Recovery.Onboarded,
                              storage: Recovery.Storage, net: Net, genesis: Accounts, first: seq<Move>,
                              publisher: Id32, done: seq<Move>, last: seq<Move>, programId: string)
    requires Recovery.Contracts(c) && Recovery.Stands(c, n, o, storage)
    requires Sound(net) && Genesis(net, genesis) && ValidRun(net, Start(genesis), first)
    requires Transactions.Idle(Final(Start(genesis), first)) && Fits(net, o)
    requires AccountIds.IdBytes(programId) == Some(IdBytes(net.pointer))
    requires EntryCodec.AllValid(net.utf8, [PointerIx(o).key, PointerIx(o).value])
    requires Known(net, net.pointer, Pda.Pointer(Pda.Pad(PointerIx(o).key)))
    requires Chain.Read(Final(Start(genesis), first).committed,
                  AddressOf(net, net.pointer, Pda.Pointer(Pda.Pad(PointerIx(o).key)))) == DEFAULT_ACCOUNT
    ensures var text := RecordText(net, programId, o);
            var ws := Wire.WorkerWords(PublishText(PointerIx(o)));
            && text.Some? && AccountIds.IdBytes(text.value).Some? && |AccountIds.IdBytes(text.value).value| == 32
            && ws.Some?
            && var mentions := [Mention(AccountIds.IdBytes(text.value).value, false), Mention(publisher, true)];
               var c1 := Next(Final(Start(genesis), first), Begin(Call(net.pointer, ws.value, mentions)));
               && (exists moves :: ValidRun(net, c1, moves) && Transactions.NoBegin(moves) && !Final(c1, moves).busy)
               && (ValidRun(net, c1, done) && Transactions.NoBegin(done) && !Final(c1, done).busy
                   && ValidRun(net, Final(c1, done), last) ==>
                     var later := Final(Final(c1, done), last).committed;
                     Recovery.RecoveredVault(c, Recovery.Factors(Some(n.prf), None, Some(o.sDev)), storage,
                                             Some(ChainResolver(net, later, programId)))
                     == Ok(Recovery.Vault(o.vaultKey, n.blob)))
  {
    PointerIxBounds(c, n.prf, o);
    var acc := Final(Start(genesis), first).committed;
    PrintedCall(net, programId, o, acc, publisher);
    var id := AccountIds.IdBytes(RecordText(net, programId, o).value).value;
    var ws := Wire.WorkerWords(PublishText(PointerIx(o))).value;
    var call := Call(net.pointer, ws, [Mention(id, false), Mention(publisher, true)]);
    Outcomes.PublishThenResolve(net, genesis, first, call, PointerIx(o), done, last, programId, TextBytes(o.ptr));
    var c1 := Next(Final(Start(genesis), first), Begin(call));
    if ValidRun(net, c1, done) && Transactions.NoBegin(done) && !Final(c1, done).busy
       && ValidRun(net, Final(c1, done), last) {
      AsciiInverse(o.pointerValue);
      FromPointer(c, n, o, storage, net, Final(Final(c1, done), last).committed, programId);
    }
  }
}
