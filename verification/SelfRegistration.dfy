/** Self-registration by a chained call, against one atomic registration. */
module SelfRegistration {
  import opened Bytes
  import opened Pda
  import opened Chain
  import opened EntryCodec
  import opened InstructionReader
  import opened RegistryWire
  import opened Runs
  import opened Transactions
  import Registry
  import Programs
  import RunTheorems

  /** Whether program p can register itself: the right address, unused, good fields, within the cap. */
  predicate CanRegister(net: Net, acc: Accounts, p: ProgramId, mentions: seq<Mention>, m: Meta, at: u64) {
    AddressFree(net, acc, p, mentions) && FieldsGood(net, p, m, at)
  }

  predicate AddressFree(net: Net, acc: Accounts, p: ProgramId, mentions: seq<Mention>) {
    OwnAddress(net, p, mentions) && Chain.Read(acc, mentions[0].id) == DEFAULT_ACCOUNT
  }

  /** The one account mentioned is the program's own deployer entry. */
  predicate OwnAddress(net: Net, p: ProgramId, mentions: seq<Mention>) {
    |mentions| == 1 && mentions[0].id == AddressOf(net, net.registry, Deployer(IdBytes(p)))
  }

  predicate FieldsGood(net: Net, p: ProgramId, m: Meta, at: u64) {
    Registry.Validate(m) == 0 && |Serialize(OwnEntry(p, m, at))| <= net.dataCap
  }

  function OwnEntry(p: ProgramId, m: Meta, at: u64): Entry {
    Registry.NewEntry(IdBytes(p), IdBytes(p), KIND_DEPLOYER, m, at)
  }

  /** The accounts with p's deployer entry written in one go. */
  function Registered(net: Net, acc: Accounts, p: ProgramId, m: Meta, at: u64): Accounts {
    acc[AddressOf(net, net.registry, Deployer(IdBytes(p))) :=
        Account(net.registry, 0, 0, Serialize(OwnEntry(p, m, at)))]
  }

  /** A call of a program's register_self that names this registry. */
  predicate IsSelfRegistration(net: Net, call: Call, m: Meta, at: u64) {
    if call.program == net.registry then
      DecodeIx(call.data, net.utf8) == Some(RegisterSelf(IdBytes(net.registry), m, at))
    else
      (call.program == net.pointer || call.program == net.testimonial)
      && Programs.DecodeHook(call.data, net.utf8) == Some(Programs.HookRegister(IdBytes(net.registry), m, at))
  }

  function RegistryCall(net: Net, p: ProgramId, mentions: seq<Mention>, m: Meta, at: u64): Call {
    Call(net.registry, EncodeIx(RegisterDeployer(IdBytes(p), m, at)), mentions)
  }

  // ---- strings read from words are short and valid ------------------------------------------------

  lemma {:induction false} ReadTextsShort(ws: seq<u32>, i: nat, n: nat)
    ensures ReadTexts(ws, i, n).Done? ==> Short(ReadTexts(ws, i, n).value)
    decreases n
  {
    if n > 0 && i < |ws| && ReadBytes(ws, i + 1, ws[i]).Done? {
      ReadTextsShort(ws, ReadBytes(ws, i + 1, ws[i]).at, n - 1);
    }
  }

  lemma PartsShort(ws: seq<u32>, shape: Shape)
    requires ws != [] && ReadParts(ws, shape).Done?
    ensures Short(ReadParts(ws, shape).value.strings)
  {
    var i := ReadIdPart(ws, 1, shape.hasId).at;
    ReadTextsShort(ws, i, shape.count);
  }

  lemma IxStrings(ws: seq<u32>, utf8: seq<byte> -> bool)
    requires DecodeIx(ws, utf8).Some?
    ensures var ss := PartsOf(DecodeIx(ws, utf8).value).strings; Short(ss) && AllValid(utf8, ss)
  {
    var shape := ShapeOf(ws[0]).value;
    PartsShort(ws, shape);
    IxOfParts(ReadParts(ws, shape).value);
  }

  lemma HookStrings(ws: seq<u32>, utf8: seq<byte> -> bool)
    requires Programs.DecodeHook(ws, utf8).Some?
    ensures var ss := Programs.HookParts(Programs.DecodeHook(ws, utf8).value).strings; Short(ss) && AllValid(utf8, ss)
  {
    var shape := Programs.HookShape(ws[0]).value;
    PartsShort(ws, shape);
    Programs.HookOfParts(ReadParts(ws, shape).value);
  }

  lemma FieldsReadable(net: Net, call: Call, m: Meta, at: u64)
    requires IsSelfRegistration(net, call, m, at)
    ensures Short(MetaStrings(m)) && AllValid(net.utf8, MetaStrings(m))
  {
    if call.program == net.registry {
      IxStrings(call.data, net.utf8);
    } else {
      HookStrings(call.data, net.utf8);
    }
  }

  // ---- the two executions ---------------------------------------------------------------------------

  /** The code of a refused hook: a wrong address or a used one, in the registry and in the other programs. */
  function HookCode(net: Net, call: Call): Failure {
    if call.program == net.registry then Custom(if OwnAddress(net, call.program, call.mentions) then 12 else 11)
    else Custom(if OwnAddress(net, call.program, call.mentions) then 6 else 5)
  }

  /** The hook checks the address, then asks the registry; nothing is written yet. */
  lemma HookOutcomeIs(net: Net, acc: Accounts, caller: ProgramId, call: Call, m: Meta, at: u64)
    requires Sound(net) && IsSelfRegistration(net, call, m, at)
    ensures Modelled(net, call) && ChangeOf(net, call) == Nothing
    ensures var r := ModelOutcome(net, acc, caller, call);
            if AddressFree(net, acc, call.program, call.mentions)
            then r == Ok(Effect(acc, [RegistryCall(net, call.program, call.mentions, m, at)]))
            else r.Err? && (|call.mentions| == 1 ==> r.error == HookCode(net, call))
  {
    hide DecodeIx, EncodeIx, Programs.DecodeHook, EncodeMirror, AddressOf, Programs.ProgramIdFromBytes;
    if call.program != net.registry {
      assert IsHook(call) by { HookIndex(call, net, m, at); }
      Programs.ProgramIdBytesInverse(net.registry, IdBytes(net.registry));
      var mirror := Programs.MirrorRegister(IdBytes(call.program), m, at);
      MirrorIsInstruction(mirror);
      assert MirrorMeta(mirror) == m;
    }
  }

  lemma HookIndex(call: Call, net: Net, m: Meta, at: u64)
    requires Programs.DecodeHook(call.data, net.utf8) == Some(Programs.HookRegister(IdBytes(net.registry), m, at))
    ensures call.data != [] && call.data[0] == 1
  {
  }

  /** The registry, called by the program itself, writes the entry exactly when the fields are good. */
  lemma RegistryOutcomeIs(net: Net, acc: Accounts, p: ProgramId, mentions: seq<Mention>, m: Meta, at: u64)
    requires Sound(net) && p != NO_PROGRAM && Short(MetaStrings(m)) && AllValid(net.utf8, MetaStrings(m))
    requires AddressFree(net, acc, p, mentions)
    ensures var call := RegistryCall(net, p, mentions, m, at);
            var r := ModelOutcome(net, acc, p, call);
            && ChangeOf(net, call) == EntryWrite(Deployer(IdBytes(p)))
            && if FieldsGood(net, p, m, at) then r == Ok(Effect(Registered(net, acc, p, m, at), [])) else r.Err?
  {
    hide DecodeIx, EncodeIx, Serialize, AddressOf, Registry.Validate, AllValid;
    var ix := RegisterDeployer(IdBytes(p), m, at);
    IxRoundTrip(ix, [], net.utf8);
    assert EncodeIx(ix) + [] == EncodeIx(ix);
  }

  // ---- the whole transaction ------------------------------------------------------------------------

  function HookMove(net: Net, acc: Accounts, p: ProgramId, mentions: seq<Mention>, m: Meta, at: u64): Move {
    if AddressFree(net, acc, p, mentions) then Execute(Effect(acc, [RegistryCall(net, p, mentions, m, at)])) else Fail
  }

  function RegistryMove(net: Net, acc: Accounts, p: ProgramId, m: Meta, at: u64): Move {
    if FieldsGood(net, p, m, at) then Execute(Effect(Registered(net, acc, p, m, at), [])) else Fail
  }

  lemma HookForced(net: Net, c: Config, call: Call, m: Meta, at: u64)
    requires Sound(net) && c.busy && c.stack == [Frame(NO_PROGRAM, call, -1)] && IsSelfRegistration(net, call, m, at)
    ensures OnlyMove(net, c, HookMove(net, c.working, call.program, call.mentions, m, at))
  {
    HookOutcomeIs(net, c.working, NO_PROGRAM, call, m, at);
    OutcomeForces(net, c, c.stack[0], ModelOutcome(net, c.working, NO_PROGRAM, call));
  }

  lemma RegistryForced(net: Net, c: Config, p: ProgramId, mentions: seq<Mention>, m: Meta, at: u64, parent: int)
    requires Sound(net) && c.busy && c.stack == [Frame(p, RegistryCall(net, p, mentions, m, at), parent)]
    requires p != NO_PROGRAM && Short(MetaStrings(m)) && AllValid(net.utf8, MetaStrings(m))
    requires AddressFree(net, c.working, p, mentions) && Known(net, net.registry, Deployer(IdBytes(p)))
    ensures OnlyMove(net, c, RegistryMove(net, c.working, p, m, at))
  {
    RegistryOutcomeIs(net, c.working, p, mentions, m, at);
    OutcomeForces(net, c, c.stack[0], ModelOutcome(net, c.working, p, RegistryCall(net, p, mentions, m, at)));
  }

  /** The moves of the whole transaction, and the accounts they commit. */
  function Completion(net: Net, acc: Accounts, p: ProgramId, mentions: seq<Mention>, m: Meta, at: u64): seq<Move> {
    Way(HookMove(net, acc, p, mentions, m, at), RegistryMove(net, acc, p, m, at))
  }

  function Expected(net: Net, acc: Accounts, p: ProgramId, mentions: seq<Mention>, m: Meta, at: u64): Accounts {
    if CanRegister(net, acc, p, mentions, m, at) then Registered(net, acc, p, m, at) else acc
  }

  lemma WholeWay(net: Net, c: Config, call: Call, m: Meta, at: u64)
    requires Sound(net) && IsSelfRegistration(net, call, m, at)
    requires Known(net, net.registry, Deployer(IdBytes(call.program)))
    requires c.busy && c.working == c.committed && c.stack == [Frame(NO_PROGRAM, call, -1)]
    ensures var moves := Completion(net, c.committed, call.program, call.mentions, m, at);
            OnlyWay(net, c, moves) && Final(c, moves).stack == []
            && Final(c, moves).committed == Expected(net, c.committed, call.program, call.mentions, m, at)
  {
    HookForced(net, c, call, m, at);
    if AddressFree(net, c.working, call.program, call.mentions) {
      FieldsReadable(net, call, m, at);
      AfterHook(net, c, call, m, at);
    }
    CompletionIs(net, c, call.program, call.mentions, m, at);
  }

  lemma CompletionIs(net: Net, c: Config, p: ProgramId, mentions: seq<Mention>, m: Meta, at: u64)
    requires c.busy && c.working == c.committed && |c.stack| == 1
    requires OnlyMove(net, c, HookMove(net, c.working, p, mentions, m, at))
    requires AddressFree(net, c.working, p, mentions) ==>
               OnlyMove(net, Next(c, HookMove(net, c.working, p, mentions, m, at)),
                        RegistryMove(net, c.working, p, m, at))
    ensures var moves := Completion(net, c.committed, p, mentions, m, at);
            OnlyWay(net, c, moves) && Final(c, moves).stack == []
            && Final(c, moves).committed == Expected(net, c.committed, p, mentions, m, at)
  {
    AskedWay(net, c, HookMove(net, c.working, p, mentions, m, at), RegistryMove(net, c.working, p, m, at));
  }

  /** Once the hook has asked, only the registry's answer is possible. */
  lemma AfterHook(net: Net, c: Config, call: Call, m: Meta, at: u64)
    requires Sound(net) && Short(MetaStrings(m)) && AllValid(net.utf8, MetaStrings(m)) && call.program != NO_PROGRAM
    requires Known(net, net.registry, Deployer(IdBytes(call.program)))
    requires c.busy && c.stack == [Frame(NO_PROGRAM, call, -1)]
             && AddressFree(net, c.working, call.program, call.mentions)
    ensures OnlyMove(net, Next(c, HookMove(net, c.working, call.program, call.mentions, m, at)),
                     RegistryMove(net, c.working, call.program, m, at))
  {
    var e := Effect(c.working, [RegistryCall(net, call.program, call.mentions, m, at)]);
    SpawnOne(c, e);
    RegistryForced(net, Next(c, Execute(e)), call.program, call.mentions, m, at, |c.log|);
  }

  /**
   Self-registration through the chained call refines one atomic registration. The transaction can
   complete, in one way only; the accounts it commits are those of a single registration if the entry
   is the program's own address and unused, the fields pass validation and the entry fits. In every
   other case they are the accounts from before.
   */
  lemma SelfRegistrationIsAtomic(net: Net, c: Config, call: Call, m: Meta, at: u64, rest: seq<Move>)
    requires Sound(net) && Idle(c) && IsSelfRegistration(net, call, m, at)
    requires Known(net, net.registry, Deployer(IdBytes(call.program)))
    ensures var c1 := Next(c, Begin(call));
            var moves := Completion(net, c.committed, call.program, call.mentions, m, at);
            && ValidRun(net, c1, moves) && !Final(c1, moves).busy
            && (ValidRun(net, c1, rest) && NoBegin(rest) && !Final(c1, rest).busy ==>
                  rest == moves
                  && Final(c1, rest).committed == Expected(net, c.committed, call.program, call.mentions, m, at))
  {
    var c1 := Next(c, Begin(call));
    WholeWay(net, c1, call, m, at);
    OnlyWayTaken(net, c1, Completion(net, c.committed, call.program, call.mentions, m, at), rest);
  }

  /**
   After a program has registered itself once, every later attempt leaves the accounts as they are,
   whatever any program did in between.
   */
  lemma SecondAttemptFails(net: Net, genesis: Accounts, before: seq<Move>, call: Call, m: Meta, at: u64,
                           first: seq<Move>, between: seq<Move>, call': Call, m': Meta, at': u64, second: seq<Move>)
    requires Sound(net) && Genesis(net, genesis) && ValidRun(net, Start(genesis), before)
    requires var c := Final(Start(genesis), before);
             && Idle(c) && IsSelfRegistration(net, call, m, at)
             && CanRegister(net, c.committed, call.program, call.mentions, m, at)
             && ValidRun(net, Next(c, Begin(call)), first) && NoBegin(first) && !Final(Next(c, Begin(call)), first).busy
    requires var done := Final(Next(Final(Start(genesis), before), Begin(call)), first);
             && ValidRun(net, done, between) && Idle(Final(done, between))
    requires var c := Final(Final(Next(Final(Start(genesis), before), Begin(call)), first), between);
             && call'.program == call.program && IsSelfRegistration(net, call', m', at')
             && ValidRun(net, Next(c, Begin(call')), second) && NoBegin(second)
             && !Final(Next(c, Begin(call')), second).busy
    requires Known(net, net.registry, Deployer(IdBytes(call.program)))
    ensures var c := Final(Final(Next(Final(Start(genesis), before), Begin(call)), first), between);
            Final(Next(c, Begin(call')), second).committed == c.committed
  {
    var c := Final(Start(genesis), before);
    var done := Final(Next(c, Begin(call)), first);
    var c' := Final(done, between);
    RunTheorems.Reached(net, genesis, before);
    SelfRegistrationIsAtomic(net, c, call, m, at, first);
    MoveKeepsInv(net, genesis, c, Begin(call));
    RunKeepsInv(net, genesis, Next(c, Begin(call)), first);
    RunKeepsInv(net, genesis, done, between);
    StaysTaken(net, done.committed, c'.committed, call.program);
    SelfRegistrationIsAtomic(net, c', call', m', at', second);
  }

  lemma StaysTaken(net: Net, acc: Accounts, acc': Accounts, p: ProgramId)
    requires Sound(net) && GoesOn(net, acc, acc') && Known(net, net.registry, Deployer(IdBytes(p)))
    requires Chain.Read(acc, AddressOf(net, net.registry, Deployer(IdBytes(p)))).owner == net.registry
    ensures Chain.Read(acc', AddressOf(net, net.registry, Deployer(IdBytes(p)))) != DEFAULT_ACCOUNT
  {
    assert EntryGoesOn(net, acc, acc', Deployer(IdBytes(p)));
  }

  // ---- the assumptions can be met -------------------------------------------------------------------

  function Sample(n: u32): ProgramId {
    [n, 0, 0, 0, 0, 0, 0, 0]
  }

  /** A hash that tells one string from all others. */
  function Telling(s: seq<byte>): Sha {
    (x: seq<byte>) => if x == s then Pad([]) else Pad([1])
  }

  /** A network where the pointer program's deployer address is derived and nothing collides. */
  function SampleNet(): Net {
    var own := Deployer(IdBytes(Sample(2)));
    var sha := Telling(Seeds(own));
    Net(Sample(1), Sample(2), Sample(3), sha, Anything, 0x1_0000,
        {Seeds(own), AccountInput(sha, IdBytes(Sample(1)), own)})
  }

  lemma SampleSound()
    ensures Sound(SampleNet()) && Genesis(SampleNet(), map[])
    ensures Known(SampleNet(), SampleNet().registry, Deployer(IdBytes(SampleNet().pointer)))
  {
    assert Sample(0) == NO_PROGRAM && Sample(1)[0] == 1 && Sample(2)[0] == 2 && Sample(3)[0] == 3;
    var own := Deployer(IdBytes(Sample(2)));
    var input := AccountInput(SampleNet().sha, IdBytes(Sample(1)), own);
    assert |Seeds(own)| == 64 && |input| == 96;
    assert Pad([])[0] == 0 && Pad([1])[0] == 1;
  }

  /** The pointer program's register_self, called by a user with its own entry's address. */
  function SampleCall(net: Net, m: Meta, at: u64): Call {
    Call(net.pointer, EncodeParts(Programs.HookParts(Programs.HookRegister(IdBytes(net.registry), m, at))),
         [Mention(AddressOf(net, net.registry, Deployer(IdBytes(net.pointer))), false)])
  }

  lemma SampleDecodes(m: Meta, at: u64)
    requires Short(MetaStrings(m))
    ensures IsSelfRegistration(SampleNet(), SampleCall(SampleNet(), m, at), m, at)
  {
    var net := SampleNet();
    EverythingValid(MetaStrings(m));
    Programs.HookRoundTrip(Programs.HookRegister(IdBytes(net.registry), m, at), [], net.utf8);
    var data := SampleCall(net, m, at).data;
    assert data + [] == data && net.pointer[0] != net.registry[0];
  }

  /**
   The hypotheses of the theorems about runs hold together: there is a sound network with nothing stored,
   and in it a run from the start in which a program registers itself.
   */
  lemma Inhabited(m: Meta, at: u64)
    requires Short(MetaStrings(m)) && FieldsGood(SampleNet(), SampleNet().pointer, m, at)
    ensures var net := SampleNet();
            var call := SampleCall(net, m, at);
            && Sound(net) && Genesis(net, map[]) && IsSelfRegistration(net, call, m, at)
            && exists moves :: ValidRun(net, Next(Start(map[]), Begin(call)), moves)
                 && Final(Next(Start(map[]), Begin(call)), moves).committed
                    == Registered(net, map[], call.program, m, at)
  {
    var net := SampleNet();
    var call := SampleCall(net, m, at);
    SampleSound();
    SampleDecodes(m, at);
    WholeWay(net, Next(Start(map[]), Begin(call)), call, m, at);
    var moves := Completion(net, map[], call.program, call.mentions, m, at);
    OnlyWayTaken(net, Next(Start(map[]), Begin(call)), moves, moves);
  }
}
