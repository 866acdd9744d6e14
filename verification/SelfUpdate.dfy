/** Updates by the program's own hook, against one atomic update; and what they do to registration's bounds. */
module SelfUpdate {
  import opened Bytes
  import opened Pda
  import opened Chain
  import opened EntryCodec
  import opened InstructionReader
  import opened RegistryWire
  import opened Runs
  import opened Transactions
  import opened SelfRegistration
  import Registry
  import Programs
  import RunTheorems

  /** A call of a program's update_self, directed at this registry. */
  predicate IsSelfUpdate(net: Net, call: Call, u: Update) {
    if call.program == net.registry then DecodeIx(call.data, net.utf8) == Some(UpdateSelf(u))
    else
      (call.program == net.pointer || call.program == net.testimonial)
      && Programs.DecodeHook(call.data, net.utf8) == Some(Programs.HookUpdate(IdBytes(net.registry), u))
  }

  function OwnEntryNow(net: Net, acc: Accounts, p: ProgramId): Option<Entry> {
    RunTheorems.EntryAt(net, acc, Deployer(IdBytes(p)))
  }

  /** There is a live deployer entry of p, and with the new fields it fits. */
  predicate UpdateFits(net: Net, acc: Accounts, p: ProgramId, u: Update) {
    var e := OwnEntryNow(net, acc, p);
    e.Some? && e.value.kind == KIND_DEPLOYER && |Serialize(Registry.Updated(e.value, u))| <= net.dataCap
  }

  predicate CanUpdate(net: Net, acc: Accounts, p: ProgramId, mentions: seq<Mention>, u: Update) {
    OwnAddress(net, p, mentions) && UpdateFits(net, acc, p, u)
  }

  /** The accounts with p's entry updated in one go. */
  function Updated(net: Net, acc: Accounts, p: ProgramId, u: Update): Accounts
    requires UpdateFits(net, acc, p, u)
  {
    Registry.Written(net, acc, AddressOf(net, net.registry, Deployer(IdBytes(p))),
                     Serialize(Registry.Updated(OwnEntryNow(net, acc, p).value, u)))
  }

  function UpdateCall(net: Net, p: ProgramId, mentions: seq<Mention>, u: Update): Call {
    Call(net.registry, EncodeIx(UpdateDeployer(IdBytes(p), u)), mentions)
  }

  // ---- the two executions ---------------------------------------------------------------------------

  lemma FieldsReadable(net: Net, call: Call, u: Update)
    requires IsSelfUpdate(net, call, u)
    ensures Short(UpdateStrings(u)) && AllValid(net.utf8, UpdateStrings(u))
  {
    if call.program == net.registry {
      RegistryReadable(call.data, u, net.utf8);
    } else {
      ProgramReadable(call.data, IdBytes(net.registry), u, net.utf8);
    }
  }

  lemma RegistryReadable(ws: seq<u32>, u: Update, utf8: seq<byte> -> bool)
    requires DecodeIx(ws, utf8) == Some(UpdateSelf(u))
    ensures Short(UpdateStrings(u)) && AllValid(utf8, UpdateStrings(u))
  {
    hide DecodeIx;
    IxReadable(ws, UpdateSelf(u), UpdateStrings(u), utf8);
  }

  lemma ProgramReadable(ws: seq<u32>, registry: Id32, u: Update, utf8: seq<byte> -> bool)
    requires Programs.DecodeHook(ws, utf8) == Some(Programs.HookUpdate(registry, u))
    ensures Short(UpdateStrings(u)) && AllValid(utf8, UpdateStrings(u))
  {
    HookReadable(ws, Programs.HookUpdate(registry, u), UpdateStrings(u), utf8);
  }

  lemma IxReadable(ws: seq<u32>, ix: RegistryIx, ss: seq<seq<byte>>, utf8: seq<byte> -> bool)
    requires DecodeIx(ws, utf8) == Some(ix) && PartsOf(ix).strings == ss
    ensures Short(ss) && AllValid(utf8, ss)
  {
    IxStrings(ws, utf8);
  }

  lemma HookReadable(ws: seq<u32>, ix: Programs.HookIx, ss: seq<seq<byte>>, utf8: seq<byte> -> bool)
    requires Programs.DecodeHook(ws, utf8) == Some(ix) && Programs.HookParts(ix).strings == ss
    ensures Short(ss) && AllValid(utf8, ss)
  {
    HookStrings(ws, utf8);
  }

  lemma HookIndex(net: Net, call: Call, u: Update)
    requires Programs.DecodeHook(call.data, net.utf8) == Some(Programs.HookUpdate(IdBytes(net.registry), u))
    ensures call.data != [] && call.data[0] == 2
  {
  }

  /** The hook checks the address only, then asks the registry. */
  lemma HookOutcomeIs(net: Net, acc: Accounts, caller: ProgramId, call: Call, u: Update)
    requires Sound(net) && IsSelfUpdate(net, call, u)
    ensures Modelled(net, call) && ChangeOf(net, call) == Nothing
    ensures var r := ModelOutcome(net, acc, caller, call);
            if OwnAddress(net, call.program, call.mentions)
            then r == Ok(Effect(acc, [UpdateCall(net, call.program, call.mentions, u)]))
            else r.Err? && (|call.mentions| == 1 ==> r.error == Custom(if call.program == net.registry then 10 else 5))
  {
    if call.program != net.registry {
      HookIndex(net, call, u);
      Programs.ProgramIdBytesInverse(net.registry, IdBytes(net.registry));
      var mirror := Programs.MirrorUpdateOf(IdBytes(call.program), u);
      MirrorIsInstruction(mirror);
      assert MirrorUpdate(mirror) == u;
    }
  }

  lemma UpdateDecodes(net: Net, p: ProgramId, mentions: seq<Mention>, u: Update)
    requires Short(UpdateStrings(u)) && AllValid(net.utf8, UpdateStrings(u))
    ensures DecodeIx(UpdateCall(net, p, mentions, u).data, net.utf8) == Some(UpdateDeployer(IdBytes(p), u))
  {
    var ix := UpdateDeployer(IdBytes(p), u);
    IxRoundTrip(ix, [], net.utf8);
    assert EncodeIx(ix) + [] == EncodeIx(ix);
  }

  /** The registry, called by the program itself, rewrites the entry exactly when it is live and fits. */
  lemma RegistryOutcomeIs(net: Net, acc: Accounts, p: ProgramId, mentions: seq<Mention>, u: Update)
    requires p != NO_PROGRAM && OwnAddress(net, p, mentions)
    ensures var r := Registry.UpdateDeployerExec(net, acc, p, mentions, IdBytes(p), u);
            if UpdateFits(net, acc, p, u) then r == Ok(Effect(Updated(net, acc, p, u), [])) else r.Err?
  {
  }

  function HookMove(net: Net, acc: Accounts, p: ProgramId, mentions: seq<Mention>, u: Update): Move {
    if OwnAddress(net, p, mentions) then Execute(Effect(acc, [UpdateCall(net, p, mentions, u)])) else Fail
  }

  function RegistryMove(net: Net, acc: Accounts, p: ProgramId, u: Update): Move {
    if UpdateFits(net, acc, p, u) then Execute(Effect(Updated(net, acc, p, u), [])) else Fail
  }

  lemma HookForced(net: Net, c: Config, call: Call, u: Update)
    requires Sound(net) && c.busy && c.stack == [Frame(NO_PROGRAM, call, -1)] && IsSelfUpdate(net, call, u)
    ensures OnlyMove(net, c, HookMove(net, c.working, call.program, call.mentions, u))
  {
    HookOutcomeIs(net, c.working, NO_PROGRAM, call, u);
    OutcomeForces(net, c, c.stack[0], ModelOutcome(net, c.working, NO_PROGRAM, call));
  }

  lemma RegistryForced(net: Net, c: Config, p: ProgramId, mentions: seq<Mention>, u: Update, parent: int)
    requires c.busy && c.stack == [Frame(p, UpdateCall(net, p, mentions, u), parent)] && p != NO_PROGRAM
    requires Short(UpdateStrings(u)) && AllValid(net.utf8, UpdateStrings(u))
    requires OwnAddress(net, p, mentions) && Known(net, net.registry, Deployer(IdBytes(p)))
    ensures OnlyMove(net, c, RegistryMove(net, c.working, p, u))
  {
    hide DecodeIx, EncodeIx, Deserialize, Serialize, AddressOf, AllValid;
    UpdateDecodes(net, p, mentions, u);
    RegistryOutcomeIs(net, c.working, p, mentions, u);
    OutcomeForces(net, c, c.stack[0], Registry.UpdateDeployerExec(net, c.working, p, mentions, IdBytes(p), u));
  }

  // ---- the whole transaction ------------------------------------------------------------------------

  function Completion(net: Net, acc: Accounts, p: ProgramId, mentions: seq<Mention>, u: Update): seq<Move> {
    Way(HookMove(net, acc, p, mentions, u), RegistryMove(net, acc, p, u))
  }

  function Expected(net: Net, acc: Accounts, p: ProgramId, mentions: seq<Mention>, u: Update): Accounts {
    if CanUpdate(net, acc, p, mentions, u) then Updated(net, acc, p, u) else acc
  }

  lemma AfterHook(net: Net, c: Config, call: Call, u: Update)
    requires Short(UpdateStrings(u)) && AllValid(net.utf8, UpdateStrings(u)) && call.program != NO_PROGRAM
    requires Known(net, net.registry, Deployer(IdBytes(call.program)))
    requires c.busy && c.stack == [Frame(NO_PROGRAM, call, -1)] && OwnAddress(net, call.program, call.mentions)
    ensures OnlyMove(net, Next(c, HookMove(net, c.working, call.program, call.mentions, u)),
                     RegistryMove(net, c.working, call.program, u))
  {
    var e := Effect(c.working, [UpdateCall(net, call.program, call.mentions, u)]);
    SpawnOne(c, e);
    RegistryForced(net, Next(c, Execute(e)), call.program, call.mentions, u, |c.log|);
  }

  lemma CompletionIs(net: Net, c: Config, p: ProgramId, mentions: seq<Mention>, u: Update)
    requires c.busy && c.working == c.committed && |c.stack| == 1
    requires OnlyMove(net, c, HookMove(net, c.working, p, mentions, u))
    requires OwnAddress(net, p, mentions) ==>
               OnlyMove(net, Next(c, HookMove(net, c.working, p, mentions, u)), RegistryMove(net, c.working, p, u))
    ensures var moves := Completion(net, c.committed, p, mentions, u);
            OnlyWay(net, c, moves) && Final(c, moves).stack == []
            && Final(c, moves).committed == Expected(net, c.committed, p, mentions, u)
  {
    AskedWay(net, c, HookMove(net, c.working, p, mentions, u), RegistryMove(net, c.working, p, u));
  }

  lemma WholeWay(net: Net, c: Config, call: Call, u: Update)
    requires Sound(net) && IsSelfUpdate(net, call, u)
    requires Known(net, net.registry, Deployer(IdBytes(call.program)))
    requires c.busy && c.working == c.committed && c.stack == [Frame(NO_PROGRAM, call, -1)]
    ensures var moves := Completion(net, c.committed, call.program, call.mentions, u);
            OnlyWay(net, c, moves) && Final(c, moves).stack == []
            && Final(c, moves).committed == Expected(net, c.committed, call.program, call.mentions, u)
  {
    HookForced(net, c, call, u);
    if OwnAddress(net, call.program, call.mentions) {
      FieldsReadable(net, call, u);
      AfterHook(net, c, call, u);
    }
    CompletionIs(net, c, call.program, call.mentions, u);
  }

  /**
   An update through the program's hook refines one atomic update: the transaction can complete, in one
   way only, and commits the accounts with the entry's fields replaced, each by the new field of its name,
   if the mentioned account is the program's own live deployer entry and the result fits; otherwise the
   accounts from before.
   */
  lemma SelfUpdateIsAtomic(net: Net, c: Config, call: Call, u: Update, after: Entry, rest: seq<Move>)
    requires Sound(net) && Idle(c) && IsSelfUpdate(net, call, u)
    requires Known(net, net.registry, Deployer(IdBytes(call.program)))
    requires var before := OwnEntryNow(net, c.committed, call.program);
             before.Some? ==> Registry.Replaces(before.value, after, u)
    ensures var c1 := Next(c, Begin(call));
            var moves := Completion(net, c.committed, call.program, call.mentions, u);
            && ValidRun(net, c1, moves) && !Final(c1, moves).busy
            && (ValidRun(net, c1, rest) && NoBegin(rest) && !Final(c1, rest).busy ==>
                  rest == moves
                  && Final(c1, rest).committed == Expected(net, c.committed, call.program, call.mentions, u))
    ensures var done := Final(Next(c, Begin(call)), Completion(net, c.committed, call.program, call.mentions, u));
            var before := OwnEntryNow(net, c.committed, call.program);
            if OwnAddress(net, call.program, call.mentions) && before.Some? && before.value.kind == 0
               && |Serialize(after)| <= net.dataCap
            then OwnEntryNow(net, done.committed, call.program) == Some(after)
                 && OneChanged(c.committed, done.committed, call.mentions[0].id)
            else done.committed == c.committed
  {
    var c1 := Next(c, Begin(call));
    WholeWay(net, c1, call, u);
    OnlyWayTaken(net, c1, Completion(net, c.committed, call.program, call.mentions, u), rest);
    FieldsReadable(net, call, u);
    ExpectedIs(net, c.committed, call.program, call.mentions, u, after);
  }

  /** No other account changed. */
  predicate OneChanged(acc: Accounts, acc': Accounts, id: Id32) {
    acc' == acc[id := Chain.Read(acc', id)]
  }

  lemma ExpectedIs(net: Net, acc: Accounts, p: ProgramId, mentions: seq<Mention>, u: Update, after: Entry)
    requires Sound(net) && AllValid(net.utf8, UpdateStrings(u))
    requires var before := OwnEntryNow(net, acc, p); before.Some? ==> Registry.Replaces(before.value, after, u)
    ensures var post := Expected(net, acc, p, mentions, u);
            var before := OwnEntryNow(net, acc, p);
            if OwnAddress(net, p, mentions) && before.Some? && before.value.kind == 0
               && |Serialize(after)| <= net.dataCap
            then OwnEntryNow(net, post, p) == Some(after) && OneChanged(acc, post, mentions[0].id)
            else post == acc
  {
    var before := OwnEntryNow(net, acc, p);
    if before.Some? {
      Registry.ReplacesIsUpdated(before.value, after, u);
      if UpdateFits(net, acc, p, u) {
        UpdatedEntry(net, acc, p, u);
      }
    }
    hide Serialize, OwnEntryNow, AddressOf, AllValid, Registry.Updated, Registry.Replaces;
  }

  // ---- an update out of bounds, from the start --------------------------------------------------------

  /** The pointer program's update_self, called by a user with its own entry's address. */
  function SampleUpdate(net: Net, u: Update): Call {
    Call(net.pointer, EncodeParts(Programs.HookParts(Programs.HookUpdate(IdBytes(net.registry), u))),
         [Mention(AddressOf(net, net.registry, Deployer(IdBytes(net.pointer))), false)])
  }

  lemma SampleUpdateDecodes(u: Update)
    requires Short(UpdateStrings(u))
    ensures IsSelfUpdate(SampleNet(), SampleUpdate(SampleNet(), u), u)
  {
    var net := SampleNet();
    EverythingValid(UpdateStrings(u));
    Programs.HookRoundTrip(Programs.HookUpdate(IdBytes(net.registry), u), [], net.utf8);
    var data := SampleUpdate(net, u).data;
    assert data + [] == data && net.pointer[0] != net.registry[0];
  }

  /** The entry a registration stores is the one an update then starts from. */
  lemma RegisteredEntry(net: Net, acc: Accounts, p: ProgramId, m: Meta, at: u64)
    requires Sound(net) && FieldsGood(net, p, m, at) && AllValid(net.utf8, MetaStrings(m))
    ensures OwnEntryNow(net, Registered(net, acc, p, m, at), p) == Some(OwnEntry(p, m, at))
  {
    Registry.NewEntryStrings(IdBytes(p), IdBytes(p), KIND_DEPLOYER, m, at);
    Registry.StoredReadsBack(net, OwnEntry(p, m, at));
  }

  lemma UpdatedEntry(net: Net, acc: Accounts, p: ProgramId, u: Update)
    requires Sound(net) && UpdateFits(net, acc, p, u) && AllValid(net.utf8, UpdateStrings(u))
    ensures OwnEntryNow(net, Updated(net, acc, p, u), p) == Some(Registry.Updated(OwnEntryNow(net, acc, p).value, u))
  {
    var e := OwnEntryNow(net, acc, p).value;
    GuestBijection(Chain.Read(acc, AddressOf(net, net.registry, Deployer(IdBytes(p)))).data, e, net.utf8);
    Registry.UpdatedStrings(net, e, u);
    Registry.StoredReadsBack(net, Registry.Updated(e, u));
  }

  /** The moves that register the sample program and then update its entry. */
  function RegisterThenUpdate(m: Meta, at: u64, u: Update): seq<Move> {
    var net := SampleNet();
    var p := net.pointer;
    var first, second := SampleCall(net, m, at), SampleUpdate(net, u);
    ([Begin(first)] + SelfRegistration.Completion(net, map[], p, first.mentions, m, at))
    + ([Begin(second)] + Completion(net, Registered(net, map[], p, m, at), p, second.mentions, u))
  }

  /**
   From the start of a sound network there is a run that registers a program with any good fields and then
   updates its entry with any fields that fit; the entry committed meets registration's bounds if and only
   if the update does. An update without a version, say, leaves an entry registration would refuse.
   */
  lemma OutOfBoundsReached(m: Meta, at: u64, u: Update)
    requires Short(MetaStrings(m)) && Short(UpdateStrings(u)) && FieldsGood(SampleNet(), SampleNet().pointer, m, at)
    requires |Serialize(Registry.Updated(OwnEntry(SampleNet().pointer, m, at), u))| <= SampleNet().dataCap
    ensures var net := SampleNet();
            var moves := RegisterThenUpdate(m, at, u);
            && Sound(net) && Genesis(net, map[]) && ValidRun(net, Start(map[]), moves)
            && Idle(Final(Start(map[]), moves))
            && var e := Registry.Updated(OwnEntry(net.pointer, m, at), u);
               && OwnEntryNow(net, Final(Start(map[]), moves).committed, net.pointer) == Some(e)
               && (Registry.MetaInBounds(MetaOf(Strings(e))) <==> Registry.UpdateInBounds(u))
  {
    var net := SampleNet();
    var p := net.pointer;
    var first := [Begin(SampleCall(net, m, at))]
        + SelfRegistration.Completion(net, map[], p, SampleCall(net, m, at).mentions, m, at);
    var registered := Registered(net, map[], p, m, at);
    var second := [Begin(SampleUpdate(net, u))] + Completion(net, registered, p, SampleUpdate(net, u).mentions, u);
    SampleSound();
    EverythingValid(MetaStrings(m));
    EverythingValid(UpdateStrings(u));
    SampleRegisters(m, at);
    RegisteredEntry(net, map[], p, m, at);
    SampleUpdates(Final(Start(map[]), first), u);
    RunThen(net, Start(map[]), first, second);
    UpdatedEntry(net, registered, p, u);
    var e := Registry.Updated(OwnEntry(p, m, at), u);
    Registry.ReplacesIsUpdated(OwnEntry(p, m, at), e, u);
    Registry.BoundsAfterUpdate(OwnEntry(p, m, at), e, u);
  }

  lemma SampleRegisters(m: Meta, at: u64)
    requires Short(MetaStrings(m)) && FieldsGood(SampleNet(), SampleNet().pointer, m, at)
    ensures var net := SampleNet();
            var call := SampleCall(net, m, at);
            var moves := [Begin(call)] + SelfRegistration.Completion(net, map[], net.pointer, call.mentions, m, at);
            ValidRun(net, Start(map[]), moves) && Idle(Final(Start(map[]), moves))
            && Final(Start(map[]), moves).committed == Registered(net, map[], net.pointer, m, at)
  {
    var net := SampleNet();
    var call := SampleCall(net, m, at);
    SampleSound();
    SampleDecodes(m, at);
    SelfRegistration.WholeWay(net, Next(Start(map[]), Begin(call)), call, m, at);
    BeginThen(net, Start(map[]), call, SelfRegistration.Completion(net, map[], net.pointer, call.mentions, m, at));
  }

  lemma SampleUpdates(c: Config, u: Update)
    requires Idle(c) && Short(UpdateStrings(u)) && UpdateFits(SampleNet(), c.committed, SampleNet().pointer, u)
    ensures var net := SampleNet();
            var call := SampleUpdate(net, u);
            var moves := [Begin(call)] + Completion(net, c.committed, net.pointer, call.mentions, u);
            ValidRun(net, c, moves) && Idle(Final(c, moves))
            && Final(c, moves).committed == Updated(net, c.committed, net.pointer, u)
  {
    var net := SampleNet();
    var call := SampleUpdate(net, u);
    SampleSound();
    SampleUpdateDecodes(u);
    WholeWay(net, Next(c, Begin(call)), call, u);
    BeginThen(net, c, call, Completion(net, c.committed, net.pointer, call.mentions, u));
  }

  lemma BeginThen(net: Net, c: Config, call: Call, way: seq<Move>)
    requires Idle(c) && OnlyWay(net, Next(c, Begin(call)), way)
    ensures ValidRun(net, c, [Begin(call)] + way) && !Final(c, [Begin(call)] + way).busy
    ensures Final(c, [Begin(call)] + way) == Final(Next(c, Begin(call)), way)
  {
    OnlyWayTaken(net, Next(c, Begin(call)), way, way);
    assert ([Begin(call)] + way)[1..] == way;
  }

  /** One letter in every field. */
  function TinyMeta(): Meta {
    Meta([0x61], [0x61], [0x61], [0x61], [0x61], [0x61], [0x61], [0x61], [0x61])
  }

  function NoVersion(): Update {
    Update([], [0x61], [0x61], [0x61], [0x61], [0x61], [0x61], [0x61])
  }

  lemma {:induction false} TinyStrings(ss: seq<seq<byte>>)
    requires Below(2, ss)
    ensures |StringsBytes(ss)| <= 5 * |ss| && Short(ss)
  {
    if ss != [] {
      TinyStrings(ss[1..]);
    }
  }

  lemma TinyEntry(e: Entry)
    requires Below(2, Strings(e))
    ensures |Serialize(e)| <= 0x1_0000
  {
    TinyStrings(Strings(e));
  }

  /** Strings of at most one byte each, listed one by one. */
  lemma {:induction false} TinyBelow(ss: seq<seq<byte>>)
    requires forall k :: 0 <= k < |ss| ==> |ss[k]| <= 1
    ensures Below(2, ss)
  {
    if ss != [] {
      TinyBelow(ss[1..]);
    }
  }

  lemma TinyFits(at: u64)
    ensures var e := OwnEntry(SampleNet().pointer, TinyMeta(), at);
            && FieldsGood(SampleNet(), SampleNet().pointer, TinyMeta(), at)
            && |Serialize(Registry.Updated(e, NoVersion()))| <= SampleNet().dataCap
  {
    var e := OwnEntry(SampleNet().pointer, TinyMeta(), at);
    TinyBelow(Strings(e));
    TinyBelow(Strings(Registry.Updated(e, NoVersion())));
    TinyEntry(e);
    TinyEntry(Registry.Updated(e, NoVersion()));
  }

  /** In particular a live entry without a version is reached, which registration would have refused. */
  lemma VersionlessEntryReached(at: u64)
    ensures var net := SampleNet();
            var moves := RegisterThenUpdate(TinyMeta(), at, NoVersion());
            && Sound(net) && Genesis(net, map[]) && ValidRun(net, Start(map[]), moves)
            && var e := OwnEntryNow(net, Final(Start(map[]), moves).committed, net.pointer);
               e.Some? && e.value.version == [] && !Registry.MetaInBounds(MetaOf(Strings(e.value)))
  {
    hide ValidRun, Final, RegisterThenUpdate, SampleNet, FieldsGood, Sound, Genesis, OwnEntryNow, Short, Serialize,
        Below;
    TinyFits(at);
    TinyBelow(MetaStrings(TinyMeta()));
    TinyBelow(UpdateStrings(NoVersion()));
    TinyStrings(MetaStrings(TinyMeta()));
    TinyStrings(UpdateStrings(NoVersion()));
    OutOfBoundsReached(TinyMeta(), at, NoVersion());
  }
}
