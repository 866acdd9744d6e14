/** The on-chain program registry: its six instructions. */
module Registry {
  import opened Bytes
  import opened Pda
  import opened Chain
  import opened EntryCodec
  import opened RegistryWire

  // ---- checks and state -------------------------------------------------------------------

  /** 0, or the code of the first bound an entry's fields break. */
  function Validate(m: Meta): nat {
    if m.name == [] || |m.name| > 64 then 1
    else if m.version == [] || |m.version| > 32 then 2
    else if |m.description| > 512 then 3
    else if m.idlCid == [] then 4
    else if m.sourceCid == [] then 5
    else if m.commit == [] || |m.commit| > 64 then 6
    else 0
  }

  /** The bounds on the fields given at registration. */
  predicate MetaInBounds(m: Meta) {
    && 1 <= |m.name| <= 64 && 1 <= |m.version| <= 32 && |m.description| <= 512
    && 1 <= |m.idlCid| && 1 <= |m.sourceCid| && 1 <= |m.commit| <= 64
  }

  /** Registration's check passes exactly within the bounds, and otherwise names the first one broken. */
  lemma ValidateSpelled(m: Meta)
    ensures Validate(m) == 0 <==> MetaInBounds(m)
    ensures Validate(m) == 1 <==> !(1 <= |m.name| <= 64)
    ensures Validate(m) == 2 <==> 1 <= |m.name| <= 64 && !(1 <= |m.version| <= 32)
    ensures 1 <= |m.name| <= 64 && 1 <= |m.version| <= 32 ==>
              && (Validate(m) == 3 <==> |m.description| > 512)
              && (|m.description| <= 512 ==>
                    && (Validate(m) == 4 <==> m.idlCid == [])
                    && (m.idlCid != [] ==> (Validate(m) == 5 <==> m.sourceCid == []))
                    && (m.idlCid != [] && m.sourceCid != [] ==> (Validate(m) == 6 <==> !(1 <= |m.commit| <= 64))))
  {
  }

  /** The bounds on the fields an update replaces. */
  predicate UpdateInBounds(u: Update) {
    && 1 <= |u.version| <= 32 && |u.description| <= 512
    && u.idlCid != [] && u.sourceCid != [] && 1 <= |u.commit| <= 64
  }

  function NewEntry(program: Id32, author: Id32, kind: byte, m: Meta, at: u64): Entry {
    Entry(program, author, kind, m.name, m.version, m.description, m.tags, m.idlCid, m.sourceCid,
          m.repoUrl, m.commit, m.buildConfig, at)
  }

  /** The entry after an update: identity, name and timestamp stay. */
  function Updated(e: Entry, u: Update): Entry {
    e.(version := u.version, description := u.description, tags := u.tags, idlCid := u.idlCid,
       sourceCid := u.sourceCid, repoUrl := u.repoUrl, commit := u.commit, buildConfig := u.buildConfig)
  }

  /** Field by field: what an update leaves alone, and what it replaces by the new field of the same name. */
  predicate Replaces(before: Entry, after: Entry, u: Update) {
    && after.programId == before.programId && after.author == before.author && after.kind == before.kind
    && after.name == before.name && after.registeredAt == before.registeredAt
    && after.version == u.version && after.description == u.description && after.tags == u.tags
    && after.idlCid == u.idlCid && after.sourceCid == u.sourceCid && after.repoUrl == u.repoUrl
    && after.commit == u.commit && after.buildConfig == u.buildConfig
  }

  lemma ReplacesIsUpdated(before: Entry, after: Entry, u: Update)
    ensures Replaces(before, after, u) <==> after == Updated(before, u)
  {
  }

  /**
   After an update of an entry with a proper name, registration's bounds hold if and only if the update
   keeps them.
   */
  lemma BoundsAfterUpdate(before: Entry, after: Entry, u: Update)
    requires 1 <= |before.name| <= 64 && Replaces(before, after, u)
    ensures MetaInBounds(MetaOf(Strings(after))) <==> UpdateInBounds(u)
  {
  }

  /** Entry bytes that fit the data cap. */
  function EntryData(net: Net, e: Entry): Result<seq<byte>, Failure> {
    if |Serialize(e)| <= net.dataCap then Ok(Serialize(e)) else Err(Custom(7))
  }

  function Written(net: Net, acc: Accounts, id: Id32, data: seq<byte>): Accounts {
    acc[id := Read(acc, id).(owner := net.registry, data := data)]
  }

  // ---- instructions -----------------------------------------------------------------------

  function RegisterDeployerExec(net: Net, acc: Accounts, caller: ProgramId, mentions: seq<Mention>,
                                program: Id32, m: Meta, at: u64): Outcome {
    if |mentions| != 1 then Err(BadMentions)
    else
      var id := mentions[0].id;
      if id != AddressOf(net, net.registry, Deployer(program)) then Err(WrongAddress)
      else if Read(acc, id) != DEFAULT_ACCOUNT then Err(AlreadyInitialized)
      else if caller == NO_PROGRAM then Err(Unauthorized)
      else if IdBytes(caller) != program then Err(Unauthorized)
      else if Validate(m) != 0 then Err(Custom(Validate(m)))
      else match EntryData(net, NewEntry(program, IdBytes(caller), KIND_DEPLOYER, m, at))
           case Err(e) => Err(e)
           case Ok(data) => Ok(Effect(Written(net, acc, id, data), []))
  }

  function RegisterSelfExec(net: Net, acc: Accounts, mentions: seq<Mention>, program: Id32, m: Meta, at: u64): Outcome {
    if |mentions| != 1 then Err(BadMentions)
    else if IdBytes(net.registry) != program then Err(Unauthorized)
    else if mentions[0].id != AddressOf(net, net.registry, Deployer(IdBytes(net.registry))) then Err(Custom(11))
    else if Read(acc, mentions[0].id) != DEFAULT_ACCOUNT then Err(Custom(12))
    else Ok(Effect(acc, [Call(net.registry, EncodeIx(RegisterDeployer(program, m, at)), mentions)]))
  }

  function RegisterThirdPartyExec(net: Net, acc: Accounts, mentions: seq<Mention>, m: Meta, at: u64): Outcome {
    if |mentions| != 3 then Err(BadMentions)
    else
      var id, program, author := mentions[0].id, mentions[1].id, mentions[2].id;
      if id != AddressOf(net, net.registry, ThirdParty(program, author)) then Err(WrongAddress)
      else if Read(acc, id) != DEFAULT_ACCOUNT then Err(AlreadyInitialized)
      else if !mentions[2].signed then Err(MissingSignature)
      else if Validate(m) != 0 then Err(Custom(Validate(m)))
      else match EntryData(net, NewEntry(program, author, KIND_THIRD_PARTY, m, at))
           case Err(e) => Err(e)
           case Ok(data) => Ok(Effect(Written(net, acc, id, data), []))
  }

  function UpdateDeployerExec(net: Net, acc: Accounts, caller: ProgramId, mentions: seq<Mention>,
                              program: Id32, u: Update): Outcome {
    if |mentions| != 1 then Err(BadMentions)
    else
      var id := mentions[0].id;
      if id != AddressOf(net, net.registry, Deployer(program)) then Err(WrongAddress)
      else match Deserialize(Read(acc, id).data, net.utf8)
           case None => Err(Undecodable)
           case Some(state) =>
             if state.kind != KIND_DEPLOYER then Err(Custom(8))
             else if caller == NO_PROGRAM || IdBytes(caller) != program then Err(Unauthorized)
             else Rewrite(net, acc, id, Updated(state, u))
  }

  function UpdateThirdPartyExec(net: Net, acc: Accounts, mentions: seq<Mention>, u: Update): Outcome {
    if |mentions| != 3 then Err(BadMentions)
    else
      var id, program, author := mentions[0].id, mentions[1].id, mentions[2].id;
      if id != AddressOf(net, net.registry, ThirdParty(program, author)) then Err(WrongAddress)
      else if !mentions[2].signed then Err(MissingSignature)
      else match Deserialize(Read(acc, id).data, net.utf8)
           case None => Err(Undecodable)
           case Some(state) =>
             if state.kind != KIND_THIRD_PARTY then Err(Custom(9))
             else if author != state.author then Err(Custom(13))
             else Rewrite(net, acc, id, Updated(state, u))
  }

  /** Writing an updated entry: it must fit, and the framework lets only the owner change data. */
  function Rewrite(net: Net, acc: Accounts, id: Id32, e: Entry): Outcome {
    match EntryData(net, e)
    case Err(f) => Err(f)
    case Ok(data) =>
      if Read(acc, id).owner != net.registry then Err(NotOwner)
      else Ok(Effect(Written(net, acc, id, data), []))
  }

  function UpdateSelfExec(net: Net, acc: Accounts, mentions: seq<Mention>, u: Update): Outcome {
    if |mentions| != 1 then Err(BadMentions)
    else if mentions[0].id != AddressOf(net, net.registry, Deployer(IdBytes(net.registry))) then Err(Custom(10))
    else Ok(Effect(acc, [Call(net.registry, EncodeIx(UpdateDeployer(IdBytes(net.registry), u)), mentions)]))
  }

  function Run(net: Net, acc: Accounts, caller: ProgramId, ix: RegistryIx, mentions: seq<Mention>): Outcome {
    match ix
    case RegisterDeployer(program, m, at) => RegisterDeployerExec(net, acc, caller, mentions, program, m, at)
    case RegisterSelf(program, m, at) => RegisterSelfExec(net, acc, mentions, program, m, at)
    case RegisterThirdParty(m, at) => RegisterThirdPartyExec(net, acc, mentions, m, at)
    case UpdateDeployer(program, u) => UpdateDeployerExec(net, acc, caller, mentions, program, u)
    case UpdateThirdParty(u) => UpdateThirdPartyExec(net, acc, mentions, u)
    case UpdateSelf(u) => UpdateSelfExec(net, acc, mentions, u)
  }

  /** The entry address an instruction names, when it writes one. */
  function TargetOf(ix: RegistryIx, mentions: seq<Mention>): Option<Address> {
    match ix
    case RegisterDeployer(program, _, _) => Some(Deployer(program))
    case UpdateDeployer(program, _) => Some(Deployer(program))
    case RegisterThirdParty(_, _) => if |mentions| == 3 then Some(ThirdParty(mentions[1].id, mentions[2].id)) else None
    case UpdateThirdParty(_) => if |mentions| == 3 then Some(ThirdParty(mentions[1].id, mentions[2].id)) else None
    case _ => None
  }

  /** One execution of the registry program. */
  function Exec(net: Net, acc: Accounts, caller: ProgramId, data: seq<u32>, mentions: seq<Mention>): Outcome {
    match DecodeIx(data, net.utf8)
    case None => Err(BadInstruction)
    case Some(ix) => Run(net, acc, caller, ix, mentions)
  }

  function Target(data: seq<u32>, mentions: seq<Mention>, utf8: seq<byte> -> bool): Option<Address> {
    match DecodeIx(data, utf8)
    case None => None
    case Some(ix) => TargetOf(ix, mentions)
  }

  // ---- the invariant of stored entries ------------------------------------------------------

  /** The entry says what its address says: kind, described program and author; and its name is bounded. */
  predicate Matches(e: Entry, a: Address) {
    && 1 <= |e.name| <= 64
    && match a
       case Deployer(p) => e.kind == KIND_DEPLOYER && e.programId == p && e.author == p
       case ThirdParty(p, author) => e.kind == KIND_THIRD_PARTY && e.programId == p && e.author == author
       case Pointer(_) => false
  }

  predicate GoodEntry(net: Net, data: seq<byte>, a: Address) {
    Deserialize(data, net.utf8).Some? && Matches(Deserialize(data, net.utf8).value, a)
    && (a.Deployer? ==> a.program != IdBytes(NO_PROGRAM))
  }

  /** A registry address is untouched, or holds an entry of the registry that matches it. */
  predicate Slot(net: Net, acc: Accounts, a: Address) {
    var account := Read(acc, AddressOf(net, net.registry, a));
    (account.owner == net.registry && GoodEntry(net, account.data, a))
    || (account.owner == NO_PROGRAM && account.data == [])
  }

  predicate IsEntryAddress(a: Address) {
    a.Deployer? || a.ThirdParty?
  }

  lemma FitsBelow(net: Net, e: Entry)
    requires Sound(net) && |Serialize(e)| <= net.dataCap
    ensures Short(Strings(e))
  {
    PiecesBelow(Strings(e), 0x1_0000_0000);
  }

  /** What write_entry stores, the guest reads back. */
  lemma StoredReadsBack(net: Net, e: Entry)
    requires Sound(net) && EntryData(net, e).Ok? && AllValid(net.utf8, Strings(e))
    ensures Deserialize(EntryData(net, e).value, net.utf8) == Some(e)
  {
    FitsBelow(net, e);
    GuestBijection(Serialize(e), e, net.utf8);
  }

  lemma UpdatedStrings(net: Net, e: Entry, u: Update)
    requires AllValid(net.utf8, Strings(e)) && AllValid(net.utf8, UpdateStrings(u))
    ensures AllValid(net.utf8, Strings(Updated(e, u)))
  {
    assert Strings(Updated(e, u))[0] == e.name;
    assert Strings(Updated(e, u))[1..] == UpdateStrings(u);
    assert Strings(e)[0] == e.name;
  }

  lemma NewEntryStrings(program: Id32, author: Id32, kind: byte, m: Meta, at: u64)
    ensures Strings(NewEntry(program, author, kind, m, at)) == MetaStrings(m)
  {
  }

  predicate SameIdentity(e: Entry, e': Entry) {
    e'.programId == e.programId && e'.author == e.author && e'.kind == e.kind && e'.name == e.name
    && e'.registeredAt == e.registeredAt
  }

  /** A live entry stays live, and its program, author, kind, name and timestamp stay. */
  predicate Continues(net: Net, before: Account, after: Account) {
    before.owner == net.registry ==>
      && after.owner == net.registry
      && Deserialize(before.data, net.utf8).Some? && Deserialize(after.data, net.utf8).Some?
      && SameIdentity(Deserialize(before.data, net.utf8).value, Deserialize(after.data, net.utf8).value)
  }

  /** The only effect on accounts: a good entry written at the address of a, continuing what was there. */
  ghost predicate WritesEntry(net: Net, acc: Accounts, post: Accounts, a: Address) {
    var id := AddressOf(net, net.registry, a);
    exists data :: post == Written(net, acc, id, data) && GoodEntry(net, data, a)
                   && Continues(net, Read(acc, id), Read(post, id))
  }

  lemma RegisterWrites(net: Net, acc: Accounts, id: Id32, a: Address, e: Entry, m: Meta)
    requires Sound(net) && Validate(m) == 0 && AllValid(net.utf8, MetaStrings(m)) && Strings(e) == MetaStrings(m)
    requires EntryData(net, e).Ok? && e.name == m.name && Read(acc, id) == DEFAULT_ACCOUNT
    requires id == AddressOf(net, net.registry, a) && Matches(e, a)
    requires a.Deployer? ==> a.program != IdBytes(NO_PROGRAM)
    ensures WritesEntry(net, acc, Written(net, acc, id, EntryData(net, e).value), a)
  {
    StoredReadsBack(net, e);
    assert GoodEntry(net, EntryData(net, e).value, a);
  }

  lemma UpdateWrites(net: Net, acc: Accounts, id: Id32, a: Address, e: Entry, u: Update)
    requires Sound(net) && id == AddressOf(net, net.registry, a) && Slot(net, acc, a)
    requires Deserialize(Read(acc, id).data, net.utf8) == Some(e) && AllValid(net.utf8, UpdateStrings(u))
    requires Rewrite(net, acc, id, Updated(e, u)).Ok?
    ensures WritesEntry(net, acc, Rewrite(net, acc, id, Updated(e, u)).value.accounts, a)
  {
    hide Serialize, Deserialize, AddressOf, AllValid, Strings;
    GuestBijection(Read(acc, id).data, e, net.utf8);
    UpdatedStrings(net, e, u);
    StoredReadsBack(net, Updated(e, u));
    assert GoodEntry(net, EntryData(net, Updated(e, u)).value, a);
  }

  lemma RegisterDeployerEffect(net: Net, acc: Accounts, caller: ProgramId, mentions: seq<Mention>, p: Id32, m: Meta,
                               at: u64)
    requires Sound(net) && AllValid(net.utf8, MetaStrings(m))
    requires RegisterDeployerExec(net, acc, caller, mentions, p, m, at).Ok?
    ensures var e := RegisterDeployerExec(net, acc, caller, mentions, p, m, at).value;
            e.emitted == [] && WritesEntry(net, acc, e.accounts, Deployer(p))
            && caller != NO_PROGRAM && IdBytes(caller) == p
  {
    var e := NewEntry(p, IdBytes(caller), KIND_DEPLOYER, m, at);
    IdBytesDiffer(caller);
    NewEntryStrings(p, IdBytes(caller), KIND_DEPLOYER, m, at);
    RegisterWrites(net, acc, mentions[0].id, Deployer(p), e, m);
  }

  lemma RegisterThirdPartyEffect(net: Net, acc: Accounts, mentions: seq<Mention>, m: Meta, at: u64)
    requires Sound(net) && AllValid(net.utf8, MetaStrings(m)) && RegisterThirdPartyExec(net, acc, mentions, m, at).Ok?
    ensures var e := RegisterThirdPartyExec(net, acc, mentions, m, at).value;
            e.emitted == [] && WritesEntry(net, acc, e.accounts, ThirdParty(mentions[1].id, mentions[2].id))
            && mentions[2].signed
  {
    var e := NewEntry(mentions[1].id, mentions[2].id, KIND_THIRD_PARTY, m, at);
    NewEntryStrings(mentions[1].id, mentions[2].id, KIND_THIRD_PARTY, m, at);
    RegisterWrites(net, acc, mentions[0].id, ThirdParty(mentions[1].id, mentions[2].id), e, m);
  }

  lemma UpdateDeployerEffect(net: Net, acc: Accounts, caller: ProgramId, mentions: seq<Mention>, p: Id32, u: Update)
    requires Sound(net) && AllValid(net.utf8, UpdateStrings(u)) && Slot(net, acc, Deployer(p))
    requires UpdateDeployerExec(net, acc, caller, mentions, p, u).Ok?
    ensures var e := UpdateDeployerExec(net, acc, caller, mentions, p, u).value;
            e.emitted == [] && WritesEntry(net, acc, e.accounts, Deployer(p))
            && caller != NO_PROGRAM && IdBytes(caller) == p
  {
    UpdateWrites(net, acc, mentions[0].id, Deployer(p), Deserialize(Read(acc, mentions[0].id).data, net.utf8).value, u);
  }

  lemma UpdateThirdPartyEffect(net: Net, acc: Accounts, mentions: seq<Mention>, u: Update)
    requires Sound(net) && AllValid(net.utf8, UpdateStrings(u))
    requires |mentions| == 3 ==> Slot(net, acc, ThirdParty(mentions[1].id, mentions[2].id))
    requires UpdateThirdPartyExec(net, acc, mentions, u).Ok?
    ensures var e := UpdateThirdPartyExec(net, acc, mentions, u).value;
            e.emitted == [] && WritesEntry(net, acc, e.accounts, ThirdParty(mentions[1].id, mentions[2].id))
            && mentions[2].signed
  {
    UpdateWrites(net, acc, mentions[0].id, ThirdParty(mentions[1].id, mentions[2].id),
                 Deserialize(Read(acc, mentions[0].id).data, net.utf8).value, u);
  }

  /**
   A successful execution changes no account, or writes one entry that matches its address and
   continues what was there. A deployer entry is written only for a program that is the caller
   itself, a third-party entry only with its author's signature.
   */
  lemma RunEffect(net: Net, acc: Accounts, caller: ProgramId, ix: RegistryIx, mentions: seq<Mention>)
    requires Sound(net) && Run(net, acc, caller, ix, mentions).Ok? && AllValid(net.utf8, PartsOf(ix).strings)
    requires TargetOf(ix, mentions).Some? ==> Slot(net, acc, TargetOf(ix, mentions).value)
    ensures var e := Run(net, acc, caller, ix, mentions).value;
            match TargetOf(ix, mentions)
            case None => e.accounts == acc
            case Some(a) => IsEntryAddress(a) && e.emitted == [] && WritesEntry(net, acc, e.accounts, a)
                            && (a.Deployer? ==> caller != NO_PROGRAM && IdBytes(caller) == a.program)
                            && (a.ThirdParty? ==> |mentions| == 3 && mentions[2] == Mention(a.author, true))
  {
    hide RegisterDeployerExec, UpdateDeployerExec, WritesEntry, Slot, Deserialize, Serialize, AddressOf, Validate,
        AllValid;
    match ix
    case RegisterDeployer(program, m, at) => RegisterDeployerEffect(net, acc, caller, mentions, program, m, at);
    case RegisterThirdParty(m, at) => RegisterThirdPartyEffect(net, acc, mentions, m, at);
    case UpdateDeployer(program, u) => UpdateDeployerEffect(net, acc, caller, mentions, program, u);
    case UpdateThirdParty(u) => UpdateThirdPartyEffect(net, acc, mentions, u);
    case _ =>
  }

  lemma IdBytesDiffer(p: ProgramId)
    ensures p != NO_PROGRAM ==> IdBytes(p) != IdBytes(NO_PROGRAM)
  {
    if IdBytes(p) == IdBytes(NO_PROGRAM) {
      IdBytesInjective(p, NO_PROGRAM);
    }
  }

  /**
   The guards the source keeps "just in case" never decide: at a sound slot the kind checks (codes 8
   and 9) and the recorded-author check (13 here) cannot fail. An update of an unregistered address
   fails earlier, when its empty data does not decode.
   */
  lemma GuardsRedundant(net: Net, acc: Accounts, caller: ProgramId, ix: RegistryIx, mentions: seq<Mention>)
    requires TargetOf(ix, mentions).Some? ==> Slot(net, acc, TargetOf(ix, mentions).value)
    ensures Ordinary(Run(net, acc, caller, ix, mentions))
  {
    match ix
    case RegisterDeployer(program, m, at) => RegisterDeployerFailures(net, acc, caller, mentions, program, m, at);
    case RegisterThirdParty(m, at) => RegisterThirdPartyFailures(net, acc, mentions, m, at);
    case UpdateDeployer(program, u) => DeployerKindHolds(net, acc, caller, mentions, program, u);
    case UpdateThirdParty(u) => ThirdPartyGuardsHold(net, acc, mentions, u);
    case RegisterSelf(_, _, _) =>
    case UpdateSelf(_) =>
  }

  /** Not one of the three guards in question. */
  predicate Ordinary(r: Outcome) {
    r.Err? ==> r.error != Custom(8) && r.error != Custom(9) && r.error != Custom(13)
  }

  lemma RegisterDeployerFailures(net: Net, acc: Accounts, caller: ProgramId, mentions: seq<Mention>, p: Id32, m: Meta,
                                 at: u64)
    ensures Ordinary(RegisterDeployerExec(net, acc, caller, mentions, p, m, at))
  {
  }

  lemma RegisterThirdPartyFailures(net: Net, acc: Accounts, mentions: seq<Mention>, m: Meta, at: u64)
    ensures Ordinary(RegisterThirdPartyExec(net, acc, mentions, m, at))
  {
  }

  lemma DeployerKindHolds(net: Net, acc: Accounts, caller: ProgramId, mentions: seq<Mention>, p: Id32, u: Update)
    requires Slot(net, acc, Deployer(p))
    ensures Ordinary(UpdateDeployerExec(net, acc, caller, mentions, p, u))
  {
    assert Deserialize([], net.utf8) == None;
    hide Deserialize, Serialize, AddressOf;
  }

  lemma ThirdPartyGuardsHold(net: Net, acc: Accounts, mentions: seq<Mention>, u: Update)
    requires |mentions| == 3 ==> Slot(net, acc, ThirdParty(mentions[1].id, mentions[2].id))
    ensures Ordinary(UpdateThirdPartyExec(net, acc, mentions, u))
  {
    assert Deserialize([], net.utf8) == None;
    hide Deserialize, Serialize, AddressOf;
  }
}
