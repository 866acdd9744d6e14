/**
 What the registry's and the pointer program's instructions do, told without their handlers: exactly when
 each succeeds, what is then stored, and what a transaction of one such call commits.
 */
module Outcomes {
  import opened Bytes
  import opened Pda
  import opened Chain
  import opened EntryCodec
  import opened RegistryWire
  import opened Runs
  import opened RunTheorems
  import opened Transactions
  import AccountIds
  import Base58
  import Registry
  import Programs

  // ---- what is stored -------------------------------------------------------------------------------

  /** Bytes of an entry with these strings. */
  function EntrySize(strings: seq<seq<byte>>): nat {
    65 + TextSize(strings) + 8
  }

  lemma SizeOf(e: Entry)
    ensures |Serialize(e)| == EntrySize(Strings(e))
  {
    TextsTake(Strings(e));
  }

  /** The only change is one account, which the registry now owns; its data decodes to the entry and shows so. */
  predicate Stores(net: Net, acc: Accounts, post: Accounts, a: Address, e: Entry) {
    var id := AddressOf(net, net.registry, a);
    && post == acc[id := Read(post, id)]
    && Read(post, id) == Read(acc, id).(owner := net.registry, data := Read(post, id).data)
    && EntryAt(net, post, a) == Some(e)
    && NativeDecode(Read(post, id).data, net.utf8)
       == Some(EntryView(Base58.Encode(e.programId), Base58.Encode(e.author),
                         if a.Deployer? then "deployer" else "third_party",
                         [e.name, e.version, e.description, e.tags, e.idlCid, e.sourceCid, e.repoUrl, e.commit,
                          e.buildConfig],
                         e.registeredAt))
  }

  lemma WrittenStores(net: Net, acc: Accounts, a: Address, e: Entry)
    requires Sound(net) && |Serialize(e)| <= net.dataCap && AllValid(net.utf8, Strings(e))
    requires if a.Deployer? then e.kind == 0 else e.kind == 1
    ensures Stores(net, acc, Registry.Written(net, acc, AddressOf(net, net.registry, a), Serialize(e)), a, e)
  {
    hide Serialize, Deserialize, NativeDecode, AddressOf, AllValid, Short;
    Registry.StoredReadsBack(net, e);
    Registry.FitsBelow(net, e);
    NativeReadsWriter(e, [], net.utf8);
    assert Serialize(e) + [] == Serialize(e);
  }

  // ---- registrations --------------------------------------------------------------------------------

  /** The entry a registration is for, field by field. */
  function Described(program: Id32, author: Id32, kind: byte, m: Meta, at: u64): Entry {
    Entry(program, author, kind, m.name, m.version, m.description, m.tags, m.idlCid, m.sourceCid, m.repoUrl,
          m.commit, m.buildConfig, at)
  }

  lemma EntryStored(net: Net, acc: Accounts, a: Address, m: Meta, e: Entry)
    requires Sound(net) && AllValid(net.utf8, MetaStrings(m)) && Strings(e) == MetaStrings(m)
    requires if a.Deployer? then e.kind == 0 else e.kind == 1
    ensures Registry.EntryData(net, e)
         == if EntrySize(MetaStrings(m)) <= net.dataCap then Ok(Serialize(e)) else Err(Custom(7))
    ensures EntrySize(MetaStrings(m)) <= net.dataCap ==>
              Stores(net, acc, Registry.Written(net, acc, AddressOf(net, net.registry, a), Serialize(e)), a, e)
  {
    SizeOf(e);
    if EntrySize(MetaStrings(m)) <= net.dataCap {
      WrittenStores(net, acc, a, e);
    }
  }

  /** The three accounts of a third-party call: the author's own entry for the program, and the author signed. */
  predicate AuthorsEntry(net: Net, mentions: seq<Mention>) {
    && |mentions| == 3 && mentions[2].signed
    && mentions[0].id == AddressOf(net, net.registry, ThirdParty(mentions[1].id, mentions[2].id))
  }

  /**
   A third-party registration succeeds if and only if it is for the author's own unused entry, the author
   signed, the fields are in bounds and the entry fits. It then stores exactly the given fields.
   */
  lemma ThirdPartyRegistersExactly(net: Net, acc: Accounts, caller: ProgramId, mentions: seq<Mention>, m: Meta, at: u64)
    requires Sound(net) && AllValid(net.utf8, MetaStrings(m))
    ensures var r := Registry.Run(net, acc, caller, RegisterThirdParty(m, at), mentions);
            && (r.Ok? <==> AuthorsEntry(net, mentions) && Read(acc, mentions[0].id) == DEFAULT_ACCOUNT
                           && Registry.MetaInBounds(m) && EntrySize(MetaStrings(m)) <= net.dataCap)
            && (r.Ok? ==>
                  var program, author := mentions[1].id, mentions[2].id;
                  && r.value.emitted == []
                  && Stores(net, acc, r.value.accounts, ThirdParty(program, author),
                            Described(program, author, 1, m, at)))
            && (AuthorsEntry(net, mentions) && Read(acc, mentions[0].id) == DEFAULT_ACCOUNT && r.Err? ==>
                  r.error == Custom(if Registry.MetaInBounds(m) then 7 else Registry.Validate(m)))
  {
    hide Stores, Serialize, AddressOf, Registry.Validate, Registry.MetaInBounds, AllValid, EntrySize, Strings,
        MetaStrings, Registry.EntryData;
    Registry.ValidateSpelled(m);
    if |mentions| == 3 {
      var program, author := mentions[1].id, mentions[2].id;
      var e := Described(program, author, 1, m, at);
      assert e == Registry.NewEntry(program, author, KIND_THIRD_PARTY, m, at);
      Registry.NewEntryStrings(program, author, KIND_THIRD_PARTY, m, at);
      EntryStored(net, acc, ThirdParty(program, author), m, e);
    }
  }

  /** The one account mentioned is the program's deployer entry, unused. */
  predicate Asked(net: Net, acc: Accounts, mentions: seq<Mention>, p: Id32) {
    |mentions| == 1 && mentions[0].id == AddressOf(net, net.registry, Deployer(p))
    && Read(acc, mentions[0].id) == DEFAULT_ACCOUNT
  }

  /** A deployer registration: the same for the calling program's own entry. */
  lemma DeployerRegistersExactly(net: Net, acc: Accounts, caller: ProgramId, mentions: seq<Mention>, p: Id32, m: Meta,
                                 at: u64)
    requires Sound(net) && AllValid(net.utf8, MetaStrings(m))
    ensures var r := Registry.Run(net, acc, caller, RegisterDeployer(p, m, at), mentions);
            && (r.Ok? <==>
                  && Asked(net, acc, mentions, p) && caller != NO_PROGRAM && IdBytes(caller) == p
                  && Registry.MetaInBounds(m) && EntrySize(MetaStrings(m)) <= net.dataCap)
            && (r.Ok? ==>
                  r.value.emitted == [] && Stores(net, acc, r.value.accounts, Deployer(p), Described(p, p, 0, m, at)))
            && (Asked(net, acc, mentions, p) && r.Err? ==>
                  r.error == if IdBytes(caller) != p || caller == NO_PROGRAM then Unauthorized
                             else Custom(if Registry.MetaInBounds(m) then 7 else Registry.Validate(m)))
  {
    hide Stores, Serialize, AddressOf, Registry.Validate, Registry.MetaInBounds, AllValid, EntrySize, Strings,
        MetaStrings, Registry.EntryData;
    Registry.ValidateSpelled(m);
    var e := Described(p, p, 0, m, at);
    assert e == Registry.NewEntry(p, p, KIND_DEPLOYER, m, at);
    Registry.NewEntryStrings(p, p, KIND_DEPLOYER, m, at);
    EntryStored(net, acc, Deployer(p), m, e);
  }

  // ---- updates ----------------------------------------------------------------------------------------

  lemma UpdateStores(net: Net, acc: Accounts, a: Address, before: Entry, after: Entry, u: Update)
    requires Sound(net) && AllValid(net.utf8, UpdateStrings(u)) && Registry.IsEntryAddress(a)
    requires Registry.Slot(net, acc, a) && EntryAt(net, acc, a) == Some(before) && Registry.Replaces(before, after, u)
    ensures var id := AddressOf(net, net.registry, a);
            var r := Registry.Rewrite(net, acc, id, Registry.Updated(before, u));
            if EntrySize(Strings(after)) <= net.dataCap
            then r.Ok? && r.value.emitted == [] && Stores(net, acc, r.value.accounts, a, after)
            else r == Err(Custom(7))
  {
    var id := AddressOf(net, net.registry, a);
    Registry.ReplacesIsUpdated(before, after, u);
    GuestBijection(Read(acc, id).data, before, net.utf8);
    Registry.UpdatedStrings(net, before, u);
    SizeOf(after);
    if EntrySize(Strings(after)) <= net.dataCap {
      WrittenStores(net, acc, a, after);
    }
    hide Stores, Serialize, Deserialize, AddressOf, AllValid, TextSize;
  }

  /**
   A deployer entry's update succeeds if and only if the caller is the described program itself, the entry
   is there and the new fields fit. It stores them, each under its own name, and leaves all else.
   */
  lemma DeployerUpdatesExactly(net: Net, acc: Accounts, caller: ProgramId, mentions: seq<Mention>, p: Id32, u: Update,
                               after: Entry)
    requires Sound(net) && AllValid(net.utf8, UpdateStrings(u)) && Registry.Slot(net, acc, Deployer(p))
    requires var before := EntryAt(net, acc, Deployer(p)); before.Some? ==> Registry.Replaces(before.value, after, u)
    ensures var r := Registry.Run(net, acc, caller, UpdateDeployer(p, u), mentions);
            && (r.Ok? <==>
                  && |mentions| == 1 && mentions[0].id == AddressOf(net, net.registry, Deployer(p))
                  && EntryAt(net, acc, Deployer(p)).Some? && caller != NO_PROGRAM && IdBytes(caller) == p
                  && EntrySize(Strings(after)) <= net.dataCap)
            && (r.Ok? ==> r.value.emitted == [] && Stores(net, acc, r.value.accounts, Deployer(p), after))
            && (|mentions| == 1 && mentions[0].id == AddressOf(net, net.registry, Deployer(p)) && r.Err? ==>
                  r.error == if EntryAt(net, acc, Deployer(p)) == None then Undecodable
                             else if caller == NO_PROGRAM || IdBytes(caller) != p then Unauthorized else Custom(7))
  {
    var before := EntryAt(net, acc, Deployer(p));
    assert Deserialize([], net.utf8) == None;
    if before.Some? {
      UpdateStores(net, acc, Deployer(p), before.value, after, u);
    }
    hide Stores, Serialize, Deserialize, AddressOf, AllValid, TextSize, Registry.Rewrite;
  }

  /** And a third-party entry's, if and only if its author signed. */
  lemma ThirdPartyUpdatesExactly(net: Net, acc: Accounts, caller: ProgramId, mentions: seq<Mention>, u: Update,
                                 after: Entry)
    requires Sound(net) && AllValid(net.utf8, UpdateStrings(u)) && |mentions| == 3
    requires var a := ThirdParty(mentions[1].id, mentions[2].id);
             && Registry.Slot(net, acc, a)
             && (EntryAt(net, acc, a).Some? ==> Registry.Replaces(EntryAt(net, acc, a).value, after, u))
    ensures var a := ThirdParty(mentions[1].id, mentions[2].id);
            var r := Registry.Run(net, acc, caller, UpdateThirdParty(u), mentions);
            && (r.Ok? <==> AuthorsEntry(net, mentions) && EntryAt(net, acc, a).Some?
                           && EntrySize(Strings(after)) <= net.dataCap)
            && (r.Ok? ==> r.value.emitted == [] && Stores(net, acc, r.value.accounts, a, after))
            && (AuthorsEntry(net, mentions) && r.Err? ==>
                  r.error == if EntryAt(net, acc, a) == None then Undecodable else Custom(7))
  {
    var a := ThirdParty(mentions[1].id, mentions[2].id);
    assert Deserialize([], net.utf8) == None;
    if EntryAt(net, acc, a).Some? {
      UpdateStores(net, acc, a, EntryAt(net, acc, a).value, after, u);
    }
    hide Stores, Serialize, Deserialize, AddressOf, AllValid, TextSize, Registry.Rewrite;
  }

  // ---- pointer records --------------------------------------------------------------------------------

  /** The bytes of a record: who published it, then the value with its length in front. */
  predicate IsRecord(data: seq<byte>, publisher: Id32, value: seq<byte>) {
    |data| == 36 + |value| && data[..32] == publisher && IsText(data[32..], value)
  }

  lemma RecordSpelled(publisher: Id32, value: seq<byte>)
    requires |value| < 0x1_0000_0000
    ensures IsRecord(Programs.RecordBytes(publisher, value), publisher, value)
  {
    LengthBytesAre(|value|);
    WordBytesInverse(|value|);
    var data := Programs.RecordBytes(publisher, value);
    assert data[32..] == StringBytes(value) && StringBytes(value)[4..] == value;
  }

  /** The key's record is mentioned first and unused, the publisher second and signed. */
  predicate RecordReady(net: Net, acc: Accounts, key: seq<byte>, mentions: seq<Mention>) {
    && |key| <= 32 && |mentions| == 2 && mentions[0].id == AddressOf(net, net.pointer, Pointer(Pad(key)))
    && Read(acc, mentions[0].id) == DEFAULT_ACCOUNT && mentions[1].signed
  }

  /** Then, with a key, a value of 1 to 128 bytes and room for the record, a publish is accepted. */
  predicate Publishable(net: Net, acc: Accounts, ix: Programs.PublishIx, mentions: seq<Mention>) {
    RecordReady(net, acc, ix.key, mentions)
    && ix.key != [] && 1 <= |ix.value| <= 128 && 36 + |ix.value| <= net.dataCap
  }

  /** A publish succeeds exactly then and stores the record; otherwise its code names the first thing wrong. */
  lemma PublishesExactly(net: Net, acc: Accounts, ix: Programs.PublishIx, mentions: seq<Mention>)
    ensures var r := Programs.PublishExec(net, acc, ix, mentions);
            && (r.Ok? <==> Publishable(net, acc, ix, mentions))
            && (r.Ok? ==>
                  var id := mentions[0].id;
                  var account := Read(r.value.accounts, id);
                  && r.value == Effect(acc[id := account], []) && account == Account(net.pointer, 0, 0, account.data)
                  && IsRecord(account.data, mentions[1].id, ix.value))
            && (RecordReady(net, acc, ix.key, mentions) && r.Err? ==>
                  r.error == Custom(if ix.key == [] then 1 else if !(1 <= |ix.value| <= 128) then 2 else 3))
  {
    hide IsRecord, Programs.RecordBytes, AddressOf, Pad;
    if |mentions| == 2 {
      RecordSize(mentions[1].id, ix.value);
      if Programs.PublishExec(net, acc, ix, mentions).Ok? {
        RecordSpelled(mentions[1].id, ix.value);
        OneStored(acc, mentions[0].id, Account(net.pointer, 0, 0, Programs.RecordBytes(mentions[1].id, ix.value)));
      }
    }
  }

  lemma RecordSize(publisher: Id32, value: seq<byte>)
    ensures |Programs.RecordBytes(publisher, value)| == 36 + |value|
  {
  }

  lemma OneStored(acc: Accounts, id: Id32, account: Account)
    ensures Read(acc[id := account], id) == account
    ensures acc[id := Read(acc[id := account], id)] == acc[id := account]
  {
  }

  // ---- transactions of one such call ------------------------------------------------------------------

  /** A user's call that asks nothing further: the transaction can complete in one way only. */
  lemma OneCall(net: Net, c: Config, call: Call, rest: seq<Move>)
    requires Idle(c) && Modelled(net, call) && Covered(net, call)
    requires var r := ModelOutcome(net, c.committed, NO_PROGRAM, call); r.Ok? ==> r.value.emitted == []
    ensures var r := ModelOutcome(net, c.committed, NO_PROGRAM, call);
            var c1 := Next(c, Begin(call));
            && (exists moves :: ValidRun(net, c1, moves) && NoBegin(moves) && !Final(c1, moves).busy)
            && (ValidRun(net, c1, rest) && NoBegin(rest) && !Final(c1, rest).busy ==>
                  Idle(Final(c1, rest))
                  && Final(c1, rest).committed == if r.Ok? then r.value.accounts else c.committed)
  {
    hide ModelOutcome, Covered;
    var r := ModelOutcome(net, c.committed, NO_PROGRAM, call);
    var c1 := Next(c, Begin(call));
    OutcomeForces(net, c1, c1.stack[0], r);
    var way := if r.Ok? then [Execute(r.value)] + [Commit] else [Fail];
    if r.Ok? {
      CommitAfter(net, c1, r.value);
    } else {
      FailCloses(net, c1);
    }
    OnlyWayTaken(net, c1, way, rest);
    assert [Commit][1..] == [] && ([Execute(if r.Ok? then r.value else Effect(map[], []))] + [Commit])[1..] == [Commit];
    assert NoBegin(way);
  }

  /** A user's call with which a third party registers a program. */
  predicate IsThirdPartyCall(net: Net, call: Call, m: Meta, at: u64) {
    call.program == net.registry && DecodeIx(call.data, net.utf8) == Some(RegisterThirdParty(m, at))
  }

  /** The transaction of a third-party registration completes and commits the entry, or changes nothing. */
  lemma ThirdPartyTransaction(net: Net, c: Config, call: Call, m: Meta, at: u64, rest: seq<Move>)
    requires Sound(net) && Idle(c) && IsThirdPartyCall(net, call, m, at)
    requires |call.mentions| == 3 ==> Known(net, net.registry, ThirdParty(call.mentions[1].id, call.mentions[2].id))
    ensures var c1 := Next(c, Begin(call));
            && (exists moves :: ValidRun(net, c1, moves) && NoBegin(moves) && !Final(c1, moves).busy)
            && (ValidRun(net, c1, rest) && NoBegin(rest) && !Final(c1, rest).busy ==>
                  var post := Final(c1, rest).committed;
                  if AuthorsEntry(net, call.mentions) && Read(c.committed, call.mentions[0].id) == DEFAULT_ACCOUNT
                     && Registry.MetaInBounds(m) && EntrySize(MetaStrings(m)) <= net.dataCap
                  then var program, author := call.mentions[1].id, call.mentions[2].id;
                       Stores(net, c.committed, post, ThirdParty(program, author), Described(program, author, 1, m, at))
                  else post == c.committed)
  {
    hide Stores, Serialize, AddressOf, Registry.MetaInBounds, EntrySize, MetaStrings, Registry.RegisterThirdPartyExec,
        ValidRun, Final, NoBegin;
    DecodedValid(call.data, net.utf8);
    assert PartsOf(RegisterThirdParty(m, at)).strings == MetaStrings(m);
    ThirdPartyRegistersExactly(net, c.committed, NO_PROGRAM, call.mentions, m, at);
    OneCall(net, c, call, rest);
  }

  predicate IsPublish(net: Net, call: Call, ix: Programs.PublishIx) {
    call.program == net.pointer && !IsHook(call) && Programs.DecodePublish(call.data, net.utf8) == Some(ix)
  }

  /** The record of a key holds a value. */
  predicate HoldsRecord(net: Net, acc: Accounts, key: seq<byte>, publisher: Id32, value: seq<byte>) {
    |key| <= 32
    && var account := Read(acc, AddressOf(net, net.pointer, Pointer(Pad(key))));
       account.owner == net.pointer && IsRecord(account.data, publisher, value)
  }

  /** The transaction of a publish completes and commits the record, or changes nothing. */
  lemma PublishTransaction(net: Net, c: Config, call: Call, ix: Programs.PublishIx, rest: seq<Move>)
    requires Sound(net) && Idle(c) && IsPublish(net, call, ix)
    requires |ix.key| <= 32 ==> Known(net, net.pointer, Pointer(Pad(ix.key)))
    ensures var c1 := Next(c, Begin(call));
            && (exists moves :: ValidRun(net, c1, moves) && NoBegin(moves) && !Final(c1, moves).busy)
            && (ValidRun(net, c1, rest) && NoBegin(rest) && !Final(c1, rest).busy ==>
                  var post := Final(c1, rest).committed;
                  Idle(Final(c1, rest))
                  && if Publishable(net, c.committed, ix, call.mentions)
                     then HoldsRecord(net, post, ix.key, call.mentions[1].id, ix.value)
                          && post == c.committed[call.mentions[0].id := Read(post, call.mentions[0].id)]
                     else post == c.committed)
  {
    hide IsRecord, AddressOf, Pad, Programs.PublishExec, ValidRun, Final, NoBegin;
    PublishesExactly(net, c.committed, ix, call.mentions);
    OneCall(net, c, call, rest);
  }

  lemma RecordReads(data: seq<byte>, publisher: Id32, value: seq<byte>)
    requires IsRecord(data, publisher, value) && |value| < 0x8000_0000
    ensures data != [] && Programs.ResolveData(data) == Some(WithoutMark(value))
    ensures Programs.ResolveData(data) == Some(value) <==> !(BYTE_ORDER_MARK <= value)
  {
    TextBlock(data[32..], value);
    assert data == data[..32] + data[32..];
    Programs.ResolvePublished(publisher, value);
  }

  /**
   From any reachable state between transactions in which the key's record is unused, a user's publish
   within the bounds can complete. Once it has, the resolver finds the value in every later state, from any
   pointer with that key, exactly as published if and only if it starts with no byte order mark.
   */
  lemma PublishThenResolve(net: Net, genesis: Accounts, first: seq<Move>, call: Call, ix: Programs.PublishIx,
                           done: seq<Move>, last: seq<Move>, programId: string, ptr: seq<byte>)
    requires Sound(net) && Genesis(net, genesis) && ValidRun(net, Start(genesis), first)
    requires Idle(Final(Start(genesis), first)) && IsPublish(net, call, ix)
    requires Publishable(net, Final(Start(genesis), first).committed, ix, call.mentions)
    requires Known(net, net.pointer, Pointer(Pad(ix.key)))
    requires Programs.PointerKey(ptr) == ix.key && AccountIds.IdBytes(programId) == Some(IdBytes(net.pointer))
    ensures var c1 := Next(Final(Start(genesis), first), Begin(call));
            && (exists moves :: ValidRun(net, c1, moves) && NoBegin(moves) && !Final(c1, moves).busy)
            && (ValidRun(net, c1, done) && NoBegin(done) && !Final(c1, done).busy
                && ValidRun(net, Final(c1, done), last) ==>
                  var found := Resolve(net, Final(Final(c1, done), last).committed, programId, ptr);
                  found == Some(WithoutMark(ix.value)) && (found == Some(ix.value) <==> !(BYTE_ORDER_MARK <= ix.value)))
  {
    hide IsRecord, Programs.ResolveData, Resolve;
    var c := Final(Start(genesis), first);
    var c1 := Next(c, Begin(call));
    PublishTransaction(net, c, call, ix, done);
    if ValidRun(net, c1, done) && NoBegin(done) && !Final(c1, done).busy && ValidRun(net, Final(c1, done), last) {
      var closed := Final(c1, done);
      var later := Final(closed, last);
      Reached(net, genesis, first);
      MoveKeepsInv(net, genesis, c, Begin(call));
      RunKeepsInv(net, genesis, c1, done);
      RunKeepsInv(net, genesis, closed, last);
      assert RecordGoesOn(net, closed.committed, later.committed, Pad(ix.key));
      var data := Read(closed.committed, AddressOf(net, net.pointer, Pointer(Pad(ix.key)))).data;
      RecordReads(data, call.mentions[1].id, ix.value);
      ResolveReads(net, later.committed, programId, ptr);
    }
  }
}
