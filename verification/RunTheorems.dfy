/** What holds in every state any run of the chain can reach. */
module RunTheorems {
  import opened Bytes
  import opened Pda
  import opened Chain
  import opened EntryCodec
  import opened RegistryWire
  import opened Runs
  import Base58
  import AccountIds
  import PdaText
  import Registry
  import Programs

  // ---- reachable states ---------------------------------------------------------------------------

  lemma Reached(net: Net, genesis: Accounts, moves: seq<Move>)
    requires Sound(net) && Genesis(net, genesis) && ValidRun(net, Start(genesis), moves)
    ensures Inv(net, genesis, Final(Start(genesis), moves))
  {
    GenesisInv(net, genesis);
    RunKeepsInv(net, genesis, Start(genesis), moves);
  }

  lemma EntryReached(net: Net, genesis: Accounts, moves: seq<Move>, a: Address)
    requires Sound(net) && Genesis(net, genesis) && ValidRun(net, Start(genesis), moves)
    requires Registry.IsEntryAddress(a) && Known(net, net.registry, a)
    ensures Registry.Slot(net, Final(Start(genesis), moves).committed, a)
  {
    Reached(net, genesis, moves);
  }

  // ---- entries prove who wrote them ---------------------------------------------------------------

  function EntryAccount(net: Net, acc: Accounts, a: Address): Account {
    Read(acc, AddressOf(net, net.registry, a))
  }

  /** Every logged change at the address is an execution of the registry that had the right to it. */
  ghost predicate AllCaused(net: Net, log: seq<Event>, a: Address) {
    forall k {:trigger log[k]} :: 0 <= k < |log| ==> Proven(net, log, k, a)
  }

  /** The entry is live and some logged execution that had the right to it registered it, or nothing is stored. */
  ghost predicate LiveForCause(net: Net, c: Config, a: Address) {
    var account := EntryAccount(net, c.committed, a);
    if account.owner == net.registry then exists k :: 0 <= k < |c.log| && Caused(net, c.log, k, a) else Blank(account)
  }

  lemma EntriesHaveCause(net: Net, genesis: Accounts, moves: seq<Move>, a: Address)
    requires Sound(net) && Genesis(net, genesis) && ValidRun(net, Start(genesis), moves)
    requires Registry.IsEntryAddress(a) && Known(net, net.registry, a)
    ensures var c := Final(Start(genesis), moves);
            AllCaused(net, c.log, a) && LiveForCause(net, c, a) && Registry.Slot(net, c.committed, a)
  {
    var c := Final(Start(genesis), moves);
    Reached(net, genesis, moves);
    LogShowsCause(net, c.log, a);
    EntryReached(net, genesis, moves, a);
    if EntryAccount(net, c.committed, a).owner == net.registry {
      CommittedHistory(genesis, c);
      SomeoneRegistered(net, genesis, c.log, if c.busy then c.base else |c.log|, c.committed, a);
    }
  }

  lemma LogShowsCause(net: Net, log: seq<Event>, a: Address)
    requires LogProven(net, log) && Registry.IsEntryAddress(a) && Known(net, net.registry, a)
    ensures AllCaused(net, log, a)
  {
    forall k | 0 <= k < |log|
      ensures Proven(net, log, k, a)
    {
      assert ProvenWrite(net, log, k);
    }
  }

  lemma CommittedHistory(genesis: Accounts, c: Config)
    requires ReplayInv(genesis, c)
    ensures var n := if c.busy then c.base else |c.log|; n <= |c.log| && Replays(genesis, c.log[..n], c.committed)
  {
    assert c.log[..|c.log|] == c.log;
  }

  /** Going back through the replayed log to the change that made the account live. */
  lemma {:induction false} SomeoneRegistered(net: Net, genesis: Accounts, log: seq<Event>, n: nat, acc: Accounts,
                                             a: Address)
    requires Sound(net) && n <= |log| && Replays(genesis, log[..n], acc)
    requires Blank(EntryAccount(net, genesis, a)) && EntryAccount(net, acc, a).owner == net.registry
    requires AllCaused(net, log, a)
    ensures exists k :: 0 <= k < n && Caused(net, log, k, a)
    decreases n
  {
    assert n > 0 && log[..n][n - 1] == log[n - 1];
    if !Caused(net, log, n - 1, a) {
      assert log[..n][..n - 1] == log[..n - 1];
      SomeoneRegistered(net, genesis, log, n - 1, log[n - 1].before, a);
    }
  }

  /**
   In every reachable state, a live account at the deployer address of p decodes to a deployer entry for
   p by p, with p not the zero id. It was registered, and every logged change there was made, by the
   registry on a call that an earlier execution of p itself emitted. Nothing else is ever stored there.
   */
  lemma DeployerEntriesProve(net: Net, genesis: Accounts, moves: seq<Move>, p: Id32)
    requires Sound(net) && Genesis(net, genesis) && ValidRun(net, Start(genesis), moves)
    requires Known(net, net.registry, Deployer(p))
    ensures var c := Final(Start(genesis), moves);
            var entry := EntryAt(net, c.committed, Deployer(p));
            && AllCaused(net, c.log, Deployer(p)) && LiveForCause(net, c, Deployer(p))
            && (EntryAccount(net, c.committed, Deployer(p)).owner == net.registry ==>
                  && p != IdBytes(NO_PROGRAM) && entry.Some?
                  && entry.value.kind == KIND_DEPLOYER && entry.value.programId == p && entry.value.author == p)
  {
    EntriesHaveCause(net, genesis, moves, Deployer(p));
  }

  /**
   Likewise a live account at the third-party address of p and an author decodes to that author's entry
   for p; it was registered, and every logged change there was made, by an execution of the registry whose
   call mentioned the author as signed.
   */
  lemma ThirdPartyEntriesSigned(net: Net, genesis: Accounts, moves: seq<Move>, p: Id32, author: Id32)
    requires Sound(net) && Genesis(net, genesis) && ValidRun(net, Start(genesis), moves)
    requires Known(net, net.registry, ThirdParty(p, author))
    ensures var c := Final(Start(genesis), moves);
            var entry := EntryAt(net, c.committed, ThirdParty(p, author));
            && AllCaused(net, c.log, ThirdParty(p, author)) && LiveForCause(net, c, ThirdParty(p, author))
            && (EntryAccount(net, c.committed, ThirdParty(p, author)).owner == net.registry ==>
                  && entry.Some? && entry.value.kind == KIND_THIRD_PARTY
                  && entry.value.programId == p && entry.value.author == author)
  {
    EntriesHaveCause(net, genesis, moves, ThirdParty(p, author));
  }

  // ---- the defensive guards -----------------------------------------------------------------------

  /**
   In every reachable state, an instruction about to run on the registry is never stopped by a kind
   check (codes 8 and 9) or by the comparison with the recorded author.
   */
  lemma GuardsNeverFire(net: Net, genesis: Accounts, moves: seq<Move>)
    requires Sound(net) && Genesis(net, genesis) && ValidRun(net, Start(genesis), moves)
    ensures var c := Final(Start(genesis), moves);
            c.stack != [] && c.stack[0].call.program == net.registry && Covered(net, c.stack[0].call) ==>
              Registry.Ordinary(ModelOutcome(net, c.working, c.stack[0].caller, c.stack[0].call))
  {
    var c := Final(Start(genesis), moves);
    Reached(net, genesis, moves);
    if c.stack != [] && c.stack[0].call.program == net.registry && Covered(net, c.stack[0].call) {
      var f := c.stack[0];
      match DecodeIx(f.call.data, net.utf8) {
        case None =>
        case Some(ix) => GuardsAt(net, c.working, f, ix);
      }
    }
  }

  lemma GuardsAt(net: Net, acc: Accounts, f: Frame, ix: RegistryIx)
    requires SlotsSound(net, acc) && f.call.program == net.registry && Covered(net, f.call)
    requires DecodeIx(f.call.data, net.utf8) == Some(ix)
    ensures Registry.Ordinary(Registry.Run(net, acc, f.caller, ix, f.call.mentions))
  {
    Registry.GuardsRedundant(net, acc, f.caller, ix, f.call.mentions);
  }

  // ---- history ------------------------------------------------------------------------------------

  function EntryAt(net: Net, acc: Accounts, a: Address): Option<Entry> {
    var account := Read(acc, AddressOf(net, net.registry, a));
    if account.owner == net.registry then Deserialize(account.data, net.utf8) else None
  }

  /**
   From any reachable state on, a live entry stays live, and its program, author, kind, name and
   timestamp stay as they were; its name always has 1 to 64 bytes.
   */
  lemma HistoryMonotone(net: Net, genesis: Accounts, first: seq<Move>, rest: seq<Move>, a: Address)
    requires Sound(net) && Genesis(net, genesis) && ValidRun(net, Start(genesis), first)
    requires ValidRun(net, Final(Start(genesis), first), rest)
    requires Registry.IsEntryAddress(a) && Known(net, net.registry, a)
    ensures var c := Final(Start(genesis), first);
            var earlier := EntryAt(net, c.committed, a);
            var later := EntryAt(net, Final(c, rest).committed, a);
            earlier.Some? ==>
              later.Some? && Registry.SameIdentity(earlier.value, later.value) && 1 <= |later.value.name| <= 64
  {
    var c := Final(Start(genesis), first);
    Reached(net, genesis, first);
    RunKeepsInv(net, genesis, c, rest);
    assert EntryGoesOn(net, c.committed, Final(c, rest).committed, a);
    assert Registry.Slot(net, Final(c, rest).committed, a);
  }

  /** One execution of the registry changes at most one account. */
  lemma OneAccountAStep(net: Net, genesis: Accounts, moves: seq<Move>, e: Effect, x: Id32, y: Id32)
    requires Sound(net) && Genesis(net, genesis) && ValidRun(net, Start(genesis), moves)
    requires var c := Final(Start(genesis), moves);
             Enabled(net, c, Execute(e)) && c.stack[0].call.program == net.registry
             && Read(c.working, x) != Read(e.accounts, x) && Read(c.working, y) != Read(e.accounts, y)
    ensures x == y
  {
    var c := Final(Start(genesis), moves);
    Reached(net, genesis, moves);
    Step(net, c.working, c.stack[0], e);
    match ChangeOf(net, c.stack[0].call)
    case EntryWrite(a) =>
      var data :| e.accounts == Registry.Written(net, c.working, AddressOf(net, net.registry, a), data);
    case _ =>
  }

  /**
   Updates do not check registration's bounds: a program's update of its own live entry succeeds whenever
   the entry with the new fields in place fits, and that entry then meets the bounds if and only if the
   update itself does.
   */
  lemma UpdatesIgnoreBounds(net: Net, acc: Accounts, p: ProgramId, mention: Mention, u: Update, after: Entry)
    requires Sound(net) && p != NO_PROGRAM && mention.id == AddressOf(net, net.registry, Deployer(IdBytes(p)))
    requires Registry.Slot(net, acc, Deployer(IdBytes(p))) && EntryAt(net, acc, Deployer(IdBytes(p))).Some?
    requires AllValid(net.utf8, UpdateStrings(u)) && |Serialize(after)| <= net.dataCap
    requires Registry.Replaces(EntryAt(net, acc, Deployer(IdBytes(p))).value, after, u)
    ensures var r := Registry.Run(net, acc, p, UpdateDeployer(IdBytes(p), u), [mention]);
            && r.Ok? && EntryAt(net, r.value.accounts, Deployer(IdBytes(p))) == Some(after)
            && (Registry.MetaInBounds(MetaOf(Strings(after))) <==> Registry.UpdateInBounds(u))
  {
    var a := Deployer(IdBytes(p));
    var e := EntryAt(net, acc, a).value;
    Registry.ReplacesIsUpdated(e, after, u);
    UpdateAccepted(net, acc, p, mention, e, u);
    GuestBijection(Read(acc, mention.id).data, e, net.utf8);
    Registry.UpdatedStrings(net, e, u);
    Registry.StoredReadsBack(net, after);
    Registry.BoundsAfterUpdate(e, after, u);
  }

  /** The same of third-party entries: the author's update succeeds whenever the result fits. */
  lemma ThirdPartyUpdatesIgnoreBounds(net: Net, acc: Accounts, caller: ProgramId, mentions: seq<Mention>, u: Update,
                                      after: Entry)
    requires Sound(net) && AllValid(net.utf8, UpdateStrings(u)) && |mentions| == 3 && mentions[2].signed
    requires var a := ThirdParty(mentions[1].id, mentions[2].id);
             && mentions[0].id == AddressOf(net, net.registry, a) && Registry.Slot(net, acc, a)
             && EntryAt(net, acc, a).Some? && Registry.Replaces(EntryAt(net, acc, a).value, after, u)
             && |Serialize(after)| <= net.dataCap
    ensures var a := ThirdParty(mentions[1].id, mentions[2].id);
            var r := Registry.Run(net, acc, caller, UpdateThirdParty(u), mentions);
            && r.Ok? && EntryAt(net, r.value.accounts, a) == Some(after)
            && (Registry.MetaInBounds(MetaOf(Strings(after))) <==> Registry.UpdateInBounds(u))
  {
    var e := EntryAt(net, acc, ThirdParty(mentions[1].id, mentions[2].id)).value;
    Registry.ReplacesIsUpdated(e, after, u);
    ThirdPartyUpdateAccepted(net, acc, caller, mentions, e, u);
    GuestBijection(Read(acc, mentions[0].id).data, e, net.utf8);
    Registry.UpdatedStrings(net, e, u);
    Registry.StoredReadsBack(net, after);
    Registry.BoundsAfterUpdate(e, after, u);
  }

  lemma ThirdPartyUpdateAccepted(net: Net, acc: Accounts, caller: ProgramId, mentions: seq<Mention>, e: Entry,
                                 u: Update)
    requires |mentions| == 3 && mentions[2].signed && |Serialize(Registry.Updated(e, u))| <= net.dataCap
    requires var a := ThirdParty(mentions[1].id, mentions[2].id);
             && mentions[0].id == AddressOf(net, net.registry, a) && Registry.Slot(net, acc, a)
             && EntryAt(net, acc, a) == Some(e)
    ensures Registry.Run(net, acc, caller, UpdateThirdParty(u), mentions)
         == Ok(Effect(Registry.Written(net, acc, mentions[0].id, Serialize(Registry.Updated(e, u))), []))
  {
    assert Deserialize([], net.utf8) == None;
    hide Deserialize, Serialize, AddressOf;
  }

  lemma UpdateAccepted(net: Net, acc: Accounts, p: ProgramId, mention: Mention, e: Entry, u: Update)
    requires p != NO_PROGRAM && mention.id == AddressOf(net, net.registry, Deployer(IdBytes(p)))
    requires Registry.Slot(net, acc, Deployer(IdBytes(p))) && EntryAt(net, acc, Deployer(IdBytes(p))) == Some(e)
    requires |Serialize(Registry.Updated(e, u))| <= net.dataCap
    ensures Registry.Run(net, acc, p, UpdateDeployer(IdBytes(p), u), [mention])
         == Ok(Effect(Registry.Written(net, acc, mention.id, Serialize(Registry.Updated(e, u))), []))
  {
    assert Deserialize([], net.utf8) == None;
    hide Deserialize, Serialize, AddressOf;
  }

  // ---- pointer records ------------------------------------------------------------------------------

  function RecordAt(net: Net, acc: Accounts, key: Id32): Option<seq<byte>> {
    var account := Read(acc, AddressOf(net, net.pointer, Pointer(key)));
    if account.owner == net.pointer then Some(account.data) else None
  }

  /** Records are write-once: from any reachable state on, a record stays exactly as it is, and it resolves. */
  lemma RecordsStay(net: Net, genesis: Accounts, first: seq<Move>, rest: seq<Move>, key: Id32)
    requires Sound(net) && Genesis(net, genesis) && ValidRun(net, Start(genesis), first)
    requires ValidRun(net, Final(Start(genesis), first), rest) && Known(net, net.pointer, Pointer(key))
    ensures var c := Final(Start(genesis), first);
            var record := RecordAt(net, c.committed, key);
            record.Some? ==>
              RecordAt(net, Final(c, rest).committed, key) == record && Programs.ResolveData(record.value).Some?
  {
    var c := Final(Start(genesis), first);
    Reached(net, genesis, first);
    RunKeepsInv(net, genesis, c, rest);
    assert RecordGoesOn(net, c.committed, Final(c, rest).committed, key);
    assert RecordSlot(net, c.committed, key);
  }

  /**
   The front end's resolver: derive the record's address from the pointer's key, ask the node for the
   account under its printed id, and read the value out of its data. Account data the node does not
   return, or returns empty, counts as no record.
   */
  function Resolve(net: Net, acc: Accounts, programId: string, ptr: seq<byte>): Option<seq<byte>> {
    match PdaText.PointerPda(net.sha, programId, Programs.PointerKey(ptr))
    case None => None
    case Some(pda) =>
      match AccountIds.IdBytes("Public/" + pda)
      case None => None
      case Some(asked) =>
        if |asked| != 32 || Read(acc, asked).data == [] then None else Programs.ResolveData(Read(acc, asked).data)
  }

  lemma ResolveReads(net: Net, acc: Accounts, programId: string, ptr: seq<byte>)
    requires AccountIds.IdBytes(programId) == Some(IdBytes(net.pointer))
    ensures var data := Read(acc, AddressOf(net, net.pointer, Pointer(Pad(Programs.PointerKey(ptr))))).data;
            Resolve(net, acc, programId, ptr) == if data == [] then None else Programs.ResolveData(data)
  {
    var id := AddressOf(net, net.pointer, Pointer(Pad(Programs.PointerKey(ptr))));
    PdaText.PointerPdaText(net.sha, programId, IdBytes(net.pointer), Programs.PointerKey(ptr));
    AccountIds.PrintedIdsParse(id, Base58.Encode(id));
  }

  /**
   Once a publish has run and its transaction was committed, the resolver finds the published value in
   every later state, from any pointer that has the published key: exactly as published, unless it starts
   with a byte order mark, which text decoding drops.
   */
  lemma PublishedResolves(net: Net, genesis: Accounts, first: seq<Move>, e: Effect, rest: seq<Move>, last: seq<Move>,
                          ix: Programs.PublishIx, programId: string, ptr: seq<byte>)
    requires Sound(net) && Genesis(net, genesis) && ValidRun(net, Start(genesis), first)
    requires var c := Final(Start(genesis), first);
             && Enabled(net, c, Execute(e)) && c.stack[0].call.program == net.pointer && !IsHook(c.stack[0].call)
             && Programs.DecodePublish(c.stack[0].call.data, net.utf8) == Some(ix)
    requires Programs.PointerKey(ptr) == ix.key && AccountIds.IdBytes(programId) == Some(IdBytes(net.pointer))
    requires var c := Next(Final(Start(genesis), first), Execute(e));
             StaysOpen(rest) && ValidRun(net, c, rest) && Enabled(net, Final(c, rest), Commit)
             && ValidRun(net, Next(Final(c, rest), Commit), last)
    ensures var c := Next(Final(Start(genesis), first), Execute(e));
            var c' := Final(Next(Final(c, rest), Commit), last);
            && Resolve(net, c'.committed, programId, ptr) == Some(WithoutMark(ix.value))
            && (Resolve(net, c'.committed, programId, ptr) == Some(ix.value) <==> !(BYTE_ORDER_MARK <= ix.value))
  {
    var c0 := Final(Start(genesis), first);
    var c := Next(c0, Execute(e));
    var closed := Next(Final(c, rest), Commit);
    var key := Pad(ix.key);
    Reached(net, genesis, first);
    PublishStores(net, c0.working, c0.stack[0], e, ix);
    MoveKeepsInv(net, genesis, c0, Execute(e));
    OpenGoesOn(net, genesis, c, rest);
    RunKeepsInv(net, genesis, c, rest);
    MoveKeepsInv(net, genesis, Final(c, rest), Commit);
    RunKeepsInv(net, genesis, closed, last);
    assert RecordGoesOn(net, c.working, closed.committed, key);
    assert RecordGoesOn(net, closed.committed, Final(closed, last).committed, key);
    Programs.ResolvePublished(c0.stack[0].call.mentions[1].id, ix.value);
    ResolveReads(net, Final(closed, last).committed, programId, ptr);
  }

  lemma PublishStores(net: Net, acc: Accounts, f: Frame, e: Effect, ix: Programs.PublishIx)
    requires Sound(net) && f.call.program == net.pointer && !IsHook(f.call) && MayDo(net, acc, f, e)
    requires Programs.DecodePublish(f.call.data, net.utf8) == Some(ix)
    ensures |ix.key| <= 32 && |f.call.mentions| == 2 && 1 <= |ix.value| <= 128
            && Known(net, net.pointer, Pointer(Pad(ix.key)))
    ensures RecordAt(net, e.accounts, Pad(ix.key)) == Some(Programs.RecordBytes(f.call.mentions[1].id, ix.value))
  {
  }

  /** The moves neither close the transaction nor open another. */
  predicate StaysOpen(moves: seq<Move>) {
    forall k :: 0 <= k < |moves| ==> moves[k].Execute?
  }

  /** Inside one transaction the working state only goes on. */
  lemma {:induction false} OpenGoesOn(net: Net, genesis: Accounts, c: Config, moves: seq<Move>)
    requires Sound(net) && Inv(net, genesis, c) && ValidRun(net, c, moves) && StaysOpen(moves)
    ensures GoesOn(net, c.working, Final(c, moves).working)
    decreases |moves|
  {
    if moves == [] {
      GoesOnReflexive(net, c.working);
    } else {
      var c' := Next(c, moves[0]);
      MoveKeepsInv(net, genesis, c, moves[0]);
      Step(net, c.working, c.stack[0], moves[0].effect);
      ExecutionKeeps(net, c.working, c.stack[0], moves[0].effect.accounts);
      OpenGoesOn(net, genesis, c', moves[1..]);
      GoesOnTransitive(net, c.working, c'.working, Final(c', moves[1..]).working);
    }
  }
}
