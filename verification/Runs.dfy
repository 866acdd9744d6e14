/**
 Runs of the chain: transactions made of top-level and chained calls, executed depth first, all or
 nothing. The registry, the pointer program and the self-registration hooks behave as modelled;
 every other program may do whatever the framework permits and emit any calls.
 */
module Runs {
  import opened Bytes
  import opened Pda
  import opened Chain
  import opened EntryCodec
  import opened RegistryWire
  import Registry
  import Programs

  /** A call waiting to run: who makes it, and which logged execution emitted it (-1 for a user). */
  datatype Frame = Frame(caller: ProgramId, call: Call, parent: int)

  datatype Event = Event(frame: Frame, before: Accounts, after: Accounts, emitted: seq<Call>)

  datatype Config = Config(
    committed: Accounts, working: Accounts, stack: seq<Frame>, busy: bool, log: seq<Event>, base: nat)

  datatype Move = Begin(call: Call) | Execute(effect: Effect) | Fail | Commit

  // ---- one execution ------------------------------------------------------------------------

  predicate IsHook(call: Call) {
    call.data != [] && (call.data[0] == 1 || call.data[0] == 2)
  }

  /** The calls whose outcome the model determines. */
  predicate Modelled(net: Net, call: Call) {
    call.program == net.registry || call.program == net.pointer || (call.program == net.testimonial && IsHook(call))
  }

  function HookOutcome(net: Net, acc: Accounts, call: Call): Outcome {
    match Programs.DecodeHook(call.data, net.utf8)
    case None => Err(BadInstruction)
    case Some(ix) => Programs.HookExec(net, call.program, acc, ix, call.mentions)
  }

  function PublishOutcome(net: Net, acc: Accounts, call: Call): Outcome {
    match Programs.DecodePublish(call.data, net.utf8)
    case None => Err(BadInstruction)
    case Some(ix) => Programs.PublishExec(net, acc, ix, call.mentions)
  }

  function ModelOutcome(net: Net, acc: Accounts, caller: ProgramId, call: Call): Outcome
    requires Modelled(net, call)
  {
    if call.program == net.registry then Registry.Exec(net, acc, caller, call.data, call.mentions)
    else if IsHook(call) then HookOutcome(net, acc, call)
    else PublishOutcome(net, acc, call)
  }

  /** What a call may write, as far as the model knows. */
  datatype Change = Nothing | EntryWrite(address: Address) | RecordWrite(key: Id32) | Free

  function ChangeOf(net: Net, call: Call): Change {
    if call.program == net.registry then
      match Registry.Target(call.data, call.mentions, net.utf8)
      case None => Nothing
      case Some(a) => EntryWrite(a)
    else if !Modelled(net, call) then Free
    else if IsHook(call) then Nothing
    else
      match Programs.DecodePublish(call.data, net.utf8)
      case None => Nothing
      case Some(ix) => if |ix.key| <= 32 then RecordWrite(Pad(ix.key)) else Nothing
  }

  /** The run's set of hashed strings covers the address the call derives. */
  predicate Covered(net: Net, call: Call) {
    match ChangeOf(net, call)
    case EntryWrite(a) => Known(net, net.registry, a)
    case RecordWrite(key) => Known(net, net.pointer, Pointer(key))
    case _ => true
  }

  ghost predicate MayDo(net: Net, acc: Accounts, f: Frame, e: Effect) {
    if Modelled(net, f.call) then Covered(net, f.call) && ModelOutcome(net, acc, f.caller, f.call) == Ok(e)
    else f.call.program != NO_PROGRAM && Permitted(net, f.call.program, acc, e.accounts)
  }

  predicate MayFail(net: Net, acc: Accounts, f: Frame) {
    Modelled(net, f.call) ==> ModelOutcome(net, acc, f.caller, f.call).Err?
  }

  // ---- transitions ----------------------------------------------------------------------------

  function Spawn(program: ProgramId, calls: seq<Call>, parent: int): seq<Frame> {
    if calls == [] then [] else [Frame(program, calls[0], parent)] + Spawn(program, calls[1..], parent)
  }

  ghost predicate Enabled(net: Net, c: Config, m: Move) {
    match m
    case Begin(_) => !c.busy
    case Execute(e) => c.busy && c.stack != [] && MayDo(net, c.working, c.stack[0], e)
    case Fail => c.busy && c.stack != [] && MayFail(net, c.working, c.stack[0])
    case Commit => c.busy && c.stack == []
  }

  function Next(c: Config, m: Move): Config {
    match m
    case Begin(call) =>
      c.(working := c.committed, stack := [Frame(NO_PROGRAM, call, -1)], busy := true, base := |c.log|)
    case Execute(e) =>
      if c.stack == [] then c
      else c.(working := e.accounts,
              stack := Spawn(c.stack[0].call.program, e.emitted, |c.log|) + c.stack[1..],
              log := c.log + [Event(c.stack[0], c.working, e.accounts, e.emitted)])
    case Fail =>
      c.(working := c.committed, stack := [], busy := false,
         log := if c.base <= |c.log| then c.log[..c.base] else c.log)
    case Commit => c.(committed := c.working, busy := false)
  }

  function Start(acc: Accounts): Config {
    Config(acc, acc, [], false, [], 0)
  }

  function Final(c: Config, moves: seq<Move>): Config
    decreases |moves|
  {
    if moves == [] then c else Final(Next(c, moves[0]), moves[1..])
  }

  ghost predicate ValidRun(net: Net, c: Config, moves: seq<Move>)
    decreases |moves|
  {
    moves == [] || (Enabled(net, c, moves[0]) && ValidRun(net, Next(c, moves[0]), moves[1..]))
  }

  // ---- invariants -------------------------------------------------------------------------------

  /** A pointer address is untouched, or holds a record of the pointer program that resolves. */
  predicate RecordSlot(net: Net, acc: Accounts, key: Id32) {
    var account := Read(acc, AddressOf(net, net.pointer, Pointer(key)));
    (account.owner == net.pointer && GoodRecord(account.data)) || Blank(account)
  }

  predicate GoodRecord(data: seq<byte>) {
    var value := Programs.RecordValue(data);
    value.Some? && 1 <= |value.value| <= 128
  }

  predicate Blank(a: Account) {
    a.owner == NO_PROGRAM && a.data == []
  }

  /** A record once written stays as it is. */
  predicate RecordKept(net: Net, before: Account, after: Account) {
    before.owner == net.pointer ==> after.owner == net.pointer && after.data == before.data
  }

  ghost predicate SlotsSound(net: Net, acc: Accounts) {
    && (forall a :: Registry.IsEntryAddress(a) && Known(net, net.registry, a) ==> Registry.Slot(net, acc, a))
    && (forall key :: Known(net, net.pointer, Pointer(key)) ==> RecordSlot(net, acc, key))
  }

  /** Every entry and every record of the first state goes on in the second. */
  ghost predicate GoesOn(net: Net, acc: Accounts, acc': Accounts) {
    && (forall a :: Registry.IsEntryAddress(a) && Known(net, net.registry, a) ==> EntryGoesOn(net, acc, acc', a))
    && (forall key :: Known(net, net.pointer, Pointer(key)) ==> RecordGoesOn(net, acc, acc', key))
  }

  predicate EntryGoesOn(net: Net, acc: Accounts, acc': Accounts, a: Address) {
    var id := AddressOf(net, net.registry, a);
    Registry.Continues(net, Read(acc, id), Read(acc', id))
  }

  predicate RecordGoesOn(net: Net, acc: Accounts, acc': Accounts, key: Id32) {
    var id := AddressOf(net, net.pointer, Pointer(key));
    RecordKept(net, Read(acc, id), Read(acc', id))
  }

  predicate Untouched(before: Account, after: Account) {
    after.owner == before.owner && after.data == before.data
  }

  /** Who may write an entry: the described program itself, or the author who signed. */
  predicate Allows(f: Frame, a: Address) {
    match a
    case Deployer(p) => f.caller != NO_PROGRAM && IdBytes(f.caller) == p
    case ThirdParty(_, author) => Mention(author, true) in f.call.mentions
    case Pointer(_) => false
  }

  /** Event k is an execution of the registry that may write a; for a deployer entry, on an emitted call. */
  predicate Caused(net: Net, log: seq<Event>, k: nat, a: Address)
    requires k < |log|
  {
    var f := log[k].frame;
    f.call.program == net.registry && Allows(f, a) && (a.Deployer? ==> Emitted(log, f, k))
  }

  predicate Proven(net: Net, log: seq<Event>, k: nat, a: Address)
    requires k < |log|
  {
    var id := AddressOf(net, net.registry, a);
    Untouched(Read(log[k].before, id), Read(log[k].after, id)) || Caused(net, log, k, a)
  }

  ghost predicate ProvenWrite(net: Net, log: seq<Event>, k: nat)
    requires k < |log|
  {
    forall a :: Registry.IsEntryAddress(a) && Known(net, net.registry, a) ==> Proven(net, log, k, a)
  }

  /** The frame's call is among those an earlier logged execution of its caller emitted. */
  predicate Emitted(log: seq<Event>, f: Frame, k: int)
    requires k <= |log|
  {
    0 <= f.parent < k && log[f.parent].frame.call.program == f.caller && f.call in log[f.parent].emitted
  }

  predicate FrameTraced(log: seq<Event>, f: Frame) {
    (f.caller == NO_PROGRAM && f.parent == -1) || Emitted(log, f, |log|)
  }

  ghost predicate LogProven(net: Net, log: seq<Event>) {
    forall k :: 0 <= k < |log| ==> ProvenWrite(net, log, k)
  }

  /** The log replays the accounts: each event starts where the one before ended. */
  predicate Replays(genesis: Accounts, log: seq<Event>, acc: Accounts) {
    if log == [] then acc == genesis
    else log[|log| - 1].after == acc && Replays(genesis, log[..|log| - 1], log[|log| - 1].before)
  }

  /** What is stored is sound, and the open transaction only continues what is committed. */
  ghost predicate StateInv(net: Net, c: Config) {
    SlotsSound(net, c.committed) && SlotsSound(net, c.working) && GoesOn(net, c.committed, c.working)
  }

  /** Every logged change at an entry address is proven, and every waiting call has its caller in the log. */
  ghost predicate LogInv(net: Net, c: Config) {
    LogProven(net, c.log) && StackTraced(c.log, c.stack)
  }

  predicate StackTraced(log: seq<Event>, stack: seq<Frame>) {
    forall k :: 0 <= k < |stack| ==> FrameTraced(log, stack[k])
  }

  /** The log explains the accounts, from the first state on. */
  predicate ReplayInv(genesis: Accounts, c: Config) {
    if c.busy then
      c.base <= |c.log| && Replays(genesis, c.log[..c.base], c.committed) && Replays(genesis, c.log, c.working)
    else
      c.stack == [] && Replays(genesis, c.log, c.committed)
  }

  ghost predicate Inv(net: Net, genesis: Accounts, c: Config) {
    StateInv(net, c) && LogInv(net, c) && ReplayInv(genesis, c)
  }

  /** Nothing is stored at the derived addresses yet. */
  ghost predicate Genesis(net: Net, acc: Accounts) {
    && (forall a :: Registry.IsEntryAddress(a) && Known(net, net.registry, a) ==>
          Blank(Read(acc, AddressOf(net, net.registry, a))))
    && (forall key :: Known(net, net.pointer, Pointer(key)) ==>
          Blank(Read(acc, AddressOf(net, net.pointer, Pointer(key)))))
  }

  // ---- one execution keeps the slots ------------------------------------------------------------

  /** Accounts a write at one owner's address leaves alone. */
  lemma OtherAddress(net: Net, acc: Accounts, o: ProgramId, a: Address, o': ProgramId, a': Address, value: Account)
    requires Sound(net) && Known(net, o, a) && Known(net, o', a') && (o != o' || a != a')
    ensures Read(acc[AddressOf(net, o', a') := value], AddressOf(net, o, a)) == Read(acc, AddressOf(net, o, a))
  {
    if AddressOf(net, o, a) == AddressOf(net, o', a') {
      AddressInjective(net, o, a, o', a');
    }
  }

  /** A program that does not own an address cannot change what is there. */
  lemma ForeignKept(net: Net, q: ProgramId, pre: Accounts, post: Accounts, o: ProgramId, a: Address)
    requires Permitted(net, q, pre, post) && o != q && Known(net, o, a)
    requires Read(pre, AddressOf(net, o, a)).owner != q
    ensures Untouched(Read(pre, AddressOf(net, o, a)), Read(post, AddressOf(net, o, a)))
  {
    var id := AddressOf(net, o, a);
    assert MayBecome(net, q, id, Read(pre, id), Read(post, id));
    assert ForeignAddress(net, q, id);
  }

  /** The only effect on accounts: a readable record stored where nothing was. */
  ghost predicate WritesRecord(net: Net, acc: Accounts, post: Accounts, key: Id32) {
    var id := AddressOf(net, net.pointer, Pointer(key));
    Blank(Read(acc, id)) && exists account: Account ::
      account.owner == net.pointer && GoodRecord(account.data) && post == acc[id := account]
  }

  /** What an execution does, by the kind of its call. */
  ghost predicate StepIs(net: Net, acc: Accounts, f: Frame, post: Accounts) {
    match ChangeOf(net, f.call)
    case Nothing => post == acc
    case EntryWrite(a) =>
      && f.call.program == net.registry && Registry.IsEntryAddress(a) && Known(net, net.registry, a)
      && Registry.WritesEntry(net, acc, post, a)
      && Allows(f, a)
    case RecordWrite(key) => Known(net, net.pointer, Pointer(key)) && WritesRecord(net, acc, post, key)
    case Free =>
      && f.call.program != net.registry && f.call.program != net.pointer && f.call.program != NO_PROGRAM
      && Permitted(net, f.call.program, acc, post)
  }

  lemma PublishWrites(net: Net, acc: Accounts, ix: Programs.PublishIx, mentions: seq<Mention>)
    requires Programs.PublishExec(net, acc, ix, mentions).Ok?
    ensures |ix.key| <= 32
            && WritesRecord(net, acc, Programs.PublishExec(net, acc, ix, mentions).value.accounts, Pad(ix.key))
  {
    Programs.ResolvePublished(mentions[1].id, ix.value);
    var account := Account(net.pointer, 0, 0, Programs.RecordBytes(mentions[1].id, ix.value));
    assert GoodRecord(account.data);
  }

  lemma RegistryStep(net: Net, acc: Accounts, f: Frame, e: Effect)
    requires Sound(net) && SlotsSound(net, acc) && f.call.program == net.registry && MayDo(net, acc, f, e)
    ensures StepIs(net, acc, f, e.accounts)
  {
    var ix := DecodeIx(f.call.data, net.utf8).value;
    DecodedValid(f.call.data, net.utf8);
    Registry.RunEffect(net, acc, f.caller, ix, f.call.mentions);
  }

  lemma PointerStep(net: Net, acc: Accounts, f: Frame, e: Effect)
    requires f.call.program != net.registry && Modelled(net, f.call) && !IsHook(f.call) && MayDo(net, acc, f, e)
    ensures StepIs(net, acc, f, e.accounts)
  {
    PublishWrites(net, acc, Programs.DecodePublish(f.call.data, net.utf8).value, f.call.mentions);
  }

  lemma HookStep(net: Net, acc: Accounts, f: Frame, e: Effect)
    requires f.call.program != net.registry && Modelled(net, f.call) && IsHook(f.call) && MayDo(net, acc, f, e)
    ensures StepIs(net, acc, f, e.accounts)
  {
  }

  lemma Step(net: Net, acc: Accounts, f: Frame, e: Effect)
    requires Sound(net) && SlotsSound(net, acc) && MayDo(net, acc, f, e)
    ensures StepIs(net, acc, f, e.accounts)
  {
    if f.call.program == net.registry {
      RegistryStep(net, acc, f, e);
    } else if Modelled(net, f.call) {
      if IsHook(f.call) { HookStep(net, acc, f, e); } else { PointerStep(net, acc, f, e); }
    }
  }

  /** What one execution may do to an entry address. */
  predicate EntryStepOk(net: Net, acc: Accounts, f: Frame, post: Accounts, a: Address) {
    var id := AddressOf(net, net.registry, a);
    && Registry.Slot(net, post, a) && EntryGoesOn(net, acc, post, a)
    && (Untouched(Read(acc, id), Read(post, id)) || (f.call.program == net.registry && Allows(f, a)))
  }

  lemma UntouchedEntry(net: Net, acc: Accounts, f: Frame, post: Accounts, a: Address)
    requires Sound(net) && Registry.Slot(net, acc, a)
    requires Untouched(Read(acc, AddressOf(net, net.registry, a)), Read(post, AddressOf(net, net.registry, a)))
    ensures EntryStepOk(net, acc, f, post, a)
  {
  }

  lemma EntryStep(net: Net, acc: Accounts, f: Frame, post: Accounts, a: Address)
    requires Sound(net) && Registry.Slot(net, acc, a) && StepIs(net, acc, f, post) && Known(net, net.registry, a)
    ensures EntryStepOk(net, acc, f, post, a)
  {
    match ChangeOf(net, f.call)
    case Nothing => UntouchedEntry(net, acc, f, post, a);
    case EntryWrite(b) =>
      if a != b {
        var data :| post == Registry.Written(net, acc, AddressOf(net, net.registry, b), data);
        OtherAddress(net, acc, net.registry, a, net.registry, b,
                     Read(acc, AddressOf(net, net.registry, b)).(owner := net.registry, data := data));
        UntouchedEntry(net, acc, f, post, a);
      }
    case RecordWrite(key) =>
      var account: Account :| post == acc[AddressOf(net, net.pointer, Pointer(key)) := account];
      OtherAddress(net, acc, net.registry, a, net.pointer, Pointer(key), account);
      UntouchedEntry(net, acc, f, post, a);
    case Free =>
      ForeignKept(net, f.call.program, acc, post, net.registry, a);
      UntouchedEntry(net, acc, f, post, a);
  }

  lemma RecordStep(net: Net, acc: Accounts, f: Frame, post: Accounts, key: Id32)
    requires Sound(net) && RecordSlot(net, acc, key) && StepIs(net, acc, f, post)
             && Known(net, net.pointer, Pointer(key))
    ensures RecordSlot(net, post, key) && RecordGoesOn(net, acc, post, key)
  {
    match ChangeOf(net, f.call)
    case Nothing =>
    case EntryWrite(b) =>
      var data :| post == Registry.Written(net, acc, AddressOf(net, net.registry, b), data);
      OtherAddress(net, acc, net.pointer, Pointer(key), net.registry, b,
                   Read(acc, AddressOf(net, net.registry, b)).(owner := net.registry, data := data));
    case RecordWrite(other) =>
      var account: Account :| account.owner == net.pointer && GoodRecord(account.data)
                     && post == acc[AddressOf(net, net.pointer, Pointer(other)) := account];
      if other != key {
        OtherAddress(net, acc, net.pointer, Pointer(key), net.pointer, Pointer(other), account);
      }
    case Free => ForeignKept(net, f.call.program, acc, post, net.pointer, Pointer(key));
  }

  /** One execution of any program keeps every slot sound and every entry and record going. */
  lemma ExecutionKeeps(net: Net, acc: Accounts, f: Frame, post: Accounts)
    requires Sound(net) && SlotsSound(net, acc) && StepIs(net, acc, f, post)
    ensures SlotsSound(net, post) && GoesOn(net, acc, post)
  {
    forall a | Registry.IsEntryAddress(a) && Known(net, net.registry, a)
      ensures Registry.Slot(net, post, a) && EntryGoesOn(net, acc, post, a)
    {
      EntryStep(net, acc, f, post, a);
    }
    forall key | Known(net, net.pointer, Pointer(key))
      ensures RecordSlot(net, post, key) && RecordGoesOn(net, acc, post, key)
    {
      RecordStep(net, acc, f, post, key);
    }
  }

  lemma GoesOnTransitive(net: Net, a: Accounts, b: Accounts, c: Accounts)
    requires GoesOn(net, a, b) && GoesOn(net, b, c)
    ensures GoesOn(net, a, c)
  {
    forall x | Registry.IsEntryAddress(x) && Known(net, net.registry, x)
      ensures EntryGoesOn(net, a, c, x)
    {
      assert EntryGoesOn(net, a, b, x) && EntryGoesOn(net, b, c, x);
    }
    forall key | Known(net, net.pointer, Pointer(key))
      ensures RecordGoesOn(net, a, c, key)
    {
      assert RecordGoesOn(net, a, b, key) && RecordGoesOn(net, b, c, key);
    }
  }

  lemma GoesOnReflexive(net: Net, acc: Accounts)
    requires Sound(net) && SlotsSound(net, acc)
    ensures GoesOn(net, acc, acc)
  {
  }

  // ---- every move keeps the invariant -------------------------------------------------------------

  lemma {:induction false} SpawnTraced(program: ProgramId, calls: seq<Call>, log: seq<Event>, parent: nat)
    requires parent < |log| && log[parent].frame.call.program == program
    requires forall call :: call in calls ==> call in log[parent].emitted
    ensures StackTraced(log, Spawn(program, calls, parent))
  {
    if calls != [] {
      SpawnTraced(program, calls[1..], log, parent);
    }
  }

  lemma TracedMore(log: seq<Event>, e: Event, f: Frame)
    requires FrameTraced(log, f)
    ensures FrameTraced(log + [e], f)
  {
  }

  lemma ProvenMore(net: Net, log: seq<Event>, e: Event)
    requires LogProven(net, log)
    requires ProvenWrite(net, log + [e], |log|)
    ensures LogProven(net, log + [e])
  {
    forall k | 0 <= k < |log| + 1
      ensures ProvenWrite(net, log + [e], k)
    {
      if k < |log| {
        assert ProvenWrite(net, log, k);
        forall a | Registry.IsEntryAddress(a) && Known(net, net.registry, a)
          ensures Proven(net, log + [e], k, a)
        {
          assert Proven(net, log, k, a);
        }
      }
    }
  }

  lemma ProvenLess(net: Net, log: seq<Event>, n: nat)
    requires LogProven(net, log) && n <= |log|
    ensures LogProven(net, log[..n])
  {
    forall k | 0 <= k < n
      ensures ProvenWrite(net, log[..n], k)
    {
      assert ProvenWrite(net, log, k);
      forall a | Registry.IsEntryAddress(a) && Known(net, net.registry, a)
        ensures Proven(net, log[..n], k, a)
      {
        assert Proven(net, log, k, a);
      }
    }
  }

  /** The new event's change at an entry address, if any, is proven. */
  lemma EventProven(net: Net, c: Config, e: Effect, a: Address)
    requires Sound(net) && SlotsSound(net, c.working) && c.stack != [] && FrameTraced(c.log, c.stack[0])
    requires StepIs(net, c.working, c.stack[0], e.accounts) && Registry.IsEntryAddress(a) && Known(net, net.registry, a)
    ensures Proven(net, c.log + [Event(c.stack[0], c.working, e.accounts, e.emitted)], |c.log|, a)
  {
    EntryStep(net, c.working, c.stack[0], e.accounts, a);
    FrameStays(c.log, Event(c.stack[0], c.working, e.accounts, e.emitted), c.stack[0]);
  }

  lemma FrameStays(log: seq<Event>, e: Event, f: Frame)
    requires FrameTraced(log, f)
    ensures f.caller == NO_PROGRAM || Emitted(log + [e], f, |log|)
  {
  }

  lemma ExecuteKeepsLog(net: Net, c: Config, e: Effect)
    requires Sound(net) && SlotsSound(net, c.working) && LogInv(net, c) && c.stack != []
    requires StepIs(net, c.working, c.stack[0], e.accounts)
    ensures LogInv(net, Next(c, Execute(e)))
  {
    var f := c.stack[0];
    var event := Event(f, c.working, e.accounts, e.emitted);
    var log := c.log + [event];
    assert FrameTraced(c.log, f);
    forall a | Registry.IsEntryAddress(a) && Known(net, net.registry, a)
      ensures Proven(net, log, |c.log|, a)
    {
      EventProven(net, c, e, a);
    }
    ProvenMore(net, c.log, event);
    SpawnTraced(f.call.program, e.emitted, log, |c.log|);
    forall k | 0 <= k < |c.stack|
      ensures FrameTraced(log, c.stack[k])
    {
      assert FrameTraced(c.log, c.stack[k]);
      TracedMore(c.log, event, c.stack[k]);
    }
  }

  lemma ReplayKept(genesis: Accounts, c: Config, m: Move)
    requires ReplayInv(genesis, c) && (m.Begin? ==> !c.busy) && (m.Fail? || m.Commit? ==> c.busy)
    requires m.Execute? ==> c.busy && c.stack != []
    requires m.Commit? ==> c.stack == []
    ensures ReplayInv(genesis, Next(c, m))
  {
    var c' := Next(c, m);
    match m
    case Begin(_) => assert c.log[..|c.log|] == c.log;
    case Execute(e) =>
      assert c'.log[..|c'.log| - 1] == c.log && c'.log[..c.base] == c.log[..c.base];
    case Fail =>
    case Commit =>
  }

  /** Every move, of any program, keeps the invariant. */
  lemma MoveKeepsInv(net: Net, genesis: Accounts, c: Config, m: Move)
    requires Sound(net) && Inv(net, genesis, c) && Enabled(net, c, m)
    ensures Inv(net, genesis, Next(c, m)) && GoesOn(net, c.committed, Next(c, m).committed)
  {
    ReplayKept(genesis, c, m);
    GoesOnReflexive(net, c.committed);
    match m
    case Begin(_) =>
    case Execute(e) =>
      Step(net, c.working, c.stack[0], e);
      ExecutionKeeps(net, c.working, c.stack[0], e.accounts);
      GoesOnTransitive(net, c.committed, c.working, e.accounts);
      ExecuteKeepsLog(net, c, e);
    case Fail =>
      ProvenLess(net, c.log, c.base);
    case Commit =>
      GoesOnReflexive(net, c.working);
  }

  /** The invariant holds all along a run, and every entry and record goes on. */
  lemma {:induction false} RunKeepsInv(net: Net, genesis: Accounts, c: Config, moves: seq<Move>)
    requires Sound(net) && Inv(net, genesis, c) && ValidRun(net, c, moves)
    ensures Inv(net, genesis, Final(c, moves)) && GoesOn(net, c.committed, Final(c, moves).committed)
    decreases |moves|
  {
    if moves == [] {
      GoesOnReflexive(net, c.committed);
    } else {
      var c' := Next(c, moves[0]);
      MoveKeepsInv(net, genesis, c, moves[0]);
      RunKeepsInv(net, genesis, c', moves[1..]);
      GoesOnTransitive(net, c.committed, c'.committed, Final(c', moves[1..]).committed);
    }
  }

  lemma GenesisInv(net: Net, acc: Accounts)
    requires Sound(net) && Genesis(net, acc)
    ensures Inv(net, acc, Start(acc))
  {
    GoesOnReflexive(net, acc);
  }
}
