/** The handlers of the registry and of the pointer program as they run: they rewrite the account they hold. */
module Guest {
  import opened Bytes
  import opened Pda
  import opened Chain
  import opened EntryCodec
  import opened RegistryWire
  import Registry
  import Programs

  /** An account handed to an instruction, with its id and whether its owner signed. */
  class AccountWithMetadata {
    const id: Id32
    const signed: bool
    var account: Account

    constructor (id: Id32, signed: bool, account: Account)
      ensures this.id == id && this.signed == signed && this.account == account
    {
      this.id, this.signed, this.account := id, signed, account;
    }

    function Mentioned(): Mention {
      Mention(id, signed)
    }
  }

  method ProgramIdBytes(id: ProgramId) returns (out: array<byte>)
    ensures fresh(out) && out[..] == IdBytes(id)
  {
    out := new byte[32](_ => 0);
    var i := 0;
    while i < 8
      invariant 0 <= i <= 8 && out[..4 * i] == WordsBytes(id)[..4 * i]
    {
      var le := WordBytes(id[i]);
      WordsBytesAt(id, i);
      out[4 * i], out[4 * i + 1], out[4 * i + 2], out[4 * i + 3] := le[0], le[1], le[2], le[3];
      assert out[..4 * i + 4] == out[..4 * i] + le;
      assert WordsBytes(id)[..4 * i + 4] == WordsBytes(id)[..4 * i] + WordsBytes(id)[4 * i .. 4 * i + 4];
      i := i + 1;
    }
    assert out[..32] == out[..] && WordsBytes(id)[..32] == IdBytes(id);
  }

  method ProgramIdFromBytes(b: Id32) returns (id: array<u32>)
    ensures fresh(id) && id[..] == Programs.ProgramIdFromBytes(b)
  {
    id := new u32[8](_ => 0);
    var i := 0;
    while i < 8
      invariant 0 <= i <= 8 && id[..i] == BytesWords(b)[..i]
    {
      BytesWordsAt(b, i);
      id[i] := BytesWord(b[4 * i], b[4 * i + 1], b[4 * i + 2], b[4 * i + 3]);
      i := i + 1;
    }
    assert id[..8] == id[..] && BytesWords(b)[..8] == BytesWords(b);
  }

  lemma {:induction false} BytesWordsAt(b: seq<byte>, i: nat)
    requires 4 * i + 4 <= |b|
    ensures BytesWords(b)[i] == BytesWord(b[4 * i], b[4 * i + 1], b[4 * i + 2], b[4 * i + 3])
  {
    if i > 0 {
      BytesWordsAt(b[4..], i - 1);
    }
  }

  /** The handler's result and the bytes it left in the account are what one execution of the model does. */
  predicate Agrees(net: Net, acc: Accounts, before: Account, id: Id32, after: Account, failure: Option<Failure>,
                   outcome: Outcome)
  {
    match failure
    case Some(f) => outcome == Err(f) && after == before
    case None => after == before.(data := after.data)
                 && outcome == Ok(Effect(Registry.Written(net, acc, id, after.data), []))
  }

  method WriteEntry(net: Net, entry: AccountWithMetadata, state: Entry) returns (failure: Option<Failure>)
    modifies entry`account
    ensures match Registry.EntryData(net, state)
            case Ok(bytes) => failure == None && entry.account == old(entry.account).(data := bytes)
            case Err(f) => failure == Some(f) && entry.account == old(entry.account)
  {
    var bytes := Serialize(state);
    if |bytes| > net.dataCap {
      return Some(Custom(7));
    }
    entry.account := entry.account.(data := bytes);
    failure := None;
  }

  /** The framework has checked the address and that the account is unused. */
  method RegisterDeployer(net: Net, ghost acc: Accounts, caller: ProgramId, entry: AccountWithMetadata,
                          program: Id32, m: Meta, at: u64)
    returns (failure: Option<Failure>)
    requires entry.id == AddressOf(net, net.registry, Deployer(program))
    requires entry.account == DEFAULT_ACCOUNT == Read(acc, entry.id)
    modifies entry`account
    ensures Agrees(net, acc, old(entry.account), entry.id, entry.account, failure,
                   Registry.RegisterDeployerExec(net, acc, caller, [entry.Mentioned()], program, m, at))
  {
    if caller == NO_PROGRAM {
      return Some(Unauthorized);
    }
    var callerBytes := ProgramIdBytes(caller);
    if callerBytes[..] != program {
      return Some(Unauthorized);
    }
    if Registry.Validate(m) != 0 {
      return Some(Custom(Registry.Validate(m)));
    }
    failure := WriteEntry(net, entry, Registry.NewEntry(program, callerBytes[..], KIND_DEPLOYER, m, at));
  }

  method RegisterThirdParty(net: Net, ghost acc: Accounts, entry: AccountWithMetadata, program: AccountWithMetadata,
                            author: AccountWithMetadata, m: Meta, at: u64)
    returns (failure: Option<Failure>)
    requires entry.id == AddressOf(net, net.registry, ThirdParty(program.id, author.id)) && author.signed
    requires entry.account == DEFAULT_ACCOUNT == Read(acc, entry.id)
    modifies entry`account
    ensures Agrees(net, acc, old(entry.account), entry.id, entry.account, failure,
                   Registry.RegisterThirdPartyExec(
                     net, acc, [entry.Mentioned(), program.Mentioned(), author.Mentioned()], m, at))
  {
    if Registry.Validate(m) != 0 {
      return Some(Custom(Registry.Validate(m)));
    }
    failure := WriteEntry(net, entry, Registry.NewEntry(program.id, author.id, KIND_THIRD_PARTY, m, at));
  }

  /** Field by field, as the update handlers assign them. */
  method Assign(state: Entry, u: Update) returns (updated: Entry)
    ensures updated == Registry.Updated(state, u)
  {
    updated := state;
    updated := updated.(version := u.version);
    updated := updated.(description := u.description);
    updated := updated.(tags := u.tags);
    updated := updated.(idlCid := u.idlCid);
    updated := updated.(sourceCid := u.sourceCid);
    updated := updated.(repoUrl := u.repoUrl);
    updated := updated.(commit := u.commit);
    updated := updated.(buildConfig := u.buildConfig);
  }

  /** The framework has checked the address, which can only hold an entry of the registry or nothing. */
  method UpdateDeployer(net: Net, ghost acc: Accounts, caller: ProgramId, entry: AccountWithMetadata, program: Id32,
                        u: Update)
    returns (failure: Option<Failure>)
    requires entry.id == AddressOf(net, net.registry, Deployer(program))
    requires entry.account == Read(acc, entry.id) && (entry.account.owner == net.registry || entry.account.data == [])
    modifies entry`account
    ensures Agrees(net, acc, old(entry.account), entry.id, entry.account, failure,
                   Registry.UpdateDeployerExec(net, acc, caller, [entry.Mentioned()], program, u))
  {
    var decoded := Deserialize(entry.account.data, net.utf8);
    if decoded.None? {
      return Some(Undecodable);
    }
    var state := decoded.value;
    if state.kind != KIND_DEPLOYER {
      return Some(Custom(8));
    }
    var callerBytes := ProgramIdBytes(caller);
    if caller == NO_PROGRAM || callerBytes[..] != program {
      return Some(Unauthorized);
    }
    state := Assign(state, u);
    failure := WriteEntry(net, entry, state);
  }

  method UpdateThirdParty(net: Net, ghost acc: Accounts, entry: AccountWithMetadata, program: AccountWithMetadata,
                          author: AccountWithMetadata, u: Update)
    returns (failure: Option<Failure>)
    requires entry.id == AddressOf(net, net.registry, ThirdParty(program.id, author.id)) && author.signed
    requires entry.account == Read(acc, entry.id) && (entry.account.owner == net.registry || entry.account.data == [])
    modifies entry`account
    ensures Agrees(net, acc, old(entry.account), entry.id, entry.account, failure,
                   Registry.UpdateThirdPartyExec(
                     net, acc, [entry.Mentioned(), program.Mentioned(), author.Mentioned()], u))
  {
    var decoded := Deserialize(entry.account.data, net.utf8);
    if decoded.None? {
      return Some(Undecodable);
    }
    var state := decoded.value;
    if state.kind != KIND_THIRD_PARTY {
      return Some(Custom(9));
    }
    if author.id != state.author {
      return Some(Custom(13));
    }
    state := Assign(state, u);
    failure := WriteEntry(net, entry, state);
  }

  /** The pointer program's publish; the framework has checked the address, that it is unused, and the signature. */
  method Publish(net: Net, ghost acc: Accounts, record: AccountWithMetadata, publisher: AccountWithMetadata,
                 key: seq<byte>, value: seq<byte>)
    returns (failure: Option<Failure>)
    requires |key| <= 32 && record.id == AddressOf(net, net.pointer, Pointer(Pad(key))) && publisher.signed
    requires record.account == DEFAULT_ACCOUNT == Read(acc, record.id)
    modifies record`account
    ensures var r := Programs.PublishExec(net, acc, Programs.PublishIx(key, value),
                                          [record.Mentioned(), publisher.Mentioned()]);
            match failure
            case Some(f) => r == Err(f) && record.account == old(record.account)
            case None => r == Ok(Effect(acc[record.id := record.account.(owner := net.pointer)], []))
  {
    if key == [] || |key| > 32 {
      return Some(Custom(1));
    }
    if value == [] || |value| > 128 {
      return Some(Custom(2));
    }
    var bytes := Programs.RecordBytes(publisher.id, value);
    if |bytes| > net.dataCap {
      return Some(Custom(3));
    }
    record.account := record.account.(data := bytes);
    failure := None;
  }
}
