/** The chain as the programs see it: accounts, calls and what one execution may change. */
module Chain {
  import opened Bytes
  import opened Pda

  /** A program id is eight words; all zeros stands for "no program" (a call by a user). */
  type ProgramId = id: seq<u32> | |id| == 8 witness seq(8, _ => 0)

  const NO_PROGRAM: ProgramId := [0, 0, 0, 0, 0, 0, 0, 0]

  /** The program id as 32 little-endian bytes. */
  function IdBytes(p: ProgramId): Id32 {
    WordsBytes(p)
  }

  lemma IdBytesInjective(p: ProgramId, q: ProgramId)
    requires IdBytes(p) == IdBytes(q)
    ensures p == q
  {
    WordsBytesInverse(p);
    WordsBytesInverse(q);
  }

  datatype Account = Account(owner: ProgramId, balance: nat, nonce: nat, data: seq<byte>)

  const DEFAULT_ACCOUNT: Account := Account(NO_PROGRAM, 0, 0, [])

  type Accounts = map<Id32, Account>

  function Read(acc: Accounts, id: Id32): Account {
    if id in acc then acc[id] else DEFAULT_ACCOUNT
  }

  /** Deployed program ids, the unseen functions, and the byte strings hashed in the run. */
  datatype Net = Net(
    registry: ProgramId, pointer: ProgramId, testimonial: ProgramId,
    sha: Sha, utf8: seq<byte> -> bool, dataCap: nat, hashed: set<seq<byte>>)

  ghost predicate Sound(net: Net) {
    && CollisionFree(net.sha, net.hashed)
    && net.registry != net.pointer && net.registry != net.testimonial && net.pointer != net.testimonial
    && net.registry != NO_PROGRAM && net.pointer != NO_PROGRAM && net.testimonial != NO_PROGRAM
    && net.dataCap < 0x8000_0000
  }

  function AddressOf(net: Net, owner: ProgramId, a: Address): Id32 {
    AccountId(net.sha, IdBytes(owner), a)
  }

  /** The address is one the run derives, so it collides with no other such address. */
  predicate Known(net: Net, owner: ProgramId, a: Address) {
    Derived(net.sha, net.hashed, IdBytes(owner), a)
  }

  lemma AddressInjective(net: Net, o: ProgramId, a: Address, o': ProgramId, a': Address)
    requires Sound(net) && Known(net, o, a) && Known(net, o', a') && AddressOf(net, o, a) == AddressOf(net, o', a')
    ensures o == o' && a == a'
  {
    AccountIdInjective(net.sha, net.hashed, IdBytes(o), a, IdBytes(o'), a');
    IdBytesInjective(o, o');
  }

  datatype Mention = Mention(id: Id32, signed: bool)

  datatype Call = Call(program: ProgramId, data: seq<u32>, mentions: seq<Mention>)

  /** What an execution leaves behind: the accounts and the calls it wants made in its name. */
  datatype Effect = Effect(accounts: Accounts, emitted: seq<Call>)

  datatype Failure =
    | BadInstruction | BadMentions | WrongAddress | AlreadyInitialized | MissingSignature
    | Unauthorized | Undecodable | NotOwner | Custom(code: nat)

  type Outcome = Result<Effect, Failure>

  /**
   The framework's rule for an execution of program q: owner and data of an account change only if
   q owns it, or if it is unowned and empty and q claims it, which a program can do with none of
   another program's derived addresses. Balances and nonces may change freely.
   */
  ghost predicate Permitted(net: Net, q: ProgramId, pre: Accounts, post: Accounts) {
    forall id: Id32 :: MayBecome(net, q, id, Read(pre, id), Read(post, id))
  }

  ghost predicate MayBecome(net: Net, q: ProgramId, id: Id32, a: Account, b: Account) {
    || (b.owner == a.owner && b.data == a.data)
    || (a.owner == q && b.owner == q)
    || (a.owner == NO_PROGRAM && a.data == [] && b.owner == q && !ForeignAddress(net, q, id))
  }

  ghost predicate ForeignAddress(net: Net, q: ProgramId, id: Id32) {
    exists o: ProgramId, a: Address :: o != q && Known(net, o, a) && id == AddressOf(net, o, a)
  }
}
