/**
 Program-derived addresses. SHA-256 is a parameter; a set of byte strings on which it has no
 collision stands for the inputs hashed in the runs under consideration.
 */
module Pda {
  import opened Bytes

  type Sha = seq<byte> -> Id32

  ghost predicate CollisionFree(sha: Sha, inputs: set<seq<byte>>) {
    forall x, y :: x in inputs && y in inputs && sha(x) == sha(y) ==> x == y
  }

  function ZeroPad(n: nat): (z: seq<byte>)
    ensures |z| == n && forall k :: 0 <= k < n ==> z[k] == 0
  {
    seq(n, _ => 0)
  }

  /** UTF-8 bytes zero-padded to a 32-byte seed. */
  function Pad(s: seq<byte>): Id32
    requires |s| <= 32
  {
    s + ZeroPad(32 - |s|)
  }

  /** A text's bytes at the front of a seed, zeros behind them. */
  predicate PaddedWith(seed: Id32, src: seq<byte>) {
    |src| <= 32 && seed[..|src|] == src && forall k :: |src| <= k < 32 ==> seed[k] == 0
  }

  // "/LEE/v0.2/AccountId/PDA/"
  const PDA_PREFIX: Id32 := Pad([0x2F, 0x4C, 0x45, 0x45, 0x2F, 0x76, 0x30, 0x2E, 0x32, 0x2F, 0x41, 0x63, 0x63, 0x6F,
                                 0x75, 0x6E, 0x74, 0x49, 0x64, 0x2F, 0x50, 0x44, 0x41, 0x2F])
  // "deployer_entry", "third_party_entry", "ptr"
  const DEPLOYER_SEED: Id32 := Pad([0x64, 0x65, 0x70, 0x6C, 0x6F, 0x79, 0x65, 0x72, 0x5F, 0x65, 0x6E, 0x74, 0x72, 0x79])
  const THIRD_PARTY_SEED: Id32 :=
      Pad([0x74, 0x68, 0x69, 0x72, 0x64, 0x5F, 0x70, 0x61, 0x72, 0x74, 0x79, 0x5F, 0x65, 0x6E,
                                       0x74, 0x72, 0x79])
  const POINTER_SEED: Id32 := Pad([0x70, 0x74, 0x72])

  /** The accounts the modelled programs derive. */
  datatype Address =
    | Deployer(program: Id32)
    | ThirdParty(program: Id32, author: Id32)
    | Pointer(key: Id32)

  function Seeds(a: Address): seq<byte> {
    match a
    case Deployer(program) => DEPLOYER_SEED + program
    case ThirdParty(program, author) => THIRD_PARTY_SEED + program + author
    case Pointer(key) => POINTER_SEED + key
  }

  /** Several seeds are combined by hashing; the account id hashes prefix, program and combined seed. */
  function AccountInput(sha: Sha, owner: Id32, a: Address): seq<byte> {
    PDA_PREFIX + owner + sha(Seeds(a))
  }

  function AccountId(sha: Sha, owner: Id32, a: Address): Id32 {
    sha(AccountInput(sha, owner, a))
  }

  /** Both inputs hashed to derive an address are among the given ones. */
  predicate Derived(sha: Sha, inputs: set<seq<byte>>, owner: Id32, a: Address) {
    Seeds(a) in inputs && AccountInput(sha, owner, a) in inputs
  }

  lemma SeedsInjective(a: Address, b: Address)
    requires Seeds(a) == Seeds(b)
    ensures a == b
  {
    var s, t := Seeds(a), Seeds(b);
    assert s[..32] == t[..32] && s[32..64] == t[32..64] && s[64..] == t[64..];
    assert a.Deployer? ==> s[..32] == DEPLOYER_SEED && s[32..64] == a.program && |s| == 64;
    assert b.Deployer? ==> t[..32] == DEPLOYER_SEED && t[32..64] == b.program && |t| == 64;
    assert a.ThirdParty? ==> s[32..64] == a.program && s[64..] == a.author && |s| == 96;
    assert b.ThirdParty? ==> t[32..64] == b.program && t[64..] == b.author && |t| == 96;
    assert a.Pointer? ==> s[..32] == POINTER_SEED && s[32..64] == a.key && |s| == 64;
    assert b.Pointer? ==> t[..32] == POINTER_SEED && t[32..64] == b.key && |t| == 64;
    assert DEPLOYER_SEED[0] != POINTER_SEED[0];
  }

  /** Without a hash collision, an account id determines its owner and its seeds. */
  lemma AccountIdInjective(sha: Sha, inputs: set<seq<byte>>, o: Id32, a: Address, o': Id32, a': Address)
    requires CollisionFree(sha, inputs) && Derived(sha, inputs, o, a) && Derived(sha, inputs, o', a')
    requires AccountId(sha, o, a) == AccountId(sha, o', a')
    ensures o == o' && a == a'
  {
    var x, y := AccountInput(sha, o, a), AccountInput(sha, o', a');
    assert x == y;
    assert x[32..64] == o && y[32..64] == o' && x[64..] == sha(Seeds(a)) && y[64..] == sha(Seeds(a'));
    SeedsInjective(a, a');
  }
}
