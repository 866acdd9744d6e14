/** Deriving an address from text: seeds are padded, several are hashed together, the id is printed in base58. */
module PdaText {
  import opened Bytes
  import opened Pda
  import AccountIds
  import Base58

  datatype PdaError = BadProgram(error: AccountIds.IdError) | NoSeed | SeedTooLong

  function Concat(seeds: seq<Id32>): (b: seq<byte>)
    ensures |b| == 32 * |seeds|
  {
    if seeds == [] then [] else seeds[0] + Concat(seeds[1..])
  }

  function CombinedSeed(sha: Sha, seeds: seq<Id32>): Id32 {
    if |seeds| == 1 then seeds[0] else sha(Concat(seeds))
  }

  function PdaOf(sha: Sha, program: Id32, seeds: seq<Id32>): Id32 {
    sha(PDA_PREFIX + program + CombinedSeed(sha, seeds))
  }

  /** The padded seeds, unless one is too long. */
  function PaddedSeeds(seeds: seq<seq<byte>>): Option<seq<Id32>> {
    if seeds == [] then Some([])
    else if |seeds[0]| > 32 || PaddedSeeds(seeds[1..]).None? then None
    else Some([Pad(seeds[0])] + PaddedSeeds(seeds[1..]).value)
  }

  /** What computePublicPda returns when it does not throw. */
  function PublicPda(sha: Sha, programId: string, seeds: seq<seq<byte>>): Option<string> {
    match AccountIds.IdBytes(programId)
    case None => None
    case Some(program) =>
      if |program| != 32 || seeds == [] || PaddedSeeds(seeds).None? then None
      else Some(Base58.Encode(PdaOf(sha, program, PaddedSeeds(seeds).value)))
  }

  /** The seed lists of the programs derive the addresses of the model. */
  lemma SeedListsDerive(sha: Sha, owner: Id32, a: Address)
    ensures a.Deployer? ==> PdaOf(sha, owner, [DEPLOYER_SEED, a.program]) == AccountId(sha, owner, a)
    ensures a.ThirdParty? ==> PdaOf(sha, owner, [THIRD_PARTY_SEED, a.program, a.author]) == AccountId(sha, owner, a)
    ensures a.Pointer? ==> PdaOf(sha, owner, [POINTER_SEED, a.key]) == AccountId(sha, owner, a)
  {
    match a
    case Deployer(p) => ConcatTwo(DEPLOYER_SEED, p);
    case ThirdParty(p, author) => ConcatThree(THIRD_PARTY_SEED, p, author);
    case Pointer(key) => ConcatTwo(POINTER_SEED, key);
  }

  lemma ConcatTwo(s: Id32, t: Id32)
    ensures Concat([s, t]) == s + t
  {
    assert [s, t][1..] == [t] && Concat([t]) == t + Concat([]);
  }

  lemma ConcatThree(s: Id32, t: Id32, u: Id32)
    ensures Concat([s, t, u]) == s + t + u
  {
    assert [s, t, u][1..] == [t, u];
    ConcatTwo(t, u);
  }

  /** The literal seeds and the prefix are their texts, followed by zeros. */
  lemma SeedsSpelled()
    ensures PaddedWith(DEPLOYER_SEED, Ascii("deployer_entry"))
    ensures PaddedWith(THIRD_PARTY_SEED, Ascii("third_party_entry"))
    ensures PaddedWith(POINTER_SEED, Ascii("ptr"))
    ensures PaddedWith(PDA_PREFIX, Ascii("/LEE/v0.2/AccountId/PDA/"))
  {
  }

  lemma PaddedIsPad(seed: Id32, src: seq<byte>)
    requires PaddedWith(seed, src)
    ensures seed == Pad(src)
  {
    assert seed == seed[..|src|] + seed[|src|..];
  }

  // ---- what is hashed, block by block ---------------------------------------------------------------

  /** The text at the front of a block, given as characters. */
  predicate Names(block: seq<byte>, text: string) {
    |block| == 32 && (forall k :: 0 <= k < |text| ==> text[k] < '\U{0080}') && PaddedWith(block, Ascii(text))
  }

  /** The seeds one after the other, as one string of bytes. */
  predicate InARow(seeds: seq<Id32>, flat: seq<byte>) {
    |flat| == 32 * |seeds| && forall k :: 0 <= k < |seeds| ==> flat[32 * k..32 * k + 32] == seeds[k]
  }

  /** 96 bytes: the prefix, the program, and the only seed or the hash of all seeds in a row. */
  predicate HashedForPda(sha: Sha, program: Id32, seeds: seq<Id32>, flat: seq<byte>, input: seq<byte>) {
    && |input| == 96 && Names(input[..32], "/LEE/v0.2/AccountId/PDA/") && input[32..64] == program
    && InARow(seeds, flat) && input[64..] == if |seeds| == 1 then seeds[0] else sha(flat)
  }

  lemma {:induction false} RowIsConcat(seeds: seq<Id32>, flat: seq<byte>)
    requires InARow(seeds, flat)
    ensures flat == Concat(seeds)
  {
    if seeds != [] {
      var rest := flat[32..];
      forall k | 0 <= k < |seeds| - 1
        ensures rest[32 * k..32 * k + 32] == seeds[1..][k]
      {
        assert rest[32 * k..32 * k + 32] == flat[32 * (k + 1)..32 * (k + 1) + 32];
      }
      RowIsConcat(seeds[1..], rest);
      assert flat[0..32] == seeds[0] && flat == flat[0..32] + rest;
    }
  }

  /** The address of some seeds under a program is the digest of exactly those 96 bytes. */
  lemma PdaSpelled(sha: Sha, program: Id32, seeds: seq<Id32>, flat: seq<byte>, input: seq<byte>)
    requires HashedForPda(sha, program, seeds, flat, input)
    ensures PdaOf(sha, program, seeds) == sha(input)
  {
    RowIsConcat(seeds, flat);
    SeedsSpelled();
    PaddedIsPad(input[..32], Ascii("/LEE/v0.2/AccountId/PDA/"));
    PaddedIsPad(PDA_PREFIX, Ascii("/LEE/v0.2/AccountId/PDA/"));
    assert input == input[..32] + input[32..64] + input[64..];
  }

  predicate EachPadded(texts: seq<seq<byte>>, seeds: seq<Id32>) {
    |seeds| == |texts| && forall k :: 0 <= k < |texts| ==> PaddedWith(seeds[k], texts[k])
  }

  lemma {:induction false} EachPaddedIs(texts: seq<seq<byte>>, seeds: seq<Id32>)
    requires EachPadded(texts, seeds)
    ensures PaddedSeeds(texts) == Some(seeds)
  {
    if texts != [] {
      PaddedIsPad(seeds[0], texts[0]);
      EachPaddedIs(texts[1..], seeds[1..]);
      assert seeds == [seeds[0]] + seeds[1..];
    }
  }

  /** From text seeds: each padded to a block, the blocks hashed under the program the text denotes, in base58. */
  lemma PublicPdaSpelled(sha: Sha, programId: string, texts: seq<seq<byte>>, program: Id32, seeds: seq<Id32>,
                         flat: seq<byte>, input: seq<byte>)
    requires AccountIds.IdBytes(programId) == Some(program) && texts != [] && EachPadded(texts, seeds)
    requires HashedForPda(sha, program, seeds, flat, input)
    ensures PublicPda(sha, programId, texts) == Some(Base58.Encode(sha(input)))
  {
    EachPaddedIs(texts, seeds);
    PdaSpelled(sha, program, seeds, flat, input);
  }

  /** The seeds of an account, by name. */
  predicate SeedsOf(a: Address, seeds: seq<Id32>) {
    match a
    case Deployer(p) => |seeds| == 2 && Names(seeds[0], "deployer_entry") && seeds[1] == p
    case ThirdParty(p, author) => |seeds| == 3 && Names(seeds[0], "third_party_entry") && seeds[1..] == [p, author]
    case Pointer(key) => |seeds| == 2 && Names(seeds[0], "ptr") && seeds[1] == key
  }

  /** The addresses the programs derive are the digests of those bytes, for the three kinds of account. */
  lemma AddressSpelled(sha: Sha, owner: Id32, a: Address, seeds: seq<Id32>, flat: seq<byte>, input: seq<byte>)
    requires SeedsOf(a, seeds) && HashedForPda(sha, owner, seeds, flat, input)
    ensures AccountId(sha, owner, a) == sha(input)
  {
    PdaSpelled(sha, owner, seeds, flat, input);
    SeedListsDerive(sha, owner, a);
    SeedsSpelled();
    match a
    case Deployer(p) =>
      SameName(seeds[0], DEPLOYER_SEED, "deployer_entry");
      assert seeds == [DEPLOYER_SEED, p];
    case ThirdParty(p, author) =>
      SameName(seeds[0], THIRD_PARTY_SEED, "third_party_entry");
      assert seeds == [seeds[0]] + seeds[1..] == [THIRD_PARTY_SEED, p, author];
    case Pointer(key) =>
      SameName(seeds[0], POINTER_SEED, "ptr");
      assert seeds == [POINTER_SEED, key];
  }

  lemma SameName(a: Id32, b: Id32, text: string)
    requires Names(a, text) && Names(b, text)
    ensures a == b
  {
    PaddedIsPad(a, Ascii(text));
    PaddedIsPad(b, Ascii(text));
  }

  /** The printed address of a key's pointer record, under the program a text denotes. */
  function PointerPda(sha: Sha, programId: string, key: seq<byte>): Option<string> {
    PublicPda(sha, programId, [Ascii("ptr"), key])
  }

  lemma PadTwo(s: seq<byte>, t: seq<byte>)
    requires |s| <= 32 && |t| <= 32
    ensures PaddedSeeds([s, t]) == Some([Pad(s), Pad(t)])
  {
    PadFirst(t, []);
    PadFirst(s, [t]);
    assert [t] + [] == [t] && [s] + [t] == [s, t];
    assert [Pad(t)] + [] == [Pad(t)] && [Pad(s)] + [Pad(t)] == [Pad(s), Pad(t)];
  }

  lemma PadFirst(s: seq<byte>, rest: seq<seq<byte>>)
    requires |s| <= 32 && PaddedSeeds(rest).Some?
    ensures PaddedSeeds([s] + rest) == Some([Pad(s)] + PaddedSeeds(rest).value)
  {
    var seeds := [s] + rest;
    assert seeds[1..] == rest && seeds[0] == s;
  }

  /** The record address printed for a key is the one the pointer program checks. */
  lemma PointerPdaText(sha: Sha, programId: string, owner: Id32, key: seq<byte>)
    requires AccountIds.IdBytes(programId) == Some(owner) && |key| <= 32
    ensures PointerPda(sha, programId, key) == Some(Base58.Encode(AccountId(sha, owner, Pointer(Pad(key)))))
  {
    SeedsSpelled();
    PaddedIsPad(POINTER_SEED, Ascii("ptr"));
    PadTwo(Ascii("ptr"), key);
    SeedListsDerive(sha, owner, Pointer(Pad(key)));
  }

  method SeedFromStr(src: seq<byte>) returns (r: Result<Id32, PdaError>)
    ensures r.Ok? ==> PaddedWith(r.value, src)
    ensures r == if |src| <= 32 then Ok(Pad(src)) else Err(SeedTooLong)
  {
    if |src| > 32 {
      return Err(SeedTooLong);
    }
    var seed := new byte[32](_ => 0);
    forall k | 0 <= k < |src| {
      seed[k] := src[k];
    }
    assert seed[..] == Pad(src);
    r := Ok(seed[..]);
  }

  /** The id derived from raw 32-byte seeds. */
  method ComputePdaRaw(sha: Sha, programId: string, seeds: seq<Id32>) returns (r: Result<string, PdaError>)
    ensures match AccountIds.IdBytes(programId)
            case None => r.Err? && r.error.BadProgram?
            case Some(program) => |program| == 32 && r == Ok(Base58.Encode(PdaOf(sha, program, seeds)))
  {
    var parsed := AccountIds.AccountIdBytes(programId);
    if parsed.Err? {
      return Err(BadProgram(parsed.error));
    }
    var program: Id32 := parsed.value;
    var flat := FlatMap(seeds);
    var combined := if |seeds| == 1 then seeds[0] else sha(flat);
    var input := ThreeBlocks(PDA_PREFIX, program, combined);
    var text := Base58.Base58Encode(sha(input[..]));
    r := Ok(text);
  }

  /** The 96-byte buffer that is hashed. */
  method ThreeBlocks(a: Id32, b: Id32, c: Id32) returns (input: array<byte>)
    ensures input[..] == a + b + c
  {
    input := new byte[96](_ => 0);
    forall k | 0 <= k < 32 {
      input[k] := a[k];
    }
    forall k | 0 <= k < 32 {
      input[32 + k] := b[k];
    }
    forall k | 0 <= k < 32 {
      input[64 + k] := c[k];
    }
    assert input[..] == a + b + c;
  }

  method FlatMap(seeds: seq<Id32>) returns (b: seq<byte>)
    ensures b == Concat(seeds)
  {
    b := [];
    var i := 0;
    while i < |seeds|
      invariant i <= |seeds| && Concat(seeds) == b + Concat(seeds[i..])
    {
      Assoc(b, seeds[i], Concat(seeds[i + 1..]));
      assert seeds[i..][1..] == seeds[i + 1..];
      b := b + seeds[i];
      i := i + 1;
    }
    assert b + [] == b;
  }

  /** The id derived from text seeds, each at most 32 bytes. */
  method ComputePublicPda(sha: Sha, programId: string, seeds: seq<seq<byte>>) returns (r: Result<string, PdaError>)
    ensures r.Ok? ==> PublicPda(sha, programId, seeds) == Some(r.value)
    ensures r.Err? ==> PublicPda(sha, programId, seeds) == None
    ensures r == Err(NoSeed) <==> AccountIds.IdBytes(programId).Some? && seeds == []
    ensures r == Err(SeedTooLong) <==> AccountIds.IdBytes(programId).Some? && seeds != [] && PaddedSeeds(seeds).None?
  {
    var parsed := AccountIds.AccountIdBytes(programId);
    if parsed.Err? {
      return Err(BadProgram(parsed.error));
    }
    if seeds == [] {
      return Err(NoSeed);
    }
    var padded := PadAll(seeds);
    if padded.None? {
      return Err(SeedTooLong);
    }
    r := ComputePdaRaw(sha, programId, padded.value);
  }

  method PadAll(seeds: seq<seq<byte>>) returns (r: Option<seq<Id32>>)
    ensures r == PaddedSeeds(seeds)
  {
    if seeds == [] {
      return Some([]);
    }
    var head := SeedFromStr(seeds[0]);
    if head.Err? {
      return None;
    }
    var rest := PadAll(seeds[1..]);
    r := if rest.None? then None else Some([head.value] + rest.value);
  }
}
