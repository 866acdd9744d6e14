/**
 Enrollment and recovery: which factors bring back the vault key and its blob. The cryptography is a
 parameter with contracts; random values are arguments; storage is a map from content ids to bytes.
 */
module Recovery {
  import opened Bytes

  // ---- the unseen functions and what is assumed of them -----------------------------------------

  datatype Shares = Shares(sId: seq<byte>, sDev: seq<byte>, sRec: seq<byte>)

  /** A kit's payload: version and base64 or text fields; absent fields are None. */
  datatype KitJson = KitJson(v: int, sRec: string, ptr: string, wkId: string, shareCid: Option<string>,
                             blobCid: Option<string>)

  datatype Crypto = Crypto(
    encrypt: (seq<byte>, seq<byte>, seq<byte>) -> seq<byte>,           // key, nonce, plaintext
    decrypt: (seq<byte>, seq<byte>, seq<byte>) -> Option<seq<byte>>,   // key, nonce, ciphertext with tag
    passKey: (seq<byte>, seq<byte>) -> seq<byte>,                      // passphrase, salt
    prfPtr: seq<byte> -> Id32,
    prfKey: seq<byte> -> Id32,
    split: (seq<byte>, seq<byte>) -> Shares,                           // key, randomness
    combine: seq<seq<byte>> -> Option<seq<byte>>,
    toBase64: seq<byte> -> string,
    fromBase64: string -> Option<seq<byte>>,
    toJson: KitJson -> seq<byte>,
    fromJson: seq<byte> -> Option<KitJson>)

  /** Decryption undoes encryption, and a ciphertext opens to nothing but what was sealed in it. */
  ghost predicate SealsWell(c: Crypto) {
    && (forall key, nonce, text :: c.decrypt(key, nonce, c.encrypt(key, nonce, text)) == Some(text))
    && (forall key, key', nonce, text :: Opens(c, key', nonce, c.encrypt(key, nonce, text), text))
    && (forall key, nonce, text :: |c.encrypt(key, nonce, text)| == |text| + 16)
  }

  predicate Opens(c: Crypto, key: seq<byte>, nonce: seq<byte>, sealed: seq<byte>, text: seq<byte>) {
    c.decrypt(key, nonce, sealed).Some? ==> c.decrypt(key, nonce, sealed) == Some(text)
  }

  /** Any two of the three shares, in the order recovery collects them, give back the key. */
  ghost predicate SharesWell(c: Crypto) {
    forall key, r :: TwoOfThree(c, key, c.split(key, r))
  }

  predicate TwoOfThree(c: Crypto, key: seq<byte>, s: Shares) {
    && c.combine([s.sRec, s.sDev]) == Some(key) && c.combine([s.sRec, s.sId]) == Some(key)
    && c.combine([s.sDev, s.sId]) == Some(key) && c.combine([s.sRec, s.sDev, s.sId]) == Some(key)
  }

  ghost predicate EncodesWell(c: Crypto) {
    && (forall b :: c.fromBase64(c.toBase64(b)) == Some(b))
    && (forall j :: c.fromJson(c.toJson(j)) == Some(j))
  }

  ghost predicate Contracts(c: Crypto) {
    SealsWell(c) && SharesWell(c) && EncodesWell(c)
  }

  datatype Failure =
    | NotAKit | DoesNotDecrypt | BadPayload | UnsupportedVersion | PrfTooShort | BadBase64 | BadKey
    | Unavailable(cid: string) | BlobTooShort | TooFewShares | CombineFailed

  // ---- layouts ------------------------------------------------------------------------------------

  const MAGIC: seq<byte> := [0x57, 0x53, 0x50, 0x4B, 0x31]     // "WSPK1"

  datatype Contents = Contents(sRec: string, ptr: string, wkId: string, shareCid: string, blobCid: Option<string>)

  function Payload(c: Contents): KitJson {
    KitJson(1, c.sRec, c.ptr, c.wkId, Some(c.shareCid), c.blobCid)
  }

  /** Empty text counts as absent. */
  function Present(s: Option<string>): Option<string> {
    if s == Some("") then None else s
  }

  function KitBytes(c: Crypto, contents: Contents, passphrase: seq<byte>, salt: seq<byte>,
                    nonce: seq<byte>): seq<byte> {
    MAGIC + salt + nonce + c.encrypt(c.passKey(passphrase, salt), nonce, c.toJson(Payload(contents)))
  }

  /** The output buffer is filled piece by piece. */
  method SealKit(c: Crypto, contents: Contents, passphrase: seq<byte>, salt: seq<byte>, nonce: seq<byte>)
    returns (out: array<byte>)
    ensures out[..] == KitBytes(c, contents, passphrase, salt, nonce)
  {
    var sealed := c.encrypt(c.passKey(passphrase, salt), nonce, c.toJson(Payload(contents)));
    out := FourPieces(MAGIC, salt, nonce, sealed);
  }

  /** The file of a kit, piece by piece, and the fields sealed in it by name. */
  lemma KitSpelled(c: Crypto, contents: Contents, passphrase: seq<byte>, salt: seq<byte>, nonce: seq<byte>)
    requires |salt| == 16 && |nonce| == 12
    ensures var kit := KitBytes(c, contents, passphrase, salt, nonce);
            var fields := KitJson(1, contents.sRec, contents.ptr, contents.wkId, Some(contents.shareCid),
                                  contents.blobCid);
            && |kit| >= 33 && kit[..5] == Ascii("WSPK1") && kit[5..21] == salt && kit[21..33] == nonce
            && kit[33..] == c.encrypt(c.passKey(passphrase, salt), nonce, c.toJson(fields))
  {
    var kit := KitBytes(c, contents, passphrase, salt, nonce);
    assert Ascii("WSPK1") == MAGIC;
    assert kit[..5] == MAGIC && kit[5..21] == salt && kit[21..33] == nonce;
  }

  method FourPieces(a: seq<byte>, b: seq<byte>, c: seq<byte>, d: seq<byte>) returns (out: array<byte>)
    ensures fresh(out) && out[..] == a + b + c + d
  {
    out := new byte[|a| + |b| + |c| + |d|](_ => 0);
    Set(out, a, 0);
    assert out[..|a|] == a;
    Set(out, b, |a|);
    assert out[..|a| + |b|] == a + b;
    Set(out, c, |a| + |b|);
    assert out[..|a| + |b| + |c|] == a + b + c;
    Set(out, d, |a| + |b| + |c|);
    assert out[..out.Length] == out[..];
  }

  /** Copies a piece into the buffer at an offset; what is before it stays. */
  method Set(out: array<byte>, piece: seq<byte>, at: nat)
    requires at + |piece| <= out.Length
    modifies out
    ensures out[..at + |piece|] == old(out[..at]) + piece
  {
    forall k | 0 <= k < |piece| {
      out[at + k] := piece[k];
    }
  }

  function OpenKit(c: Crypto, kit: seq<byte>, passphrase: seq<byte>): Result<Contents, Failure> {
    if |kit| < 33 || kit[..5] != MAGIC then Err(NotAKit)
    else match c.decrypt(c.passKey(passphrase, kit[5..21]), kit[21..33], kit[33..])
         case None => Err(DoesNotDecrypt)
         case Some(text) =>
           match c.fromJson(text)
           case None => Err(BadPayload)
           case Some(j) =>
             if j.v != 1 then Err(UnsupportedVersion)
             else Ok(Contents(j.sRec, j.ptr, j.wkId,
                              if j.shareCid.Some? then j.shareCid.value else "", Present(j.blobCid)))
  }

  /**
   A file is refused as no kit exactly when it is too short or does not start with the mark, and one that
   opens exactly when it carries version 1; a missing share id counts as empty, an empty blob id as missing.
   */
  lemma KitChecks(c: Crypto, kit: seq<byte>, passphrase: seq<byte>, j: KitJson)
    ensures OpenKit(c, kit, passphrase) == Err(NotAKit) <==> |kit| < 33 || kit[..5] != Ascii("WSPK1")
    ensures |kit| >= 33 && kit[..5] == Ascii("WSPK1")
            && c.decrypt(c.passKey(passphrase, kit[5..21]), kit[21..33], kit[33..]) == Some(c.toJson(j))
            && c.fromJson(c.toJson(j)) == Some(j) ==>
              var r := OpenKit(c, kit, passphrase);
              && (r.Ok? <==> j.v == 1)
              && (r.Ok? ==> (j.shareCid == None ==> r.value.shareCid == "")
                            && (r.value.blobCid == None <==> j.blobCid == None || j.blobCid == Some("")))
  {
    assert Ascii("WSPK1") == MAGIC;
  }

  /** nonce, then ciphertext: the layout of a wrapped share and of a sealed blob. */
  function Sealed(c: Crypto, key: seq<byte>, nonce: seq<byte>, text: seq<byte>): seq<byte> {
    nonce + c.encrypt(key, nonce, text)
  }

  method SealUnder(c: Crypto, key: seq<byte>, nonce: seq<byte>, text: seq<byte>) returns (out: array<byte>)
    ensures out[..] == Sealed(c, key, nonce, text)
  {
    var sealed := c.encrypt(key, nonce, text);
    out := new byte[|nonce| + |sealed|](_ => 0);
    Set(out, nonce, 0);
    Set(out, sealed, |nonce|);
    assert out[..] == out[..|nonce| + |sealed|];
  }

  lemma SealedSpelled(c: Crypto, key: seq<byte>, nonce: seq<byte>, text: seq<byte>)
    requires |nonce| == 12
    ensures var sealed := Sealed(c, key, nonce, text);
            |sealed| >= 12 && sealed[..12] == nonce && sealed[12..] == c.encrypt(key, nonce, text)
  {
  }

  /** Slices clamp at the end. */
  function UnwrapShare(c: Crypto, wrapped: seq<byte>, wkId: seq<byte>): Result<seq<byte>, Failure> {
    var n := if |wrapped| < 12 then |wrapped| else 12;
    match c.decrypt(wkId, wrapped[..n], wrapped[n..])
    case None => Err(DoesNotDecrypt)
    case Some(share) => Ok(share)
  }

  function OpenBlob(c: Crypto, sealed: seq<byte>, vaultKey: seq<byte>): Result<string, Failure> {
    if |sealed| <= 12 then Err(BlobTooShort)
    else match c.decrypt(vaultKey, sealed[..12], sealed[12..])
         case None => Err(DoesNotDecrypt)
         case Some(text) => Ok(c.toBase64(text))
  }

  /** A kit opens with its passphrase, and whatever passphrase opens it yields what was sealed. */
  lemma KitRoundTrip(c: Crypto, contents: Contents, passphrase: seq<byte>, salt: seq<byte>, nonce: seq<byte>,
                     tried: seq<byte>)
    requires Contracts(c) && |salt| == 16 && |nonce| == 12 && contents.blobCid != Some("")
    ensures var kit := KitBytes(c, contents, passphrase, salt, nonce);
            && OpenKit(c, kit, passphrase) == Ok(contents)
            && (OpenKit(c, kit, tried).Ok? ==> OpenKit(c, kit, tried) == Ok(contents))
  {
    var key := c.passKey(passphrase, salt);
    var text := c.toJson(Payload(contents));
    var kit := KitBytes(c, contents, passphrase, salt, nonce);
    assert kit[..5] == MAGIC && kit[5..21] == salt && kit[21..33] == nonce && kit[33..] == c.encrypt(key, nonce, text);
    assert Opens(c, c.passKey(tried, salt), nonce, c.encrypt(key, nonce, text), text);
  }

  lemma SealedRoundTrip(c: Crypto, key: seq<byte>, nonce: seq<byte>, text: seq<byte>)
    requires Contracts(c) && |nonce| == 12
    ensures UnwrapShare(c, Sealed(c, key, nonce, text), key) == Ok(text)
    ensures OpenBlob(c, Sealed(c, key, nonce, text), key) == Ok(c.toBase64(text))
  {
    var sealed := Sealed(c, key, nonce, text);
    assert sealed[..12] == nonce && sealed[12..] == c.encrypt(key, nonce, text);
  }

  // ---- enrollment -----------------------------------------------------------------------------------

  type Storage = map<string, seq<byte>>

  /** Random values an onboarding draws. */
  datatype Dice = Dice(vaultKey: Id32, splitting: seq<byte>, shareNonce: seq<byte>, blobNonce: seq<byte>,
                       salt: seq<byte>, kitNonce: seq<byte>)

  predicate DiceFit(d: Dice) {
    |d.shareNonce| == 12 && |d.blobNonce| == 12 && |d.salt| == 16 && |d.kitNonce| == 12
  }

  datatype Onboarded = Onboarded(kit: seq<byte>, sDev: seq<byte>, vaultKey: seq<byte>, ptr: string, shareCid: string,
                                 blobCid: Option<string>, pointerValue: string)

  function DerivedPtr(c: Crypto, prf: seq<byte>): string {
    ToHex(c.prfPtr(prf))
  }

  function WrappedShare(c: Crypto, prf: seq<byte>, d: Dice): seq<byte> {
    Sealed(c, c.prfKey(prf), d.shareNonce, c.split(d.vaultKey, d.splitting).sId)
  }

  function SealedBlob(c: Crypto, blob: seq<byte>, d: Dice): seq<byte> {
    Sealed(c, d.vaultKey, d.blobNonce, blob)
  }

  /** Content ids are never empty, hold no colon, and differ for different uploads of this run. */
  ghost predicate Addresses(cidOf: seq<byte> -> string, share: seq<byte>, blob: seq<byte>) {
    && (forall b :: cidOf(b) != "" && ':' !in cidOf(b))
    && (cidOf(share) == cidOf(blob) ==> share == blob)
  }

  function KitContents(c: Crypto, prf: seq<byte>, d: Dice, shareCid: string, blobCid: Option<string>): Contents {
    Contents(c.toBase64(c.split(d.vaultKey, d.splitting).sRec), DerivedPtr(c, prf), c.toBase64(c.prfKey(prf)),
             shareCid, blobCid)
  }

  /** The value to publish: the share's id, and the blob's after a colon if there is one. */
  function PointerValue(shareCid: string, blobCid: Option<string>): string {
    if blobCid.Some? then shareCid + ":" + blobCid.value else shareCid
  }

  /** Everything an enrollment hands out, given the ids storage answers with. */
  function OnboardedWith(c: Crypto, prf: seq<byte>, passphrase: seq<byte>, d: Dice, shareCid: string,
                         blobCid: Option<string>): Onboarded {
    Onboarded(KitBytes(c, KitContents(c, prf, d, shareCid, blobCid), passphrase, d.salt, d.kitNonce),
              c.split(d.vaultKey, d.splitting).sDev, d.vaultKey, DerivedPtr(c, prf), shareCid, blobCid,
              PointerValue(shareCid, blobCid))
  }

  /** Enrollment without a blob: one upload. */
  method Enroll(c: Crypto, cidOf: seq<byte> -> string, prf: seq<byte>, passphrase: seq<byte>, storage: Storage, d: Dice)
    returns (r: Result<Onboarded, Failure>, after: Storage)
    ensures r == if |prf| < 16 then Err(PrfTooShort)
                 else Ok(OnboardedWith(c, prf, passphrase, d, cidOf(WrappedShare(c, prf, d)), None))
    ensures after == if |prf| < 16 then storage else storage[cidOf(WrappedShare(c, prf, d)) := WrappedShare(c, prf, d)]
  {
    after := storage;
    var shares := c.split(d.vaultKey, d.splitting);
    if |prf| < 16 {
      return Err(PrfTooShort), after;
    }
    var wrapped := SealUnder(c, c.prfKey(prf), d.shareNonce, shares.sId);
    var shareCid := cidOf(wrapped[..]);
    after := after[shareCid := wrapped[..]];
    var kit := SealKit(c, KitContents(c, prf, d, shareCid, None), passphrase, d.salt, d.kitNonce);
    r := Ok(Onboarded(kit[..], shares.sDev, d.vaultKey, ToHex(c.prfPtr(prf)), shareCid, None, shareCid));
  }

  method OnboardVault(c: Crypto, cidOf: seq<byte> -> string, prf: seq<byte>, passphrase: seq<byte>, blobB64: string,
                      storage: Storage, d: Dice)
    returns (r: Result<Onboarded, Failure>, after: Storage)
    ensures r.Ok? <==> |prf| >= 16 && c.fromBase64(blobB64).Some?
    ensures r.Ok? ==>
              var share := WrappedShare(c, prf, d);
              var blob := SealedBlob(c, c.fromBase64(blobB64).value, d);
              && r.value == OnboardedWith(c, prf, passphrase, d, cidOf(share), Some(cidOf(blob)))
              && after == storage[cidOf(share) := share][cidOf(blob) := blob]
              && r.value.pointerValue == cidOf(share) + ":" + cidOf(blob)
    ensures r.Err? ==> r.error in {PrfTooShort, BadBase64}
  {
    after := storage;
    var shares := c.split(d.vaultKey, d.splitting);
    if |prf| < 16 {
      return Err(PrfTooShort), after;
    }
    var wkId := c.prfKey(prf);
    var wrapped := SealUnder(c, wkId, d.shareNonce, shares.sId);
    var shareCid := cidOf(wrapped[..]);
    after := after[shareCid := wrapped[..]];
    var blob := c.fromBase64(blobB64);
    if blob.None? {
      return Err(BadBase64), after;
    }
    var sealed := SealUnder(c, d.vaultKey, d.blobNonce, blob.value);
    var blobCid := cidOf(sealed[..]);
    after := after[blobCid := sealed[..]];
    var kit := SealKit(c, KitContents(c, prf, d, shareCid, Some(blobCid)), passphrase, d.salt, d.kitNonce);
    r := Ok(Onboarded(kit[..], shares.sDev, d.vaultKey, ToHex(c.prfPtr(prf)), shareCid, Some(blobCid),
                      shareCid + ":" + blobCid));
  }

  // ---- recovery -------------------------------------------------------------------------------------

  type Resolver = string -> Option<string>

  datatype Kit = Kit(bytes: seq<byte>, passphrase: seq<byte>)

  datatype Factors = Factors(prf: Option<seq<byte>>, kit: Option<Kit>, device: Option<seq<byte>>)

  /** Text up to the first colon. */
  function FirstPart(s: string): (p: string)
    ensures p <= s && ':' !in p
  {
    if s == "" || s[0] == ':' then "" else [s[0]] + FirstPart(s[1..])
  }

  /** Text between the first colon and the next, if there is a colon. */
  function SecondPart(s: string): Option<string> {
    var n := |FirstPart(s)|;
    if n == |s| then None else Some(FirstPart(s[n + 1..]))
  }

  lemma {:induction false} PartsOfPair(a: string, b: string)
    requires ':' !in a && ':' !in b
    ensures FirstPart(a + ":" + b) == a && SecondPart(a + ":" + b) == Some(b) && FirstPart(b) == b
  {
    hide FirstPart;
    FirstOfColonFree(a, ":" + b);
    FirstOfColonFree(b, "");
    var s := a + ":" + b;
    assert s == a + (":" + b) && b == b + "";
    assert s[|a| + 1..] == b;
  }

  lemma {:induction false} FirstOfColonFree(a: string, rest: string)
    requires ':' !in a && (rest == "" || rest[0] == ':')
    ensures FirstPart(a + rest) == a
  {
    if a == "" {
      assert a + rest == rest;
    } else {
      FirstOfColonFree(a[1..], rest);
      assert (a + rest)[1..] == a[1..] + rest;
    }
  }

  /** The value a lookup finds, if there is a pointer and a resolver to ask. */
  function LookUp(ptr: Option<string>, resolver: Option<Resolver>): Option<string> {
    if Present(ptr).Some? && resolver.Some? then resolver.value(ptr.value) else None
  }

  predicate UsableKey(key: seq<byte>) {
    |key| == 16 || |key| == 24 || |key| == 32
  }

  /** Recovery of the vault key from an opened kit, a passkey and a device share, as far as they are there. */
  method Recover(c: Crypto, prf: Option<seq<byte>>, contents: Option<Contents>, device: Option<seq<byte>>,
                 storage: Storage, resolver: Option<Resolver>)
    returns (r: Result<seq<byte>, Failure>)
    ensures r == Recovered(c, prf, contents, device, storage, resolver)
  {
    hide FirstPart, ToHex, UnwrapShare, UsableKey;
    var sRec: Option<seq<byte>>, ptr: Option<string> := None, None;
    var shareCid: Option<string>, wkId: Option<seq<byte>> := None, None;
    if contents.Some? {
      sRec := c.fromBase64(contents.value.sRec);
      if sRec.None? {
        return Err(BadBase64);
      }
      ptr := Some(contents.value.ptr);
      shareCid := Present(Some(contents.value.shareCid));
      wkId := c.fromBase64(contents.value.wkId);
      if wkId.None? {
        return Err(BadBase64);
      }
      if !UsableKey(wkId.value) {
        return Err(BadKey);
      }
    }
    if prf.Some? {
      if |prf.value| < 16 {
        return Err(PrfTooShort);
      }
      ptr := if ptr.None? then Some(DerivedPtr(c, prf.value)) else ptr;
      wkId := if wkId.None? then Some(c.prfKey(prf.value)) else wkId;
    }
    if shareCid.None? {
      var value := LookUp(ptr, resolver);
      shareCid := if value.None? then None else Present(Some(FirstPart(value.value)));
    }
    var shares: seq<seq<byte>> := [];
    if sRec.Some? {
      shares := shares + [sRec.value];
    }
    if device.Some? {
      shares := shares + [device.value];
    }
    if shareCid.Some? && wkId.Some? {
      if shareCid.value !in storage {
        return Err(Unavailable(shareCid.value));
      }
      var share := UnwrapShare(c, storage[shareCid.value], wkId.value);
      if share.Err? {
        return Err(share.error);
      }
      shares := shares + [share.value];
    }
    assert shares == OneOf(sRec) + OneOf(device) + IdentityShare(c, shareCid, wkId, storage).value;
    if |shares| < 2 {
      return Err(TooFewShares);
    }
    var key := c.combine(shares);
    r := if key.Some? then Ok(key.value) else Err(CombineFailed);
  }

  /** What the kit contributes to recovery: a share, a pointer, a content id and a wrap key. */
  datatype Known = Known(sRec: Option<seq<byte>>, ptr: Option<string>, shareCid: Option<string>,
                         wkId: Option<seq<byte>>)

  function FromKit(c: Crypto, contents: Option<Contents>): Result<Known, Failure> {
    match contents
    case None => Ok(Known(None, None, None, None))
    case Some(k) =>
      var sRec, wkId := c.fromBase64(k.sRec), c.fromBase64(k.wkId);
      if sRec.None? || wkId.None? then Err(BadBase64)
      else if !UsableKey(wkId.value) then Err(BadKey)
      else Ok(Known(sRec, Some(k.ptr), Present(Some(k.shareCid)), wkId))
  }

  /** The wrap key in a kit must have the length of an AES key. */
  lemma WrapKeyLengths(c: Crypto, k: Contents)
    requires c.fromBase64(k.sRec).Some? && c.fromBase64(k.wkId).Some?
    ensures FromKit(c, Some(k)).Ok? <==> |c.fromBase64(k.wkId).value| in {16, 24, 32}
  {
  }

  /** A passkey fills in only what the kit left open. */
  function WithPasskey(c: Crypto, known: Known, prf: Option<seq<byte>>): Result<Known, Failure> {
    match prf
    case None => Ok(known)
    case Some(p) =>
      if |p| < 16 then Err(PrfTooShort)
      else Ok(known.(ptr := if known.ptr.Some? then known.ptr else Some(DerivedPtr(c, p)),
                     wkId := if known.wkId.Some? then known.wkId else Some(c.prfKey(p))))
  }

  function ShareLocation(known: Known, resolver: Option<Resolver>): Option<string> {
    if known.shareCid.Some? then known.shareCid
    else match LookUp(known.ptr, resolver)
         case None => None
         case Some(value) => Present(Some(FirstPart(value)))
  }

  function OneOf(s: Option<seq<byte>>): seq<seq<byte>> {
    if s.Some? then [s.value] else []
  }

  /** The identity share from storage, when its place and its key are known. */
  function IdentityShare(c: Crypto, cid: Option<string>, wkId: Option<seq<byte>>,
                         storage: Storage): Result<seq<seq<byte>>, Failure> {
    if cid.None? || wkId.None? then Ok([])
    else if cid.value !in storage then Err(Unavailable(cid.value))
    else match UnwrapShare(c, storage[cid.value], wkId.value)
         case Err(e) => Err(e)
         case Ok(share) => Ok([share])
  }

  function Combined(c: Crypto, shares: seq<seq<byte>>): Result<seq<byte>, Failure> {
    if |shares| < 2 then Err(TooFewShares)
    else match c.combine(shares)
         case None => Err(CombineFailed)
         case Some(key) => Ok(key)
  }

  function Recovered(c: Crypto, prf: Option<seq<byte>>, contents: Option<Contents>, device: Option<seq<byte>>,
                     storage: Storage, resolver: Option<Resolver>): Result<seq<byte>, Failure> {
    match FromKit(c, contents)
    case Err(e) => Err(e)
    case Ok(kit) =>
      match WithPasskey(c, kit, prf)
      case Err(e) => Err(e)
      case Ok(known) =>
        match IdentityShare(c, ShareLocation(known, resolver), known.wkId, storage)
        case Err(e) => Err(e)
        case Ok(identity) => Combined(c, OneOf(known.sRec) + OneOf(device) + identity)
  }

  /** The vault key and, when its place is known, the blob. */
  datatype Vault = Vault(key: seq<byte>, blob: Option<string>)

  function RecoveredVault(c: Crypto, f: Factors, storage: Storage, resolver: Option<Resolver>): Result<Vault, Failure> {
    match Opened(c, f.kit)
    case Err(e) => Err(e)
    case Ok(contents) => RecoveredWith(c, f.prf, contents, f.device, storage, resolver)
  }

  /** Key and blob once the kit, if given, is open. */
  function RecoveredWith(c: Crypto, prf: Option<seq<byte>>, contents: Option<Contents>, device: Option<seq<byte>>,
                         storage: Storage, resolver: Option<Resolver>): Result<Vault, Failure> {
    if contents.None? && prf.Some? && |prf.value| < 16 then Err(PrfTooShort)
    else match Recovered(c, prf, contents, device, storage, resolver)
         case Err(e) => Err(e)
         case Ok(key) => WithBlob(c, key, BlobLocation(c, prf, contents, resolver), storage)
  }

  function Opened(c: Crypto, kit: Option<Kit>): Result<Option<Contents>, Failure> {
    match kit
    case None => Ok(None)
    case Some(k) => match OpenKit(c, k.bytes, k.passphrase)
                    case Err(e) => Err(e)
                    case Ok(contents) => Ok(Some(contents))
  }

  function BlobLocation(c: Crypto, prf: Option<seq<byte>>, contents: Option<Contents>,
                        resolver: Option<Resolver>): Option<string> {
    var ptr := if contents.Some? then Some(contents.value.ptr)
               else if prf.Some? then Some(DerivedPtr(c, prf.value)) else None;
    if contents.Some? && Present(contents.value.blobCid).Some? then contents.value.blobCid
    else match LookUp(ptr, resolver)
         case None => None
         case Some(value) => Present(SecondPart(value))
  }

  function WithBlob(c: Crypto, key: seq<byte>, cid: Option<string>, storage: Storage): Result<Vault, Failure> {
    match cid
    case None => Ok(Vault(key, None))
    case Some(at) =>
      if at !in storage then Err(Unavailable(at))
      else match OpenBlob(c, storage[at], key)
           case Err(e) => Err(e)
           case Ok(blob) => Ok(Vault(key, Some(blob)))
  }

  method RecoverVault(c: Crypto, f: Factors, storage: Storage, resolver: Option<Resolver>)
    returns (r: Result<Vault, Failure>)
    ensures r == RecoveredVault(c, f, storage, resolver)
  {
    var contents: Option<Contents> := None;
    if f.kit.Some? {
      var kit := OpenKit(c, f.kit.value.bytes, f.kit.value.passphrase);
      if kit.Err? {
        return Err(kit.error);
      }
      contents := Some(kit.value);
    }
    var ptr: Option<string> := None;
    if contents.Some? {
      ptr := Some(contents.value.ptr);
    } else if f.prf.Some? {
      if |f.prf.value| < 16 {
        return Err(PrfTooShort);
      }
      ptr := Some(DerivedPtr(c, f.prf.value));
    }
    var blobCid := if contents.Some? then Present(contents.value.blobCid) else None;
    if blobCid.None? {
      var value := LookUp(ptr, resolver);
      blobCid := if value.None? then None else Present(SecondPart(value.value));
    }
    var key := Recover(c, f.prf, contents, f.device, storage, resolver);
    if key.Err? {
      return Err(key.error);
    }
    if blobCid.None? {
      return Ok(Vault(key.value, None));
    }
    if blobCid.value !in storage {
      return Err(Unavailable(blobCid.value));
    }
    var blob := OpenBlob(c, storage[blobCid.value], key.value);
    r := if blob.Err? then Err(blob.error) else Ok(Vault(key.value, Some(blob.value)));
  }

  // ---- what can be recovered from which factors ---------------------------------------------------

  /** A vault's blob, if it has one, is text that base64 prints. */
  predicate Printable(c: Crypto, blob: Option<string>) {
    blob.Some? ==> c.fromBase64(blob.value).Some? && c.toBase64(c.fromBase64(blob.value).value) == blob.value
  }

  function UploadedBlob(c: Crypto, blob: string, d: Dice): seq<byte>
    requires c.fromBase64(blob).Some?
  {
    SealedBlob(c, c.fromBase64(blob).value, d)
  }

  /** What goes into an enrollment; `cidOf` names the uploads. */
  datatype Enrollment = Enrollment(
    prf: seq<byte>, passphrase: seq<byte>, blob: Option<string>, dice: Dice, cidOf: seq<byte> -> string)

  function ShareOf(c: Crypto, n: Enrollment): seq<byte> {
    WrappedShare(c, n.prf, n.dice)
  }

  /** The ids storage answers with are usable, and the enrollment's own inputs are well formed. */
  ghost predicate Enrollable(c: Crypto, n: Enrollment) {
    && |n.prf| >= 16 && DiceFit(n.dice) && Printable(c, n.blob)
    && Addresses(n.cidOf, ShareOf(c, n), if n.blob.Some? then UploadedBlob(c, n.blob.value, n.dice) else ShareOf(c, n))
  }

  /** The id of the enrolled blob, if there is one. */
  function BlobCid(c: Crypto, n: Enrollment): Option<string>
    requires Printable(c, n.blob)
  {
    if n.blob.Some? then Some(n.cidOf(UploadedBlob(c, n.blob.value, n.dice))) else None
  }

  /** What an enrollment hands out. */
  function Out(c: Crypto, n: Enrollment): Onboarded
    requires Printable(c, n.blob)
  {
    OnboardedWith(c, n.prf, n.passphrase, n.dice, n.cidOf(ShareOf(c, n)), BlobCid(c, n))
  }

  /** An enrollment, with a blob or without, whose records storage still serves. */
  ghost predicate Stands(c: Crypto, n: Enrollment, o: Onboarded, storage: Storage) {
    && Enrollable(c, n) && o == Out(c, n)
    && o.shareCid in storage && storage[o.shareCid] == ShareOf(c, n)
    && (n.blob.Some? ==>
          o.blobCid.value in storage && storage[o.blobCid.value] == UploadedBlob(c, n.blob.value, n.dice))
  }

  /** Right after an enrollment, whatever was stored before, its records are there. */
  lemma StandsAtOnce(c: Crypto, n: Enrollment, storage: Storage)
    requires Enrollable(c, n)
    ensures var o := Out(c, n);
            var uploaded := storage[o.shareCid := ShareOf(c, n)];
            Stands(c, n, o, if n.blob.None? then uploaded
                            else uploaded[o.blobCid.value := UploadedBlob(c, n.blob.value, n.dice)])
  {
  }

  predicate Published(o: Onboarded, resolver: Option<Resolver>) {
    resolver.Some? && resolver.value(o.ptr) == Some(o.pointerValue)
  }

  /** The pointer resolves to what was to be published, or to nothing. */
  predicate HonestResolver(o: Onboarded, resolver: Option<Resolver>) {
    Published(o, resolver) || resolver.None? || resolver.value(o.ptr) == None
  }

  predicate KitOpens(c: Crypto, f: Factors) {
    f.kit.Some? && OpenKit(c, f.kit.value.bytes, f.kit.value.passphrase).Ok?
  }

  /**
   What must be genuine. The device share and the kit are not forged, but the kit may be damaged or tried
   with any passphrase. Passkey and pointer matter only where recovery has to rely on them: together with
   the device share when there is no kit, the pointer also when an opened kit names no blob. Next to a kit
   that opens the passkey may be any other, and for a vault with a blob the pointer may resolve to anything.
   */
  predicate Trusted(c: Crypto, n: Enrollment, o: Onboarded, f: Factors, resolver: Option<Resolver>) {
    && (f.device.Some? ==> f.device.value == o.sDev)
    && (f.kit.Some? ==> f.kit.value.bytes == o.kit || !KitOpens(c, f))
    && (f.kit.None? && f.prf.Some? && f.device.Some? ==> f.prf.value == n.prf && HonestResolver(o, resolver))
    && (KitOpens(c, f) && n.blob.None? ==> HonestResolver(o, resolver))
  }

  /** A passkey output the derivation takes, if one is given at all. */
  predicate LongEnough(prf: Option<seq<byte>>) {
    prf.Some? ==> |prf.value| >= 16
  }

  /**
   End to end: after an enrollment, recovery returns the original vault key, and the blob if one was
   enrolled, exactly when the kit opens and no passkey given with it is too short, or when no kit is given
   and passkey, device share and published pointer are all there. Every other set of factors fails: a kit
   that does not open fails whatever else is given. What an opened kit says takes precedence over the
   passkey and the pointer, so neither can spoil it.
   */
  lemma EndToEnd(c: Crypto, n: Enrollment, o: Onboarded, storage: Storage, f: Factors, resolver: Option<Resolver>)
    requires Contracts(c) && Stands(c, n, o, storage) && Trusted(c, n, o, f, resolver)
    ensures var r := RecoveredVault(c, f, storage, resolver);
            && (r.Ok? <==>
                  || (KitOpens(c, f) && LongEnough(f.prf))
                  || (f.kit.None? && f.prf.Some? && f.device.Some? && Published(o, resolver)))
            && (r.Ok? ==> r.value == Vault(o.vaultKey, n.blob))
  {
    RecordsComeBack(c, n, o, storage);
    if KitOpens(c, f) {
      OpenedKit(c, n, o, f.kit.value.passphrase);
      if LongEnough(f.prf) {
        WithKit(c, n, o, storage, f.prf, f.device, resolver);
      } else {
        ShortPasskeyFails(c, n, o, storage, f.prf, f.device, resolver);
      }
    } else if f.kit.None? {
      if f.prf.Some? && f.device.Some? {
        WithoutKit(c, n, o, storage, f.device, resolver);
      } else {
        OneFactorFails(c, f, storage, resolver);
      }
    }
  }

  /** What recovery relies on: the records come back, the ids are usable, shares and keys are read back. */
  predicate Back(c: Crypto, n: Enrollment, o: Onboarded, storage: Storage) {
    var s := c.split(n.dice.vaultKey, n.dice.splitting);
    var wkId := c.prfKey(n.prf);
    && IdentityShare(c, Some(o.shareCid), Some(wkId), storage) == Ok([s.sId])
    && WithBlob(c, o.vaultKey, o.blobCid, storage) == Ok(Vault(o.vaultKey, n.blob))
    && |n.prf| >= 16 && o.vaultKey == n.dice.vaultKey && o.sDev == s.sDev
    && o.ptr == DerivedPtr(c, n.prf) && o.ptr != "" && o.shareCid != ""
    && Present(o.blobCid) == o.blobCid && (o.blobCid.Some? <==> n.blob.Some?)
    && FirstPart(o.pointerValue) == o.shareCid && SecondPart(o.pointerValue) == o.blobCid
    && TwoOfThree(c, o.vaultKey, s)
    && c.fromBase64(c.toBase64(s.sRec)) == Some(s.sRec) && c.fromBase64(c.toBase64(wkId)) == Some(wkId)
  }

  lemma RecordsComeBack(c: Crypto, n: Enrollment, o: Onboarded, storage: Storage)
    requires Contracts(c) && Stands(c, n, o, storage)
    ensures Back(c, n, o, storage)
  {
    var s := c.split(n.dice.vaultKey, n.dice.splitting);
    SealedRoundTrip(c, c.prfKey(n.prf), n.dice.shareNonce, s.sId);
    if n.blob.Some? {
      SealedRoundTrip(c, n.dice.vaultKey, n.dice.blobNonce, c.fromBase64(n.blob.value).value);
    }
    PointerParts(o.shareCid, o.blobCid);
    assert TwoOfThree(c, n.dice.vaultKey, s);
  }

  /** What the pointer's value splits into. */
  lemma PointerParts(shareCid: string, blobCid: Option<string>)
    requires ':' !in shareCid && (blobCid.Some? ==> ':' !in blobCid.value)
    ensures FirstPart(PointerValue(shareCid, blobCid)) == shareCid
    ensures SecondPart(PointerValue(shareCid, blobCid)) == blobCid
  {
    if blobCid.Some? {
      PartsOfPair(shareCid, blobCid.value);
    } else {
      FirstOfColonFree(shareCid, "");
      assert shareCid + "" == shareCid;
    }
  }

  /** The kit's contents as enrolled. */
  function KitOf(c: Crypto, n: Enrollment, o: Onboarded): Contents {
    KitContents(c, n.prf, n.dice, o.shareCid, o.blobCid)
  }

  lemma OpenedKit(c: Crypto, n: Enrollment, o: Onboarded, tried: seq<byte>)
    requires Contracts(c) && Enrollable(c, n) && o == Out(c, n) && OpenKit(c, o.kit, tried).Ok?
    ensures OpenKit(c, o.kit, tried) == Ok(KitOf(c, n, o))
  {
    KitRoundTrip(c, KitOf(c, n, o), n.passphrase, n.dice.salt, n.dice.kitNonce, tried);
  }

  /** What an opened kit says; a passkey beside it changes none of it. */
  lemma KitKnown(c: Crypto, n: Enrollment, o: Onboarded, storage: Storage, passkey: Option<seq<byte>>)
    requires Back(c, n, o, storage)
    ensures var s := c.split(n.dice.vaultKey, n.dice.splitting);
            var known := Known(Some(s.sRec), Some(o.ptr), Some(o.shareCid), Some(c.prfKey(n.prf)));
            && FromKit(c, Some(KitOf(c, n, o))) == Ok(known)
            && WithPasskey(c, known, passkey) == if LongEnough(passkey) then Ok(known) else Err(PrfTooShort)
  {
  }

  /** With an opened kit the key comes back, whatever passkey and pointer say. */
  lemma KitGivesKey(c: Crypto, n: Enrollment, o: Onboarded, storage: Storage, passkey: Option<seq<byte>>,
                    device: Option<seq<byte>>, resolver: Option<Resolver>)
    requires Back(c, n, o, storage) && LongEnough(passkey) && (device.Some? ==> device.value == o.sDev)
    ensures Recovered(c, passkey, Some(KitOf(c, n, o)), device, storage, resolver) == Ok(o.vaultKey)
  {
    var s := c.split(n.dice.vaultKey, n.dice.splitting);
    KitKnown(c, n, o, storage, passkey);
    assert OneOf(Some(s.sRec)) + OneOf(device) + [s.sId]
        == if device.Some? then [s.sRec, s.sDev, s.sId] else [s.sRec, s.sId];
  }

  /**
   A kit that carries no id of the wrapped share, as kits without that field open, is led to the share by
   its own pointer, not by that of a passkey given with it.
   */
  lemma KitPointerFirst(c: Crypto, n: Enrollment, o: Onboarded, storage: Storage, passkey: Option<seq<byte>>,
                        device: Option<seq<byte>>, resolver: Option<Resolver>)
    requires Back(c, n, o, storage) && LongEnough(passkey) && (device.Some? ==> device.value == o.sDev)
    requires Published(o, resolver)
    ensures var contents := KitOf(c, n, o).(shareCid := "");
            Recovered(c, passkey, Some(contents), device, storage, resolver) == Ok(o.vaultKey)
  {
    var s := c.split(n.dice.vaultKey, n.dice.splitting);
    var contents := KitOf(c, n, o).(shareCid := "");
    var known := Known(Some(s.sRec), Some(o.ptr), None, Some(c.prfKey(n.prf)));
    assert FromKit(c, Some(contents)) == Ok(known) && WithPasskey(c, known, passkey) == Ok(known);
    assert ShareLocation(known, resolver) == Some(o.shareCid);
    assert OneOf(Some(s.sRec)) + OneOf(device) + [s.sId]
        == if device.Some? then [s.sRec, s.sDev, s.sId] else [s.sRec, s.sId];
  }

  lemma WithKit(c: Crypto, n: Enrollment, o: Onboarded, storage: Storage, passkey: Option<seq<byte>>,
                device: Option<seq<byte>>, resolver: Option<Resolver>)
    requires Back(c, n, o, storage) && LongEnough(passkey) && (device.Some? ==> device.value == o.sDev)
    requires n.blob.None? ==> HonestResolver(o, resolver)
    ensures RecoveredWith(c, passkey, Some(KitOf(c, n, o)), device, storage, resolver) == Ok(Vault(o.vaultKey, n.blob))
  {
    KitGivesKey(c, n, o, storage, passkey, device, resolver);
    KitBlobLocation(c, n, o, storage, passkey, resolver);
  }

  /** The kit's blob id comes first; a kit without one leaves the question to the pointer. */
  lemma KitBlobLocation(c: Crypto, n: Enrollment, o: Onboarded, storage: Storage, passkey: Option<seq<byte>>,
                        resolver: Option<Resolver>)
    requires Back(c, n, o, storage) && (n.blob.None? ==> HonestResolver(o, resolver))
    ensures BlobLocation(c, passkey, Some(KitOf(c, n, o)), resolver) == o.blobCid
  {
  }

  lemma ShortPasskeyFails(c: Crypto, n: Enrollment, o: Onboarded, storage: Storage, passkey: Option<seq<byte>>,
                          device: Option<seq<byte>>, resolver: Option<Resolver>)
    requires Back(c, n, o, storage) && !LongEnough(passkey)
    ensures RecoveredWith(c, passkey, Some(KitOf(c, n, o)), device, storage, resolver) == Err(PrfTooShort)
  {
    KitKnown(c, n, o, storage, passkey);
  }

  lemma WithoutKit(c: Crypto, n: Enrollment, o: Onboarded, storage: Storage, device: Option<seq<byte>>,
                   resolver: Option<Resolver>)
    requires Back(c, n, o, storage) && HonestResolver(o, resolver) && (device.Some? ==> device.value == o.sDev)
    ensures RecoveredWith(c, Some(n.prf), None, device, storage, resolver)
         == if device.Some? && Published(o, resolver) then Ok(Vault(o.vaultKey, n.blob)) else Err(TooFewShares)
  {
    var s := c.split(n.dice.vaultKey, n.dice.splitting);
    var known := Known(None, Some(o.ptr), None, Some(c.prfKey(n.prf)));
    SharesWithoutKit(c, o.vaultKey, s, device, Published(o, resolver));
    assert WithPasskey(c, Known(None, None, None, None), Some(n.prf)) == Ok(known);
    var place := if Published(o, resolver) then Some(o.shareCid) else None;
    assert ShareLocation(known, resolver) == place;
    assert IdentityShare(c, place, known.wkId, storage) == Ok(if place.Some? then [s.sId] else []);
    assert Published(o, resolver) ==> BlobLocation(c, Some(n.prf), None, resolver) == o.blobCid;
  }

  /** Device share and identity share together are enough, one of them is not. */
  lemma SharesWithoutKit(c: Crypto, key: seq<byte>, s: Shares, device: Option<seq<byte>>, found: bool)
    requires TwoOfThree(c, key, s) && (device.Some? ==> device.value == s.sDev)
    ensures Combined(c, OneOf(None) + OneOf(device) + (if found then [s.sId] else []))
         == if device.Some? && found then Ok(key) else Err(TooFewShares)
  {
    assert OneOf(None) + OneOf(device) + (if found then [s.sId] else [])
        == if device.Some? then (if found then [s.sDev, s.sId] else [s.sDev]) else (if found then [s.sId] else []);
  }

  /**
   Without a kit, a passkey alone or a device share alone recovers nothing: not with any storage, any
   pointer or any cryptography. (The comments of the enrollment code promise otherwise of the passkey.)
   */
  lemma OneFactorFails(c: Crypto, f: Factors, storage: Storage, resolver: Option<Resolver>)
    requires f.kit.None? && (f.prf.None? || f.device.None?)
    ensures RecoveredVault(c, f, storage, resolver).Err?
  {
    var nothing := Known(None, None, None, None);
    assert FromKit(c, None) == Ok(nothing);
    if LongEnough(f.prf) {
      var known := WithPasskey(c, nothing, f.prf).value;
      var identity := IdentityShare(c, ShareLocation(known, resolver), known.wkId, storage);
      assert identity.Ok? ==> |identity.value| <= 1 && (f.prf.None? ==> identity.value == []);
    }
  }

  /** After an enrollment the passkey alone fails for want of shares. */
  lemma PasskeyAloneFails(c: Crypto, n: Enrollment, o: Onboarded, storage: Storage, resolver: Option<Resolver>)
    requires Contracts(c) && Stands(c, n, o, storage) && HonestResolver(o, resolver)
    ensures RecoveredVault(c, Factors(Some(n.prf), None, None), storage, resolver) == Err(TooFewShares)
  {
    RecordsComeBack(c, n, o, storage);
    WithoutKit(c, n, o, storage, None, resolver);
  }
}
