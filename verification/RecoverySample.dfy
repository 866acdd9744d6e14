/** The assumptions about recovery can be met: functions that satisfy every contract, and an enrollment with them. */
module RecoverySample {
  import opened Bytes
  import opened Recovery
  import Pda

  // ---- an injective code for kit payloads -----------------------------------------------------------

  function Unary(n: nat): seq<byte> {
    if n == 0 then [0] else [1] + Unary(n - 1)
  }

  function Chars(s: string): seq<byte> {
    if s == "" then [] else Unary(s[0] as int) + Chars(s[1..])
  }

  function TextCode(s: string): seq<byte> {
    Unary(|s|) + Chars(s)
  }

  function OptionCode(o: Option<string>): seq<byte> {
    match o
    case None => Unary(0)
    case Some(s) => Unary(1) + TextCode(s)
  }

  function IntCode(v: int): seq<byte> {
    if v < 0 then Unary(1) + Unary(-v) else Unary(0) + Unary(v)
  }

  function JsonCode(j: KitJson): seq<byte> {
    IntCode(j.v) + (TextCode(j.sRec)
                    + (TextCode(j.ptr) + (TextCode(j.wkId) + (OptionCode(j.shareCid) + OptionCode(j.blobCid)))))
  }

  lemma {:induction false} UnaryEnds(n: nat, m: nat, a: seq<byte>, b: seq<byte>)
    requires Unary(n) + a == Unary(m) + b
    ensures n == m && a == b
  {
    var x, y := Unary(n) + a, Unary(m) + b;
    assert x[0] == (if n == 0 then 0 else 1) && y[0] == (if m == 0 then 0 else 1);
    if n == 0 {
      assert x[1..] == a && y[1..] == b;
    } else {
      assert x[1..] == Unary(n - 1) + a && y[1..] == Unary(m - 1) + b;
      UnaryEnds(n - 1, m - 1, a, b);
    }
  }

  lemma {:induction false} CharsEnd(s: string, t: string, a: seq<byte>, b: seq<byte>)
    requires |s| == |t| && Chars(s) + a == Chars(t) + b
    ensures s == t && a == b
  {
    if s == "" {
      assert Chars(s) + a == a && Chars(t) + b == b;
    } else {
      Assoc(Unary(s[0] as int), Chars(s[1..]), a);
      Assoc(Unary(t[0] as int), Chars(t[1..]), b);
      UnaryEnds(s[0] as int, t[0] as int, Chars(s[1..]) + a, Chars(t[1..]) + b);
      CharsEnd(s[1..], t[1..], a, b);
      assert s == [s[0]] + s[1..] && t == [t[0]] + t[1..];
    }
  }

  lemma TextEnds(s: string, t: string, a: seq<byte>, b: seq<byte>)
    requires TextCode(s) + a == TextCode(t) + b
    ensures s == t && a == b
  {
    Assoc(Unary(|s|), Chars(s), a);
    Assoc(Unary(|t|), Chars(t), b);
    UnaryEnds(|s|, |t|, Chars(s) + a, Chars(t) + b);
    CharsEnd(s, t, a, b);
  }

  lemma OptionEnds(o: Option<string>, p: Option<string>, a: seq<byte>, b: seq<byte>)
    requires OptionCode(o) + a == OptionCode(p) + b
    ensures o == p && a == b
  {
    var x := if o.Some? then TextCode(o.value) else [];
    var y := if p.Some? then TextCode(p.value) else [];
    var n, m := if o.Some? then 1 else 0, if p.Some? then 1 else 0;
    assert Unary(0) + [] == Unary(0);
    Assoc(Unary(n), x, a);
    Assoc(Unary(m), y, b);
    UnaryEnds(n, m, x + a, y + b);
    if o.Some? {
      TextEnds(o.value, p.value, a, b);
    } else {
      assert x + a == a && y + b == b;
    }
  }

  lemma IntEnds(v: int, w: int, a: seq<byte>, b: seq<byte>)
    requires IntCode(v) + a == IntCode(w) + b
    ensures v == w && a == b
  {
    var n, m := if v < 0 then 1 else 0, if w < 0 then 1 else 0;
    var i, k := if v < 0 then -v else v, if w < 0 then -w else w;
    Assoc(Unary(n), Unary(i), a);
    Assoc(Unary(m), Unary(k), b);
    UnaryEnds(n, m, Unary(i) + a, Unary(k) + b);
    UnaryEnds(i, k, a, b);
  }

  lemma JsonCodeInjective(j: KitJson, k: KitJson)
    requires JsonCode(j) == JsonCode(k)
    ensures j == k
  {
    var c, d := OptionCode(j.shareCid) + OptionCode(j.blobCid), OptionCode(k.shareCid) + OptionCode(k.blobCid);
    var e, f := TextCode(j.wkId) + c, TextCode(k.wkId) + d;
    var g, h := TextCode(j.ptr) + e, TextCode(k.ptr) + f;
    IntEnds(j.v, k.v, TextCode(j.sRec) + g, TextCode(k.sRec) + h);
    TextEnds(j.sRec, k.sRec, g, h);
    TextEnds(j.ptr, k.ptr, e, f);
    TextEnds(j.wkId, k.wkId, c, d);
    OptionEnds(j.shareCid, k.shareCid, OptionCode(j.blobCid), OptionCode(k.blobCid));
    assert OptionCode(j.blobCid) + [] == OptionCode(j.blobCid) && OptionCode(k.blobCid) + [] == OptionCode(k.blobCid);
    OptionEnds(j.blobCid, k.blobCid, [], []);
  }

  ghost function ReadJson(b: seq<byte>): Option<KitJson> {
    if exists j :: JsonCode(j) == b then
      var j :| JsonCode(j) == b;
      Some(j)
    else None
  }

  lemma ReadJsonInverse(j: KitJson)
    ensures ReadJson(JsonCode(j)) == Some(j)
  {
    var k := ReadJson(JsonCode(j)).value;
    JsonCodeInjective(j, k);
  }

  // ---- the other functions ----------------------------------------------------------------------------

  function Letters(b: seq<byte>): string {
    seq(|b|, k requires 0 <= k < |b| => b[k] as char)
  }

  function FromLetters(s: string): Option<seq<byte>> {
    if forall k :: 0 <= k < |s| ==> s[k] as int < 0x100
    then Some(seq(|s|, k requires 0 <= k < |s| && s[k] as int < 0x100 => s[k] as int)) else None
  }

  lemma LettersInverse(b: seq<byte>)
    ensures FromLetters(Letters(b)) == Some(b)
  {
    assert FromLetters(Letters(b)).value == b;
  }

  /** Nothing is hidden, but everything the contracts ask for holds. */
  ghost function SampleCrypto(): Crypto {
    Crypto((key, nonce, text) => text + Pda.ZeroPad(16),
           (key, nonce, sealed: seq<byte>) => if |sealed| >= 16 then Some(sealed[..|sealed| - 16]) else None,
           (passphrase, salt) => passphrase,
           prf => Pda.ZeroPad(32), prf => Pda.ZeroPad(32),
           (key, r) => Shares([0] + key, [1] + key, [2] + key),
           (ss: seq<seq<byte>>) => if |ss| >= 2 && ss[0] != [] then Some(ss[0][1..]) else None,
           Letters, FromLetters, JsonCode, ReadJson)
  }

  lemma SampleContracts()
    ensures Contracts(SampleCrypto())
  {
    var c := SampleCrypto();
    forall key, nonce, text
      ensures c.decrypt(key, nonce, c.encrypt(key, nonce, text)) == Some(text)
    {
      assert (text + Pda.ZeroPad(16))[..|text|] == text;
    }
    forall key, key', nonce, text
      ensures Opens(c, key', nonce, c.encrypt(key, nonce, text), text)
    {
      assert (text + Pda.ZeroPad(16))[..|text|] == text;
    }
    forall key, r
      ensures TwoOfThree(c, key, c.split(key, r))
    {
      assert ([1] + key)[1..] == key && ([2] + key)[1..] == key;
    }
    forall b ensures c.fromBase64(c.toBase64(b)) == Some(b) {
      LettersInverse(b);
    }
    forall j ensures c.fromJson(c.toJson(j)) == Some(j) {
      ReadJsonInverse(j);
    }
  }

  /** Content ids that tell the uploaded records apart make an enrollment stand. */
  lemma EnrollmentStands(c: Crypto, prf: seq<byte>, passphrase: seq<byte>, blob: string, d: Dice, storage: Storage)
    requires |prf| >= 16 && DiceFit(d) && Printable(c, Some(blob))
    ensures exists n: Enrollment, o, after :: n.blob == Some(blob) && Stands(c, n, o, after)
  {
    var share, sealed := WrappedShare(c, prf, d), UploadedBlob(c, blob, d);
    var cidOf := (b: seq<byte>) => if b == share then "share" else "blob";
    var n := Enrollment(prf, passphrase, Some(blob), d, cidOf);
    assert Addresses(cidOf, share, sealed);
    StandsAtOnce(c, n, storage);
  }

  /** There are functions that meet every contract, and with them an enrollment of any blob that stands. */
  lemma Inhabited(prf: seq<byte>, passphrase: seq<byte>, blob: seq<byte>, d: Dice, storage: Storage)
    requires |prf| >= 16 && DiceFit(d)
    ensures exists c: Crypto, n: Enrollment, o, after ::
              Contracts(c) && n.blob == Some(c.toBase64(blob)) && Stands(c, n, o, after)
  {
    SampleContracts();
    LettersInverse(blob);
    var c := SampleCrypto();
    hide SampleCrypto, Stands;
    EnrollmentStands(c, prf, passphrase, c.toBase64(blob), d, storage);
  }
}
