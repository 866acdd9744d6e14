/** Text forms of 32-byte account ids: base58 or 64 hex digits, with an optional visibility prefix. */
module AccountIds {
  import opened Bytes
  import opened Base58

  datatype IdError = BadHex | InvalidChar(c: char) | WrongLength

  /** The id without a leading "Public/" or "Private/". */
  function Bare(id: string): (b: string)
    ensures id == "Public/" + b || id == "Private/" + b || id == b
    ensures id == b ==> !("Public/" <= id) && !("Private/" <= id)
  {
    if "Public/" <= id then id[7..]
    else if "Private/" <= id then id[8..]
    else id
  }

  function StripHexPrefix(hex: string): (h: string)
    ensures hex == "0x" + h || (hex == h && !("0x" <= hex))
  {
    if "0x" <= hex then hex[2..] else hex
  }

  /** The 32 bytes an id text denotes, if it is one. */
  function IdBytes(id: string): Option<seq<byte>> {
    var bare := Bare(id);
    if |bare| == 64 && IsHex(bare) then Some(FromHex(bare))
    else if OverAlphabet(bare) && |Decode(bare)| == 32 then Some(Decode(bare))
    else None
  }

  method HexToBytes(hex: string) returns (r: Result<seq<byte>, IdError>)
    ensures var h := StripHexPrefix(hex);
            r == if |h| % 2 == 0 && IsHex(h) then Ok(FromHex(h)) else Err(BadHex)
  {
    var h := if "0x" <= hex then hex[2..] else hex;
    if |h| % 2 != 0 || !IsHex(h) {
      return Err(BadHex);
    }
    var out: seq<byte> := [];
    var i := 0;
    while i < |h| / 2
      invariant 0 <= i <= |h| / 2
      invariant FromHex(h) == out + FromHex(h[2 * i..])
    {
      FromHexStep(h, i);
      Assoc(out, [16 * HexValue(h[2 * i]) + HexValue(h[2 * i + 1])], FromHex(h[2 * (i + 1)..]));
      out := out + [16 * HexValue(h[2 * i]) + HexValue(h[2 * i + 1])];
      i := i + 1;
    }
    assert h[2 * i..] == "" && out + [] == out;
    r := Ok(out);
  }

  lemma FromHexStep(h: string, i: nat)
    requires 2 * i + 2 <= |h|
    ensures FromHex(h[2 * i..]) == [16 * HexValue(h[2 * i]) + HexValue(h[2 * i + 1])] + FromHex(h[2 * (i + 1)..])
  {
    assert h[2 * i..][2..] == h[2 * (i + 1)..];
  }

  method AccountIdBytes(id: string) returns (r: Result<seq<byte>, IdError>)
    ensures r.Ok? <==> IdBytes(id).Some?
    ensures r.Ok? ==> IdBytes(id) == Some(r.value) && |r.value| == 32
    ensures r.Err? ==> r.error.WrongLength? || (r.error.InvalidChar? && FirstForeign(Bare(id), r.error.c))
    ensures r == Err(WrongLength) <==> IdBytes(id).None? && OverAlphabet(Bare(id))
  {
    var bare := Bare(id);
    if |bare| == 64 && IsHex(bare) {
      assert bare[1] != 'x';
      r := HexToBytes(bare);
      return;
    }
    var b := Base58Decode(bare);
    if b.Err? {
      return Err(InvalidChar(b.error));
    }
    if |b.value| != 32 {
      return Err(WrongLength);
    }
    r := Ok(b.value);
  }

  /** t is a way to write b without a prefix: base58, or 64 hex digits in either case. */
  predicate IsTextOf(t: string, b: seq<byte>) {
    t == Encode(b) || (|t| == 64 && IsHex(t) && LowerHex(t) == ToHex(b))
  }

  /** An id text denotes b exactly when it is, prefix aside, one of the text forms of b. */
  lemma TextForms(id: string, b: seq<byte>)
    requires |b| == 32
    ensures IdBytes(id) == Some(b) <==> IsTextOf(Bare(id), b)
  {
    var t := Bare(id);
    if t == Encode(b) {
      AccountIdLength(b);
      DecodeEncode(b);
    } else if |t| == 64 && IsHex(t) {
      FromHexInverse(t);
      HexInverse(b);
      HexInverse(FromHex(t));
    } else if OverAlphabet(t) {
      EncodeDecode(t);
    }
  }

  /** What bytesToHex and base58Encode print is read back, with or without a prefix. */
  lemma PrintedIdsParse(b: seq<byte>, t: string)
    requires |b| == 32 && (t == Encode(b) || t == ToHex(b))
    ensures IdBytes(t) == Some(b) && IdBytes("Public/" + t) == Some(b) && IdBytes("Private/" + t) == Some(b)
  {
    assert IsTextOf(t, b) && (OverAlphabet(t) || IsHex(t)) by {
      ToHexIsHex(b);
      HexInverse(b);
      FromHexInverse(ToHex(b));
    }
    NoPrefix(t);
    TextForms(t, b);
    PrefixStripped(t);
    TextForms("Public/" + t, b);
    TextForms("Private/" + t, b);
  }

  lemma PrefixStripped(t: string)
    ensures Bare("Public/" + t) == t && Bare("Private/" + t) == t
  {
    var public, private := "Public/" + t, "Private/" + t;
    assert public[7..] == t && private[8..] == t;
    assert private[1] == 'r' && "Public/"[1] == 'u';
  }

  /** Neither alphabet contains the slash a prefix ends with. */
  lemma NoPrefix(t: string)
    requires OverAlphabet(t) || IsHex(t)
    ensures Bare(t) == t
  {
    PrefixHasSlash(t);
  }

  lemma PrefixHasSlash(t: string)
    ensures "Public/" <= t || "Private/" <= t ==> exists k :: 0 <= k < |t| && t[k] == '/'
  {
    assert "Public/" <= t ==> |t| > 6 && t[6] == '/';
    assert "Private/" <= t ==> |t| > 7 && t[7] == '/';
  }

  /** Two printed ids denote the same account only when they are the same text. */
  lemma Base58IdsInjective(s: string, t: string)
    requires IdBytes(s).Some? && IdBytes(s) == IdBytes(t)
    requires OverAlphabet(s) && OverAlphabet(t) && |s| != 64 && |t| != 64
    ensures s == t
  {
    NoPrefix(s);
    NoPrefix(t);
    EncodeDecode(s);
    EncodeDecode(t);
  }
}
