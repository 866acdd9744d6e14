/** Base58 text of byte strings: the in-place radix conversions and their specification. */
module Base58 {
  import opened Bytes
  import opened Radix

  /** Character d of the alphabet: 1-9, A-H, J-N, P-Z, a-k, m-z. */
  function Symbol(d: nat): (c: char)
    requires d < 58
  {
    if d < 9 then ('1' as int + d) as char
    else if d < 17 then ('A' as int + d - 9) as char
    else if d < 22 then ('J' as int + d - 17) as char
    else if d < 33 then ('P' as int + d - 22) as char
    else if d < 44 then ('a' as int + d - 33) as char
    else ('m' as int + d - 44) as char
  }

  lemma AlphabetSpelled()
    ensures seq(58, d requires 0 <= d < 58 => Symbol(d))
         == "123456789" + "ABCDEFGH" + "JKLMN" + "PQRSTUVWXYZ" + "abcdefghijk" + "mnopqrstuvwxyz"
  {
  }

  /** The digit a character stands for (a lookup in the table built from the alphabet). */
  function Index(c: char): (r: Option<nat>)
    ensures r.Some? ==> r.value < 58 && Symbol(r.value) == c
  {
    if '1' <= c <= '9' then Some(c as int - '1' as int)
    else if 'A' <= c <= 'H' then Some(c as int - 'A' as int + 9)
    else if 'J' <= c <= 'N' then Some(c as int - 'J' as int + 17)
    else if 'P' <= c <= 'Z' then Some(c as int - 'P' as int + 22)
    else if 'a' <= c <= 'k' then Some(c as int - 'a' as int + 33)
    else if 'm' <= c <= 'z' then Some(c as int - 'm' as int + 44)
    else None
  }

  lemma IndexInverse(d: nat)
    requires d < 58
    ensures Index(Symbol(d)) == Some(d)
  {
  }

  predicate InAlphabet(c: char) {
    Index(c).Some?
  }

  predicate OverAlphabet(s: string) {
    forall k :: 0 <= k < |s| ==> InAlphabet(s[k])
  }

  /** Digit list to text and back. */
  function Text(ds: seq<nat>): (s: string)
    requires Below(58, ds)
    ensures |s| == |ds| && OverAlphabet(s)
    ensures forall k :: 0 <= k < |ds| ==> s[k] == Symbol(ds[k])
  {
    seq(|ds|, k requires 0 <= k < |ds| => Symbol(ds[k]))
  }

  function Indices(s: string): (ds: seq<nat>)
    requires OverAlphabet(s)
    ensures |ds| == |s| && Below(58, ds)
    ensures forall k :: 0 <= k < |s| ==> Index(s[k]) == Some(ds[k])
  {
    seq(|s|, k requires 0 <= k < |s| => Index(s[k]).value)
  }

  lemma TextInverse(ds: seq<nat>)
    requires Below(58, ds)
    ensures Indices(Text(ds)) == ds
  {
    forall k | 0 <= k < |ds| ensures Indices(Text(ds))[k] == ds[k] { IndexInverse(ds[k]); }
  }

  lemma IndicesInverse(s: string)
    requires OverAlphabet(s)
    ensures Text(Indices(s)) == s
  {
  }

  function Encode(b: seq<byte>): string {
    Text(Convert(256, 58, b))
  }

  function Decode(s: string): seq<byte>
    requires OverAlphabet(s)
  {
    Convert(58, 256, Indices(s))
  }

  /** Every byte string survives encoding and decoding, leading zeros included. */
  lemma DecodeEncode(b: seq<byte>)
    ensures OverAlphabet(Encode(b)) && Decode(Encode(b)) == b
  {
    TextInverse(Convert(256, 58, b));
    ConvertInverse(256, 58, b);
  }

  /** Every text over the alphabet survives decoding and encoding, leading '1's included. */
  lemma EncodeDecode(s: string)
    requires OverAlphabet(s)
    ensures Encode(Decode(s)) == s
  {
    ConvertInverse(58, 256, Indices(s));
    IndicesInverse(s);
  }

  /**
   The text denotes the number the bytes denote, both read with the most significant first, and it starts
   with exactly as many '1's as the bytes do with zeros.
   */
  lemma SameNumber(b: seq<byte>)
    ensures var s, z := Encode(b), LeadingZeros(b);
            && Horner(58, Indices(s)) == Horner(256, b) && z <= |s|
            && (forall k :: 0 <= k < z ==> s[k] == '1') && (z < |s| ==> s[z] != '1')
  {
    hide Convert, Horner, Symbol, Index, LeadingZeros;
    var r, z := Convert(256, 58, b), LeadingZeros(b);
    TextInverse(r);
    ConvertSpec(256, 58, b);
    ZerosInFront(58, r, z);
    ZerosInFront(256, b, z);
    forall k | 0 <= k < |r|
      ensures Text(r)[k] == '1' <==> r[k] == 0
    {
      OneIsZero(r[k]);
    }
  }

  lemma OneIsZero(d: nat)
    requires d < 58
    ensures Symbol(d) == '1' <==> d == 0
  {
  }

  /** n bytes take at most k characters when 256^n <= 58^k, whatever zeros they start with. */
  lemma LengthBound(b: seq<byte>, k: nat)
    requires Pow(256, |b|) <= Pow(58, k) && |b| <= k
    ensures |Encode(b)| <= k
  {
    ShorterTail(|b|, k, LeadingZeros(b));
    ConvertLength(256, 58, b, k);
  }

  lemma ShorterTail(n: nat, k: nat, z: nat)
    requires z <= n <= k && Pow(256, n) <= Pow(58, k)
    ensures Pow(256, n - z) <= Pow(58, k - z)
  {
    PowAdd(256, n - z, z);
    PowAdd(58, k - z, z);
    PowMonotone(58, 256, z);
    CancelFactor(Pow(256, n - z), Pow(58, k - z), Pow(256, z), Pow(58, z));
  }

  lemma CancelFactor(p: nat, q: nat, a: nat, b: nat)
    requires p * a <= q * b && b <= a && a > 0
    ensures p <= q
  {
    MulMonotone(q, q, b, a);
    if p > q {
      MulMonotone(q + 1, p, a, a);
    }
  }

  /** An account id of 32 bytes takes at most 44 characters. */
  lemma AccountIdLength(b: seq<byte>)
    requires |b| == 32
    ensures |Encode(b)| <= 44
  {
    var p, q := Pow(256, 8), Pow(58, 11);
    assert p == 0x1_0000_0000_0000_0000;
    assert q == 24986644000165537792;
    PowAdd(256, 8, 8);
    PowAdd(58, 11, 11);
    PowAdd(256, 16, 16);
    PowAdd(58, 22, 22);
    MulMonotone(p, q, p, q);
    MulMonotone(p * p, q * q, p * p, q * q);
    LengthBound(b, 44);
  }

  /** One round of the encoder: digits := digits * 256 + d in place. The carry is at most 255 + 57 * 256. */
  method EncodeRound(digits: seq<nat>, d: nat) returns (r: seq<nat>)
    requires Canonical(58, digits) && d < 256
    ensures r == MulAdd(58, 256, digits, d)
  {
    r := digits;
    var carry: nat := d;
    var j := 0;
    ghost var rest := MulAdd(58, 256, digits, d);
    assert digits[0..] == digits;
    while j < |r|
      invariant j <= |r| == |digits| && carry < 256 && r[j..] == digits[j..]
      invariant MulAdd(58, 256, digits, d) == r[..j] + rest
      invariant rest == MulAdd(58, 256, digits[j..], carry)
    {
      MulAddUnfold(58, 256, digits, j, carry);
      SameSuffix(r, digits, j);
      carry := carry + r[j] * 256;
      assert carry <= 14847;
      StoreDigit(r, j, carry % 58, rest[1..]);
      r := r[j := carry % 58];
      carry := carry / 58;
      rest := rest[1..];
      j := j + 1;
    }
    MulAddEnd(58, 256, digits, carry);
    assert r[..j] == r;
    r := PushCarry(58, r, carry);
  }

  /** One round of the decoder: bytes := bytes * 58 + d in place. The carry is at most 57 + 255 * 58. */
  method DecodeRound(digits: seq<nat>, d: nat) returns (r: seq<nat>)
    requires Canonical(256, digits) && d < 58
    ensures r == MulAdd(256, 58, digits, d)
  {
    r := digits;
    var carry: nat := d;
    var j := 0;
    ghost var rest := MulAdd(256, 58, digits, d);
    assert digits[0..] == digits;
    while j < |r|
      invariant j <= |r| == |digits| && carry < 58 && r[j..] == digits[j..]
      invariant MulAdd(256, 58, digits, d) == r[..j] + rest
      invariant rest == MulAdd(256, 58, digits[j..], carry)
    {
      MulAddUnfold(256, 58, digits, j, carry);
      SameSuffix(r, digits, j);
      carry := carry + r[j] * 58;
      assert carry <= 14847;
      StoreDigit(r, j, carry % 256, rest[1..]);
      r := r[j := carry % 256];
      carry := carry / 256;
      rest := rest[1..];
      j := j + 1;
    }
    MulAddEnd(256, 58, digits, carry);
    assert r[..j] == r;
    r := PushCarry(256, r, carry);
  }

  lemma SameSuffix(r: seq<nat>, digits: seq<nat>, j: nat)
    requires j < |r| == |digits| && r[j..] == digits[j..]
    ensures r[j] == digits[j] && r[j + 1..] == digits[j + 1..]
  {
    assert r[j] == r[j..][0] && digits[j] == digits[j..][0];
    assert r[j + 1..] == r[j..][1..] && digits[j + 1..] == digits[j..][1..];
  }

  lemma StoreDigit(r: seq<nat>, j: nat, x: nat, rest: seq<nat>)
    requires j < |r|
    ensures r[..j] + ([x] + rest) == r[j := x][..j + 1] + rest
    ensures r[j := x][j + 1..] == r[j + 1..]
  {
  }

  /** The carry left over becomes new most significant digits. */
  method PushCarry(to: nat, digits: seq<nat>, carry: nat) returns (r: seq<nat>)
    requires to >= 2
    ensures r == digits + Digits(to, carry)
  {
    r := digits;
    var left: nat := carry;
    while left > 0
      invariant digits + Digits(to, carry) == r + Digits(to, left)
    {
      DigitsUnfold(to, left);
      Regroup(r, left % to, Digits(to, left / to));
      r := r + [left % to];
      left := left / to;
    }
  }

  method Base58Encode(bytes: seq<byte>) returns (out: string)
    ensures out == Encode(bytes)
  {
    var zeros := 0;
    while zeros < |bytes| && bytes[zeros] == 0
      invariant zeros <= LeadingZeros(bytes)
    {
      zeros := zeros + 1;
    }
    var digits: seq<nat> := [];
    var i := zeros;
    while i < |bytes|
      invariant zeros <= i <= |bytes|
      invariant digits == Digits(58, Horner(256, bytes[zeros..i]))
    {
      DigitsSpec(58, Horner(256, bytes[zeros..i]));
      NextDigit(256, 58, bytes, zeros, i);
      digits := EncodeRound(digits, bytes[i]);
      i := i + 1;
    }
    assert bytes[zeros..i] == bytes[zeros..];
    DigitsSpec(58, Horner(256, bytes[zeros..]));
    ConvertParts(256, 58, bytes, zeros);
    out := Symbols(zeros, digits);
  }

  /** '1' for every leading zero, then the digits from the most significant one down. */
  method Symbols(zeros: nat, digits: seq<nat>) returns (out: string)
    requires Below(58, digits)
    ensures out == Text(Zeros(zeros) + Reverse(digits))
  {
    out := seq(zeros, _ => '1');
    var i := |digits| - 1;
    while i >= 0
      invariant -1 <= i < |digits|
      invariant |out| == zeros + (|digits| - 1 - i)
      invariant forall k :: 0 <= k < zeros ==> out[k] == '1'
      invariant forall k :: zeros <= k < |out| ==> out[k] == Symbol(digits[|digits| - 1 - (k - zeros)])
    {
      out := out + [Symbol(digits[i])];
      i := i - 1;
    }
  }

  method Base58Decode(s: string) returns (r: Result<seq<byte>, char>)
    ensures r.Ok? <==> OverAlphabet(s)
    ensures r.Ok? ==> r.value == Decode(s)
    ensures r.Err? ==> FirstForeign(s, r.error)
  {
    var zeros := 0;
    while zeros < |s| && s[zeros] == '1'
      invariant zeros <= |s|
      invariant forall k :: 0 <= k < zeros ==> s[k] == '1'
    {
      zeros := zeros + 1;
    }
    var bytes := DecodeDigits(s, zeros);
    if bytes.Err? {
      return Err(bytes.error);
    }
    DecodeEnd(s, zeros, bytes.value);
    r := Ok(seq(zeros, _ => 0) + ReverseBytes(bytes.value));
  }

  /** c is the first character of s outside the alphabet. */
  predicate FirstForeign(s: string, c: char) {
    exists i :: 0 <= i < |s| && s[i] == c && !InAlphabet(s[i]) && OverAlphabet(s[..i])
  }

  /** The main loop: the digits after the leading '1's, converted in place. */
  method DecodeDigits(s: string, zeros: nat) returns (r: Result<seq<nat>, char>)
    requires zeros <= |s| && OverAlphabet(s[..zeros])
    ensures r.Ok? <==> OverAlphabet(s)
    ensures r.Ok? ==> r.value == Digits(256, Horner(58, Indices(s)[zeros..]))
    ensures r.Err? ==> FirstForeign(s, r.error)
  {
    var bytes: seq<nat> := [];
    ghost var seen: seq<nat> := [];
    var i := zeros;
    while i < |s|
      invariant zeros <= i <= |s| && OverAlphabet(s[..i])
      invariant seen == Indices(s[..i])[zeros..]
      invariant bytes == Digits(256, Horner(58, seen))
    {
      var v := Index(s[i]);
      if v.None? {
        return Err(s[i]);
      }
      SeenDigit(seen, v.value);
      bytes := DecodeRound(bytes, v.value);
      IndicesAppend(s, zeros, i);
      seen := seen + [v.value];
      i := i + 1;
    }
    assert s[..i] == s;
    r := Ok(bytes);
  }

  lemma SeenDigit(seen: seq<nat>, d: nat)
    ensures Canonical(256, Digits(256, Horner(58, seen)))
    ensures MulAdd(256, 58, Digits(256, Horner(58, seen)), d) == Digits(256, Horner(58, seen + [d]))
  {
    DigitsSpec(256, Horner(58, seen));
    MulAddIsDigits(58, 256, seen, d);
  }

  lemma IndicesAppend(s: string, zeros: nat, i: nat)
    requires zeros <= i < |s| && OverAlphabet(s[..i]) && InAlphabet(s[i])
    ensures OverAlphabet(s[..i + 1])
    ensures Indices(s[..i + 1])[zeros..] == Indices(s[..i])[zeros..] + [Index(s[i]).value]
  {
  }

  lemma DecodeEnd(s: string, zeros: nat, bytes: seq<nat>)
    requires OverAlphabet(s) && zeros <= |s| && (forall k :: 0 <= k < zeros ==> s[k] == '1')
    requires zeros < |s| ==> s[zeros] != '1'
    requires bytes == Digits(256, Horner(58, Indices(s)[zeros..]))
    ensures Below(256, bytes) && Decode(s) == Zeros(zeros) + Reverse(bytes)
  {
    DigitsSpec(256, Horner(58, Indices(s)[zeros..]));
    LeadingOnes(s, zeros);
    ConvertParts(58, 256, Indices(s), zeros);
  }

  lemma LeadingOnes(s: string, zeros: nat)
    requires OverAlphabet(s) && zeros <= |s| && (forall k :: 0 <= k < zeros ==> s[k] == '1')
    requires zeros < |s| ==> s[zeros] != '1'
    ensures LeadingZeros(Indices(s)) == zeros
  {
    assert forall k :: 0 <= k < zeros ==> Indices(s)[k] == 0;
    assert zeros < |s| ==> Symbol(Indices(s)[zeros]) == s[zeros];
  }

  function ReverseBytes(s: seq<nat>): (r: seq<byte>)
    requires Below(256, s)
    ensures r == Reverse(s)
  {
    if s == [] then [] else ReverseBytes(s[1..]) + [s[0]]
  }
}
