/** webhook_handler: the HMAC signature gate in front of the deploy script.
    HMAC-SHA256 is a parameter `mac` from the secret and the body to the tag
    bytes. */
module Webhook {
  import opened Base
  import opened Text

  const SignatureHeader: string := "X-Hub-Signature-256"
  const SignaturePrefix: string := "sha256="

  /** `HeaderValue::to_str`: defined only when every byte is visible ASCII
      (32 to 126) or a tab. */
  function HeaderToStr(value: seq<Byte>): (r: Option<string>)
    ensures r.Some? <==> forall i :: 0 <= i < |value| ==> value[i] == 9 || 32 <= value[i] <= 126
    ensures r.Some? ==> |r.value| == |value| && forall i :: 0 <= i < |value| ==> r.value[i] as int == value[i]
  {
    if forall i :: 0 <= i < |value| ==> value[i] == 9 || 32 <= value[i] <= 126 then
      Some(seq(|value|, i requires 0 <= i < |value| => value[i] as char))
    else
      None
  }

  // ---------------------------------------------------------------------
  // hex

  predicate IsLowerHex(c: char) {
    '0' <= c <= '9' || 'a' <= c <= 'f'
  }

  function HexDigit(n: int): (c: char)
    requires 0 <= n < 16
    ensures IsLowerHex(c)
  {
    "0123456789abcdef"[n]
  }

  function HexValue(c: char): (n: int)
    requires IsLowerHex(c)
    ensures 0 <= n < 16
  {
    if c <= '9' then c as int - '0' as int else c as int - 'a' as int + 10
  }

  lemma HexDigitValue(n: int)
    requires 0 <= n < 16
    ensures HexValue(HexDigit(n)) == n
  {
    var digits := "0123456789abcdef";
    assert digits[n] as int == if n < 10 then '0' as int + n else 'a' as int + n - 10;
  }

  /** `hex::encode`: two lower-case digits per byte, high nibble first. */
  function HexEncode(bytes: seq<Byte>): (s: string)
    ensures |s| == 2 * |bytes|
    ensures forall i :: 0 <= i < |s| ==> IsLowerHex(s[i])
  {
    if bytes == [] then []
    else [HexDigit(bytes[0] / 16), HexDigit(bytes[0] % 16)] + HexEncode(bytes[1..])
  }

  /** The inverse of HexEncode, on lower-case digit pairs. */
  function HexDecode(s: string): (r: Option<seq<Byte>>)
    ensures r.Some? ==> 2 * |r.value| == |s|
    decreases |s|
  {
    if s == [] then Some([])
    else if |s| == 1 || !IsLowerHex(s[0]) || !IsLowerHex(s[1]) then None
    else
      match HexDecode(s[2..])
      case None => None
      case Some(rest) => Some([HexValue(s[0]) * 16 + HexValue(s[1])] + rest)
  }

  /** Encoding loses nothing: the tag reads back from its hex form. */
  lemma {:induction false} HexRoundTrip(bytes: seq<Byte>)
    ensures HexDecode(HexEncode(bytes)) == Some(bytes)
  {
    if bytes != [] {
      var s := HexEncode(bytes);
      HexDigitValue(bytes[0] / 16);
      HexDigitValue(bytes[0] % 16);
      assert s[2..] == HexEncode(bytes[1..]);
      HexRoundTrip(bytes[1..]);
      assert [bytes[0]] + bytes[1..] == bytes;
    }
  }

  /** The expected value is already lower-case. */
  lemma HexEncodeIsLower(bytes: seq<Byte>)
    ensures AsciiLower(HexEncode(bytes)) == HexEncode(bytes)
  {
    var s := HexEncode(bytes);
    forall i | 0 <= i < |s|
      ensures AsciiLower(s)[i] == s[i]
    {
      assert IsLowerHex(s[i]);
    }
  }

  // ---------------------------------------------------------------------
  // prefix and comparison

  /** `pat` written `k` times. */
  function Repeat(pat: string, k: nat): (r: string)
    ensures |r| == k * |pat|
  {
    if k == 0 then [] else pat + Repeat(pat, k - 1)
  }

  /** `str::trim_start_matches(pat)`: removes every leading copy of `pat`. */
  function TrimStartMatches(s: string, pat: string): (r: string)
    ensures |r| <= |s| && r == s[|s| - |r|..]
    ensures pat != [] ==> !StartsWith(r, pat)
    decreases |s|
  {
    if pat != [] && StartsWith(s, pat) then TrimStartMatches(s[|pat|..], pat) else s
  }

  /** Any number of leading copies goes, and what follows them stays. */
  lemma {:induction false} TrimRepeatedPrefix(pat: string, k: nat, rest: string)
    requires pat != [] && !StartsWith(rest, pat)
    ensures TrimStartMatches(Repeat(pat, k) + rest, pat) == rest
  {
    if k > 0 {
      var s := Repeat(pat, k) + rest;
      assert s == pat + (Repeat(pat, k - 1) + rest);
      assert s[..|pat|] == pat;
      assert s[|pat|..] == Repeat(pat, k - 1) + rest;
      TrimRepeatedPrefix(pat, k - 1, rest);
    } else {
      assert Repeat(pat, k) + rest == rest;
    }
  }

  /** `str::eq_ignore_ascii_case` */
  predicate EqIgnoreAsciiCase(a: string, b: string) {
    |a| == |b| && forall i :: 0 <= i < |a| ==> LowerChar(a[i]) == LowerChar(b[i])
  }

  lemma EqIgnoreAsciiCaseIffLower(a: string, b: string)
    ensures EqIgnoreAsciiCase(a, b) <==> AsciiLower(a) == AsciiLower(b)
  {
    if AsciiLower(a) == AsciiLower(b) {
      forall i | 0 <= i < |a|
        ensures LowerChar(a[i]) == LowerChar(b[i])
      {
        assert AsciiLower(a)[i] == AsciiLower(b)[i];
      }
    }
  }

  // ---------------------------------------------------------------------
  // the gate

  /** `verify_signature` */
  function VerifySignature(mac: (string, seq<Byte>) -> seq<Byte>, secret: string, body: seq<Byte>, signature: string): bool {
    EqIgnoreAsciiCase(HexEncode(mac(secret, body)), TrimStartMatches(signature, SignaturePrefix))
  }

  /** A signature is accepted exactly when, with its leading `sha256=`
      copies removed and lower-cased, it is the hex form of the tag. */
  lemma VerifySignatureIff(mac: (string, seq<Byte>) -> seq<Byte>, secret: string, body: seq<Byte>, signature: string)
    ensures VerifySignature(mac, secret, body, signature) <==>
            AsciiLower(TrimStartMatches(signature, SignaturePrefix)) == HexEncode(mac(secret, body))
  {
    var expected := HexEncode(mac(secret, body));
    EqIgnoreAsciiCaseIffLower(expected, TrimStartMatches(signature, SignaturePrefix));
    HexEncodeIsLower(mac(secret, body));
  }

  lemma HexNotPrefixed(hex: string)
    requires forall i :: 0 <= i < |hex| ==> IsLowerHex(hex[i]) || ('A' <= hex[i] <= 'F')
    ensures !StartsWith(hex, SignaturePrefix)
  {
    if |hex| >= |SignaturePrefix| {
      assert hex[..|SignaturePrefix|][0] != SignaturePrefix[0];
    }
  }

  lemma UpperHexChars(hex: string)
    requires forall i :: 0 <= i < |hex| ==> IsLowerHex(hex[i])
    ensures forall i :: 0 <= i < |AsciiUpper(hex)| ==> IsLowerHex(AsciiUpper(hex)[i]) || ('A' <= AsciiUpper(hex)[i] <= 'F')
  {
    var up := AsciiUpper(hex);
    forall i | 0 <= i < |up|
      ensures IsLowerHex(up[i]) || ('A' <= up[i] <= 'F')
    {
      if 'a' <= hex[i] <= 'f' {
        assert up[i] as int == hex[i] as int - 32;
      }
    }
  }

  /** The digest is accepted with any number of `sha256=` prefixes, none
      included, and in upper case as well as lower case. */
  lemma AcceptedSignatureForms(mac: (string, seq<Byte>) -> seq<Byte>, secret: string, body: seq<Byte>, k: nat)
    ensures VerifySignature(mac, secret, body, Repeat(SignaturePrefix, k) + HexEncode(mac(secret, body)))
    ensures VerifySignature(mac, secret, body, Repeat(SignaturePrefix, k) + AsciiUpper(HexEncode(mac(secret, body))))
  {
    var hex := HexEncode(mac(secret, body));
    HexNotPrefixed(hex);
    TrimRepeatedPrefix(SignaturePrefix, k, hex);
    VerifySignatureIff(mac, secret, body, Repeat(SignaturePrefix, k) + hex);
    HexEncodeIsLower(mac(secret, body));
    UpperHexChars(hex);
    HexNotPrefixed(AsciiUpper(hex));
    TrimRepeatedPrefix(SignaturePrefix, k, AsciiUpper(hex));
    AsciiLowerOfUpper(hex);
    VerifySignatureIff(mac, secret, body, Repeat(SignaturePrefix, k) + AsciiUpper(hex));
  }

  /** What `handle_webhook` answers, and the script it started, if any. */
  datatype Reply = Reply(status: int, ranScript: Option<string>)

  /** `handle_webhook`: `header` is the raw X-Hub-Signature-256 value. */
  function HandleWebhook(mac: (string, seq<Byte>) -> seq<Byte>, secret: string, script: Option<string>,
                         header: Option<seq<Byte>>, body: seq<Byte>): (r: Reply)
    ensures r.status == 400 <==> header.None? || HeaderToStr(header.value).None?
    ensures r.status == 401 <==> header.Some? && HeaderToStr(header.value).Some? &&
                                  !VerifySignature(mac, secret, body, HeaderToStr(header.value).value)
    ensures r.status == 200 <==> header.Some? && HeaderToStr(header.value).Some? &&
                                  VerifySignature(mac, secret, body, HeaderToStr(header.value).value)
    ensures r.status in {200, 400, 401}
    ensures r.ranScript == (if r.status == 200 then script else None)
  {
    var signature := if header.Some? then HeaderToStr(header.value) else None;
    if signature.Some? then
      if VerifySignature(mac, secret, body, signature.value) then Reply(200, script) else Reply(401, None)
    else
      Reply(400, None)
  }
}
