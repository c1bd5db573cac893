/**
 Signed, expiring tokens: the access token and the import preview token. The keyed digest and the JSON codec are
 parameters.
 */
module Tokens {
  import opened Wrappers
  import opened Base64Url

  datatype Payload<T> = Payload(content: T, exp: int)

  /** `loads` answers None where parsing fails or the payload lacks a numeric expiry. */
  datatype Codec<!T> = Codec(dumps: Payload<T> -> seq<Byte>, loads: seq<Byte> -> Option<Payload<T>>,
    mac: string -> seq<Byte>)

  ghost predicate Faithful<T(!new)>(codec: Codec<T>) {
    forall p :: codec.loads(codec.dumps(p)) == Some(p)
  }

  // ---------------------------------------------------------------- Splitting at a dot

  /** The place of the first dot, or the length. */
  function FirstDot(s: string): (i: nat)
    ensures i <= |s| && (forall j :: 0 <= j < i ==> s[j] != '.') && (i < |s| ==> s[i] == '.')
  {
    if s == "" || s[0] == '.' then 0 else 1 + FirstDot(s[1..])
  }

  /** The place of the last dot, or the length. */
  function LastDot(s: string): (i: nat)
    ensures i <= |s| && (i < |s| ==> s[i] == '.' && forall j :: i < j < |s| ==> s[j] != '.')
    ensures i == |s| ==> forall j :: 0 <= j < |s| ==> s[j] != '.'
  {
    if s == "" then 0
    else if s[|s| - 1] == '.' then |s| - 1
    else
      var i := LastDot(s[..|s| - 1]);
      if i == |s| - 1 then |s| else i
  }

  function Halves(s: string, dot: nat): Option<(string, string)>
    requires dot <= |s|
  {
    if dot == |s| then None else Some((s[..dot], s[dot + 1..]))
  }

  predicate Undotted(s: string) {
    forall i :: 0 <= i < |s| ==> s[i] != '.'
  }

  /** Either way of splitting recovers two parts without dots. */
  lemma SplittingRecovers(body: string, signature: string)
    requires Undotted(body) && Undotted(signature)
    ensures Halves(body + "." + signature, FirstDot(body + "." + signature)) == Some((body, signature))
    ensures Halves(body + "." + signature, LastDot(body + "." + signature)) == Some((body, signature))
  {
    var token := body + "." + signature;
    assert token[|body|] == '.';
    assert forall j :: 0 <= j < |body| ==> token[j] == body[j];
    assert forall j :: |body| < j < |token| ==> token[j] == signature[j - |body| - 1];
    assert FirstDot(token) == |body| && LastDot(token) == |body|;
    assert token[..|body|] == body && token[|body| + 1..] == signature;
  }

  // ---------------------------------------------------------------- Tokens

  function HexDigit(d: int): char
    requires 0 <= d < 16
  {
    "0123456789abcdef"[d]
  }

  /** `hexdigest`. */
  function Hex(data: seq<Byte>): string {
    if data == [] then "" else [HexDigit(data[0] / 16), HexDigit(data[0] % 16)] + Hex(data[1..])
  }

  lemma {:induction false} HexIsUndotted(data: seq<Byte>)
    ensures Undotted(Hex(data))
  {
    if data != [] {
      HexIsUndotted(data[1..]);
      assert forall d :: 0 <= d < 16 ==> HexDigit(d) != '.';
    }
  }

  datatype Style = Access | Preview

  /** The access token carries an encoded digest, the preview token a hexadecimal one. */
  function Signature<T>(codec: Codec<T>, style: Style, body: string): (s: string) {
    if style == Access then Encode(codec.mac(body)) else Hex(codec.mac(body))
  }

  function Issue<T>(codec: Codec<T>, style: Style, content: T, now: int, lifetime: int): string {
    var body := Encode(codec.dumps(Payload(content, now + lifetime)));
    body + "." + Signature(codec, style, body)
  }

  /** `_decode` and `_verify_preview`: the first splits at the first dot, the second at the last. */
  function Read<T>(codec: Codec<T>, style: Style, token: string, now: int): Option<T> {
    var halves := Halves(token, if style == Access then FirstDot(token) else LastDot(token));
    if halves.None? || halves.value.1 != Signature(codec, style, halves.value.0) then None
    else
      var data := Decode(halves.value.0);
      if data.None? then None
      else
        var payload := codec.loads(data.value);
        if payload.None? || payload.value.exp < now then None else Some(payload.value.content)
  }

  lemma SignatureIsUndotted<T>(codec: Codec<T>, style: Style, body: string)
    ensures Undotted(Signature(codec, style, body))
  {
    EncodeIsDigits(codec.mac(body));
    HexIsUndotted(codec.mac(body));
  }

  /** An issued token reads back to what it carries exactly until its expiry. */
  lemma IssuedTokensReadBack<T(!new)>(codec: Codec<T>, style: Style, content: T, issued: int, lifetime: int, now: int)
    requires Faithful(codec)
    ensures Read(codec, style, Issue(codec, style, content, issued, lifetime), now)
         == if now <= issued + lifetime then Some(content) else None
  {
    var payload := Payload(content, issued + lifetime);
    var body := Encode(codec.dumps(payload));
    EncodeIsDigits(codec.dumps(payload));
    SignatureIsUndotted(codec, style, body);
    SplittingRecovers(body, Signature(codec, style, body));
    DecodeUndoesEncode(codec.dumps(payload));
    assert codec.loads(codec.dumps(payload)) == Some(payload);
  }

  /** A token that reads is its body followed by that body's own signature: nothing else about it can be changed. */
  lemma OnlySignedTokensRead<T>(codec: Codec<T>, style: Style, token: string, now: int) returns (body: string)
    requires Read(codec, style, token, now).Some?
    ensures token == body + "." + Signature(codec, style, body)
    ensures exists data, payload ::
      Decode(body) == Some(data) && codec.loads(data) == Some(payload) && now <= payload.exp
      && Read(codec, style, token, now) == Some(payload.content)
  {
    var dot := if style == Access then FirstDot(token) else LastDot(token);
    body := token[..dot];
    assert token == token[..dot] + "." + token[dot + 1..];
    var data := Decode(body).value;
    assert codec.loads(data).Some?;
  }

  // ---------------------------------------------------------------- Exactly which tokens are read

  ghost function HexValue(c: char): int {
    if '0' <= c <= '9' then c as int - '0' as int else c as int - 'a' as int + 10
  }

  /** Two lower-case digits for each byte, the higher half first. */
  lemma {:induction false} HexSpellsTheBytes(data: seq<Byte>, i: nat)
    requires i < |data|
    ensures |Hex(data)| == 2 * |data|
    ensures var high, low := Hex(data)[2 * i], Hex(data)[2 * i + 1];
            && ('0' <= high <= '9' || 'a' <= high <= 'f') && ('0' <= low <= '9' || 'a' <= low <= 'f')
            && HexValue(high) * 16 + HexValue(low) == data[i]
  {
    HexLength(data);
    if i == 0 {
      DigitsSpell(data[0] / 16);
      DigitsSpell(data[0] % 16);
    } else {
      HexSpellsTheBytes(data[1..], i - 1);
      assert Hex(data)[2 * i] == Hex(data[1..])[2 * (i - 1)] && Hex(data)[2 * i + 1] == Hex(data[1..])[2 * (i - 1) + 1];
    }
  }

  lemma {:induction false} HexLength(data: seq<Byte>)
    ensures |Hex(data)| == 2 * |data|
  {
    if data != [] {
      HexLength(data[1..]);
    }
  }

  lemma DigitsSpell(d: int)
    requires 0 <= d < 16
    ensures '0' <= HexDigit(d) <= '9' || 'a' <= HexDigit(d) <= 'f'
    ensures HexValue(HexDigit(d)) == d
  {
  }

  /** The access token's signature decodes to the digest, the preview token's spells it in hexadecimal. */
  lemma SignaturesCarryTheDigest<T>(codec: Codec<T>, body: string, i: nat)
    ensures Decode(Signature(codec, Access, body)) == Some(codec.mac(body))
    ensures var mac, hex := codec.mac(body), Signature(codec, Preview, body);
            i < |mac| ==> |hex| == 2 * |mac| && HexValue(hex[2 * i]) * 16 + HexValue(hex[2 * i + 1]) == mac[i]
  {
    DecodeUndoesEncode(codec.mac(body));
    if i < |codec.mac(body)| {
      HexSpellsTheBytes(codec.mac(body), i);
    }
  }

  /** A body with its own signature, whose payload has not expired; an access token's body has no dot. */
  ghost predicate Carries<T>(codec: Codec<T>, style: Style, token: string, now: int, body: string, content: T) {
    && token == body + "." + Signature(codec, style, body) && (style == Access ==> Undotted(body))
    && Decode(body).Some? && codec.loads(Decode(body).value).Some?
    && content == codec.loads(Decode(body).value).value.content && now <= codec.loads(Decode(body).value).value.exp
  }

  /** A token reads to a content exactly if it carries it. */
  lemma TokensReadExactly<T>(codec: Codec<T>, style: Style, token: string, now: int, content: T)
    ensures Read(codec, style, token, now) == Some(content) <==>
            exists body :: Carries(codec, style, token, now, body, content)
  {
    if Read(codec, style, token, now) == Some(content) {
      var dot := if style == Access then FirstDot(token) else LastDot(token);
      var body := token[..dot];
      assert token == token[..dot] + "." + token[dot + 1..];
      assert Carries(codec, style, token, now, body, content);
    }
    if body :| Carries(codec, style, token, now, body, content) {
      SignatureIsUndotted(codec, style, body);
      TheDotIsFound(codec, style, body);
    }
  }

  lemma TheDotIsFound<T>(codec: Codec<T>, style: Style, body: string)
    requires Undotted(Signature(codec, style, body)) && (style == Access ==> Undotted(body))
    ensures var token := body + "." + Signature(codec, style, body);
            Halves(token, if style == Access then FirstDot(token) else LastDot(token))
            == Some((body, Signature(codec, style, body)))
  {
    hide Signature, FirstDot, LastDot;
    var signature := Signature(codec, style, body);
    var token := body + "." + signature;
    assert token[|body|] == '.';
    if style == Access {
      assert forall j :: 0 <= j < |body| ==> token[j] == body[j] != '.';
      assert FirstDot(token) == |body|;
    } else {
      assert forall j :: |body| < j < |token| ==> token[j] == signature[j - |body| - 1] != '.';
      assert LastDot(token) == |body|;
    }
    assert token[..|body|] == body && token[|body| + 1..] == signature;
  }
}
