/**
 Unpadded base64url (RFC 4648, section 5) as the token code uses it: the padding is stripped when encoding and put
 back before decoding, and the decoder is the lenient one that skips foreign characters.
 */
module Base64Url {
  import opened Wrappers

  type Byte = b: int | 0 <= b < 256 witness 0

  type Digit = d: int | 0 <= d < 64 witness 0

  // ---------------------------------------------------------------- The alphabet

  function CharOf(d: Digit): char {
    if d < 26 then 'A' + d as char
    else if d < 52 then 'a' + (d - 26) as char
    else if d < 62 then '0' + (d - 52) as char
    else if d == 62 then '-' else '_'
  }

  /** The decoder knows both alphabets: `-` and `_` are first replaced by `+` and `/`. */
  function DigitOf(c: char): Option<Digit> {
    if 'A' <= c <= 'Z' then Some(c as int - 'A' as int)
    else if 'a' <= c <= 'z' then Some(c as int - 'a' as int + 26)
    else if '0' <= c <= '9' then Some(c as int - '0' as int + 52)
    else if c == '+' || c == '-' then Some(62)
    else if c == '/' || c == '_' then Some(63)
    else None
  }

  lemma DigitOfChar(d: Digit)
    ensures DigitOf(CharOf(d)) == Some(d) && CharOf(d) != '=' && CharOf(d) != '.'
  {
  }

  function Chars(digits: seq<Digit>): (s: string)
    ensures |s| == |digits| && forall i :: 0 <= i < |s| ==> s[i] == CharOf(digits[i])
  {
    seq(|digits|, i requires 0 <= i < |digits| => CharOf(digits[i]))
  }

  // ---------------------------------------------------------------- Encoding

  /** The sextets of the bytes; an incomplete last group is filled up with zero bits. */
  function Digits(data: seq<Byte>): seq<Digit> {
    if data == [] then []
    else if |data| == 1 then [data[0] / 4, data[0] % 4 * 16]
    else if |data| == 2 then [data[0] / 4, data[0] % 4 * 16 + data[1] / 16, data[1] % 16 * 4]
    else
      [data[0] / 4, data[0] % 4 * 16 + data[1] / 16, data[1] % 16 * 4 + data[2] / 64, data[2] % 64] + Digits(data[3..])
  }

  function Pads(n: nat): string {
    seq(n, _ => '=')
  }

  /** What is missing to whole groups of three bytes. */
  function PadCount(n: nat): nat {
    if n % 3 == 0 then 0 else 3 - n % 3
  }

  /** The remainder `-n % 4` as Python takes it. */
  function MinusMod4(n: nat): nat {
    if n % 4 == 0 then 0 else 4 - n % 4
  }

  /** `urlsafe_b64encode`: padded to whole groups of four. */
  function Padded(data: seq<Byte>): string {
    Chars(Digits(data)) + Pads(PadCount(|data|))
  }

  /** `rstrip("=")`. */
  function Stripped(s: string): string {
    if s != "" && s[|s| - 1] == '=' then Stripped(s[..|s| - 1]) else s
  }

  /** `_b64`. */
  function Encode(data: seq<Byte>): string {
    Stripped(Padded(data))
  }

  lemma {:induction false} StripPads(s: string, n: nat)
    requires s == "" || s[|s| - 1] != '='
    ensures Stripped(s + Pads(n)) == s
  {
    if n == 0 {
      assert s + Pads(0) == s;
    } else {
      var padded := s + Pads(n);
      assert padded[..|padded| - 1] == s + Pads(n - 1);
      StripPads(s, n - 1);
    }
  }

  /** Stripping takes off the padding and nothing else. */
  lemma EncodeIsDigits(data: seq<Byte>)
    ensures Encode(data) == Chars(Digits(data))
    ensures forall i :: 0 <= i < |Encode(data)| ==> Encode(data)[i] != '.' && Encode(data)[i] != '='
  {
    var s := Chars(Digits(data));
    forall i | 0 <= i < |s|
      ensures s[i] != '.' && s[i] != '='
    {
      DigitOfChar(Digits(data)[i]);
    }
    StripPads(s, PadCount(|data|));
  }

  lemma OneGroupMore(n: nat, m: nat)
    ensures PadCount(n + 3) == PadCount(n) && MinusMod4(4 + m) == MinusMod4(m)
  {
  }

  /** The rule `-len % 4` puts back as much padding as the encoder had taken off. */
  lemma {:induction false} PaddingComesBack(data: seq<Byte>)
    ensures MinusMod4(|Digits(data)|) == PadCount(|data|)
  {
    if |data| >= 3 {
      PaddingComesBack(data[3..]);
      assert |Digits(data)| == 4 + |Digits(data[3..])|;
      OneGroupMore(|data[3..]|, |Digits(data[3..])|);
    }
  }

  // ---------------------------------------------------------------- What an encoding spells

  /**
   The code points of the alphabet of RFC 4648, section 5; the decoder reads them, and those of section 4, and skips
   everything else.
   */
  lemma AlphabetIsStandard(d: Digit, c: char)
    ensures CharOf(d) as int ==
      if d < 26 then 65 + d else if d < 52 then 97 + (d - 26) else if d < 62 then 48 + (d - 52)
      else if d == 62 then 45 else 95
    ensures DigitOf(c) == Some(d) <==> c == CharOf(d) || (d == 62 && c as int == 43) || (d == 63 && c as int == 47)
  {
  }

  ghost function Number(base: int, high: int, low: int): int {
    high * base + low
  }

  lemma OneGroupSpells(x: Byte, y: Byte, z: Byte)
    ensures Number(64, Number(64, Number(64, x / 4, x % 4 * 16 + y / 16), y % 16 * 4 + z / 64), z % 64)
         == Number(256, Number(256, x, y), z)
  {
    assert x == x / 4 * 4 + x % 4 && y == y / 16 * 16 + y % 16 && z == z / 64 * 64 + z % 64;
  }

  /** Every four digits are, as a number in base 64, the three bytes of their group as a number in base 256. */
  lemma {:induction false} GroupsSpellTheBytes(data: seq<Byte>, g: nat)
    requires 3 * g + 3 <= |data|
    ensures 4 * g + 4 <= |Digits(data)|
    ensures var digits, group := Digits(data)[4 * g..4 * g + 4], data[3 * g..3 * g + 3];
            Number(64, Number(64, Number(64, digits[0], digits[1]), digits[2]), digits[3])
            == Number(256, Number(256, group[0], group[1]), group[2])
  {
    hide Number;
    if g == 0 {
      OneGroupSpells(data[0], data[1], data[2]);
    } else {
      GroupsSpellTheBytes(data[3..], g - 1);
      assert Digits(data)[4 * g..4 * g + 4] == Digits(data[3..])[4 * (g - 1)..4 * (g - 1) + 4];
      assert data[3 * g..3 * g + 3] == data[3..][3 * (g - 1)..3 * (g - 1) + 3];
    }
  }

  /** One or two bytes at the end are filled up with four or two zero bits. */
  lemma {:induction false} TheRestSpellsTheBytes(data: seq<Byte>)
    ensures |Digits(data)| == |data| / 3 * 4 + (if |data| % 3 == 0 then 0 else |data| % 3 + 1)
    ensures var n, m := |data|, |Digits(data)|;
            && (n % 3 == 1 ==> Number(64, Digits(data)[m - 2], Digits(data)[m - 1]) == Number(16, data[n - 1], 0))
            && (n % 3 == 2 ==>
                  Number(64, Number(64, Digits(data)[m - 3], Digits(data)[m - 2]), Digits(data)[m - 1])
                  == Number(4, Number(256, data[n - 2], data[n - 1]), 0))
  {
    if |data| >= 3 {
      TheRestSpellsTheBytes(data[3..]);
      assert |data[3..]| % 3 == |data| % 3 && |data[3..]| / 3 == |data| / 3 - 1;
    }
  }

  // ---------------------------------------------------------------- Decoding

  /** Place in the group of four, the bits left over, padding characters just seen, and the bytes so far. */
  datatype Scan = Scan(place: nat, left: nat, pads: nat, out: seq<Byte>)

  predicate InRange(s: Scan) {
    && s.place < 4 && (s.place == 0 ==> s.left == 0) && (s.place == 1 ==> s.left < 64)
    && (s.place == 2 ==> s.left < 16) && (s.place == 3 ==> s.left < 4)
  }

  /** One digit. */
  function Take(s: Scan, d: Digit): (r: Scan)
    requires InRange(s)
    ensures InRange(r)
  {
    if s.place == 0 then Scan(1, d, 0, s.out)
    else if s.place == 1 then Scan(2, d % 16, 0, s.out + [s.left * 4 + d / 16])
    else if s.place == 2 then Scan(3, d % 4, 0, s.out + [s.left * 16 + d / 4])
    else Scan(0, 0, 0, s.out + [s.left * 64 + d])
  }

  /** The decoder from a state on: it stops at the padding that completes a group and fails on an incomplete group. */
  function Scanned(text: string, s: Scan): Option<seq<Byte>>
    requires InRange(s)
  {
    if text == "" then (if s.place == 0 then Some(s.out) else None)
    else if text[0] == '=' then
      if s.place >= 2 && s.place + s.pads + 1 >= 4 then Some(s.out)
      else Scanned(text[1..], if s.place >= 2 then s.(pads := s.pads + 1) else s)
    else
      var d := DigitOf(text[0]);
      Scanned(text[1..], if d.Some? then Take(s, d.value) else s)
  }

  /** `_unb64`; None where the decoder raises. */
  function Decode(text: string): Option<seq<Byte>> {
    Scanned(text + Pads(MinusMod4(|text|)), Scan(0, 0, 0, []))
  }

  // ---------------------------------------------------------------- The round trip

  lemma ScanDigit(d: Digit, rest: string, s: Scan)
    requires InRange(s)
    ensures Scanned([CharOf(d)] + rest, s) == Scanned(rest, Take(s, d))
  {
    DigitOfChar(d);
    assert ([CharOf(d)] + rest)[1..] == rest;
  }

  lemma ScanDigits(a: Digit, b: Digit, rest: string, s: Scan)
    requires InRange(s)
    ensures Scanned([CharOf(a), CharOf(b)] + rest, s) == Scanned(rest, Take(Take(s, a), b))
  {
    assert [CharOf(a), CharOf(b)] + rest == [CharOf(a)] + ([CharOf(b)] + rest);
    ScanDigit(a, [CharOf(b)] + rest, s);
    ScanDigit(b, rest, Take(s, a));
  }

  /** Two digits give back the first byte and keep the upper half of the second. */
  lemma TakeTwo(x: Byte, h: nat, out: seq<Byte>)
    requires h < 16
    ensures Take(Take(Scan(0, 0, 0, out), x / 4), x % 4 * 16 + h) == Scan(2, h, 0, out + [x])
  {
  }

  /** Two more digits give back the second byte and the third. */
  lemma TakeTwoMore(y: Byte, z: Byte, out: seq<Byte>)
    ensures Take(Take(Scan(2, y / 16, 0, out), y % 16 * 4 + z / 64), z % 64) == Scan(0, 0, 0, out + [y] + [z])
  {
  }

  lemma ScanGroup(x: Byte, y: Byte, z: Byte, rest: string, out: seq<Byte>)
    ensures Scanned(Chars([x / 4, x % 4 * 16 + y / 16, y % 16 * 4 + z / 64, z % 64]) + rest, Scan(0, 0, 0, out))
         == Scanned(rest, Scan(0, 0, 0, out + [x, y, z]))
  {
    hide Take, Scanned, CharOf;
    var a: Digit, b: Digit, c: Digit, d: Digit := x / 4, x % 4 * 16 + y / 16, y % 16 * 4 + z / 64, z % 64;
    assert Chars([a, b, c, d]) + rest == [CharOf(a), CharOf(b)] + ([CharOf(c), CharOf(d)] + rest);
    ScanDigits(a, b, [CharOf(c), CharOf(d)] + rest, Scan(0, 0, 0, out));
    TakeTwo(x, y / 16, out);
    ScanDigits(c, d, rest, Scan(2, y / 16, 0, out + [x]));
    TakeTwoMore(y, z, out + [x]);
    assert out + [x] + [y] + [z] == out + [x, y, z];
  }

  lemma ScanPads(left: nat, out: seq<Byte>)
    requires left < 16
    ensures Scanned("==", Scan(2, left, 0, out)) == Some(out)
    ensures left < 4 ==> Scanned("=", Scan(3, left, 0, out)) == Some(out)
  {
    assert "=="[1..] == "=";
  }

  lemma ScanOneByte(x: Byte, out: seq<Byte>)
    ensures Scanned(Chars(Digits([x])) + Pads(PadCount(|[x]|)), Scan(0, 0, 0, out)) == Some(out + [x])
  {
    assert Digits([x]) == [x / 4, x % 4 * 16] && PadCount(|[x]|) == 2;
    hide Take, Scanned, CharOf;
    var a: Digit, b: Digit := x / 4, x % 4 * 16;
    assert Chars([a, b]) + Pads(2) == [CharOf(a), CharOf(b)] + "==";
    ScanDigits(a, b, "==", Scan(0, 0, 0, out));
    TakeTwo(x, 0, out);
    ScanPads(0, out + [x]);
  }

  lemma ScanTwoBytes(x: Byte, y: Byte, out: seq<Byte>)
    ensures Scanned(Chars(Digits([x, y])) + Pads(PadCount(|[x, y]|)), Scan(0, 0, 0, out)) == Some(out + [x, y])
  {
    assert Digits([x, y]) == [x / 4, x % 4 * 16 + y / 16, y % 16 * 4] && PadCount(|[x, y]|) == 1;
    assert out + [x, y] == out + [x] + [y];
    hide Scanned, CharOf;
    var a: Digit, b: Digit, c: Digit := x / 4, x % 4 * 16 + y / 16, y % 16 * 4;
    assert Chars([a, b, c]) + Pads(1) == [CharOf(a), CharOf(b)] + ([CharOf(c)] + "=");
    ScanDigits(a, b, [CharOf(c)] + "=", Scan(0, 0, 0, out));
    TakeTwo(x, y / 16, out);
    ScanDigit(c, "=", Scan(2, y / 16, 0, out + [x]));
    ScanPads(0, out + [x] + [y]);
  }

  /** The last, incomplete group: its padding completes it. */
  lemma ScanTail(data: seq<Byte>, out: seq<Byte>)
    requires |data| < 3
    ensures Scanned(Chars(Digits(data)) + Pads(PadCount(|data|)), Scan(0, 0, 0, out)) == Some(out + data)
  {
    hide *;
    if |data| == 0 {
      ScanNothing(out);
      assert data == [] && out + data == out;
    } else if |data| == 1 {
      ScanOneByte(data[0], out);
      assert data == [data[0]];
    } else {
      ScanTwoBytes(data[0], data[1], out);
      assert data == [data[0], data[1]];
    }
  }

  lemma ScanNothing(out: seq<Byte>)
    ensures Scanned(Chars(Digits([])) + Pads(PadCount(0)), Scan(0, 0, 0, out)) == Some(out)
  {
    assert Chars(Digits([])) + Pads(0) == "";
  }

  lemma CharsAppend(a: seq<Digit>, b: seq<Digit>)
    ensures Chars(a + b) == Chars(a) + Chars(b)
  {
  }

  lemma {:induction false} ScanAll(data: seq<Byte>, out: seq<Byte>)
    ensures Scanned(Chars(Digits(data)) + Pads(PadCount(|data|)), Scan(0, 0, 0, out)) == Some(out + data)
  {
    hide Scanned, Chars, Pads, CharOf;
    if |data| < 3 {
      ScanTail(data, out);
    } else {
      var x, y, z, rest := data[0], data[1], data[2], data[3..];
      var group: seq<Digit> := [x / 4, x % 4 * 16 + y / 16, y % 16 * 4 + z / 64, z % 64];
      var pads := Pads(PadCount(|rest|));
      assert PadCount(|rest|) == PadCount(|data|);
      CharsAppend(group, Digits(rest));
      assert Chars(group) + Chars(Digits(rest)) + pads == Chars(group) + (Chars(Digits(rest)) + pads);
      ScanGroup(x, y, z, Chars(Digits(rest)) + pads, out);
      ScanAll(rest, out + [x, y, z]);
      assert out + [x, y, z] + rest == out + data;
    }
  }

  /** Decoding undoes encoding, whatever the length. */
  lemma DecodeUndoesEncode(data: seq<Byte>)
    ensures Decode(Encode(data)) == Some(data)
  {
    hide Scanned, Pads, Digits, Encode, MinusMod4, PadCount;
    EncodeIsDigits(data);
    PaddingComesBack(data);
    ScanAll(data, []);
    assert [] + data == data;
  }

  /** Different data have different encodings. */
  lemma EncodeIsInjective(a: seq<Byte>, b: seq<Byte>)
    requires Encode(a) == Encode(b)
    ensures a == b
  {
    DecodeUndoesEncode(a);
    DecodeUndoesEncode(b);
  }

  /**
   Decoding is not injective: it ignores the zero bits of the last group, so only a signature of the text pins the
   text.
   */
  lemma DecodeIsNotInjective()
    ensures Decode("QQ") == Decode("QR") == Some([65])
  {
    var start := Scan(0, 0, 0, []);
    assert CharOf(16) == 'Q' && CharOf(17) == 'R';
    assert "QQ" + Pads(2) == [CharOf(16), CharOf(16)] + "==" && "QR" + Pads(2) == [CharOf(16), CharOf(17)] + "==";
    ScanDigits(16, 16, "==", start);
    ScanDigits(16, 17, "==", start);
    assert "=="[1..] == "=";
    assert Take(Take(start, 16), 16) == Scan(2, 0, 0, [65]) && Take(Take(start, 16), 17) == Scan(2, 1, 0, [65]);
  }
}
