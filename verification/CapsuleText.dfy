/** Label bytes are valid exactly when they encode a text: the encoding of RFC 3629, section 3, one scalar value at a time. */
module CapsuleText {
  import opened CapsuleFormat

  predicate IsScalar(c: nat) {
    c < 0xD800 || 0xE000 <= c <= 0x10FFFF
  }

  function EncodeScalar(c: nat): (bytes: Bytes)
    requires IsScalar(c)
    ensures bytes != []
  {
    if c < 0x80 then [c]
    else if c < 0x800 then [0xC0 + c / 64, 0x80 + c % 64]
    else if c < 0x1_0000 then [0xE0 + c / 4096, 0x80 + c / 64 % 64, 0x80 + c % 64]
    else [0xF0 + c / 262144, 0x80 + c / 4096 % 64, 0x80 + c / 64 % 64, 0x80 + c % 64]
  }

  function EncodeText(text: seq<nat>): Bytes
    requires forall c | c in text :: IsScalar(c)
  {
    if text == [] then [] else EncodeScalar(text[0]) + EncodeText(text[1..])
  }

  lemma WidthOfScalar(c: nat, rest: Bytes)
    requires IsScalar(c)
    ensures Utf8Width(EncodeScalar(c) + rest) == |EncodeScalar(c)|
  {
    var s := EncodeScalar(c) + rest;
    assert forall i | 0 <= i < |EncodeScalar(c)| :: s[i] == EncodeScalar(c)[i];
  }

  lemma SixBits(high: nat, low: nat)
    requires low < 64
    ensures (high * 64 + low) / 64 == high && (high * 64 + low) % 64 == low
  {
  }

  lemma TwoBytes(s: Bytes) returns (c: nat)
    requires Utf8Width(s) == 2
    ensures IsScalar(c) && EncodeScalar(c) == s[..2]
  {
    var a: int, b: int := s[0], s[1];
    SixBits(a - 0xC0, b - 0x80);
    c := (a - 0xC0) * 64 + (b - 0x80);
  }

  lemma ThreeBytes(s: Bytes) returns (c: nat)
    requires Utf8Width(s) == 3
    ensures IsScalar(c) && EncodeScalar(c) == s[..3]
  {
    var a: int, b: int, d: int := s[0], s[1], s[2];
    var high := (a - 0xE0) * 64 + (b - 0x80);
    SixBits(a - 0xE0, b - 0x80);
    SixBits(high, d - 0x80);
    c := high * 64 + (d - 0x80);
    assert c / 4096 == c / 64 / 64;
  }

  lemma FourBytes(s: Bytes) returns (c: nat)
    requires Utf8Width(s) == 4
    ensures IsScalar(c) && EncodeScalar(c) == s[..4]
  {
    var a: int, b: int, d: int, e: int := s[0], s[1], s[2], s[3];
    var top := (a - 0xF0) * 64 + (b - 0x80);
    var high := top * 64 + (d - 0x80);
    SixBits(a - 0xF0, b - 0x80);
    SixBits(top, d - 0x80);
    SixBits(high, e - 0x80);
    c := high * 64 + (e - 0x80);
    assert c / 4096 == c / 64 / 64 && c / 262144 == c / 64 / 64 / 64;
  }

  lemma HeadIsScalar(s: Bytes) returns (c: nat)
    requires Utf8Width(s) > 0
    ensures IsScalar(c) && EncodeScalar(c) == s[..Utf8Width(s)]
  {
    match Utf8Width(s)
    case 1 => c := s[0];
    case 2 => c := TwoBytes(s);
    case 3 => c := ThreeBytes(s);
    case 4 => c := FourBytes(s);
  }

  lemma {:induction false} ValidHasText(s: Bytes) returns (text: seq<nat>)
    requires ValidUtf8(s)
    ensures (forall c | c in text :: IsScalar(c)) && EncodeText(text) == s
    decreases |s|
  {
    hide Utf8Width, EncodeScalar, IsScalar;
    if s == [] {
      text := [];
    } else {
      var n := Utf8Width(s);
      var c := HeadIsScalar(s);
      var others := ValidHasText(s[n..]);
      text := [c] + others;
      assert s == s[..n] + s[n..];
    }
  }

  lemma {:induction false} TextIsValid(text: seq<nat>)
    requires forall c | c in text :: IsScalar(c)
    ensures ValidUtf8(EncodeText(text))
  {
    hide Utf8Width, EncodeScalar, IsScalar;
    if text != [] {
      var first, others := EncodeScalar(text[0]), EncodeText(text[1..]);
      WidthOfScalar(text[0], others);
      TextIsValid(text[1..]);
      assert (first + others)[|first|..] == others;
    }
  }

  /** Valid are the encodings of sequences of scalar values, and nothing else. */
  lemma ValidUtf8Iff(s: Bytes)
    ensures ValidUtf8(s) <==> exists text: seq<nat> :: (forall c | c in text :: IsScalar(c)) && s == EncodeText(text)
  {
    hide ValidUtf8, EncodeText, IsScalar;
    if ValidUtf8(s) {
      var text := ValidHasText(s);
    }
    forall text: seq<nat> | (forall c | c in text :: IsScalar(c)) && s == EncodeText(text) ensures ValidUtf8(s) {
      TextIsValid(text);
    }
  }
}
