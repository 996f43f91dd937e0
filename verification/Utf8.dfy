/** UTF-8: the test that the program makes of bytes, and the encoding that it stands for. */
module Utf8 {
  predicate Continues(s: string, k: nat, low: char, high: char) {
    k < |s| && low <= s[k] <= high
  }

  /** The length of the UTF-8 character that `s` begins with, 0 if there is none; `s` is a sequence of bytes. */
  function CharacterLength(s: string): nat
    requires s != ""
  {
    var first := s[0];
    if first <= '\U{7f}' then 1
    else if '\U{c2}' <= first <= '\U{df}' then
      if Continues(s, 1, '\U{80}', '\U{bf}') then 2 else 0
    else if '\U{e0}' <= first <= '\U{ef}' then
      var low := if first == '\U{e0}' then '\U{a0}' else '\U{80}';
      var high := if first == '\U{ed}' then '\U{9f}' else '\U{bf}';
      if Continues(s, 1, low, high) && Continues(s, 2, '\U{80}', '\U{bf}') then 3 else 0
    else if '\U{f0}' <= first <= '\U{f4}' then
      var low := if first == '\U{f0}' then '\U{90}' else '\U{80}';
      var high := if first == '\U{f4}' then '\U{8f}' else '\U{bf}';
      if Continues(s, 1, low, high) && Continues(s, 2, '\U{80}', '\U{bf}') && Continues(s, 3, '\U{80}', '\U{bf}') then 4 else 0
    else 0
  }

  /** The bytes decode to a text that encodes to the same bytes. */
  predicate IsUtf8(s: string) {
    s == "" || (var n := CharacterLength(s); 0 < n <= |s| && IsUtf8(s[n..]))
  }

  // ----- the encoding -----

  /** A code point that is no surrogate. */
  predicate IsScalar(c: nat) {
    c < 0x11_0000 && !(0xd800 <= c < 0xe000)
  }

  /** Section 3 of RFC 3629. */
  function Encode(c: nat): (s: string)
    requires IsScalar(c)
    ensures s != ""
  {
    if c < 0x80 then [c as char]
    else if c < 0x800 then [(0xc0 + c / 64) as char, (0x80 + c % 64) as char]
    else if c < 0x1_0000 then [(0xe0 + c / 4096) as char, (0x80 + c / 64 % 64) as char, (0x80 + c % 64) as char]
    else [(0xf0 + c / 262144) as char, (0x80 + c / 4096 % 64) as char, (0x80 + c / 64 % 64) as char, (0x80 + c % 64) as char]
  }

  function EncodeAll(text: seq<nat>): string
    requires forall i | 0 <= i < |text| :: IsScalar(text[i])
  {
    if text == [] then "" else Encode(text[0]) + EncodeAll(text[1..])
  }

  lemma EncodedLength(c: nat, rest: string)
    requires IsScalar(c)
    ensures CharacterLength(Encode(c) + rest) == |Encode(c)|
  {
    var s := Encode(c) + rest;
    assert forall i | 0 <= i < |Encode(c)| :: s[i] == Encode(c)[i];
  }

  lemma Digits(a: nat, b: nat, c: nat, d: nat)
    requires b < 64 && c < 64 && d < 64
    ensures
      var n := a * 262144 + b * 4096 + c * 64 + d;
      n % 64 == d && n / 64 % 64 == c && n / 4096 % 64 == b && n / 262144 == a && n / 4096 == a * 64 + b && n / 64 == a * 4096 + b * 64 + c
  {
    var n := a * 262144 + b * 4096 + c * 64 + d;
    assert n / 64 == a * 4096 + b * 64 + c;
    assert n / 4096 == a * 64 + b;
    assert n / 262144 == a;
  }

  lemma Decoded(s: string, n: nat) returns (c: nat)
    requires s != "" && n == CharacterLength(s) && 0 < n < 3
    ensures IsScalar(c) && n <= |s| && Encode(c) == s[..n]
  {
    if n == 1 {
      c := s[0] as nat;
    } else {
      c := (s[0] as nat - 0xc0) * 64 + (s[1] as nat - 0x80);
      Digits(0, 0, s[0] as nat - 0xc0, s[1] as nat - 0x80);
    }
  }

  lemma DecodedThree(s: string) returns (c: nat)
    requires s != "" && CharacterLength(s) == 3
    ensures IsScalar(c) && 3 <= |s| && Encode(c) == s[..3]
  {
    var x, y, z := s[0] as nat - 0xe0, s[1] as nat - 0x80, s[2] as nat - 0x80;
    c := x * 4096 + y * 64 + z;
    Digits(0, x, y, z);
    assert 0x800 <= c < 0x1_0000;
    assert Encode(c) == [(0xe0 + x) as char, (0x80 + y) as char, (0x80 + z) as char];
  }

  lemma DecodedFour(s: string) returns (c: nat)
    requires s != "" && CharacterLength(s) == 4
    ensures IsScalar(c) && 4 <= |s| && Encode(c) == s[..4]
  {
    var w, x, y, z := s[0] as nat - 0xf0, s[1] as nat - 0x80, s[2] as nat - 0x80, s[3] as nat - 0x80;
    c := w * 262144 + x * 4096 + y * 64 + z;
    Digits(w, x, y, z);
    assert 0x1_0000 <= c < 0x11_0000;
    assert Encode(c) == [(0xf0 + w) as char, (0x80 + x) as char, (0x80 + y) as char, (0x80 + z) as char];
  }

  /** Every character that the test accepts is the encoding of a code point. */
  lemma FirstDecoded(s: string) returns (c: nat)
    requires s != "" && 0 < CharacterLength(s)
    ensures IsScalar(c) && CharacterLength(s) <= |s| && Encode(c) == s[..CharacterLength(s)]
  {
    var n := CharacterLength(s);
    if n == 3 {
      c := DecodedThree(s);
    } else if n == 4 {
      c := DecodedFour(s);
    } else {
      c := Decoded(s, n);
    }
  }

  lemma {:induction false} EncodedIsUtf8(text: seq<nat>)
    requires forall i | 0 <= i < |text| :: IsScalar(text[i])
    ensures IsUtf8(EncodeAll(text))
  {
    if text != [] {
      EncodedIsUtf8(text[1..]);
      EncodedLength(text[0], EncodeAll(text[1..]));
    }
  }

  lemma {:induction false} Utf8IsEncoded(s: string) returns (text: seq<nat>)
    requires IsUtf8(s)
    ensures forall i | 0 <= i < |text| :: IsScalar(text[i])
    ensures EncodeAll(text) == s
  {
    if s == "" {
      text := [];
    } else {
      var c := FirstDecoded(s);
      var rest := Utf8IsEncoded(s[CharacterLength(s)..]);
      text := [c] + rest;
    }
  }

  /** The test accepts exactly the encodings of texts. */
  lemma IsUtf8Exactly(s: string)
    ensures IsUtf8(s) <==> exists text :: (forall i | 0 <= i < |text| :: IsScalar(text[i])) && EncodeAll(text) == s
  {
    if IsUtf8(s) {
      var text := Utf8IsEncoded(s);
    }
    forall text: seq<nat> | (forall i | 0 <= i < |text| :: IsScalar(text[i])) && EncodeAll(text) == s ensures IsUtf8(s) {
      EncodedIsUtf8(text);
    }
  }
}
