/** Java text as the tokenizers see it.

    A Java `String` is a sequence of UTF-16 `char`s. The basic tokenizer only ever
    walks a string's code points (`String.codePoints()`), so the model represents a
    string by that sequence of code points, `Text`; a surrogate that is not part of a
    pair is a code point of its own, as in Java. The WordPiece tokenizer works on the
    `char`s themselves, which `Encode` recovers; `Decode` is the way back, and
    `EncodeDecode` shows that no two distinct `char` sequences decode alike, so
    comparing decoded texts is comparing Java strings. */
module Chars {

  /** A code point as `String.codePoints()` yields it. */
  type CodePoint = c: int | 0 <= c < 0x11_0000

  /** A Java `char`: one UTF-16 code unit. */
  type Char = c: int | 0 <= c < 0x1_0000

  /** A Java string, by its code points. */
  type Text = seq<CodePoint>

  /** U+0020, the space that the tokenizers insert and join with. */
  const Space: CodePoint := 32

  predicate IsHighSurrogate(c: int) { 0xD800 <= c < 0xDC00 }

  predicate IsLowSurrogate(c: int) { 0xDC00 <= c < 0xE000 }

  /** `Character.toChars`: one unit below U+10000, otherwise a surrogate pair. */
  function ToChars(cp: CodePoint): (r: seq<Char>)
    ensures |r| == (if cp < 0x1_0000 then 1 else 2)
    ensures cp < 0x1_0000 ==> r[0] == cp
    ensures cp >= 0x1_0000 ==> IsHighSurrogate(r[0]) && IsLowSurrogate(r[1])
  {
    if cp < 0x1_0000 then [cp]
    else [0xD800 + (cp - 0x1_0000) / 0x400, 0xDC00 + (cp - 0x1_0000) % 0x400]
  }

  /** `Character.toChars` gives the UTF-16 encoding of the code point: decoding it
      gives the code point back. */
  lemma ToCharsDecodes(cp: CodePoint)
    ensures Decode(ToChars(cp)) == [cp]
  {
    var r := ToChars(cp);
    if cp >= 0x1_0000 {
      var v := cp - 0x1_0000;
      assert r[0] - 0xD800 == v / 0x400 && r[1] - 0xDC00 == v % 0x400;
      assert v == v / 0x400 * 0x400 + v % 0x400;
      assert r[2..] == [];
    } else {
      assert r[1..] == [];
    }
  }

  /** The `char`s of a string (`String.toCharArray()`). */
  function Encode(t: Text): seq<Char>
  {
    if t == [] then [] else ToChars(t[0]) + Encode(t[1..])
  }

  /** The code points of a `char` sequence (`String.codePoints()` of `new String(chars)`):
      a high surrogate followed by a low surrogate is one code point, every other
      `char` stands for itself. */
  function Decode(s: seq<Char>): Text
    decreases |s|
  {
    if s == [] then []
    else if |s| >= 2 && IsHighSurrogate(s[0]) && IsLowSurrogate(s[1]) then
      [0x1_0000 + (s[0] - 0xD800) * 0x400 + (s[1] - 0xDC00)] + Decode(s[2..])
    else [s[0]] + Decode(s[1..])
  }

  /** Re-encoding the code points of a `char` sequence gives the sequence back; hence
      `Decode` is injective and decoded texts compare as the Java strings do. */
  lemma {:induction false} EncodeDecode(s: seq<Char>)
    ensures Encode(Decode(s)) == s
  {
    if s == [] {
    } else if |s| >= 2 && IsHighSurrogate(s[0]) && IsLowSurrogate(s[1]) {
      var hi: int, lo: int := s[0] - 0xD800, s[1] - 0xDC00;
      var cp: CodePoint := 0x1_0000 + hi * 0x400 + lo;
      assert (cp - 0x1_0000) / 0x400 == hi && (cp - 0x1_0000) % 0x400 == lo by {
        assert cp - 0x1_0000 == hi * 0x400 + lo && 0 <= lo < 0x400;
      }
      assert ToChars(cp) == s[..2];
      var d := Decode(s);
      assert d == [cp] + Decode(s[2..]);
      assert d[0] == cp && d[1..] == Decode(s[2..]);
      EncodeDecode(s[2..]);
      assert s == s[..2] + s[2..];
    } else {
      var d := Decode(s);
      assert d == [s[0]] + Decode(s[1..]);
      assert d[0] == s[0] && d[1..] == Decode(s[1..]);
      EncodeDecode(s[1..]);
      assert s == [s[0]] + s[1..];
    }
  }

  /** `char`s that are not surrogates decode to themselves. */
  lemma {:induction false} DecodePlain(s: seq<Char>)
    requires forall i :: 0 <= i < |s| ==> s[i] < 0xD800
    ensures Decode(s) == s
  {
    if s != [] {
      DecodePlain(s[1..]);
    }
  }

  /** A string has at least as many `char`s as code points, and exactly as many when
      every code point lies in the Basic Multilingual Plane. */
  lemma {:induction false} EncodeLength(t: Text)
    ensures |Encode(t)| >= |t|
    ensures |Encode(t)| == |t| <==> forall i :: 0 <= i < |t| ==> t[i] < 0x1_0000
  {
    if t != [] {
      EncodeLength(t[1..]);
      assert forall i :: 1 <= i < |t| ==> t[i] == t[1..][i - 1];
    }
  }

  /** Encoding is a homomorphism. */
  lemma {:induction false} EncodeAppend(a: Text, b: Text)
    ensures Encode(a + b) == Encode(a) + Encode(b)
  {
    if a == [] {
      assert a + b == b;
    } else {
      assert (a + b)[0] == a[0];
      assert (a + b)[1..] == a[1..] + b;
      EncodeAppend(a[1..], b);
    }
  }
}
