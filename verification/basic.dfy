/** `BtBasic`: the BERT basic tokenizer. A sequence is cleaned, every CJK ideograph is
    surrounded by spaces, the result is split on whitespace, and each piece is
    (optionally) lower-cased and stripped of accents, then split on punctuation. */
module Basic {
  import opened Chars
  import opened Seqs
  import opened Unicode
  import opened Whitespace

  datatype BtBasic = BtBasic(doLowerCase: bool)

  /** The eight ideograph blocks the tokenizer treats as Chinese characters. */
  predicate IsChineseCharacter(cp: CodePoint)
  {
    (0x4E00 <= cp <= 0x9FFF) || (0x3400 <= cp <= 0x4DBF) ||
    (0x2_0000 <= cp <= 0x2_A6DF) || (0x2_A700 <= cp <= 0x2_B73F) ||
    (0x2_B740 <= cp <= 0x2_B81F) || (0x2_B820 <= cp <= 0x2_CEAF) ||
    (0xF900 <= cp <= 0xFAFF) || (0x2_F800 <= cp <= 0x2_FA1F)
  }

  /** A code point of a "C" category other than tab, line feed and carriage return. */
  predicate IsControl(u: Jdk, cp: CodePoint)
  {
    cp != 9 && cp != 10 && cp != 13 &&
    u.getType(cp) in {Control, Format, PrivateUse, Surrogate, Unassigned}
  }

  /** ASCII punctuation (all non-alphanumeric printable ASCII) or a "P" category. */
  predicate IsPunctuation(u: Jdk, cp: CodePoint)
  {
    (33 <= cp <= 47) || (58 <= cp <= 64) || (91 <= cp <= 96) || (123 <= cp <= 126) ||
    u.getType(cp) in {ConnectorPunctuation, DashPunctuation, EndPunctuation,
                      FinalQuotePunctuation, InitialQuotePunctuation, OtherPunctuation,
                      StartPunctuation}
  }

  /** Every printable ASCII code point that is not a letter or a digit is punctuation,
      whatever category the JDK gives it. */
  lemma AsciiPunctuation(u: Jdk, cp: CodePoint)
    requires 33 <= cp <= 126
    requires !(48 <= cp <= 57) && !(65 <= cp <= 90) && !(97 <= cp <= 122)
    ensures IsPunctuation(u, cp)
  {
  }

  predicate IsWhitespace(u: Jdk, cp: CodePoint)
  {
    cp == 32 || cp == 9 || cp == 10 || cp == 13 || u.getType(cp) == SpaceSeparator
  }

  /** `IsPunctuation(u, _)` as a function value. */
  function Punctuation(u: Jdk): CodePoint -> bool
  {
    (cp: CodePoint) => IsPunctuation(u, cp)
  }

  // ----- cleanText -----

  /** What `cleanText` keeps: neither U+0000, U+FFFD nor a control code point. */
  predicate IsKept(u: Jdk, cp: CodePoint)
  {
    cp != 0 && cp != 0xFFFD && !IsControl(u, cp)
  }

  /** `cleanText`'s contribution for one code point. */
  function CleanStep(u: Jdk): CodePoint -> Text
  {
    (cp: CodePoint) => if !IsKept(u, cp) then [] else if IsWhitespace(u, cp) then [Space] else [cp]
  }

  /** The specification of `cleanText`. */
  function Cleaned(u: Jdk, s: Text): Text
  {
    FlatMap(s, CleanStep(u))
  }

  /** `cleanText`: filter out stripped and control code points, turn whitespace into a
      space, and append what is left to a builder. */
  method CleanText(u: Jdk, sequence: Text) returns (r: Text)
    ensures r == Cleaned(u, sequence)
  {
    var builder: Text := [];
    for i := 0 to |sequence|
      invariant builder == Cleaned(u, sequence[..i])
    {
      var codePoint := sequence[i];
      FlatMapSnoc(sequence, i, CleanStep(u));
      if codePoint != 0 && codePoint != 0xFFFD && !IsControl(u, codePoint) {
        var mapped := if IsWhitespace(u, codePoint) then Space else codePoint;
        builder := builder + [mapped];
      }
    }
    assert sequence[..|sequence|] == sequence;
    r := builder;
  }

  /** Cleaning never lengthens the text; every code point it keeps is a space or a kept
      non-whitespace code point of the input, and every kept code point of the input
      survives, as itself or as a space. */
  lemma {:induction false} CleanedCodePoints(u: Jdk, s: Text)
    ensures |Cleaned(u, s)| <= |s|
    ensures forall c <- Cleaned(u, s) :: c == Space || (IsKept(u, c) && !IsWhitespace(u, c) && c in s)
    ensures forall c <- s :: IsKept(u, c) ==> (if IsWhitespace(u, c) then Space else c) in Cleaned(u, s)
  {
    if s != [] {
      CleanedCodePoints(u, s[1..]);
      assert Cleaned(u, s) == CleanStep(u)(s[0]) + Cleaned(u, s[1..]);
      forall c <- s | IsKept(u, c)
        ensures (if IsWhitespace(u, c) then Space else c) in Cleaned(u, s)
      {
        if c != s[0] {
          assert c in s[1..];
        }
      }
    }
  }

  /** Cleaning works code point by code point: cleaning a concatenation concatenates
      the cleaned parts. */
  lemma CleanedAppend(u: Jdk, a: Text, b: Text)
    ensures Cleaned(u, a + b) == Cleaned(u, a) + Cleaned(u, b)
  {
    FlatMapAppend(a, b, CleanStep(u));
  }

  /** Cleaning is idempotent when the space itself is kept (its category is not a "C"
      one), as it is in every Unicode version. */
  lemma {:induction false} CleanedIdempotent(u: Jdk, s: Text)
    requires IsKept(u, Space)
    ensures Cleaned(u, Cleaned(u, s)) == Cleaned(u, s)
  {
    if s != [] {
      var head := CleanStep(u)(s[0]);
      assert Cleaned(u, s) == head + Cleaned(u, s[1..]);
      CleanedAppend(u, head, Cleaned(u, s[1..]));
      CleanedIdempotent(u, s[1..]);
      if head != [] {
        assert Cleaned(u, head) == CleanStep(u)(head[0]) + Cleaned(u, []);
      }
    }
  }

  // ----- tokenizeChineseCharacters -----

  /** `tokenizeChineseCharacters`'s contribution for one code point. */
  function CjkStep(cp: CodePoint): Text
  {
    if IsChineseCharacter(cp) then [Space, cp, Space] else [cp]
  }

  /** The specification of `tokenizeChineseCharacters`. */
  function SpacedCjk(s: Text): Text
  {
    FlatMap(s, CjkStep)
  }

  /** `tokenizeChineseCharacters`: append each code point, with a space on either side
      when it is a CJK ideograph. */
  method TokenizeChineseCharacters(sequence: Text) returns (r: Text)
    ensures r == SpacedCjk(sequence)
  {
    var builder: Text := [];
    for i := 0 to |sequence|
      invariant builder == SpacedCjk(sequence[..i])
    {
      var codePoint := sequence[i];
      FlatMapSnoc(sequence, i, CjkStep);
      if IsChineseCharacter(codePoint) {
        builder := builder + [Space];
        builder := builder + [codePoint];
        builder := builder + [Space];
      } else {
        builder := builder + [codePoint];
      }
    }
    assert sequence[..|sequence|] == sequence;
    r := builder;
  }

  function CountCjk(s: Text): nat
  {
    if s == [] then 0 else (if IsChineseCharacter(s[0]) then 1 else 0) + CountCjk(s[1..])
  }

  /** Two spaces are added per CJK ideograph, and text without ideographs is left
      alone. */
  lemma {:induction false} SpacedCjkLength(s: Text)
    ensures |SpacedCjk(s)| == |s| + 2 * CountCjk(s)
    ensures CountCjk(s) == 0 ==> SpacedCjk(s) == s
  {
    if s != [] {
      SpacedCjkLength(s[1..]);
      assert SpacedCjk(s) == CjkStep(s[0]) + SpacedCjk(s[1..]);
      if CountCjk(s) == 0 {
        assert s == [s[0]] + s[1..];
      }
    }
  }

  /** Drops the space on either side of each CJK ideograph that has one on both
      sides. */
  function Unspaced(r: Text): Text
    decreases |r|
  {
    if r == [] then []
    else if |r| >= 3 && r[0] == Space && IsChineseCharacter(r[1]) && r[2] == Space then
      [r[1]] + Unspaced(r[3..])
    else [r[0]] + Unspaced(r[1..])
  }

  /** Nothing but the added spaces changes: removing the spaces around the ideographs
      gives the input back. */
  lemma {:induction false} UnspacedSpacedCjk(s: Text)
    ensures Unspaced(SpacedCjk(s)) == s
  {
    if s != [] {
      var r, rest := SpacedCjk(s), SpacedCjk(s[1..]);
      assert r == CjkStep(s[0]) + rest;
      UnspacedSpacedCjk(s[1..]);
      if IsChineseCharacter(s[0]) {
        assert r[3..] == rest;
      } else {
        SpacedCjkIsolates(s[1..]);
        assert r[1..] == rest;
      }
      assert s == [s[0]] + s[1..];
    }
  }

  /** A concatenation of texts in which the `p` code points are isolated keeps them
      isolated when the code points at the seam are `\s` or not `p`. */
  lemma IsolatedAppend(a: Text, b: Text, p: CodePoint -> bool)
    requires Isolated(a, p) && Isolated(b, p)
    requires a != [] && b != [] && (p(a[|a| - 1]) || p(b[0])) ==>
      IsRegexSpace(a[|a| - 1]) || IsRegexSpace(b[0])
    ensures Isolated(a + b, p)
  {
    var s := a + b;
    forall k | 0 <= k < |s| - 1 && (p(s[k]) || p(s[k + 1]))
      ensures IsRegexSpace(s[k]) || IsRegexSpace(s[k + 1])
    {
      if k + 1 < |a| {
        assert s[k] == a[k] && s[k + 1] == a[k + 1];
      } else if k >= |a| {
        assert s[k] == b[k - |a|] && s[k + 1] == b[k - |a| + 1];
      }
    }
  }

  /** After `tokenizeChineseCharacters` every CJK ideograph has a space on either side. */
  lemma {:induction false} SpacedCjkIsolates(s: Text)
    ensures Isolated(SpacedCjk(s), IsChineseCharacter)
    ensures SpacedCjk(s) != [] ==>
      SpacedCjk(s)[0] == Space || (SpacedCjk(s)[0] == s[0] && !IsChineseCharacter(s[0]))
  {
    if s != [] {
      var head := CjkStep(s[0]);
      SpacedCjkIsolates(s[1..]);
      assert SpacedCjk(s) == head + SpacedCjk(s[1..]);
      IsolatedAppend(head, SpacedCjk(s[1..]), IsChineseCharacter);
    }
  }

  /** Hence every whitespace token of the spaced text is a lone ideograph or holds none. */
  lemma SpacedCjkTokens(s: Text)
    ensures forall t <- WhitespaceTokenize(SpacedCjk(s)) :: AloneOrAbsent(t, IsChineseCharacter)
  {
    SpacedCjkIsolates(s);
    IsolatedTokens(SpacedCjk(s), IsChineseCharacter);
  }

  // ----- stripAccents -----

  /** `stripAccents`'s contribution for one code point of the decomposed text. */
  function AccentStep(u: Jdk): CodePoint -> Text
  {
    (cp: CodePoint) => if u.getType(cp) == NonSpacingMark then [] else [cp]
  }

  /** The specification of `stripAccents`: the NFD decomposition without its
      non-spacing marks. */
  function AccentsStripped(u: Jdk, token: Text): Text
  {
    FlatMap(u.nfd(token), AccentStep(u))
  }

  /** `stripAccents`: decompose, then keep every code point that is not a non-spacing
      mark. */
  method StripAccents(u: Jdk, token: Text) returns (r: Text)
    ensures r == AccentsStripped(u, token)
  {
    var normalized := u.nfd(token);
    var builder: Text := [];
    for i := 0 to |normalized|
      invariant builder == FlatMap(normalized[..i], AccentStep(u))
    {
      var codePoint := normalized[i];
      FlatMapSnoc(normalized, i, AccentStep(u));
      if u.getType(codePoint) != NonSpacingMark {
        builder := builder + [codePoint];
      }
    }
    assert normalized[..|normalized|] == normalized;
    r := builder;
  }

  /** The decomposition with its non-spacing marks removed, in order: no mark is left,
      every other code point is kept, and a decomposition without marks is returned
      unchanged. */
  lemma MarksRemoved(u: Jdk, d: Text)
    ensures forall c <- FlatMap(d, AccentStep(u)) :: c in d && u.getType(c) != NonSpacingMark
    ensures forall c <- d :: u.getType(c) != NonSpacingMark ==> c in FlatMap(d, AccentStep(u))
    ensures (forall c <- d :: u.getType(c) != NonSpacingMark) ==> FlatMap(d, AccentStep(u)) == d
  {
    MarksDropped(u, d);
    OthersKept(u, d);
    if forall c <- d :: u.getType(c) != NonSpacingMark {
      assert forall i :: 0 <= i < |d| ==> d[i] in d;
      NoMarksUnchanged(u, d);
    }
  }

  lemma {:induction false} MarksDropped(u: Jdk, d: Text)
    ensures forall c <- FlatMap(d, AccentStep(u)) :: c in d && u.getType(c) != NonSpacingMark
  {
    if d != [] {
      MarksDropped(u, d[1..]);
      assert FlatMap(d, AccentStep(u)) == AccentStep(u)(d[0]) + FlatMap(d[1..], AccentStep(u));
      assert forall c <- d[1..] :: c in d;
    }
  }

  lemma {:induction false} OthersKept(u: Jdk, d: Text)
    ensures forall c <- d :: u.getType(c) != NonSpacingMark ==> c in FlatMap(d, AccentStep(u))
  {
    if d != [] {
      OthersKept(u, d[1..]);
      assert FlatMap(d, AccentStep(u)) == AccentStep(u)(d[0]) + FlatMap(d[1..], AccentStep(u));
      forall c <- d | u.getType(c) != NonSpacingMark
        ensures c in FlatMap(d, AccentStep(u))
      {
        if c != d[0] {
          assert c in d[1..];
        }
      }
    }
  }

  lemma {:induction false} NoMarksUnchanged(u: Jdk, d: Text)
    requires forall i :: 0 <= i < |d| ==> u.getType(d[i]) != NonSpacingMark
    ensures FlatMap(d, AccentStep(u)) == d
  {
    if d != [] {
      assert forall i :: 0 <= i < |d| - 1 ==> d[1..][i] == d[i + 1];
      NoMarksUnchanged(u, d[1..]);
      assert d == [d[0]] + d[1..];
    }
  }

  /** `stripAccents` leaves no non-spacing mark and keeps every other code point of the
      decomposition. */
  lemma AccentsStrippedCodePoints(u: Jdk, token: Text)
    ensures forall c <- AccentsStripped(u, token) :: c in u.nfd(token) && u.getType(c) != NonSpacingMark
    ensures forall c <- u.nfd(token) :: u.getType(c) != NonSpacingMark ==> c in AccentsStripped(u, token)
  {
    MarksRemoved(u, u.nfd(token));
  }

  // ----- splitOnPunctuation -----

  /** The pieces `splitOnPunctuation` emits for the rest `s` of a token when `buffer`
      holds the code points collected since the last punctuation: the buffer is emitted
      (even when empty) before every punctuation code point, which is emitted on its
      own, and at the end only when it is not empty. */
  function PunctuationSplitFrom(u: Jdk, s: Text, buffer: Text): seq<Text>
  {
    if s == [] then (if |buffer| > 0 then [buffer] else [])
    else if IsPunctuation(u, s[0]) then [buffer, [s[0]]] + PunctuationSplitFrom(u, s[1..], [])
    else PunctuationSplitFrom(u, s[1..], buffer + [s[0]])
  }

  /** The specification of `splitOnPunctuation`. */
  function PunctuationSplit(u: Jdk, token: Text): seq<Text>
  {
    PunctuationSplitFrom(u, token, [])
  }

  /** `splitOnPunctuation`, with its stream builder and string builder. */
  method SplitOnPunctuation(u: Jdk, token: Text) returns (pieces: seq<Text>)
    ensures pieces == PunctuationSplit(u, token)
  {
    var stream: seq<Text> := [];
    var builder: Text := [];
    for i := 0 to |token|
      invariant stream + PunctuationSplitFrom(u, token[i..], builder) == PunctuationSplit(u, token)
    {
      var codePoint := token[i];
      assert token[i..][0] == codePoint && token[i..][1..] == token[i + 1..];
      if IsPunctuation(u, codePoint) {
        stream := stream + [builder];
        builder := [];
        stream := stream + [[codePoint]];
      } else {
        builder := builder + [codePoint];
      }
    }
    if |builder| > 0 {
      stream := stream + [builder];
    }
    pieces := stream;
  }

  /** The shape of the pieces: each is a single punctuation code point or free of
      punctuation; an empty piece is always followed by a punctuation piece (so the last
      piece is never empty). */
  ghost predicate PiecesShape(u: Jdk, r: seq<Text>)
  {
    (forall t <- r :: AloneOrAbsent(t, Punctuation(u))) &&
    (forall i :: 0 <= i < |r| && r[i] == [] ==>
       i + 1 < |r| && |r[i + 1]| == 1 && IsPunctuation(u, r[i + 1][0]))
  }

  lemma {:induction false} PunctuationSplitFromConcat(u: Jdk, s: Text, buffer: Text)
    ensures Concat(PunctuationSplitFrom(u, s, buffer)) == buffer + s
  {
    var r := PunctuationSplitFrom(u, s, buffer);
    if s == [] {
      if |buffer| > 0 {
        assert Concat(r) == buffer + Concat([]);
      }
    } else if IsPunctuation(u, s[0]) {
      var rest := PunctuationSplitFrom(u, s[1..], []);
      PunctuationSplitFromConcat(u, s[1..], []);
      ConcatAppend([buffer, [s[0]]], rest);
      assert Concat([buffer, [s[0]]]) == buffer + [s[0]] + Concat([]);
      assert s == [s[0]] + s[1..];
    } else {
      PunctuationSplitFromConcat(u, s[1..], buffer + [s[0]]);
      assert buffer + [s[0]] + s[1..] == buffer + s;
    }
  }

  lemma {:induction false} PunctuationSplitFromShape(u: Jdk, s: Text, buffer: Text)
    requires forall c <- buffer :: !IsPunctuation(u, c)
    ensures PiecesShape(u, PunctuationSplitFrom(u, s, buffer))
  {
    if s != [] {
      if IsPunctuation(u, s[0]) {
        var r := PunctuationSplitFrom(u, s, buffer);
        var rest := PunctuationSplitFrom(u, s[1..], []);
        PunctuationSplitFromShape(u, s[1..], []);
        assert r == [buffer, [s[0]]] + rest;
        assert forall i :: 2 <= i < |r| ==> r[i] == rest[i - 2];
      } else {
        PunctuationSplitFromShape(u, s[1..], buffer + [s[0]]);
      }
    }
  }

  /** The pieces concatenate back to the token, each is a lone punctuation code point or
      has none, and an empty piece only ever precedes a punctuation piece. */
  lemma PunctuationSplitProperties(u: Jdk, token: Text)
    ensures Concat(PunctuationSplit(u, token)) == token
    ensures PiecesShape(u, PunctuationSplit(u, token))
  {
    PunctuationSplitFromConcat(u, token, []);
    PunctuationSplitFromShape(u, token, []);
  }

  /** Joining pieces each of which is a lone `p` code point or free of them, with
      single spaces, isolates the `p` code points. */
  lemma {:induction false} JoinIsolates(parts: seq<Text>, p: CodePoint -> bool)
    requires forall t <- parts :: AloneOrAbsent(t, p)
    ensures Isolated(Join([Space], parts), p)
  {
    if parts != [] {
      assert parts[0] in parts;
      assert Isolated(parts[0], p);
      if |parts| > 1 {
        assert forall t <- parts[1..] :: t in parts;
        JoinIsolates(parts[1..], p);
        assert Isolated([Space], p);
        IsolatedAppend(parts[0], [Space], p);
        IsolatedAppend(parts[0] + [Space], Join([Space], parts[1..]), p);
      }
    }
  }

  // ----- stripAndSplit and tokenize -----

  /** `stripAndSplit`: lower-case and strip accents when configured to, then split on
      punctuation and join the pieces with spaces. */
  function StripAndSplit(b: BtBasic, u: Jdk, token: Text): Text
  {
    var t := if b.doLowerCase then AccentsStripped(u, u.toLowerCase(token)) else token;
    Join([Space], PunctuationSplit(u, t))
  }

  /** In the output of `stripAndSplit` every punctuation code point stands between
      spaces (or at an end). */
  lemma StripAndSplitIsolates(b: BtBasic, u: Jdk, token: Text)
    ensures Isolated(StripAndSplit(b, u, token), Punctuation(u))
  {
    var t := if b.doLowerCase then AccentsStripped(u, u.toLowerCase(token)) else token;
    PunctuationSplitProperties(u, t);
    JoinIsolates(PunctuationSplit(u, t), Punctuation(u));
  }

  /** The second whitespace split, applied to each first-level token. */
  function SplitToken(b: BtBasic, u: Jdk): Text -> seq<Text>
  {
    (token: Text) => WhitespaceTokenize(StripAndSplit(b, u, token))
  }

  /** `tokenize(String)`: clean, space out CJK ideographs, split on whitespace, then
      split each token on punctuation and whitespace again. */
  function Tokenize(b: BtBasic, u: Jdk, sequence: Text): seq<Text>
  {
    FlatMap(WhitespaceTokenize(SpacedCjk(Cleaned(u, sequence))), SplitToken(b, u))
  }

  /** Every basic token is free of `\s`, and is a lone punctuation code point or holds
      none. */
  lemma TokenizeTokens(b: BtBasic, u: Jdk, sequence: Text)
    ensures forall t <- Tokenize(b, u, sequence) ::
      Spaceless(t) && AloneOrAbsent(t, Punctuation(u))
  {
    var words := WhitespaceTokenize(SpacedCjk(Cleaned(u, sequence)));
    forall t <- Tokenize(b, u, sequence)
      ensures Spaceless(t) && AloneOrAbsent(t, Punctuation(u))
    {
      FlatMapElements(words, SplitToken(b, u), t);
      var i :| 0 <= i < |words| && t in SplitToken(b, u)(words[i]);
      StripAndSplitIsolates(b, u, words[i]);
      IsolatedTokens(StripAndSplit(b, u, words[i]), Punctuation(u));
    }
  }

  /** Without lower-casing the tokens do not depend on `toLowerCase` or on the NFD
      decomposition: only the category table matters. */
  lemma CaseKept(b: BtBasic, u: Jdk, v: Jdk, sequence: Text)
    requires !b.doLowerCase && u.getType == v.getType
    ensures Tokenize(b, u, sequence) == Tokenize(b, v, sequence)
  {
    CleanedAgree(u, v, sequence);
    SplitTokensAgree(b, u, v, WhitespaceTokenize(SpacedCjk(Cleaned(u, sequence))));
  }

  lemma SplitTokensAgree(b: BtBasic, u: Jdk, v: Jdk, words: seq<Text>)
    requires !b.doLowerCase && u.getType == v.getType
    ensures FlatMap(words, SplitToken(b, u)) == FlatMap(words, SplitToken(b, v))
  {
    forall i | 0 <= i < |words|
      ensures SplitToken(b, u)(words[i]) == SplitToken(b, v)(words[i])
    {
      StripAndSplitAgree(b, u, v, words[i]);
    }
    FlatMapCongruence(words, SplitToken(b, u), SplitToken(b, v));
  }

  lemma StripAndSplitAgree(b: BtBasic, u: Jdk, v: Jdk, token: Text)
    requires !b.doLowerCase && u.getType == v.getType
    ensures StripAndSplit(b, u, token) == StripAndSplit(b, v, token)
  {
    PunctuationSplitAgree(u, v, token, []);
  }

  lemma CleanedAgree(u: Jdk, v: Jdk, s: Text)
    requires u.getType == v.getType
    ensures Cleaned(u, s) == Cleaned(v, s)
  {
    forall i | 0 <= i < |s|
      ensures CleanStep(u)(s[i]) == CleanStep(v)(s[i])
    {
      assert u.getType(s[i]) == v.getType(s[i]);
    }
    FlatMapCongruence(s, CleanStep(u), CleanStep(v));
  }

  lemma {:induction false} PunctuationSplitAgree(u: Jdk, v: Jdk, s: Text, buffer: Text)
    requires u.getType == v.getType
    ensures PunctuationSplitFrom(u, s, buffer) == PunctuationSplitFrom(v, s, buffer)
  {
    if s != [] {
      PunctuationSplitAgree(u, v, s[1..], []);
      PunctuationSplitAgree(u, v, s[1..], buffer + [s[0]]);
    }
  }

  /** `cleanText` as a function value. */
  function CleanedOf(u: Jdk): Text -> Text
  {
    (sequence: Text) => Cleaned(u, sequence)
  }

  /** The second stage of a batch row: `stripAndSplit` and split on whitespace each
      first-level token of the row, flattened. */
  function RowSplitter(b: BtBasic, u: Jdk): seq<Text> -> seq<Text>
  {
    (tokens: seq<Text>) => FlatMap(tokens, SplitToken(b, u))
  }

  /** `tokenize(String...)`, one stream stage after the other: clean every sequence,
      space out the ideographs of every sequence, split every sequence on whitespace,
      then run the second stage on every row. */
  function TokenizeBatch(b: BtBasic, u: Jdk, sequences: seq<Text>): seq<seq<Text>>
  {
    var cleaned := Map(sequences, CleanedOf(u));
    var spaced := Map(cleaned, SpacedCjk);
    var words := Map(spaced, WhitespaceTokenize);
    Map(words, RowSplitter(b, u))
  }

  /** The staged batch gives one row per sequence, in order, and row `i` is the
      single-sequence `tokenize` of sequence `i`. */
  lemma TokenizeBatchRows(b: BtBasic, u: Jdk, sequences: seq<Text>)
    ensures var r := TokenizeBatch(b, u, sequences);
      |r| == |sequences| &&
      forall i :: 0 <= i < |sequences| ==> r[i] == Tokenize(b, u, sequences[i])
  {
    forall i | 0 <= i < |sequences|
      ensures TokenizeBatch(b, u, sequences)[i] == Tokenize(b, u, sequences[i])
    {
      TokenizeBatchRow(b, u, sequences, i);
    }
  }

  lemma TokenizeBatchRow(b: BtBasic, u: Jdk, sequences: seq<Text>, i: nat)
    requires i < |sequences|
    ensures |TokenizeBatch(b, u, sequences)| == |sequences|
    ensures TokenizeBatch(b, u, sequences)[i] == Tokenize(b, u, sequences[i])
  {
    var words := Map(Map(Map(sequences, CleanedOf(u)), SpacedCjk), WhitespaceTokenize);
    TokenizeBatchStages(b, u, sequences);
    FirstStagesRow(u, sequences, i);
    SecondStageRow(b, u, words, i);
  }

  lemma TokenizeBatchStages(b: BtBasic, u: Jdk, sequences: seq<Text>)
    ensures var words := Map(Map(Map(sequences, CleanedOf(u)), SpacedCjk), WhitespaceTokenize);
      TokenizeBatch(b, u, sequences) == Map(words, RowSplitter(b, u))
  {
  }

  /** Row `i` after the first three stages is the whitespace split of the cleaned and
      spaced sequence `i`. */
  lemma FirstStagesRow(u: Jdk, sequences: seq<Text>, i: nat)
    requires i < |sequences|
    ensures var words := Map(Map(Map(sequences, CleanedOf(u)), SpacedCjk), WhitespaceTokenize);
      |words| == |sequences| && words[i] == WhitespaceTokenize(SpacedCjk(Cleaned(u, sequences[i])))
  {
  }

  /** Row `i` after the second stage is `SplitToken` flat-mapped over row `i`. */
  lemma SecondStageRow(b: BtBasic, u: Jdk, words: seq<seq<Text>>, i: nat)
    requires i < |words|
    ensures Map(words, RowSplitter(b, u))[i] == FlatMap(words[i], SplitToken(b, u))
  {
  }
}
