/** `BtWordPiece`: the BERT WordPiece tokenizer. Each whitespace token is split greedily,
    left to right, into the longest pieces found in the vocabulary; a piece that does
    not start the token is looked up with a "##" prefix.

    The split works on the token's UTF-16 `char`s (`Encode`), and each candidate
    piece is the Java string made of those `char`s (`Decode`). When no piece fits at
    some position, the pieces already found are kept and the unknown token is added
    once; the rest of the token is dropped. */
module WordPiece {
  import opened Chars
  import opened Seqs
  import opened Wrappers
  import opened Whitespace

  datatype BtWordPiece = BtWordPiece(
    vocabulary: map<Text, int>,
    unknownToken: Text,
    maxCharactersPerWord: int)

  const DefaultMaxCharactersPerWord: int := 200

  /** "[UNK]". */
  const DefaultUnknownToken: Text := [0x5B, 0x55, 0x4E, 0x4B, 0x5D]

  /** `new BtWordPiece(vocabulary)`: the default unknown token and length cap. */
  function WithVocabulary(vocabulary: map<Text, int>): (w: BtWordPiece)
    ensures w.vocabulary == vocabulary
    ensures w.unknownToken == DefaultUnknownToken
    ensures w.maxCharactersPerWord == 200
  {
    BtWordPiece(vocabulary, DefaultUnknownToken, DefaultMaxCharactersPerWord)
  }

  /** The two `char`s of "##". */
  const HashHash: seq<Char> := [35, 35]

  /** The string looked up for the `char`s `[start, end)`: "##" in front unless the
      piece starts the token. */
  function Candidate(units: seq<Char>, start: nat, end: nat): Text
    requires start <= end <= |units|
  {
    Decode((if start > 0 then HashHash else []) + units[start..end])
  }

  /** The inner loop: the largest `end` in `(start, limit]` whose candidate is a
      vocabulary key, if there is one. */
  function LongestMatch(w: BtWordPiece, units: seq<Char>, start: nat, limit: nat): (r: Option<nat>)
    requires start <= limit <= |units|
    ensures r.Some? ==> start < r.value <= limit && Candidate(units, start, r.value) in w.vocabulary
    ensures r.Some? ==> forall e :: r.value < e <= limit ==> Candidate(units, start, e) !in w.vocabulary
    ensures r.None? ==> forall e :: start < e <= limit ==> Candidate(units, start, e) !in w.vocabulary
    decreases limit
  {
    if limit <= start then None
    else if Candidate(units, start, limit) in w.vocabulary then Some(limit)
    else LongestMatch(w, units, start, limit - 1)
  }

  /** The pieces found from position `start` on. */
  function PiecesFrom(w: BtWordPiece, units: seq<Char>, start: nat): seq<Text>
    requires start <= |units|
    decreases |units| - start
  {
    if start == |units| then []
    else match LongestMatch(w, units, start, |units|)
      case None => [w.unknownToken]
      case Some(end) => [Candidate(units, start, end)] + PiecesFrom(w, units, end)
  }

  /** The specification of `splitToken`. */
  function WordPieces(w: BtWordPiece, token: Text): seq<Text>
  {
    var units := Encode(token);
    if |units| > w.maxCharactersPerWord then [w.unknownToken] else PiecesFrom(w, units, 0)
  }

  /** `splitToken`: the greedy loop over the token's `char`s; `LongestPiece` is its
      inner loop. */
  method SplitToken(w: BtWordPiece, token: Text) returns (subtokens: seq<Text>)
    ensures subtokens == WordPieces(w, token)
  {
    var characters := Encode(token);
    if |characters| > w.maxCharactersPerWord {
      return [w.unknownToken];
    }
    subtokens := [];
    var start := 0;
    while start < |characters|
      invariant 0 <= start <= |characters|
      invariant subtokens + PiecesFrom(w, characters, start) == WordPieces(w, token)
      decreases |characters| - start
    {
      var end, found, substring := LongestPiece(w, characters, start);
      if !found {
        subtokens := subtokens + [w.unknownToken];
        break;
      }
      subtokens := subtokens + [substring];
      start := end;
    }
  }

  /** The inner loop of `splitToken`: `end` walks down from the end of the token until
      the candidate `[start, end)` is a vocabulary key. */
  method LongestPiece(w: BtWordPiece, characters: seq<Char>, start: nat)
    returns (end: nat, found: bool, substring: Text)
    requires start < |characters|
    ensures found <==> LongestMatch(w, characters, start, |characters|).Some?
    ensures found ==>
      end == LongestMatch(w, characters, start, |characters|).value &&
      substring == Candidate(characters, start, end)
  {
    end := |characters|;
    found := false;
    substring := [];
    while start < end
      invariant start <= end <= |characters|
      invariant LongestMatch(w, characters, start, |characters|) == LongestMatch(w, characters, start, end)
      decreases end
    {
      substring := Decode((if start > 0 then HashHash else []) + characters[start..end]);
      if substring in w.vocabulary {
        found := true;
        return;
      }
      end := end - 1;
    }
  }

  /** The boundaries of the pieces matched from `start` on: `start`, then the end of
      each match. */
  function Cuts(w: BtWordPiece, units: seq<Char>, start: nat): (r: seq<nat>)
    requires start <= |units|
    ensures r != [] && r[0] == start
    ensures forall i :: 0 <= i < |r| ==> start <= r[i] <= |units|
    ensures forall i :: 0 <= i < |r| - 1 ==> r[i] < r[i + 1]
    decreases |units| - start
  {
    if start == |units| then [start]
    else match LongestMatch(w, units, start, |units|)
      case None => [start]
      case Some(end) => [start] + Cuts(w, units, end)
  }

  /** After the last cut the token is either used up, or has no match and yields one
      unknown token. */
  lemma {:induction false} CutsEnd(w: BtWordPiece, units: seq<Char>, start: nat)
    requires start <= |units|
    ensures var cuts := Cuts(w, units, start); var r := PiecesFrom(w, units, start);
      var m := |cuts| - 1;
      (|r| == m && cuts[m] == |units|) ||
      (|r| == m + 1 && cuts[m] < |units| && r[m] == w.unknownToken &&
       LongestMatch(w, units, cuts[m], |units|) == None)
    decreases |units| - start
  {
    if start < |units| {
      match LongestMatch(w, units, start, |units|)
      case None =>
      case Some(end) =>
        CutsEnd(w, units, end);
        assert Cuts(w, units, start) == [start] + Cuts(w, units, end);
        assert PiecesFrom(w, units, start) == [Candidate(units, start, end)] + PiecesFrom(w, units, end);
    }
  }

  /** Piece `i` is the longest match from cut `i`, which ends at cut `i + 1`. */
  lemma {:induction false} CutsPiece(w: BtWordPiece, units: seq<Char>, start: nat, i: nat)
    requires start <= |units| && i < |Cuts(w, units, start)| - 1
    ensures var cuts := Cuts(w, units, start); var r := PiecesFrom(w, units, start);
      LongestMatch(w, units, cuts[i], |units|) == Some(cuts[i + 1]) &&
      i < |r| && r[i] == Candidate(units, cuts[i], cuts[i + 1])
    decreases i
  {
    var end := LongestMatch(w, units, start, |units|).value;
    assert Cuts(w, units, start) == [start] + Cuts(w, units, end);
    assert PiecesFrom(w, units, start) == [Candidate(units, start, end)] + PiecesFrom(w, units, end);
    if i > 0 {
      CutsPiece(w, units, end, i - 1);
    }
  }

  /** What a piece looks like as `char`s: the first piece is the token's `char`s up to
      the first cut, every later one is "##" followed by the `char`s between its cuts. */
  lemma CandidateChars(units: seq<Char>, start: nat, end: nat)
    requires start <= end <= |units|
    ensures Encode(Candidate(units, start, end)) == (if start > 0 then HashHash else []) + units[start..end]
  {
    EncodeDecode((if start > 0 then HashHash else []) + units[start..end]);
  }

  /** Every piece but the last is a vocabulary key, and the last is a key or the unknown
      token; so when the unknown token is not a key it occurs at most once, and last. */
  lemma WordPiecesVocabulary(w: BtWordPiece, token: Text)
    ensures var r := WordPieces(w, token);
      (forall i :: 0 <= i < |r| - 1 ==> r[i] in w.vocabulary) &&
      (r != [] ==> r[|r| - 1] in w.vocabulary || r[|r| - 1] == w.unknownToken)
  {
    var units := Encode(token);
    if |units| <= w.maxCharactersPerWord {
      var cuts := Cuts(w, units, 0);
      var r := WordPieces(w, token);
      CutsEnd(w, units, 0);
      forall i | 0 <= i < |cuts| - 1
        ensures r[i] in w.vocabulary
      {
        CutsPiece(w, units, 0, i);
      }
    }
  }

  /** Hence every piece is a vocabulary key or the unknown token. */
  lemma WordPiecesKnown(w: BtWordPiece, token: Text)
    ensures forall t <- WordPieces(w, token) :: t in w.vocabulary || t == w.unknownToken
  {
    WordPiecesVocabulary(w, token);
  }

  /** The pieces of a token under the cap, read as `char`s: the first carries no
      "##", every later one is "##" followed by the `char`s between its two cuts, and
      each cut is as far right as a vocabulary key allows. */
  lemma WordPiecesMatched(w: BtWordPiece, token: Text)
    requires |Encode(token)| <= w.maxCharactersPerWord
    ensures var units := Encode(token); var cuts := Cuts(w, units, 0);
      var r := WordPieces(w, token); var m := |cuts| - 1;
      cuts[0] == 0 && m <= |r| &&
      forall i :: 0 <= i < m ==>
        Encode(r[i]) == (if i == 0 then [] else HashHash) + units[cuts[i]..cuts[i + 1]] &&
        r[i] in w.vocabulary &&
        forall e :: cuts[i + 1] < e <= |units| ==> Candidate(units, cuts[i], e) !in w.vocabulary
  {
    var units := Encode(token);
    var cuts := Cuts(w, units, 0);
    var r := WordPieces(w, token);
    var m := |cuts| - 1;
    CutsEnd(w, units, 0);
    forall i | 0 <= i < m
      ensures Encode(r[i]) == (if i == 0 then [] else HashHash) + units[cuts[i]..cuts[i + 1]]
      ensures r[i] in w.vocabulary
      ensures forall e :: cuts[i + 1] < e <= |units| ==> Candidate(units, cuts[i], e) !in w.vocabulary
    {
      CutsPiece(w, units, 0, i);
      CandidateChars(units, cuts[i], cuts[i + 1]);
      if i > 0 {
        assert cuts[0] < cuts[i] by { Increasing(cuts, m, i); }
      }
    }
  }

  lemma {:induction false} Increasing(cuts: seq<nat>, m: nat, i: nat)
    requires m < |cuts| && 0 < i <= m
    requires forall k :: 0 <= k < m ==> cuts[k] < cuts[k + 1]
    ensures cuts[0] < cuts[i]
  {
    if i > 1 {
      Increasing(cuts, m, i - 1);
    }
  }

  /** A piece's `char`s without the "##" that marks a piece after the first. */
  function Unhashed(i: nat, piece: Text): seq<Char>
  {
    var units := Encode(piece);
    if i > 0 && |units| >= 2 && units[..2] == HashHash then units[2..] else units
  }

  /** The pieces' `char`s, each without its "##". */
  function Stripped(pieces: seq<Text>): (r: seq<seq<Char>>)
    ensures |r| == |pieces|
  {
    if pieces == [] then []
    else Stripped(pieces[..|pieces| - 1]) + [Unhashed(|pieces| - 1, pieces[|pieces| - 1])]
  }

  /** The matched pieces, "##" removed, concatenate to the token's `char`s up to the
      last cut; that is the whole token exactly when no unknown token was added, and
      otherwise the unknown token is the one further piece. */
  lemma WordPiecesCover(w: BtWordPiece, token: Text)
    requires |Encode(token)| <= w.maxCharactersPerWord
    ensures var units := Encode(token); var cuts := Cuts(w, units, 0);
      var r := WordPieces(w, token); var m := |cuts| - 1;
      m <= |r| <= m + 1 &&
      Concat(Stripped(r[..m])) == units[..cuts[m]] &&
      (|r| == m <==> cuts[m] == |units|) &&
      (|r| == m + 1 ==> r[m] == w.unknownToken)
  {
    var units := Encode(token);
    var cuts := Cuts(w, units, 0);
    var r := WordPieces(w, token);
    var m := |cuts| - 1;
    CutsEnd(w, units, 0);
    WordPiecesMatched(w, token);
    Telescope(units, cuts, r, m);
  }

  /** The stripped pieces up to cut `k` concatenate to the `char`s up to that cut. */
  lemma {:induction false} Telescope(units: seq<Char>, cuts: seq<nat>, r: seq<Text>, k: nat)
    requires k < |cuts| && k <= |r| && cuts[0] == 0
    requires forall i :: 0 <= i < |cuts| ==> cuts[i] <= |units|
    requires forall i :: 0 <= i < |cuts| - 1 ==> cuts[i] < cuts[i + 1]
    requires forall i :: 0 <= i < k ==>
      Encode(r[i]) == (if i == 0 then [] else HashHash) + units[cuts[i]..cuts[i + 1]]
    ensures Concat(Stripped(r[..k])) == units[..cuts[k]]
  {
    if k > 0 {
      Telescope(units, cuts, r, k - 1);
      var piece := units[cuts[k - 1]..cuts[k]];
      assert Unhashed(k - 1, r[k - 1]) == piece by {
        if k > 1 {
          var e := HashHash + piece;
          assert e[..2] == HashHash && e[2..] == piece;
        }
      }
      assert r[..k][..k - 1] == r[..k - 1];
      assert Stripped(r[..k]) == Stripped(r[..k - 1]) + [piece];
      ConcatAppend(Stripped(r[..k - 1]), [piece]);
      assert Concat([piece]) == piece + Concat([]);
      assert units[..cuts[k - 1]] + piece == units[..cuts[k]];
    }
  }

  /** A token longer than the cap, in `char`s, becomes the unknown token alone; the empty
      token has no pieces (under a non-negative cap). */
  lemma WordPiecesEdges(w: BtWordPiece, token: Text)
    ensures |Encode(token)| > w.maxCharactersPerWord ==> WordPieces(w, token) == [w.unknownToken]
    ensures token == [] && w.maxCharactersPerWord >= 0 ==> WordPieces(w, token) == []
  {
  }

  /** The pieces matched before a failure are kept: with the vocabulary {"un"}, the
      token "unx" gives ["un", "[UNK]"] (BERT's reference tokenizer gives the unknown
      token alone for a word it cannot split completely). */
  lemma KeepsMatchedPieces()
    ensures WordPieces(WithVocabulary(map[[117, 110] := 0]), [117, 110, 120]) ==
            [[117, 110], DefaultUnknownToken]
  {
    var w := WithVocabulary(map[[117, 110] := 0]);
    var units: seq<Char> := [117, 110, 120];
    assert Encode([117, 110, 120]) == units;
    var whole, un, x: seq<Char> := [117, 110, 120], [117, 110], [35, 35, 120];
    assert [] + units[0..3] == whole && [] + units[0..2] == un && HashHash + units[2..3] == x;
    DecodePlain(whole);
    DecodePlain(un);
    DecodePlain(x);
    assert LongestMatch(w, units, 0, 3) == Some(2);
    assert LongestMatch(w, units, 2, 3) == None;
  }

  /** The per-token split as a function value. */
  function Splitter(w: BtWordPiece): Text -> seq<Text>
  {
    (token: Text) => WordPieces(w, token)
  }

  /** `tokenize(String)`: split on whitespace, then split every token, in order. */
  function Tokenize(w: BtWordPiece, sequence: Text): seq<Text>
  {
    FlatMap(WhitespaceTokenize(sequence), Splitter(w))
  }

  /** Every piece `tokenize` produces is a vocabulary key or the unknown token. */
  lemma TokenizeVocabulary(w: BtWordPiece, sequence: Text)
    ensures forall t <- Tokenize(w, sequence) :: t in w.vocabulary || t == w.unknownToken
  {
    var words := WhitespaceTokenize(sequence);
    forall t <- Tokenize(w, sequence)
      ensures t in w.vocabulary || t == w.unknownToken
    {
      FlatMapElements(words, Splitter(w), t);
      var i :| 0 <= i < |words| && t in Splitter(w)(words[i]);
      WordPiecesKnown(w, words[i]);
    }
  }

  /** The second stage of a batch row: split every token of the row, flattened. */
  function RowSplitter(w: BtWordPiece): seq<Text> -> seq<Text>
  {
    (tokens: seq<Text>) => FlatMap(tokens, Splitter(w))
  }

  /** `tokenize(String...)`, one stream stage after the other: split every sequence on
      whitespace, then split the tokens of every row. */
  function TokenizeBatch(w: BtWordPiece, sequences: seq<Text>): seq<seq<Text>>
  {
    Map(Map(sequences, WhitespaceTokenize), RowSplitter(w))
  }

  /** The staged batch gives one row per sequence, in order, and row `i` is the
      single-sequence `tokenize` of sequence `i`. */
  lemma TokenizeBatchRows(w: BtWordPiece, sequences: seq<Text>)
    ensures var r := TokenizeBatch(w, sequences);
      |r| == |sequences| &&
      forall i :: 0 <= i < |sequences| ==> r[i] == Tokenize(w, sequences[i])
  {
    var words := Map(sequences, WhitespaceTokenize);
    assert forall i :: 0 <= i < |sequences| ==> words[i] == WhitespaceTokenize(sequences[i]);
  }
}
