/** `BtFull` (and its legacy twin `FullTokenizer`): the basic tokenizer followed by the
    WordPiece tokenizer over a vocabulary loaded from a file, plus id conversion. */
module Full {
  import opened Chars
  import opened Seqs
  import opened Wrappers
  import opened Unicode
  import Basic
  import WordPiece
  import opened Vocabulary

  datatype BtFull = BtFull(
    vocabulary: map<Text, int>,
    basic: Basic.BtBasic,
    wordpiece: WordPiece.BtWordPiece)
  {
    /** What the constructor establishes: the WordPiece tokenizer uses this vocabulary
        with the default unknown token and length cap. */
    predicate Valid()
    {
      wordpiece == WordPiece.WithVocabulary(vocabulary)
    }
  }

  /** `new BtFull(vocabularyFile, doLowerCase)`, given the lines of the file. */
  method Create(lines: seq<Text>, doLowerCase: bool) returns (f: BtFull)
    ensures f.Valid()
    ensures f.vocabulary == Indexed(lines) && f.basic == Basic.BtBasic(doLowerCase)
    ensures f.wordpiece.unknownToken == WordPiece.DefaultUnknownToken && f.wordpiece.maxCharactersPerWord == 200
  {
    var vocabulary := LoadVocabulary(lines);
    f := BtFull(vocabulary, Basic.BtBasic(doLowerCase), WordPiece.WithVocabulary(vocabulary));
  }

  /** `new FullTokenizer(vocabularyFile)`: the legacy constructor that does not
      lower-case. */
  method CreateDefault(lines: seq<Text>) returns (f: BtFull)
    ensures f.Valid()
    ensures f.vocabulary == Indexed(lines) && !f.basic.doLowerCase
  {
    f := Create(lines, false);
  }

  /** The WordPiece stage: the basic tokens, each given to the WordPiece tokenizer as a
      sequence of its own, and the resulting pieces flattened in order. */
  function Pieces(w: WordPiece.BtWordPiece, tokens: seq<Text>): seq<Text>
  {
    Concat(WordPiece.TokenizeBatch(w, tokens))
  }

  /** `tokenize(String)`: the basic tokenizer, then the WordPiece stage. */
  function Tokenize(f: BtFull, u: Jdk, sequence: Text): seq<Text>
  {
    Pieces(f.wordpiece, Basic.Tokenize(f.basic, u, sequence))
  }

  /** Every piece of the WordPiece stage is a vocabulary key or the unknown token. */
  lemma PiecesKnown(w: WordPiece.BtWordPiece, tokens: seq<Text>)
    ensures forall t <- Pieces(w, tokens) :: t in w.vocabulary || t == w.unknownToken
  {
    var rows := WordPiece.TokenizeBatch(w, tokens);
    WordPiece.TokenizeBatchRows(w, tokens);
    forall t <- Pieces(w, tokens)
      ensures t in w.vocabulary || t == w.unknownToken
    {
      ConcatElements(rows, t);
      var i :| 0 <= i < |rows| && t in rows[i];
      WordPiece.TokenizeVocabulary(w, tokens[i]);
    }
  }

  /** Every token is a vocabulary key or the default unknown token. */
  lemma TokenizeKnown(f: BtFull, u: Jdk, sequence: Text)
    requires f.Valid()
    ensures forall t <- Tokenize(f, u, sequence) :: t in f.vocabulary || t == WordPiece.DefaultUnknownToken
  {
    PiecesKnown(f.wordpiece, Basic.Tokenize(f.basic, u, sequence));
  }

  /** Hence converting the tokens of any sequence succeeds when "[UNK]" is in the
      vocabulary, and gives one id per token. */
  lemma ConvertTokenize(f: BtFull, u: Jdk, sequence: Text)
    requires f.Valid() && WordPiece.DefaultUnknownToken in f.vocabulary
    ensures Convert(f.vocabulary, Tokenize(f, u, sequence)).Some?
    ensures |Convert(f.vocabulary, Tokenize(f, u, sequence)).value| == |Tokenize(f, u, sequence)|
  {
    var tokens := Tokenize(f, u, sequence);
    TokenizeKnown(f, u, sequence);
    forall i | 0 <= i < |tokens|
      ensures tokens[i] in f.vocabulary
    {
      assert tokens[i] in tokens;
    }
  }

  /** The WordPiece stage as a function value. */
  function PiecesOf(f: BtFull): seq<Text> -> seq<Text>
  {
    (tokens: seq<Text>) => Pieces(f.wordpiece, tokens)
  }

  /** `tokenize(String...)`: the basic batch, then each row through the WordPiece
      stage. Row `i` is the tokens of sequence `i`. */
  function TokenizeBatch(f: BtFull, u: Jdk, sequences: seq<Text>): (r: seq<seq<Text>>)
    ensures |r| == |sequences|
    ensures forall i :: 0 <= i < |sequences| ==> r[i] == Tokenize(f, u, sequences[i])
  {
    Basic.TokenizeBatchRows(f.basic, u, sequences);
    Map(Basic.TokenizeBatch(f.basic, u, sequences), PiecesOf(f))
  }
}
