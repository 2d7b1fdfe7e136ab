/** The abstract `Tokenizer`: one sequence in, its tokens out; a batch of sequences in,
    one row of tokens per sequence, in the order the sequences were given. Its three
    implementations are the basic, the WordPiece and the full tokenizer. The `Iterable`
    and `Iterator` overloads are modelled twice: as written, where they always throw,
    and corrected, where they give the rows. */
module Tokenizers {
  import opened Chars
  import opened Seqs
  import opened Unicode
  import opened Wrappers
  import Basic
  import WordPiece
  import Full

  datatype Tokenizer =
    | OfBasic(basic: Basic.BtBasic)
    | OfWordPiece(wordpiece: WordPiece.BtWordPiece)
    | OfFull(full: Full.BtFull)

  /** `tokenize(String)`, dispatched to the implementation. */
  function Tokenize(t: Tokenizer, u: Jdk, sequence: Text): seq<Text>
  {
    match t
    case OfBasic(b) => Basic.Tokenize(b, u, sequence)
    case OfWordPiece(w) => WordPiece.Tokenize(w, sequence)
    case OfFull(f) => Full.Tokenize(f, u, sequence)
  }

  /** `tokenize(String...)`, dispatched to the implementation. */
  function TokenizeBatch(t: Tokenizer, u: Jdk, sequences: seq<Text>): seq<seq<Text>>
  {
    match t
    case OfBasic(b) => Basic.TokenizeBatch(b, u, sequences)
    case OfWordPiece(w) => WordPiece.TokenizeBatch(w, sequences)
    case OfFull(f) => Full.TokenizeBatch(f, u, sequences)
  }

  /** The runtime component class of a Java array. A generic `(T[]) new Object[n]`
      still makes an `Object` array; `Array.newInstance(String.class, n)` makes a
      `String` array. */
  datatype Component = ObjectComponent | StringComponent

  /** A Java array of the batch: its runtime component class and its elements. */
  datatype JavaArray = JavaArray(component: Component, elements: seq<Text>)

  /** What the overloads can throw. */
  datatype Thrown = ClassCastException

  /** `Iterables.toArray`: the elements, in iteration order, copied into a
      `new Object[size]`, which `ArrayList.toArray` fills and returns. */
  function ObjectArray(sequences: seq<Text>): JavaArray
  {
    JavaArray(ObjectComponent, sequences)
  }

  /** `BtIterables.toArray(sequences, String.class)`: the same copy into an array whose
      component class is `String`. */
  function StringArray(sequences: seq<Text>): JavaArray
  {
    JavaArray(StringComponent, sequences)
  }

  /** Passing `toArray`'s result as `String...`: the compiler checks the cast to
      `String[]`, which holds only for a `String` array (`String` is final), and then
      calls `tokenize(String...)`. */
  function TokenizeArray(t: Tokenizer, u: Jdk, a: JavaArray): Result<seq<seq<Text>>, Thrown>
  {
    if a.component == StringComponent then Success(TokenizeBatch(t, u, a.elements))
    else Failure(ClassCastException)
  }

  /** The `Iterable` and `Iterator` overloads as written: the array comes from
      `Iterables.toArray`. */
  function TokenizeAllAsWritten(t: Tokenizer, u: Jdk, sequences: seq<Text>): Result<seq<seq<Text>>, Thrown>
  {
    TokenizeArray(t, u, ObjectArray(sequences))
  }

  /** The overloads as written throw on every input, the empty batch included, where the
      corrected overloads succeed. */
  lemma TokenizeAllAsWrittenThrows(t: Tokenizer, u: Jdk, sequences: seq<Text>)
    ensures TokenizeAllAsWritten(t, u, sequences) == Failure(ClassCastException)
    ensures TokenizeAll(t, u, sequences).Success?
  {
  }

  /** The overloads as their documentation describes them: the array is built with
      component class `String`, as `BtIterables.toArray` does for `BtSession`. */
  function TokenizeAll(t: Tokenizer, u: Jdk, sequences: seq<Text>): Result<seq<seq<Text>>, Thrown>
  {
    TokenizeArray(t, u, StringArray(sequences))
  }

  /** Whatever the implementation, the corrected overloads succeed with one row per
      element, in iteration order, and row `i` is the single-sequence `tokenize` of
      element `i`. */
  lemma TokenizeAllRows(t: Tokenizer, u: Jdk, sequences: seq<Text>)
    ensures var r := TokenizeAll(t, u, sequences);
      r.Success? && |r.value| == |sequences| &&
      forall i :: 0 <= i < |sequences| ==> r.value[i] == Tokenize(t, u, sequences[i])
  {
    match t
    case OfBasic(b) =>
      Basic.TokenizeBatchRows(b, u, sequences);
    case OfWordPiece(w) =>
      WordPiece.TokenizeBatchRows(w, sequences);
    case OfFull(f) =>
  }

  /** `tokenize(String)` of one tokenizer, as a function value. */
  function TokenizerOf(t: Tokenizer, u: Jdk): Text -> seq<Text>
  {
    (sequence: Text) => Tokenize(t, u, sequence)
  }

  lemma TokenizeAllMap(t: Tokenizer, u: Jdk, sequences: seq<Text>)
    ensures TokenizeAll(t, u, sequences) == Success(Map(sequences, TokenizerOf(t, u)))
  {
    TokenizeAllRows(t, u, sequences);
  }

  /** Tokenizing two batches one after the other gives the rows of the joined batch. */
  lemma TokenizeAllAppend(t: Tokenizer, u: Jdk, a: seq<Text>, b: seq<Text>)
    ensures TokenizeAll(t, u, a).Success? && TokenizeAll(t, u, b).Success?
    ensures TokenizeAll(t, u, a + b) == Success(TokenizeAll(t, u, a).value + TokenizeAll(t, u, b).value)
  {
    TokenizeAllMap(t, u, a + b);
    TokenizeAllMap(t, u, a);
    TokenizeAllMap(t, u, b);
    MapAppend(a, b, TokenizerOf(t, u));
  }
}
