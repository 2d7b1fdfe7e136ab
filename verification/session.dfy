/** `BtSession` (and its legacy twin `Bert`) up to the TensorFlow call: opening a
    session builds the full tokenizer over the vocabulary and looks up the ids of the
    start token "[CLS]" and the separator token "[SEP]"; `getInputs` tokenizes a batch
    of sequences and lays out the three input buffers the model is fed. */
module Session {
  import opened Chars
  import opened Wrappers
  import opened Unicode
  import opened Vocabulary
  import WordPiece
  import Full
  import Batch

  /** The two fields of the model details that the tokenizing side reads. */
  datatype ModelDetails = ModelDetails(doLowerCase: bool, maxSequenceLength: int)

  datatype BtSession = BtSession(
    model: ModelDetails,
    tokenizer: Full.BtFull,
    startTokenId: int,
    separatorTokenId: int)

  /** "[CLS]" */
  const StartToken: Text := [0x5B, 0x43, 0x4C, 0x53, 0x5D]
  /** "[SEP]" */
  const SeparatorToken: Text := [0x5B, 0x53, 0x45, 0x50, 0x5D]

  /** A session whose ids are those of its own vocabulary. */
  predicate Valid(s: BtSession)
  {
    s.tokenizer.Valid() &&
    StartToken in s.tokenizer.vocabulary && SeparatorToken in s.tokenizer.vocabulary &&
    s.startTokenId == s.tokenizer.vocabulary[StartToken] &&
    s.separatorTokenId == s.tokenizer.vocabulary[SeparatorToken]
  }

  /** The private constructor: build the tokenizer, then convert ["[CLS]", "[SEP]"],
      which fails (a null is unboxed) when either is not in the vocabulary. */
  method Open(lines: seq<Text>, model: ModelDetails) returns (r: Option<BtSession>)
    ensures r.Some? <==> StartToken in Indexed(lines) && SeparatorToken in Indexed(lines)
    ensures r.Some? ==>
      Valid(r.value) && r.value.model == model &&
      r.value.tokenizer.vocabulary == Indexed(lines) &&
      r.value.tokenizer.basic.doLowerCase == model.doLowerCase
  {
    var tokenizer := Full.Create(lines, model.doLowerCase);
    var ids := Convert(tokenizer.vocabulary, [StartToken, SeparatorToken]);
    if ids.None? {
      return None;
    }
    r := Some(BtSession(model, tokenizer, ids.value[0], ids.value[1]));
  }

  /** What `getInputs` yields for `sequences`. */
  function Inputs(s: BtSession, u: Jdk, sequences: seq<Text>): Result<Batch.Inputs, Batch.InputsError>
  {
    Batch.Expected(s.tokenizer.vocabulary, Full.TokenizeBatch(s.tokenizer, u, sequences),
                   s.model.maxSequenceLength, s.startTokenId, s.separatorTokenId)
  }

  /** `getInputs`: tokenize the batch with the full tokenizer, then fill the buffers. */
  method GetInputs(s: BtSession, u: Jdk, sequences: seq<Text>)
    returns (r: Result<Batch.Inputs, Batch.InputsError>)
    ensures r == Inputs(s, u, sequences)
  {
    var tokens := Full.TokenizeBatch(s.tokenizer, u, sequences);
    r := Batch.Assemble(s.tokenizer.vocabulary, tokens, s.model.maxSequenceLength,
                        s.startTokenId, s.separatorTokenId);
  }

  /** With "[UNK]" in the vocabulary, every token the tokenizer emits has an id, so
      `getInputs` fails only for a maximum sequence length below 2 (and a non-empty
      batch). */
  lemma InputsSucceed(s: BtSession, u: Jdk, sequences: seq<Text>)
    requires Valid(s) && WordPiece.DefaultUnknownToken in s.tokenizer.vocabulary
    ensures Inputs(s, u, sequences).Success? <==> sequences == [] || s.model.maxSequenceLength >= 2
  {
    var tokens := Full.TokenizeBatch(s.tokenizer, u, sequences);
    Batch.ExpectedOutcome(s.tokenizer.vocabulary, tokens, s.model.maxSequenceLength,
                          s.startTokenId, s.separatorTokenId);
    forall k, t | 0 <= k < |tokens| && t in tokens[k]
      ensures t in s.tokenizer.vocabulary
    {
      Full.TokenizeKnown(s.tokenizer, u, sequences[k]);
    }
  }

  /** On success, every sequence of the batch converts to ids. */
  lemma InputsConvert(s: BtSession, u: Jdk, sequences: seq<Text>, i: nat)
    requires Inputs(s, u, sequences).Success? && i < |sequences|
    ensures Convert(s.tokenizer.vocabulary, Full.Tokenize(s.tokenizer, u, sequences[i])).Some?
  {
    var tokens := Full.TokenizeBatch(s.tokenizer, u, sequences);
    Batch.ExpectedOutcome(s.tokenizer.vocabulary, tokens, s.model.maxSequenceLength,
                          s.startTokenId, s.separatorTokenId);
    Batch.ExpectedSlots(s.tokenizer.vocabulary, tokens, s.model.maxSequenceLength,
                        s.startTokenId, s.separatorTokenId, i, 0);
    assert tokens[i] == Full.Tokenize(s.tokenizer, u, sequences[i]);
  }

  /** Row `i` of the inputs `x` of a session, where sequence `i` converts to `ids`:
      "[CLS]", `ids` cut to `L - 2`, "[SEP]", then zero padding; the mask marks all but
      the padding. */
  lemma InputsRow(s: BtSession, u: Jdk, sequences: seq<Text>, x: Batch.Inputs,
                  ids: seq<int>, i: nat, j: int)
    requires Valid(s) && Inputs(s, u, sequences) == Success(x)
    requires i < |sequences| && 0 <= j < s.model.maxSequenceLength
    requires Convert(s.tokenizer.vocabulary, Full.Tokenize(s.tokenizer, u, sequences[i])) == Some(ids)
    ensures var L := s.model.maxSequenceLength;
      var m := if |ids| < L - 2 then |ids| else L - 2;
      L >= 2 && |x.inputIds| == |sequences| * L && |x.inputMask| == |sequences| * L &&
      0 <= i * L + j < |sequences| * L &&
      x.inputIds[i * L + j] ==
        (if j == 0 then s.tokenizer.vocabulary[StartToken]
         else if j <= m then ids[j - 1]
         else if j == m + 1 then s.tokenizer.vocabulary[SeparatorToken]
         else 0) &&
      x.inputMask[i * L + j] == (if j <= m + 1 then 1 else 0)
  {
    var tokens := Full.TokenizeBatch(s.tokenizer, u, sequences);
    Batch.ExpectedSlots(s.tokenizer.vocabulary, tokens, s.model.maxSequenceLength,
                        s.startTokenId, s.separatorTokenId, i, j);
    assert tokens[i] == Full.Tokenize(s.tokenizer, u, sequences[i]);
  }
}
