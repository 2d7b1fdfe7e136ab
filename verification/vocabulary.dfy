/** The vocabulary of a full tokenizer: `loadVocabulary`, which gives each trimmed line
    of the vocabulary file its 0-based line number, and `convert`, which looks tokens
    up in it. Reading the file is not part of this model: the loader gets its lines. */
module Vocabulary {
  import opened Chars
  import opened Seqs
  import opened Wrappers
  import opened Whitespace

  /** Each key put with its index, in order, so a later duplicate replaces an earlier
      one. */
  function Positions(keys: seq<Text>): map<Text, int>
  {
    if keys == [] then map[]
    else Positions(keys[..|keys| - 1])[keys[|keys| - 1] := |keys| - 1]
  }

  /** The map the loader builds from `lines`: each line, trimmed, with its index. */
  function Indexed(lines: seq<Text>): map<Text, int>
  {
    Positions(Map(lines, Trim))
  }

  /** `loadVocabulary`: the `while` loop that puts each trimmed line with `index++`. */
  method LoadVocabulary(lines: seq<Text>) returns (vocabulary: map<Text, int>)
    ensures vocabulary == Indexed(lines)
  {
    vocabulary := map[];
    ghost var keys := Map(lines, Trim);
    var index := 0;
    while index < |lines|
      invariant 0 <= index <= |lines|
      invariant vocabulary == Positions(keys[..index])
    {
      var line := lines[index];
      PositionsSnoc(keys, index);
      vocabulary := vocabulary[Trim(line) := index];
      index := index + 1;
    }
    assert keys[..|lines|] == keys;
  }

  /** One more key puts that key with its index. */
  lemma PositionsSnoc(keys: seq<Text>, i: nat)
    requires i < |keys|
    ensures Positions(keys[..i + 1]) == Positions(keys[..i])[keys[i] := i]
  {
    assert keys[..i + 1][..i] == keys[..i];
  }

  lemma {:induction false} PositionsKeys(keys: seq<Text>, key: Text)
    ensures key in Positions(keys) <==> key in keys
  {
    if keys != [] {
      var n := |keys| - 1;
      PositionsKeys(keys[..n], key);
      assert keys == keys[..n] + [keys[n]];
    }
  }

  lemma {:induction false} PositionsIds(keys: seq<Text>, key: Text)
    requires key in Positions(keys)
    ensures 0 <= Positions(keys)[key] < |keys| && keys[Positions(keys)[key]] == key
    ensures forall j :: Positions(keys)[key] < j < |keys| ==> keys[j] != key
  {
    var n := |keys| - 1;
    if keys[n] != key {
      PositionsIds(keys[..n], key);
    }
  }

  /** The keys are exactly the trimmed lines, and each key's id is the index of the
      last line that trims to it. */
  lemma IndexedEntries(lines: seq<Text>, key: Text)
    ensures key in Indexed(lines) <==> exists i :: 0 <= i < |lines| && Trim(lines[i]) == key
    ensures key in Indexed(lines) ==>
      var id := Indexed(lines)[key];
      0 <= id < |lines| && Trim(lines[id]) == key &&
      forall j :: id < j < |lines| ==> Trim(lines[j]) != key
  {
    var keys := Map(lines, Trim);
    PositionsKeys(keys, key);
    if key in keys {
      var i :| 0 <= i < |keys| && keys[i] == key;
      assert Trim(lines[i]) == key;
      PositionsIds(keys, key);
    }
  }

  /** When no two lines trim alike, line `i` gets id `i`. */
  lemma DistinctLines(lines: seq<Text>, i: nat)
    requires forall j, k :: 0 <= j < k < |lines| ==> Trim(lines[j]) != Trim(lines[k])
    requires i < |lines|
    ensures Trim(lines[i]) in Indexed(lines) && Indexed(lines)[Trim(lines[i])] == i
  {
    IndexedEntries(lines, Trim(lines[i]));
  }

  /** `convert`: each token's id, in order; it fails (a null is unboxed) as soon as a
      token is not in the vocabulary. */
  function Convert(vocabulary: map<Text, int>, tokens: seq<Text>): (r: Option<seq<int>>)
    ensures r.Some? <==> forall i :: 0 <= i < |tokens| ==> tokens[i] in vocabulary
    ensures r.Some? ==>
      |r.value| == |tokens| && forall i :: 0 <= i < |tokens| ==> r.value[i] == vocabulary[tokens[i]]
  {
    if tokens == [] then Some([])
    else if tokens[0] !in vocabulary then None
    else
      match Convert(vocabulary, tokens[1..])
      case None => None
      case Some(ids) => Some([vocabulary[tokens[0]]] + ids)
  }
}
