/** `Tokenizer.whitespaceTokenize`: `sequence.trim().split("\\s+")`.

    `String.trim()` drops every leading and trailing `char` up to U+0020, and the
    regular expression class `\s` is exactly space, tab, line feed, vertical tab,
    form feed and carriage return. Both only ever look at `char`s below U+0021, which
    are single code points and never halves of a surrogate pair, so working on code
    points changes nothing. */
module Whitespace {
  import opened Chars
  import opened Seqs

  /** `\s` in a Java regular expression: `[ \t\n\x0B\f\r]`. */
  predicate IsRegexSpace(c: CodePoint)
  {
    c == 32 || 9 <= c <= 13
  }

  /** A text without `\s`. */
  predicate Spaceless(t: Text)
  {
    forall i :: 0 <= i < |t| ==> !IsRegexSpace(t[i])
  }

  /** What `String.trim()` strips from both ends. */
  predicate IsTrimmable(c: CodePoint)
  {
    c <= 32
  }

  function TrimLeading(s: Text): (r: Text)
    ensures r == [] || !IsTrimmable(r[0])
  {
    if s != [] && IsTrimmable(s[0]) then TrimLeading(s[1..]) else s
  }

  function TrimTrailing(s: Text): (r: Text)
    ensures |r| <= |s|
    ensures r == [] || (!IsTrimmable(r[|r| - 1]) && r[0] == s[0])
  {
    if s != [] && IsTrimmable(s[|s| - 1]) then TrimTrailing(s[..|s| - 1]) else s
  }

  /** `String.trim()`. */
  function Trim(s: Text): (r: Text)
    ensures r == [] || (!IsTrimmable(r[0]) && !IsTrimmable(r[|r| - 1]))
  {
    TrimTrailing(TrimLeading(s))
  }

  lemma {:induction false} TrimLeadingSlice(s: Text)
    ensures var r := TrimLeading(s);
      |r| <= |s| && r == s[|s| - |r|..] && forall i :: 0 <= i < |s| - |r| ==> IsTrimmable(s[i])
  {
    if s != [] && IsTrimmable(s[0]) {
      TrimLeadingSlice(s[1..]);
    }
  }

  lemma {:induction false} TrimTrailingSlice(s: Text)
    ensures var r := TrimTrailing(s);
      |r| <= |s| && r == s[..|r|] && forall i :: |r| <= i < |s| ==> IsTrimmable(s[i])
  {
    if s != [] && IsTrimmable(s[|s| - 1]) {
      TrimTrailingSlice(s[..|s| - 1]);
    }
  }

  /** `Trim(s)` is the slice `s[a..b]` left when every trimmable code point at either
      end is removed, and it starts and ends with a code point that is not. */
  lemma TrimIsSlice(s: Text) returns (a: nat, b: nat)
    ensures a <= b <= |s| && Trim(s) == s[a..b]
    ensures forall i :: 0 <= i < a ==> IsTrimmable(s[i])
    ensures forall i :: b <= i < |s| ==> IsTrimmable(s[i])
    ensures Trim(s) == [] || (!IsTrimmable(s[a]) && !IsTrimmable(s[b - 1]))
  {
    var l := TrimLeading(s);
    TrimLeadingSlice(s);
    TrimTrailingSlice(l);
    a := |s| - |l|;
    b := a + |Trim(s)|;
    assert Trim(s) == l[..|Trim(s)|];
  }

  /** The longest prefix of `s` without `\s`. */
  function Word(s: Text): (w: Text)
    ensures |w| <= |s|
  {
    if s == [] || IsRegexSpace(s[0]) then [] else [s[0]] + Word(s[1..])
  }

  /** The first word is a prefix without `\s`, and what follows it, if anything,
      starts with `\s`. */
  lemma {:induction false} WordPrefix(s: Text)
    ensures var w := Word(s);
      w == s[..|w|] && Spaceless(w) && (|w| < |s| ==> IsRegexSpace(s[|w|]))
    decreases |s|
  {
    if s != [] && !IsRegexSpace(s[0]) {
      WordPrefix(s[1..]);
    }
  }

  /** `s` without its leading run of `\s`. */
  function SkipSpaces(s: Text): (r: Text)
    ensures |r| <= |s|
  {
    if s != [] && IsRegexSpace(s[0]) then SkipSpaces(s[1..]) else s
  }

  /** Skipping a separator drops a prefix made only of `\s` and stops at a code point
      that is not `\s`, or at the end. */
  lemma {:induction false} SkipSpacesSuffix(s: Text)
    ensures var r := SkipSpaces(s);
      r == s[|s| - |r|..] && (forall i :: 0 <= i < |s| - |r| ==> IsRegexSpace(s[i])) &&
      (r == [] || !IsRegexSpace(r[0]))
    decreases |s|
  {
    if s != [] && IsRegexSpace(s[0]) {
      SkipSpacesSuffix(s[1..]);
    }
  }

  /** The maximal runs of code points other than `\s`, in order. */
  function Runs(s: Text): (r: seq<Text>)
    ensures forall i :: 0 <= i < |r| ==> r[i] != [] && Spaceless(r[i])
    ensures s != [] && !IsRegexSpace(s[0]) ==> r != []
    decreases |s|
  {
    if s == [] then []
    else if IsRegexSpace(s[0]) then Runs(s[1..])
    else
      var w := Word(s);
      WordPrefix(s);
      [w] + Runs(s[|w|..])
  }

  /** `s.split("\\s+")` for a string that neither starts nor ends with `\s`: the empty
      string splits into one empty string, any other into its maximal runs without
      `\s` (no empty strings, since there is no `\s` at either end). */
  function Split(s: Text): (r: seq<Text>)
    requires s == [] || (!IsRegexSpace(s[0]) && !IsRegexSpace(s[|s| - 1]))
  {
    if s == [] then [[]] else Runs(s)
  }

  /** `Tokenizer.whitespaceTokenize`. */
  function WhitespaceTokenize(s: Text): (r: seq<Text>)
    ensures |r| >= 1
    ensures forall i :: 0 <= i < |r| ==> Spaceless(r[i])
    ensures Trim(s) == [] <==> r == [[]]
    ensures Trim(s) != [] ==> forall i :: 0 <= i < |r| ==> r[i] != []
  {
    var r := Split(Trim(s));
    assert r == [[]] ==> r[0] in r;
    r
  }

  /** `s` with every maximal run of `\s` replaced by a single space. */
  function Collapse(s: Text): Text
    decreases |s|
  {
    if s == [] then []
    else if IsRegexSpace(s[0]) then [Space] + Collapse(SkipSpaces(s[1..]))
    else [s[0]] + Collapse(s[1..])
  }

  lemma {:induction false} RunsSkipSpaces(s: Text)
    ensures Runs(s) == Runs(SkipSpaces(s))
    decreases |s|
  {
    if s != [] && IsRegexSpace(s[0]) {
      RunsSkipSpaces(s[1..]);
    }
  }

  /** A prefix without `\s` is copied unchanged by `Collapse`. */
  lemma {:induction false} CollapseSpaceless(a: Text, b: Text)
    requires forall i :: 0 <= i < |a| ==> !IsRegexSpace(a[i])
    ensures Collapse(a + b) == a + Collapse(b)
    decreases |a|
  {
    if a == [] {
      assert a + b == b;
    } else {
      assert (a + b)[0] == a[0];
      assert (a + b)[1..] == a[1..] + b;
      CollapseSpaceless(a[1..], b);
      assert a == [a[0]] + a[1..];
    }
  }

  /** `Collapse` copies the first word unchanged and continues after it. */
  lemma CollapseWord(s: Text)
    ensures Collapse(s) == Word(s) + Collapse(s[|Word(s)|..])
  {
    var w := Word(s);
    WordPrefix(s);
    assert s == w + s[|w|..];
    CollapseSpaceless(w, s[|w|..]);
  }

  /** Runs joined by single spaces: the text with each run of `\s` collapsed. */
  lemma {:induction false} JoinRuns(s: Text)
    requires s == [] || (!IsRegexSpace(s[0]) && !IsRegexSpace(s[|s| - 1]))
    ensures Join([Space], Runs(s)) == Collapse(s)
    decreases |s|
  {
    if s != [] {
      var w := Word(s);
      var rest := s[|w|..];
      CollapseWord(s);
      assert Runs(s) == [w] + Runs(rest);
      if rest == [] {
        assert Runs(s) == [w];
      } else {
        var rest' := SkipSpaces(rest);
        RestAfterWord(s);
        RunsSkipSpaces(rest);
        JoinRuns(rest');
        JoinCons([Space], w, Runs(rest'));
      }
    }
  }

  /** What follows the first word of a text that ends without `\s`, once its leading
      spaces are skipped, is non-empty, ends like the text, and collapses to a space
      followed by its own collapse. */
  lemma RestAfterWord(s: Text)
    requires s != [] && !IsRegexSpace(s[0]) && !IsRegexSpace(s[|s| - 1])
    requires |Word(s)| < |s|
    ensures var rest := s[|Word(s)|..];
      SkipSpaces(rest) != [] && SkipSpaces(rest)[|SkipSpaces(rest)| - 1] == s[|s| - 1] &&
      !IsRegexSpace(SkipSpaces(rest)[0]) &&
      Collapse(rest) == [Space] + Collapse(SkipSpaces(rest)) &&
      Runs(SkipSpaces(rest)) != []
  {
    WordPrefix(s);
    var rest := s[|Word(s)|..];
    SkipSpacesSuffix(rest);
    SkipToLast(rest);
    CollapseLeadingSpace(rest);
  }

  /** Skipping the leading `\s` of a text that ends without `\s` keeps its last code
      point. */
  lemma SkipToLast(s: Text)
    requires s != [] && !IsRegexSpace(s[|s| - 1])
    ensures SkipSpaces(s) != [] && SkipSpaces(s)[|SkipSpaces(s)| - 1] == s[|s| - 1]
  {
    SkipSpacesSuffix(s);
  }

  /** A leading `\s` run collapses to one space. */
  lemma CollapseLeadingSpace(s: Text)
    requires s != [] && IsRegexSpace(s[0])
    ensures Collapse(s) == [Space] + Collapse(SkipSpaces(s))
  {
    assert SkipSpaces(s) == SkipSpaces(s[1..]);
  }

  /** Joining the tokens with single spaces gives the trimmed input with every run of
      `\s` collapsed to one space. */
  lemma WhitespaceTokenizeJoin(s: Text)
    ensures Join([Space], WhitespaceTokenize(s)) == Collapse(Trim(s))
  {
    var t := Trim(s);
    var a, b := TrimIsSlice(s);
    if t != [] {
      JoinRuns(t);
    }
  }

  /** In `s`, the neighbours of every code point satisfying `p` are `\s`. */
  ghost predicate Isolated(s: Text, p: CodePoint -> bool)
  {
    forall k :: 0 <= k < |s| - 1 && (p(s[k]) || p(s[k + 1])) ==>
      IsRegexSpace(s[k]) || IsRegexSpace(s[k + 1])
  }

  /** A token is either a single code point satisfying `p` or free of them. */
  ghost predicate AloneOrAbsent(t: Text, p: CodePoint -> bool)
  {
    (|t| == 1 && p(t[0])) || forall c <- t :: !p(c)
  }

  lemma IsolatedSlice(s: Text, a: nat, b: nat, p: CodePoint -> bool)
    requires a <= b <= |s| && Isolated(s, p)
    ensures Isolated(s[a..b], p)
  {
    forall k | 0 <= k < b - a - 1 && (p(s[a..b][k]) || p(s[a..b][k + 1]))
      ensures IsRegexSpace(s[a..b][k]) || IsRegexSpace(s[a..b][k + 1])
    {
      assert s[a..b][k] == s[a + k] && s[a..b][k + 1] == s[a + k + 1];
    }
  }

  /** A slice without `\s` of a text in which `p` code points are isolated holds one
      `p` code point alone or none at all. */
  lemma IsolatedWord(w: Text, p: CodePoint -> bool)
    requires Isolated(w, p)
    requires Spaceless(w)
    ensures AloneOrAbsent(w, p)
  {
    if !(forall c <- w :: !p(c)) {
      var i :| 0 <= i < |w| && p(w[i]);
      if |w| > 1 {
        if i + 1 < |w| {
          assert IsRegexSpace(w[i]) || IsRegexSpace(w[i + 1]);
        } else {
          assert IsRegexSpace(w[i - 1]) || IsRegexSpace(w[i]);
        }
      }
    }
  }

  lemma {:induction false} IsolatedRuns(s: Text, p: CodePoint -> bool)
    requires Isolated(s, p)
    ensures forall t <- Runs(s) :: AloneOrAbsent(t, p)
    decreases |s|
  {
    if s != [] {
      if IsRegexSpace(s[0]) {
        IsolatedSlice(s, 1, |s|, p);
        IsolatedRuns(s[1..], p);
      } else {
        var w := Word(s);
        WordPrefix(s);
        IsolatedSlice(s, 0, |w|, p);
        IsolatedWord(w, p);
        IsolatedSlice(s, |w|, |s|, p);
        IsolatedRuns(s[|w|..], p);
      }
    }
  }

  /** When every code point satisfying `p` has only `\s` neighbours, each token is a
      single such code point or contains none. */
  lemma IsolatedTokens(s: Text, p: CodePoint -> bool)
    requires Isolated(s, p)
    ensures forall t <- WhitespaceTokenize(s) :: AloneOrAbsent(t, p)
  {
    var a, b := TrimIsSlice(s);
    IsolatedSlice(s, a, b, p);
    if Trim(s) != [] {
      IsolatedRuns(Trim(s), p);
    }
  }
}
