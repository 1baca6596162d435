/** The Hindi inverse-normalization sentence verbalizer `VerbalizeFinalFst`: a
    sentence is a sequence of `tokens { T }` blocks separated by whitespace runs;
    each block is replaced by a verbalization of its content `T`, the results are
    joined by single spaces, and whitespace around the whole sequence is dropped.

    The per-token verbalizer `types` (the union of `VerbalizeFst` and `WordFst`)
    is a parameter of every member. */
module HiVerbalizeFinal {
  import opened Text
  import opened Tokens

  /** `types = verbalize | word`. */
  function Types(verbalize: Grammar, word: Grammar): Grammar {
    (m) => verbalize(m) + word(m)
  }

  /** The union of two verbalizers that are blind to the whitespace around their
      input is blind to it too. */
  lemma TypesKeepBlindness(verbalize: Grammar, word: Grammar)
    requires RejectsLeadingWhiteSpace(verbalize) && AbsorbsTrailingWhiteSpace(verbalize)
    requires RejectsLeadingWhiteSpace(word) && AbsorbsTrailingWhiteSpace(word)
    ensures RejectsLeadingWhiteSpace(Types(verbalize, word))
    ensures AbsorbsTrailingWhiteSpace(Types(verbalize, word))
  {
  }

  /** One block: `delete("tokens") + delete_space + delete("{") + delete_space +
      types + delete_space + delete("}")`. */
  function Block(types: Grammar, s: string): set<string> {
    Unframe("tokens", types, s)
  }

  /** `closure(block + delete_extra_space) + block`: one or more blocks, each
      whitespace run between two of them rewritten to one space. */
  function Blocks(types: Grammar, s: string): set<string>
    decreases |s|
  {
    Block(types, s) +
    (set i, j, a, b |
       && 0 < i < j < |s|
       && AllWhiteSpace(s[i..j])
       && a in Block(types, s[..i])
       && b in Blocks(types, s[j..])
       :: a + " " + b)
  }

  /** The whole sentence: `delete_space + blocks + delete_space`. */
  function Sentence(types: Grammar, s: string): set<string> {
    set i, j, o |
      && 0 <= i <= j <= |s|
      && AllWhiteSpace(s[..i]) && AllWhiteSpace(s[j..])
      && o in Blocks(types, s[i..j])
      :: o
  }

  /** Every accepted block sequence starts with `tokens` and ends with the closing
      brace. */
  lemma {:induction false} BlocksShape(types: Grammar, s: string, o: string)
    requires o in Blocks(types, s)
    ensures StartsWith(s, "tokens") && s[|s| - 1] == '}'
    decreases |s|
  {
    if o !in Block(types, s) {
      var i, j, a, b :|
        && 0 < i < j < |s|
        && AllWhiteSpace(s[i..j])
        && a in Block(types, s[..i])
        && b in Blocks(types, s[j..])
        && o == a + " " + b;
      BlocksShape(types, s[j..], b);
      JoinedShape(types, s, i, j, a);
    } else {
      UnframeShape("tokens", types, s, o);
    }
  }

  /** The shape of a block followed by a block sequence that ends with a brace. */
  lemma JoinedShape(types: Grammar, s: string, i: int, j: int, a: string)
    requires 0 < i < j < |s|
    requires a in Block(types, s[..i])
    requires s[j..][|s[j..]| - 1] == '}'
    ensures StartsWith(s, "tokens") && s[|s| - 1] == '}'
  {
    UnframeShape("tokens", types, s[..i], a);
    assert s[..i][..6] == s[..6];
  }

  /** An accepted block sequence has no whitespace at either end. */
  lemma BlocksTrimmed(types: Grammar, s: string, o: string)
    requires o in Blocks(types, s)
    ensures |s| > 0 && !IsWhiteSpace(s[0]) && !IsWhiteSpace(s[|s| - 1])
  {
    BlocksShape(types, s, o);
    assert s[0] == s[..6][0] == 't';
  }

  /** Leading and trailing whitespace of the sentence is deleted: the sentence
      means exactly the block sequence of its stripped text. */
  lemma SentenceIsBlocksOfStrip(types: Grammar, s: string)
    ensures Sentence(types, s) == Blocks(types, Strip(s))
  {
    forall o | o in Blocks(types, Strip(s)) ensures o in Sentence(types, s) {
      StrippedInSentence(types, s, o);
    }
    forall o | o in Sentence(types, s) ensures o in Blocks(types, Strip(s)) {
      SentenceInStripped(types, s, o);
    }
  }

  lemma StrippedInSentence(types: Grammar, s: string, o: string)
    requires o in Blocks(types, Strip(s))
    ensures o in Sentence(types, s)
  {
    var b := StripBounds(s);
    assert o in Blocks(types, s[b.0..b.1]);
  }

  lemma SentenceInStripped(types: Grammar, s: string, o: string)
    requires o in Sentence(types, s)
    ensures o in Blocks(types, Strip(s))
  {
    var i, j :| 0 <= i <= j <= |s| && AllWhiteSpace(s[..i]) && AllWhiteSpace(s[j..])
      && o in Blocks(types, s[i..j]);
    BlocksTrimmed(types, s[i..j], o);
    CoreIsStrip(s, i, j);
  }

  lemma CoreIsStrip(s: string, i: int, j: int)
    requires 0 <= i <= j <= |s| && AllWhiteSpace(s[..i]) && AllWhiteSpace(s[j..])
    requires |s[i..j]| > 0 && !IsWhiteSpace(s[i..j][0]) && !IsWhiteSpace(s[i..j][|s[i..j]| - 1])
    ensures Strip(s) == s[i..j]
  {
    assert s[i..j][0] == s[i] && s[i..j][j - i - 1] == s[j - 1];
    StripUnique(s, i, j);
  }

  /** Whitespace added around a sentence changes nothing. */
  lemma SentenceBlindToSurroundingSpace(types: Grammar, w1: string, s: string, w2: string)
    requires AllWhiteSpace(w1) && AllWhiteSpace(w2)
    ensures Sentence(types, w1 + s + w2) == Sentence(types, s)
  {
    var t := w1 + s + w2;
    forall o | o in Sentence(types, s) ensures o in Sentence(types, t) {
      var i, j :| 0 <= i <= j <= |s| && AllWhiteSpace(s[..i]) && AllWhiteSpace(s[j..])
        && o in Blocks(types, s[i..j]);
      WidenSplit(w1, s, w2, i, j);
      assert o in Blocks(types, t[|w1| + i..|w1| + j]);
    }
    forall o | o in Sentence(types, t) ensures o in Sentence(types, s) {
      var I, J :| 0 <= I <= J <= |t| && AllWhiteSpace(t[..I]) && AllWhiteSpace(t[J..])
        && o in Blocks(types, t[I..J]);
      BlocksTrimmed(types, t[I..J], o);
      NarrowSplit(w1, s, w2, I, J);
      assert o in Blocks(types, s[I - |w1|..J - |w1|]);
    }
  }

  /** Positions `i <= j` of `s` with only whitespace before `i` and from `j` on. */
  predicate EdgeSplit(s: string, i: int, j: int) {
    0 <= i <= j <= |s| && AllWhiteSpace(s[..i]) && AllWhiteSpace(s[j..])
  }

  /** A split of `s` stays a split once whitespace is added around `s`. */
  lemma WidenSplit(w1: string, s: string, w2: string, i: int, j: int)
    requires AllWhiteSpace(w1) && AllWhiteSpace(w2)
    requires EdgeSplit(s, i, j)
    ensures EdgeSplit(w1 + s + w2, |w1| + i, |w1| + j)
    ensures (w1 + s + w2)[|w1| + i..|w1| + j] == s[i..j]
  {
    var t := w1 + s + w2;
    var I, J := |w1| + i, |w1| + j;
    forall k | 0 <= k < I ensures IsWhiteSpace(t[k]) {
      if k < |w1| { assert t[k] == w1[k]; } else { assert t[k] == s[..i][k - |w1|]; }
    }
    forall k | J <= k < |t| ensures IsWhiteSpace(t[k]) {
      if k < |w1| + |s| { assert t[k] == s[j..][k - J]; } else { assert t[k] == w2[k - |w1| - |s|]; }
    }
    assert t[I..J] == s[i..j];
  }

  /** A split of `w1 + s + w2` around a non-whitespace core is a split of `s`. */
  lemma NarrowSplit(w1: string, s: string, w2: string, I: int, J: int)
    requires AllWhiteSpace(w1) && AllWhiteSpace(w2)
    requires EdgeSplit(w1 + s + w2, I, J) && I < J
    requires !IsWhiteSpace((w1 + s + w2)[I..J][0]) && !IsWhiteSpace((w1 + s + w2)[I..J][J - I - 1])
    ensures |w1| <= I < J <= |w1| + |s|
    ensures EdgeSplit(s, I - |w1|, J - |w1|)
    ensures (w1 + s + w2)[I..J] == s[I - |w1|..J - |w1|]
  {
    var t := w1 + s + w2;
    assert t[I..J][0] == t[I] && t[I..J][J - I - 1] == t[J - 1];
    ContentInside(w1, s, w2, I, J);
    var i, j := I - |w1|, J - |w1|;
    forall k | 0 <= k < i ensures IsWhiteSpace(s[k]) {
      assert s[k] == t[..I][k + |w1|];
    }
    forall k | j <= k < |s| ensures IsWhiteSpace(s[k]) {
      assert s[k] == t[J..][k - j];
    }
    assert t[I..J] == s[i..j];
  }

  /** A non-whitespace span of `w1 + s + w2` lies inside `s`. */
  lemma ContentInside(w1: string, s: string, w2: string, I: int, J: int)
    requires AllWhiteSpace(w1) && AllWhiteSpace(w2)
    requires 0 <= I < J <= |w1 + s + w2|
    requires !IsWhiteSpace((w1 + s + w2)[I]) && !IsWhiteSpace((w1 + s + w2)[J - 1])
    ensures |w1| <= I < J <= |w1| + |s|
  {
  }

  /** At least one block is needed: empty and all-whitespace input is rejected. */
  lemma AllWhiteSpaceRejected(types: Grammar, s: string)
    requires AllWhiteSpace(s)
    ensures Sentence(types, s) == {}
  {
    forall o | o in Sentence(types, s) ensures false {
      var i, j :| 0 <= i <= j <= |s| && AllWhiteSpace(s[..i]) && AllWhiteSpace(s[j..])
        && o in Blocks(types, s[i..j]);
      BlocksTrimmed(types, s[i..j], o);
    }
  }

  /** Two block sequences separated by any non-empty whitespace run are joined
      with exactly one space. */
  lemma JoinBlocks(types: Grammar, x: string, w: string, y: string, a: string, b: string)
    requires |w| > 0 && AllWhiteSpace(w)
    requires a in Block(types, x) && b in Blocks(types, y)
    ensures a + " " + b in Blocks(types, x + w + y)
  {
    var s := x + w + y;
    UnframeShape("tokens", types, x, a);
    BlocksShape(types, y, b);
    var i, j := |x|, |x| + |w|;
    assert s[..i] == x && s[i..j] == w && s[j..] == y;
  }

  /** A block framed by the tagger's `add_tokens` is verbalized by every output
      of `types` on its content. */
  lemma BlockOfAddTokens(types: Grammar, x: string, o: string)
    requires o in types(x)
    ensures o in Block(types, AddTokens("tokens", x))
  {
    var s := AddTokens("tokens", x);
    var k1, k2, k3 := 7, 9, 9 + |x|;
    assert s[..6] == "tokens" && s[6..k1] == " " && s[k1] == '{' && s[k1 + 1..k2] == " ";
    assert s[k2..k3] == x && s[k3..|s| - 1] == " " && s[|s| - 1] == '}';
    assert FrameSplit("tokens", s, k1, k2, k3);
  }

  /** Each `tokens { T }` block means exactly the verbalizations of `T` when the
      verbalizer ignores the whitespace around its input. */
  lemma BlockIsTypesOfContent(types: Grammar, x: string)
    requires RejectsLeadingWhiteSpace(types) && AbsorbsTrailingWhiteSpace(types)
    requires Trimmed(x)
    ensures Block(types, AddTokens("tokens", x)) == types(x)
  {
    assert AddTokens("tokens", x) == "tokens" + " " + "{" + " " + x + " " + "}";
    UnframeTrimmed("tokens", types, x, " ", " ", " ");
  }

  /** The tagger-side text of a block sequence: contents framed by `add_tokens`
      and separated by the given whitespace runs. */
  function Render(xs: seq<string>, seps: seq<string>): string
    requires |xs| > 0 && |seps| == |xs| - 1
  {
    if |xs| == 1 then AddTokens("tokens", xs[0])
    else AddTokens("tokens", xs[0]) + seps[0] + Render(xs[1..], seps[1..])
  }

  /** Outputs joined by single spaces. */
  function JoinSpace(outs: seq<string>): string
    requires |outs| > 0
  {
    if |outs| == 1 then outs[0] else outs[0] + " " + JoinSpace(outs[1..])
  }

  /** A sentence of framed records, separated by any whitespace runs, is
      verbalized by the single-space join of one verbalization per record. */
  lemma {:induction false} RecordsVerbalized(types: Grammar, xs: seq<string>, seps: seq<string>, outs: seq<string>)
    requires |xs| > 0 && |seps| == |xs| - 1 && |outs| == |xs|
    requires forall k :: 0 <= k < |xs| ==> outs[k] in types(xs[k])
    requires forall k :: 0 <= k < |seps| ==> |seps[k]| > 0 && AllWhiteSpace(seps[k])
    ensures JoinSpace(outs) in Blocks(types, Render(xs, seps))
    decreases |xs|
  {
    BlockOfAddTokens(types, xs[0], outs[0]);
    if |xs| > 1 {
      assert outs[0] in types(xs[0]);
      assert |seps[0]| > 0 && AllWhiteSpace(seps[0]);
      forall k | 0 <= k < |xs[1..]| ensures outs[1..][k] in types(xs[1..][k]) {
        assert outs[1..][k] == outs[k + 1] && xs[1..][k] == xs[k + 1];
      }
      forall k | 0 <= k < |seps[1..]| ensures |seps[1..][k]| > 0 && AllWhiteSpace(seps[1..][k]) {
        assert seps[1..][k] == seps[k + 1];
      }
      RecordsVerbalized(types, xs[1..], seps[1..], outs[1..]);
      JoinBlocks(types, AddTokens("tokens", xs[0]), seps[0], Render(xs[1..], seps[1..]), outs[0], JoinSpace(outs[1..]));
    }
  }
}
