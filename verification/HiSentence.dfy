/** The sentence structure of the Hindi `ClassifyFst`: how classified tokens,
    punctuation and whitespace combine into the tagged sentence.

    The input is taken as its analysis into items: a whitespace run (`Gap`), a
    punctuation span with the output the punctuation grammar chose (`Punct`),
    or a token span with the output a class of the weighted union chose
    (`Token`). The output is a sequence of pieces, a space or a
    `tokens { ... }` frame, together with its cost. */
module HiSentence {
  import opened Wrappers
  import opened Tokens
  import opened HiClassify

  datatype Item = Gap | Punct(out: string) | Token(out: string, cls: Class)

  datatype Piece = Space | Frame(content: string)

  /** One output of the sentence grammar and its cost. */
  datatype Out = Out(pieces: seq<Piece>, cost: int)

  /** The text of an output: a space, or the frame `tokens { content }`. */
  function Render(ps: seq<Piece>): string {
    if |ps| == 0 then ""
    else (if ps[0].Space? then " " else AddTokens("tokens", ps[0].content)) + Render(ps[1..])
  }

  function Cat(a: Out, b: Out): Out {
    Out(a.pieces + b.pieces, a.cost + b.cost)
  }

  const Empty: Out := Out([], 0)
  const OneSpace: Out := Out([Space], 0)

  predicate NoToken(items: seq<Item>) {
    forall k :: 0 <= k < |items| ==> !items[k].Token?
  }

  predicate AllGaps(items: seq<Item>) {
    forall k :: 0 <= k < |items| ==> items[k].Gap?
  }

  /** One unit of the `punct` closure: a whitespace run becomes one space
      (`delete_extra_space`); a punctuation span becomes a space and its frame. */
  function PunctUnit(it: Item): Out
    requires !it.Token?
  {
    if it.Gap? then OneSpace else Out([Space, Frame(it.out)], PunctWeight)
  }

  /** `punct = closure(ws+ -> " " | insert(" ") + tokens { punct_graph }, 1)`. */
  function PunctRun(items: seq<Item>): (r: Option<Out>)
    ensures r.Some? <==> |items| > 0 && NoToken(items)
    ensures r.Some? ==> |r.value.pieces| > 0 && r.value.pieces[0] == Space
  {
    if |items| == 0 || items[0].Token? then None
    else if |items| == 1 then Some(PunctUnit(items[0]))
    else
      match PunctRun(items[1..])
      case None => None
      case Some(r) => Some(Cat(PunctUnit(items[0]), r))
  }

  /** `closure(punct + insert(" "))`: punctuation groups, each followed by a space. */
  function Prefix(items: seq<Item>): set<Out>
    decreases |items|
  {
    if |items| == 0 then {Empty}
    else
      set k, b | 0 < k <= |items| && PunctRun(items[..k]).Some? && b in Prefix(items[k..])
        :: Cat(Cat(PunctRun(items[..k]).value, OneSpace), b)
  }

  /** `closure(insert(" ") + punct)`: punctuation groups, each after a space. */
  function Suffix(items: seq<Item>): set<Out>
    decreases |items|
  {
    if |items| == 0 then {Empty}
    else
      set k, b | 0 < k <= |items| && PunctRun(items[..k]).Some? && b in Suffix(items[k..])
        :: Cat(Cat(OneSpace, PunctRun(items[..k]).value), b)
  }

  /** `insert("tokens { ") + classify + insert(" }")`. */
  function TokenOut(it: Item): Out
    requires it.Token?
  {
    Out([Frame(it.out)], Weight(it.cls))
  }

  /** `token_plus_punct`: one token with punctuation groups before and after it. */
  function TokenPlusPunct(items: seq<Item>): set<Out> {
    set t, a, b | 0 <= t < |items| && items[t].Token? && a in Prefix(items[..t]) && b in Suffix(items[t + 1..])
      :: Cat(Cat(a, TokenOut(items[t])), b)
  }

  /** The separator between two `token_plus_punct` groups: a whitespace run as
      one space, or a punctuation group with a space inserted on each side. */
  function Separator(items: seq<Item>): set<Out> {
    (if items == [Gap] then {OneSpace} else {})
    + (match PunctRun(items)
       case Some(r) => {Cat(Cat(OneSpace, r), OneSpace)}
       case None => {})
  }

  /** `token_plus_punct + closure(separator + token_plus_punct)`. */
  function Graph(items: seq<Item>): set<Out>
    decreases |items|
  {
    TokenPlusPunct(items)
    + set i, j, a, s, b |
        && 0 < i < j < |items|
        && a in TokenPlusPunct(items[..i])
        && s in Separator(items[i..j])
        && b in Graph(items[j..])
        :: Cat(Cat(a, s), b)
  }

  /** The whole classifier: `delete_space + graph + delete_space`, or `punct`
      alone. */
  function Sentence(items: seq<Item>): set<Out> {
    (set i, j, o |
       && 0 <= i <= j <= |items|
       && AllGaps(items[..i]) && AllGaps(items[j..])
       && o in Graph(items[i..j])
       :: o)
    + (match PunctRun(items)
       case Some(r) => {r}
       case None => {})
  }

  // ---------------------------------------------------------------------------
  // What every output says about its input

  /** The contents of the frames, in order. */
  function Frames(ps: seq<Piece>): seq<string> {
    if |ps| == 0 then []
    else (if ps[0].Frame? then [ps[0].content] else []) + Frames(ps[1..])
  }

  /** The outputs chosen for the punctuation and token items, in order. */
  function Chosen(items: seq<Item>): seq<string> {
    if |items| == 0 then []
    else (if items[0].Gap? then [] else [items[0].out]) + Chosen(items[1..])
  }

  /** The summed weights of the items. */
  function ItemsCost(items: seq<Item>): int {
    if |items| == 0 then 0
    else
      (match items[0]
       case Gap => 0
       case Punct(_) => PunctWeight
       case Token(_, c) => Weight(c))
      + ItemsCost(items[1..])
  }

  /** No two frames are adjacent. */
  predicate Separated(ps: seq<Piece>) {
    forall k :: 0 < k < |ps| ==> !(ps[k - 1].Frame? && ps[k].Frame?)
  }

  /** No two tokens are adjacent. */
  predicate TokensApart(items: seq<Item>) {
    forall k :: 0 < k < |items| ==> !(items[k - 1].Token? && items[k].Token?)
  }

  /** An output that frames exactly the chosen outputs of the items in order,
      costs exactly their weights, and never puts two frames side by side. */
  predicate Faithful(items: seq<Item>, o: Out) {
    Frames(o.pieces) == Chosen(items) && o.cost == ItemsCost(items) && Separated(o.pieces)
  }

  predicate StartsWithSpace(ps: seq<Piece>) { |ps| > 0 && ps[0] == Space }
  predicate EndsWithSpace(ps: seq<Piece>) { |ps| > 0 && ps[|ps| - 1] == Space }

  lemma {:induction false} FramesAppend(a: seq<Piece>, b: seq<Piece>)
    ensures Frames(a + b) == Frames(a) + Frames(b)
  {
    if |a| > 0 {
      assert (a + b)[1..] == a[1..] + b;
      FramesAppend(a[1..], b);
    } else {
      assert a + b == b;
    }
  }

  lemma {:induction false} ChosenAppend(x: seq<Item>, y: seq<Item>)
    ensures Chosen(x + y) == Chosen(x) + Chosen(y)
    ensures ItemsCost(x + y) == ItemsCost(x) + ItemsCost(y)
  {
    if |x| > 0 {
      assert (x + y)[1..] == x[1..] + y;
      ChosenAppend(x[1..], y);
    } else {
      assert x + y == y;
    }
  }

  /** Gluing two faithful outputs where at least one side of the seam is a space. */
  lemma FaithfulCat(x: seq<Item>, y: seq<Item>, a: Out, b: Out)
    requires Faithful(x, a) && Faithful(y, b)
    requires EndsWithSpace(a.pieces) || StartsWithSpace(b.pieces) || |a.pieces| == 0 || |b.pieces| == 0
    ensures Faithful(x + y, Cat(a, b))
  {
    FramesAppend(a.pieces, b.pieces);
    ChosenAppend(x, y);
    var ps := a.pieces + b.pieces;
    forall k | 0 < k < |ps| ensures !(ps[k - 1].Frame? && ps[k].Frame?) {
      if k < |a.pieces| {
        assert ps[k - 1] == a.pieces[k - 1] && ps[k] == a.pieces[k];
      } else if k > |a.pieces| {
        assert ps[k - 1] == b.pieces[k - 1 - |a.pieces|] && ps[k] == b.pieces[k - |a.pieces|];
      }
    }
  }

  /** Tokens stay apart across a seam with no token on one side. */
  lemma TokensApartCat(x: seq<Item>, y: seq<Item>)
    requires TokensApart(x) && TokensApart(y)
    requires |x| == 0 || |y| == 0 || !x[|x| - 1].Token? || !y[0].Token?
    ensures TokensApart(x + y)
  {
    var xs := x + y;
    forall k | 0 < k < |xs| ensures !(xs[k - 1].Token? && xs[k].Token?) {
      if k < |x| {
        assert xs[k - 1] == x[k - 1] && xs[k] == x[k];
      } else if k > |x| {
        assert xs[k - 1] == y[k - 1 - |x|] && xs[k] == y[k - |x|];
      }
    }
  }

  lemma {:induction false} PunctRunFaithful(items: seq<Item>)
    requires PunctRun(items).Some?
    ensures Faithful(items, PunctRun(items).value)
  {
    var u := PunctUnit(items[0]);
    assert Faithful([items[0]], u) by {
      assert Frames(u.pieces) == Frames(u.pieces[1..]);
      assert Chosen([items[0]]) == Chosen([items[0]][1..]) + (if items[0].Gap? then [] else [items[0].out]);
    }
    if |items| > 1 {
      PunctRunFaithful(items[1..]);
      FaithfulCat([items[0]], items[1..], u, PunctRun(items[1..]).value);
      assert [items[0]] + items[1..] == items;
    }
  }

  lemma {:induction false} PrefixFaithful(items: seq<Item>, o: Out)
    requires o in Prefix(items)
    ensures Faithful(items, o) && NoToken(items)
    ensures |o.pieces| == 0 || EndsWithSpace(o.pieces)
    decreases |items|
  {
    if |items| > 0 {
      var k, b :| 0 < k <= |items| && PunctRun(items[..k]).Some? && b in Prefix(items[k..])
        && o == Cat(Cat(PunctRun(items[..k]).value, OneSpace), b);
      PrefixFaithful(items[k..], b);
      PrefixStep(items, k, PunctRun(items[..k]).value, b);
    }
  }

  /** One group of the prefix closure, and its space, in front of a faithful rest. */
  lemma PrefixStep(items: seq<Item>, k: int, r: Out, b: Out)
    requires 0 < k <= |items| && PunctRun(items[..k]) == Some(r)
    requires Faithful(items[k..], b) && NoToken(items[k..])
    requires |b.pieces| == 0 || EndsWithSpace(b.pieces)
    ensures Faithful(items, Cat(Cat(r, OneSpace), b)) && NoToken(items)
    ensures EndsWithSpace(Cat(Cat(r, OneSpace), b).pieces)
  {
    PunctRunFaithful(items[..k]);
    assert Faithful([], OneSpace);
    FaithfulCat(items[..k], [], r, OneSpace);
    assert items[..k] + [] == items[..k];
    FaithfulCat(items[..k], items[k..], Cat(r, OneSpace), b);
    assert items[..k] + items[k..] == items;
    forall i | 0 <= i < |items| ensures !items[i].Token? {
      if i < k { assert items[i] == items[..k][i]; } else { assert items[i] == items[k..][i - k]; }
    }
  }

  lemma {:induction false} SuffixFaithful(items: seq<Item>, o: Out)
    requires o in Suffix(items)
    ensures Faithful(items, o) && NoToken(items)
    ensures |o.pieces| == 0 || StartsWithSpace(o.pieces)
    decreases |items|
  {
    if |items| > 0 {
      var k, b :| 0 < k <= |items| && PunctRun(items[..k]).Some? && b in Suffix(items[k..])
        && o == Cat(Cat(OneSpace, PunctRun(items[..k]).value), b);
      SuffixFaithful(items[k..], b);
      SuffixStep(items, k, PunctRun(items[..k]).value, b);
    }
  }

  /** One group of the suffix closure in front of a faithful rest. */
  lemma SuffixStep(items: seq<Item>, k: int, r: Out, b: Out)
    requires 0 < k <= |items| && PunctRun(items[..k]) == Some(r)
    requires Faithful(items[k..], b) && NoToken(items[k..])
    requires |b.pieces| == 0 || StartsWithSpace(b.pieces)
    ensures Faithful(items, Cat(Cat(OneSpace, r), b)) && NoToken(items)
    ensures StartsWithSpace(Cat(Cat(OneSpace, r), b).pieces)
  {
    PunctRunFaithful(items[..k]);
    assert Faithful([], OneSpace);
    FaithfulCat([], items[..k], OneSpace, r);
    assert [] + items[..k] == items[..k];
    FaithfulCat(items[..k], items[k..], Cat(OneSpace, r), b);
    assert items[..k] + items[k..] == items;
    forall i | 0 <= i < |items| ensures !items[i].Token? {
      if i < k { assert items[i] == items[..k][i]; } else { assert items[i] == items[k..][i - k]; }
    }
  }

  lemma NoTokenApart(items: seq<Item>)
    requires NoToken(items)
    ensures TokensApart(items)
  {
  }

  /** A single token item is framed alone at its class weight. */
  lemma TokenFaithful(it: Item)
    requires it.Token?
    ensures Faithful([it], TokenOut(it))
  {
    var ps := TokenOut(it).pieces;
    assert Frames(ps) == [it.out] + Frames(ps[1..]);
    assert Chosen([it]) == [it.out] + Chosen([it][1..]);
  }

  /** A token between a faithful prefix that ends in a space and a faithful
      suffix that starts with one. */
  lemma TokenPlusPunctStep(items: seq<Item>, t: int, a: Out, b: Out)
    requires 0 <= t < |items| && items[t].Token?
    requires Faithful(items[..t], a) && NoToken(items[..t]) && (|a.pieces| == 0 || EndsWithSpace(a.pieces))
    requires Faithful(items[t + 1..], b) && NoToken(items[t + 1..]) && (|b.pieces| == 0 || StartsWithSpace(b.pieces))
    ensures Faithful(items, Cat(Cat(a, TokenOut(items[t])), b)) && TokensApart(items)
  {
    var tok := TokenOut(items[t]);
    TokenFaithful(items[t]);
    FaithfulCat(items[..t], [items[t]], a, tok);
    assert items[..t] + [items[t]] == items[..t + 1];
    FaithfulCat(items[..t + 1], items[t + 1..], Cat(a, tok), b);
    assert items[..t + 1] + items[t + 1..] == items;
    NoTokenApart(items[..t]);
    NoTokenApart(items[t + 1..]);
    TokensApartCat(items[..t], [items[t]]);
    TokensApartCat(items[..t + 1], items[t + 1..]);
  }

  lemma TokenPlusPunctFaithful(items: seq<Item>, o: Out)
    requires o in TokenPlusPunct(items)
    ensures Faithful(items, o) && TokensApart(items)
    ensures exists t :: 0 <= t < |items| && items[t].Token? && NoToken(items[..t]) && NoToken(items[t + 1..])
  {
    var t, a, b :| 0 <= t < |items| && items[t].Token? && a in Prefix(items[..t]) && b in Suffix(items[t + 1..])
      && o == Cat(Cat(a, TokenOut(items[t])), b);
    PrefixFaithful(items[..t], a);
    SuffixFaithful(items[t + 1..], b);
    TokenPlusPunctStep(items, t, a, b);
  }

  lemma SeparatorFaithful(items: seq<Item>, o: Out)
    requires o in Separator(items)
    ensures Faithful(items, o) && NoToken(items) && |items| > 0
    ensures StartsWithSpace(o.pieces) && EndsWithSpace(o.pieces)
  {
    if items == [Gap] && o == OneSpace {
      GapSeparatorFaithful();
    } else {
      RunSeparatorFaithful(items);
    }
  }

  lemma GapSeparatorFaithful()
    ensures Faithful([Gap], OneSpace)
  {
    assert Chosen([Gap]) == [] + Chosen([Gap][1..]);
    assert Frames([Space]) == [] + Frames([Space][1..]);
  }

  lemma RunSeparatorFaithful(items: seq<Item>)
    requires PunctRun(items).Some?
    ensures Faithful(items, Cat(Cat(OneSpace, PunctRun(items).value), OneSpace))
    ensures StartsWithSpace(Cat(Cat(OneSpace, PunctRun(items).value), OneSpace).pieces)
    ensures EndsWithSpace(Cat(Cat(OneSpace, PunctRun(items).value), OneSpace).pieces)
  {
    var r := PunctRun(items).value;
    PunctRunFaithful(items);
    assert Faithful([], OneSpace);
    FaithfulCat([], items, OneSpace, r);
    assert [] + items == items;
    FaithfulCat(items, [], Cat(OneSpace, r), OneSpace);
    assert items + [] == items;
  }

  /** A block, a separator and the rest of the graph. */
  lemma GraphStep(items: seq<Item>, i: int, j: int, a: Out, s: Out, b: Out)
    requires 0 < i < j < |items|
    requires Faithful(items[..i], a) && TokensApart(items[..i])
    requires Faithful(items[i..j], s) && NoToken(items[i..j])
    requires StartsWithSpace(s.pieces) && EndsWithSpace(s.pieces)
    requires Faithful(items[j..], b) && TokensApart(items[j..])
    ensures Faithful(items, Cat(Cat(a, s), b)) && TokensApart(items)
  {
    FaithfulCat(items[..i], items[i..j], a, s);
    assert items[..i] + items[i..j] == items[..j];
    assert EndsWithSpace(Cat(a, s).pieces);
    FaithfulCat(items[..j], items[j..], Cat(a, s), b);
    assert items[..j] + items[j..] == items;
    NoTokenApart(items[i..j]);
    TokensApartCat(items[..i], items[i..j]);
    TokensApartCat(items[..j], items[j..]);
  }

  lemma {:induction false} GraphFaithful(items: seq<Item>, o: Out)
    requires o in Graph(items)
    ensures Faithful(items, o) && TokensApart(items) && |items| > 0
    decreases |items|
  {
    if o in TokenPlusPunct(items) {
      TokenPlusPunctFaithful(items, o);
    } else {
      var i, j, a, s, b :|
        && 0 < i < j < |items|
        && a in TokenPlusPunct(items[..i])
        && s in Separator(items[i..j])
        && b in Graph(items[j..])
        && o == Cat(Cat(a, s), b);
      TokenPlusPunctFaithful(items[..i], a);
      SeparatorFaithful(items[i..j], s);
      GraphFaithful(items[j..], b);
      GraphStep(items, i, j, a, s, b);
    }
  }

  /** Whitespace runs choose nothing and cost nothing. */
  lemma {:induction false} GapsInvisible(x: seq<Item>)
    requires AllGaps(x)
    ensures Chosen(x) == [] && ItemsCost(x) == 0
  {
    if |x| > 0 {
      GapsInvisible(x[1..]);
    }
  }

  /** Deleting whitespace runs at both ends keeps a faithful output faithful. */
  lemma TrimStep(items: seq<Item>, i: int, j: int, o: Out)
    requires 0 <= i <= j <= |items| && AllGaps(items[..i]) && AllGaps(items[j..])
    requires Faithful(items[i..j], o) && TokensApart(items[i..j])
    ensures Faithful(items, o) && TokensApart(items)
  {
    GapsInvisible(items[..i]);
    GapsInvisible(items[j..]);
    ChosenAppend(items[..i], items[i..j]);
    assert items[..i] + items[i..j] == items[..j];
    ChosenAppend(items[..j], items[j..]);
    assert items[..j] + items[j..] == items;
    NoTokenApart(items[..i]);
    NoTokenApart(items[j..]);
    TokensApartCat(items[..i], items[i..j]);
    TokensApartCat(items[..j], items[j..]);
  }

  /** Every output of the classifier frames exactly the punctuation and token
      outputs of the input, in input order; its cost is the sum of their
      weights; no two frames are adjacent; and the input is non-empty with no
      two tokens side by side. */
  lemma SentenceFaithful(items: seq<Item>, o: Out)
    requires o in Sentence(items)
    ensures Faithful(items, o) && TokensApart(items) && |items| > 0
  {
    if PunctRun(items).Some? && o == PunctRun(items).value {
      PunctRunFaithful(items);
      NoTokenApart(items);
    } else {
      var i, j :| 0 <= i <= j <= |items| && AllGaps(items[..i]) && AllGaps(items[j..])
        && o in Graph(items[i..j]);
      GraphFaithful(items[i..j], o);
      TrimStep(items, i, j, o);
    }
  }

  // ---------------------------------------------------------------------------
  // What is accepted

  /** The position of the first token. */
  function FirstToken(items: seq<Item>): (t: nat)
    requires !NoToken(items)
    ensures t < |items| && items[t].Token? && NoToken(items[..t])
  {
    if items[0].Token? then 0
    else
      var t := 1 + FirstToken(items[1..]);
      assert forall k :: 0 <= k < t ==> items[..t][k] == items[k];
      assert forall k :: 1 <= k < t ==> items[k] == items[1..][..t - 1][k - 1];
      t
  }

  /** A token-free item sequence has a prefix and a suffix reading. */
  lemma PunctGroupsAccept(items: seq<Item>)
    requires NoToken(items)
    ensures Prefix(items) != {} && Suffix(items) != {}
  {
    if |items| > 0 {
      var r := PunctRun(items).value;
      assert items[..|items|] == items && items[|items|..] == [];
      assert Cat(Cat(r, OneSpace), Empty) in Prefix(items);
      assert Cat(Cat(OneSpace, r), Empty) in Suffix(items);
    }
  }

  lemma TokenPlusPunctAccepts(items: seq<Item>, t: int)
    requires 0 <= t < |items| && items[t].Token?
    requires NoToken(items[..t]) && NoToken(items[t + 1..])
    ensures TokenPlusPunct(items) != {}
  {
    PunctGroupsAccept(items[..t]);
    PunctGroupsAccept(items[t + 1..]);
    var a :| a in Prefix(items[..t]);
    var b :| b in Suffix(items[t + 1..]);
    assert Cat(Cat(a, TokenOut(items[t])), b) in TokenPlusPunct(items);
  }

  /** Every item sequence with a token and no two tokens side by side is read
      by the graph. */
  lemma {:induction false} GraphAccepts(items: seq<Item>)
    requires !NoToken(items) && TokensApart(items)
    ensures Graph(items) != {}
    decreases |items|
  {
    var t := FirstToken(items);
    var rest := items[t + 1..];
    if NoToken(rest) {
      TokenPlusPunctAccepts(items, t);
    } else {
      var u := t + 1 + FirstToken(rest);
      assert items[u] == rest[u - t - 1];
      assert !(items[t].Token? && items[t + 1].Token?);
      assert u > t + 1;
      HeadAccepts(items, t);
      MidSeparates(items, t, u);
      TailApart(items, u);
      GraphAccepts(items[u..]);
      var a :| a in TokenPlusPunct(items[..t + 1]);
      var s :| s in Separator(items[t + 1..u]);
      var b :| b in Graph(items[u..]);
      JoinedInGraph(items, t + 1, u, a, s, b);
    }
  }

  lemma HeadAccepts(items: seq<Item>, t: int)
    requires 0 <= t < |items| && items[t].Token? && NoToken(items[..t])
    ensures TokenPlusPunct(items[..t + 1]) != {}
  {
    var head := items[..t + 1];
    assert head[..t] == items[..t] && head[t] == items[t] && head[t + 1..] == [];
    TokenPlusPunctAccepts(head, t);
  }

  lemma MidSeparates(items: seq<Item>, t: int, u: int)
    requires 0 <= t && t + 1 < u < |items|
    requires !NoToken(items[t + 1..]) && u == t + 1 + FirstToken(items[t + 1..])
    ensures Separator(items[t + 1..u]) != {}
  {
    var rest := items[t + 1..];
    var mid := items[t + 1..u];
    assert NoToken(mid) by {
      forall k | 0 <= k < |mid| ensures !mid[k].Token? {
        assert mid[k] == rest[..FirstToken(rest)][k];
      }
    }
    assert Cat(Cat(OneSpace, PunctRun(mid).value), OneSpace) in Separator(mid);
  }

  lemma TailApart(items: seq<Item>, u: int)
    requires 0 <= u < |items| && items[u].Token? && TokensApart(items)
    ensures !NoToken(items[u..]) && TokensApart(items[u..])
  {
    var tail := items[u..];
    assert tail[0] == items[u];
    forall k | 0 < k < |tail| ensures !(tail[k - 1].Token? && tail[k].Token?) {
      assert tail[k - 1] == items[u + k - 1] && tail[k] == items[u + k];
    }
  }

  /** The classifier accepts exactly the non-empty item sequences with no two
      tokens side by side; in particular input made only of punctuation and
      whitespace is accepted. */
  lemma SentenceAcceptance(items: seq<Item>)
    ensures Sentence(items) != {} <==> |items| > 0 && TokensApart(items)
  {
    if Sentence(items) != {} {
      var o :| o in Sentence(items);
      SentenceFaithful(items, o);
    }
    if |items| > 0 && TokensApart(items) {
      if NoToken(items) {
        assert PunctRun(items).value in Sentence(items);
      } else {
        GraphAccepts(items);
        var o :| o in Graph(items);
        GraphInSentence(items, o);
      }
    }
  }

  // ---------------------------------------------------------------------------
  // Whitespace at the edges, and examples

  /** Whitespace around a sentence with a token is deleted: every output of the
      bare sentence is still an output. */
  lemma EdgeWhiteSpaceDeleted(items: seq<Item>)
    requires !NoToken(items)
    ensures Sentence(items) <= Sentence([Gap] + items + [Gap])
  {
    var wide := [Gap] + items + [Gap];
    forall o | o in Sentence(items) ensures o in Sentence(wide) {
      var i, j :| 0 <= i <= j <= |items| && AllGaps(items[..i]) && AllGaps(items[j..])
        && o in Graph(items[i..j]);
      WidenGaps(items, i, j);
      assert o in Graph(wide[i + 1..j + 1]);
    }
  }

  lemma WidenGaps(items: seq<Item>, i: int, j: int)
    requires 0 <= i <= j <= |items| && AllGaps(items[..i]) && AllGaps(items[j..])
    ensures AllGaps(([Gap] + items + [Gap])[..i + 1])
    ensures AllGaps(([Gap] + items + [Gap])[j + 1..])
    ensures ([Gap] + items + [Gap])[i + 1..j + 1] == items[i..j]
  {
    var wide := [Gap] + items + [Gap];
    forall k | 0 < k <= i ensures wide[k].Gap? {
      assert wide[k] == items[..i][k - 1];
    }
    forall k | j + 1 <= k < |wide| ensures wide[k].Gap? {
      if k <= |items| { assert wide[k] == items[j..][k - 1 - j]; }
    }
  }

  /** The graph reads a lone token as its frame and nothing else. */
  lemma GraphOfOneToken(it: Item)
    requires it.Token?
    ensures Graph([it]) == {TokenOut(it)}
  {
    var items := [it];
    assert items[..0] == [] && items[1..] == [];
    assert Prefix([]) == {Empty} && Suffix([]) == {Empty};
    assert Cat(Cat(Empty, TokenOut(it)), Empty) == TokenOut(it);
    assert Empty in Prefix(items[..0]) && Empty in Suffix(items[1..]);
    TokenInTokenPlusPunct(items, 0, Empty, Empty);
    forall o | o in TokenPlusPunct(items) ensures o == TokenOut(it) {
      var t, a, b :| 0 <= t < |items| && items[t].Token? && a in Prefix(items[..t]) && b in Suffix(items[t + 1..])
        && o == Cat(Cat(a, TokenOut(items[t])), b);
      assert t == 0;
      assert a == Empty && b == Empty;
    }
  }

  /** A lone token becomes exactly `tokens { out }` at the weight of its class. */
  lemma OneTokenSentence(out: string, c: Class)
    ensures Sentence([Token(out, c)]) == {Out([Frame(out)], Weight(c))}
    ensures Render([Frame(out)]) == AddTokens("tokens", out)
  {
    var items := [Token(out, c)];
    GraphOfOneToken(items[0]);
    assert items[..0] == [] && items[1..] == [] && items[0..1] == items;
    forall o | o in Sentence(items) ensures o == Out([Frame(out)], Weight(c)) {
      var i, j :| 0 <= i <= j <= |items| && AllGaps(items[..i]) && AllGaps(items[j..])
        && o in Graph(items[i..j]);
      assert i == 0 && j == 1;
    }
    assert Out([Frame(out)], Weight(c)) in Graph(items[0..1]);
  }

  /** Two tokens around the given spaces, at the cost of the two tokens. */
  function AroundSpaces(left: Item, spaces: seq<Piece>, right: Item): Out
    requires left.Token? && right.Token?
  {
    Out([Frame(left.out)] + spaces + [Frame(right.out)], Weight(left.cls) + Weight(right.cls))
  }

  /** Two tokens separated by whitespace are joined by one space; the grammar
      also reads the whitespace as a punctuation group between two inserted
      spaces, at the same cost. */
  lemma TokensAcrossWhiteSpace(items: seq<Item>)
    requires |items| == 3 && items[0].Token? && items[1] == Gap && items[2].Token?
    ensures AroundSpaces(items[0], [Space], items[2]) in Sentence(items)
    ensures AroundSpaces(items[0], [Space, Space, Space], items[2]) in Sentence(items)
  {
    OneSpaceReading(items);
    ThreeSpaceReading(items);
  }

  /** The whitespace run read by `delete_extra_space` as one space. */
  lemma OneSpaceReading(items: seq<Item>)
    requires |items| == 3 && items[0].Token? && items[1] == Gap && items[2].Token?
    ensures AroundSpaces(items[0], [Space], items[2]) in Sentence(items)
  {
    assert items[1..2] == [Gap];
    GapSeparatorOne();
    TwoTokensJoined(items, [Space]);
  }

  /** The whitespace run read as a punctuation group between two inserted spaces. */
  lemma ThreeSpaceReading(items: seq<Item>)
    requires |items| == 3 && items[0].Token? && items[1] == Gap && items[2].Token?
    ensures AroundSpaces(items[0], [Space, Space, Space], items[2]) in Sentence(items)
  {
    assert items[1..2] == [Gap];
    GapSeparatorThree();
    TwoTokensJoined(items, [Space, Space, Space]);
  }

  /** Two lone tokens around a separator. */
  lemma TwoTokensJoined(items: seq<Item>, spaces: seq<Piece>)
    requires |items| == 3 && items[0].Token? && items[2].Token?
    requires Out(spaces, 0) in Separator(items[1..2])
    ensures AroundSpaces(items[0], spaces, items[2]) in Sentence(items)
  {
    var a, s, b := TokenOut(items[0]), Out(spaces, 0), TokenOut(items[2]);
    AroundSpacesCat(items[0], spaces, items[2]);
    EdgeTokenReadings(items);
    JoinedInGraph(items, 1, 2, a, s, b);
    GraphInSentence(items, Cat(Cat(a, s), b));
  }

  lemma EdgeTokenReadings(items: seq<Item>)
    requires |items| == 3 && items[0].Token? && items[2].Token?
    ensures TokenOut(items[0]) in TokenPlusPunct(items[..1])
    ensures TokenOut(items[2]) in Graph(items[2..])
  {
    assert items[..1] == [items[0]] && items[2..] == [items[2]];
    LoneTokenReadings(items[0]);
    LoneTokenReadings(items[2]);
  }

  lemma AroundSpacesCat(left: Item, spaces: seq<Piece>, right: Item)
    requires left.Token? && right.Token?
    ensures Cat(Cat(TokenOut(left), Out(spaces, 0)), TokenOut(right)) == AroundSpaces(left, spaces, right)
  {
  }

  /** A lone token is read by `token_plus_punct` and by the graph as its frame. */
  lemma LoneTokenReadings(it: Item)
    requires it.Token?
    ensures TokenOut(it) in TokenPlusPunct([it])
    ensures TokenOut(it) in Graph([it])
  {
    GraphOfOneToken(it);
    var items := [it];
    assert Empty in Prefix(items[..0]) && Empty in Suffix(items[1..]);
    TokenInTokenPlusPunct(items, 0, Empty, Empty);
    assert Cat(Cat(Empty, TokenOut(it)), Empty) == TokenOut(it);
  }

  /** A whitespace run separates as one space. */
  lemma GapSeparatorOne()
    ensures Out([Space], 0) in Separator([Gap])
  {
  }

  /** A whitespace run also separates as three spaces. */
  lemma GapSeparatorThree()
    ensures Out([Space, Space, Space], 0) in Separator([Gap])
  {
    assert PunctRun([Gap]) == Some(OneSpace);
    assert Cat(Cat(OneSpace, OneSpace), OneSpace) == Out([Space, Space, Space], 0);
  }

  lemma TokenInTokenPlusPunct(items: seq<Item>, t: int, a: Out, b: Out)
    requires 0 <= t < |items| && items[t].Token?
    requires a in Prefix(items[..t]) && b in Suffix(items[t + 1..])
    ensures Cat(Cat(a, TokenOut(items[t])), b) in TokenPlusPunct(items)
  {
  }

  lemma JoinedInGraph(items: seq<Item>, i: int, j: int, a: Out, s: Out, b: Out)
    requires 0 < i < j < |items|
    requires a in TokenPlusPunct(items[..i]) && s in Separator(items[i..j]) && b in Graph(items[j..])
    ensures Cat(Cat(a, s), b) in Graph(items)
  {
  }

  lemma GraphInSentence(items: seq<Item>, o: Out)
    requires o in Graph(items)
    ensures o in Sentence(items)
  {
    assert items[..0] == [] && items[|items|..] == [] && items[0..|items|] == items;
  }
}
