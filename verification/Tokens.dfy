/** The token-record framing of GraphFst (`add_tokens` / `delete_tokens`), the
    space protection `convert_space`, and the order-marker deleter
    `delete_preserve_order`.

    An unweighted grammar is modelled by its denotation: the set of every output
    it produces for one input (the empty set when it rejects the input). */
module Tokens {
  import opened Wrappers
  import opened Text

  type Grammar = string -> set<string>

  /** `add_tokens`: frame the content as `name { content }`. */
  function AddTokens(name: string, x: string): string {
    name + " { " + x + " }"
  }

  /** The `cdrewrite` of `convert_space`: every space becomes a non-breaking space. */
  function SpaceToNbsp(s: string): (r: string)
    ensures |r| == |s|
    ensures forall i :: 0 <= i < |s| ==> r[i] == (if s[i] == ' ' then Nbsp else s[i])
  {
    if |s| == 0 then []
    else [if s[0] == ' ' then Nbsp else s[0]] + SpaceToNbsp(s[1..])
  }

  /** The `cdrewrite` that ends `delete_tokens`: every non-breaking space becomes a space. */
  function NbspToSpace(s: string): (r: string)
    ensures |r| == |s|
    ensures forall i :: 0 <= i < |s| ==> r[i] == (if s[i] == Nbsp then ' ' else s[i])
  {
    if |s| == 0 then []
    else [if s[0] == Nbsp then ' ' else s[0]] + NbspToSpace(s[1..])
  }

  /** `convert_space` applied to a grammar: its outputs with spaces protected. */
  function ConvertSpace(g: Grammar, s: string): set<string> {
    set o | o in g(s) :: SpaceToNbsp(o)
  }

  /** A value with no non-breaking space survives convert_space followed by the
      rewrite at the end of delete_tokens unchanged. */
  lemma NbspToSpaceUndoesSpaceToNbsp(x: string)
    requires Nbsp !in x
    ensures NbspToSpace(SpaceToNbsp(x)) == x
    ensures ' ' !in SpaceToNbsp(x)
  {
    var r := NbspToSpace(SpaceToNbsp(x));
    forall i | 0 <= i < |x| ensures r[i] == x[i] {
      assert x[i] != Nbsp;
    }
  }

  /** Positions splitting `s` as `name ws { ws mid ws }` with mid == s[k2..k3]. */
  predicate FrameSplit(name: string, s: string, k1: int, k2: int, k3: int) {
    && |name| <= k1 < k2 <= k3 < |s|
    && StartsWith(s, name)
    && AllWhiteSpace(s[|name|..k1])
    && s[k1] == '{'
    && AllWhiteSpace(s[k1 + 1..k2])
    && AllWhiteSpace(s[k3..|s| - 1])
    && s[|s| - 1] == '}'
  }

  /** `delete(name) + delete_space + delete("{") + delete_space + inner + delete_space
      + delete("}")`: the outputs of `inner` over every way of reading the
      surrounding whitespace. */
  function Unframe(name: string, inner: Grammar, s: string): set<string> {
    set k1, k2, k3, o |
      && 0 <= k1 < |s| && 0 <= k2 <= |s| && 0 <= k3 <= |s|
      && FrameSplit(name, s, k1, k2, k3)
      && o in inner(s[k2..k3])
      :: o
  }

  /** `delete_tokens`: unframe, then rewrite every non-breaking space of the output. */
  function DeleteTokens(name: string, inner: Grammar, s: string): set<string> {
    set o | o in Unframe(name, inner, s) :: NbspToSpace(o)
  }

  /** The inner grammar rejects every input that starts with whitespace. */
  ghost predicate RejectsLeadingWhiteSpace(inner: Grammar) {
    forall m :: |m| > 0 && IsWhiteSpace(m[0]) ==> inner(m) == {}
  }

  /** Trailing whitespace never adds outputs to the inner grammar. */
  ghost predicate AbsorbsTrailingWhiteSpace(inner: Grammar) {
    forall m, w :: AllWhiteSpace(w) ==> inner(m + w) <= inner(m)
  }

  /** Only framed records are accepted: every output comes from an input that
      starts with the name and ends with the closing brace. */
  lemma UnframeShape(name: string, inner: Grammar, s: string, o: string)
    requires o in Unframe(name, inner, s)
    ensures StartsWith(s, name) && |s| >= |name| + 2 && s[|s| - 1] == '}'
  {
  }

  /** For an inner grammar that is blind to the whitespace around it, unframing
      `name w1 { w2 x w3 }` gives exactly the outputs of the inner grammar on `x`. */
  lemma {:induction false} UnframeTrimmed(name: string, inner: Grammar, x: string, w1: string, w2: string, w3: string)
    requires RejectsLeadingWhiteSpace(inner) && AbsorbsTrailingWhiteSpace(inner)
    requires Trimmed(x)
    requires AllWhiteSpace(w1) && AllWhiteSpace(w2) && AllWhiteSpace(w3)
    ensures Unframe(name, inner, name + w1 + "{" + w2 + x + w3 + "}") == inner(x)
  {
    var s := name + w1 + "{" + w2 + x + w3 + "}";
    forall o | o in inner(x) ensures o in Unframe(name, inner, s) {
      UnframeInto(name, inner, x, w1, w2, w3, s, o);
    }
    forall o | o in Unframe(name, inner, s) ensures o in inner(x) {
      UnframeFrom(name, inner, x, w1, w2, w3, s, o);
    }
  }

  /** Every inner output on the content is an output of the frame. */
  lemma UnframeInto(name: string, inner: Grammar, x: string, w1: string, w2: string, w3: string, s: string, o: string)
    requires AllWhiteSpace(w1) && AllWhiteSpace(w2) && AllWhiteSpace(w3)
    requires s == name + w1 + "{" + w2 + x + w3 + "}"
    requires o in inner(x)
    ensures o in Unframe(name, inner, s)
  {
    var K1 := |name| + |w1|;
    var K2 := K1 + 1 + |w2|;
    var K3 := K2 + |x|;
    FrameLayout(name, x, w1, w2, w3, s, K1, K2, K3);
    assert FrameSplit(name, s, K1, K2, K3);
  }

  /** Every output of the frame is an inner output on the content. */
  lemma UnframeFrom(name: string, inner: Grammar, x: string, w1: string, w2: string, w3: string, s: string, o: string)
    requires RejectsLeadingWhiteSpace(inner) && AbsorbsTrailingWhiteSpace(inner)
    requires Trimmed(x)
    requires AllWhiteSpace(w1) && AllWhiteSpace(w2) && AllWhiteSpace(w3)
    requires s == name + w1 + "{" + w2 + x + w3 + "}"
    requires o in Unframe(name, inner, s)
    ensures o in inner(x)
  {
    var K1 := |name| + |w1|;
    var K2 := K1 + 1 + |w2|;
    var K3 := K2 + |x|;
    var k1, k2, k3 := UnframeSplit(name, inner, s, o);
    FrameLayout(name, x, w1, w2, w3, s, K1, K2, K3);
    FrameBraceAt(name, s, w1, k1);
    MidIsContent(inner, s, x, w2, w3, K1, K2, K3, k2, k3, o);
  }

  /** The split an output of the frame comes from. */
  lemma UnframeSplit(name: string, inner: Grammar, s: string, o: string) returns (k1: int, k2: int, k3: int)
    requires o in Unframe(name, inner, s)
    ensures FrameSplit(name, s, k1, k2, k3) && o in inner(s[k2..k3])
  {
    k1, k2, k3 :|
      && 0 <= k1 < |s| && 0 <= k2 <= |s| && 0 <= k3 <= |s|
      && FrameSplit(name, s, k1, k2, k3)
      && o in inner(s[k2..k3]);
  }

  /** Where the parts of `name w1 { w2 x w3 }` lie. */
  lemma FrameLayout(name: string, x: string, w1: string, w2: string, w3: string, s: string, K1: int, K2: int, K3: int)
    requires s == name + w1 + "{" + w2 + x + w3 + "}"
    requires K1 == |name| + |w1| && K2 == K1 + 1 + |w2| && K3 == K2 + |x|
    ensures |s| == K3 + |w3| + 1
    ensures s[..|name|] == name
    ensures s[|name|..K1] == w1
    ensures s[K1] == '{'
    ensures s[K1 + 1..K2] == w2
    ensures s[K2..K3] == x
    ensures s[K3..|s| - 1] == w3
    ensures s[|s| - 1] == '}'
  {
  }

  /** The opening brace of `name w1 { ...` is at |name| + |w1|. */
  lemma FrameBraceAt(name: string, s: string, w1: string, k1: int)
    requires AllWhiteSpace(w1)
    requires |name| + |w1| < |s| && s[|name|..|name| + |w1|] == w1 && s[|name| + |w1|] == '{'
    requires |name| <= k1 < |s| && AllWhiteSpace(s[|name|..k1]) && s[k1] == '{'
    ensures k1 == |name| + |w1|
  {
    var K1 := |name| + |w1|;
    forall i | |name| <= i < K1 ensures IsWhiteSpace(s[i]) {
      assert s[i] == w1[i - |name|];
    }
    forall i | |name| <= i < k1 ensures IsWhiteSpace(s[i]) {
      assert s[i] == s[|name|..k1][i - |name|];
    }
  }

  /** The inner input of any split is the content followed by whitespace. */
  lemma MidIsContent(inner: Grammar, s: string, x: string, w2: string, w3: string,
                     K1: int, K2: int, K3: int, k2: int, k3: int, o: string)
    requires RejectsLeadingWhiteSpace(inner) && AbsorbsTrailingWhiteSpace(inner)
    requires Trimmed(x) && AllWhiteSpace(w2) && AllWhiteSpace(w3)
    requires 0 <= K1 && K2 == K1 + 1 + |w2| && K3 == K2 + |x| && |s| == K3 + |w3| + 1
    requires s[K1 + 1..K2] == w2 && s[K2..K3] == x && s[K3..|s| - 1] == w3
    requires K1 < k2 <= k3 < |s|
    requires AllWhiteSpace(s[K1 + 1..k2]) && AllWhiteSpace(s[k3..|s| - 1])
    requires o in inner(s[k2..k3])
    ensures o in inner(x)
  {
    forall i | K1 + 1 <= i < K2 ensures IsWhiteSpace(s[i]) {
      assert s[i] == w2[i - K1 - 1];
    }
    forall i | K3 <= i < |s| - 1 ensures IsWhiteSpace(s[i]) {
      assert s[i] == w3[i - K3];
    }
    forall i | K1 + 1 <= i < k2 ensures IsWhiteSpace(s[i]) {
      assert s[i] == s[K1 + 1..k2][i - K1 - 1];
    }
    forall i | k3 <= i < |s| - 1 ensures IsWhiteSpace(s[i]) {
      assert s[i] == s[k3..|s| - 1][i - k3];
    }
    var mid := s[k2..k3];
    if k2 < k3 {
      assert mid[0] == s[k2];
    }
    if |x| == 0 {
      if k2 < k3 {
        assert false;
      }
      assert mid == x;
    } else {
      assert s[K2] == x[0] && s[K3 - 1] == x[|x| - 1];
      if k2 != K2 {
        assert false;
      }
      if k3 < K3 {
        assert false;
      }
      var tail := s[K3..k3];
      forall i | 0 <= i < |tail| ensures IsWhiteSpace(tail[i]) {
        assert tail[i] == s[K3 + i];
      }
      assert mid == s[K2..K3] + tail;
    }
  }

  /** The round trip of the framing: `delete_tokens` of `add_tokens(x)` gives the
      inner grammar's outputs on `x`, with protected spaces restored. */
  lemma DeleteTokensOfAddTokens(name: string, inner: Grammar, x: string)
    requires RejectsLeadingWhiteSpace(inner) && AbsorbsTrailingWhiteSpace(inner)
    requires Trimmed(x)
    ensures DeleteTokens(name, inner, AddTokens(name, x)) == set o | o in inner(x) :: NbspToSpace(o)
  {
    assert AddTokens(name, x) == name + " " + "{" + " " + x + " " + "}";
    UnframeTrimmed(name, inner, x, " ", " ", " ");
  }

  /** The field-content grammar: any value without whitespace at its ends, copied. */
  function Verbatim(m: string): set<string> {
    if Trimmed(m) then {m} else {}
  }

  lemma VerbatimIsBlindToSurroundingSpace()
    ensures RejectsLeadingWhiteSpace(Verbatim) && AbsorbsTrailingWhiteSpace(Verbatim)
  {
    forall m, w | AllWhiteSpace(w) ensures Verbatim(m + w) <= Verbatim(m) {
      if |w| > 0 {
        assert (m + w)[|m + w| - 1] == w[|w| - 1];
        assert !Trimmed(m + w);
      } else {
        assert m + w == m;
      }
    }
  }

  /** `delete_tokens(add_tokens(x)) == x` for field content without edge whitespace
      and without non-breaking spaces. */
  lemma FramingRoundTrip(name: string, x: string)
    requires Trimmed(x) && Nbsp !in x
    ensures DeleteTokens(name, Verbatim, AddTokens(name, x)) == {x}
  {
    VerbatimIsBlindToSurroundingSpace();
    DeleteTokensOfAddTokens(name, Verbatim, x);
    assert NbspToSpace(x) == x by {
      forall i | 0 <= i < |x| ensures NbspToSpace(x)[i] == x[i] {
        assert x[i] != Nbsp;
      }
    }
  }

  /** A value whose spaces the tagger protected with convert_space comes out of
      delete_tokens with its ordinary spaces back. */
  lemma ConvertedFramingRoundTrip(name: string, x: string)
    requires Trimmed(x) && Nbsp !in x
    ensures DeleteTokens(name, Verbatim, AddTokens(name, SpaceToNbsp(x))) == {x}
  {
    var y := SpaceToNbsp(x);
    assert Trimmed(y);
    VerbatimIsBlindToSurroundingSpace();
    DeleteTokensOfAddTokens(name, Verbatim, y);
    NbspToSpaceUndoesSpaceToNbsp(x);
  }

  // ---------------------------------------------------------------------------
  // delete_preserve_order

  /** One order marker of a token record. */
  datatype Marker = PreserveOrder | FieldOrder(field: char)

  const PreserveOrderText: string := " preserve_order: true"
  const FieldOrderOpen: string := " field_order: \""

  function MarkerText(m: Marker): string {
    match m
    case PreserveOrder => PreserveOrderText
    case FieldOrder(c) => FieldOrderOpen + [c] + "\""
  }

  function MarkersText(ms: seq<Marker>): string {
    if |ms| == 0 then [] else MarkerText(ms[0]) + MarkersText(ms[1..])
  }

  /** The field of a `field_order` marker is one non-quote character. */
  predicate ValidMarkers(ms: seq<Marker>) {
    forall i :: 0 <= i < |ms| && ms[i].FieldOrder? ==> ms[i].field != '"'
  }

  /** The field characters of the `field_order` markers, in order. */
  function FieldChars(ms: seq<Marker>): string {
    if |ms| == 0 then []
    else (if ms[0].FieldOrder? then [ms[0].field] else []) + FieldChars(ms[1..])
  }

  /** Reads a run of order markers, as the closure in delete_preserve_order does. */
  function ParseMarkers(s: string): Option<seq<Marker>>
    decreases |s|
  {
    if |s| == 0 then Some([])
    else if StartsWith(s, PreserveOrderText) then
      match ParseMarkers(s[|PreserveOrderText|..])
      case Some(rest) => Some([PreserveOrder] + rest)
      case None => None
    else if StartsWith(s, FieldOrderOpen) && |s| >= |FieldOrderOpen| + 2
            && s[|FieldOrderOpen|] != '"' && s[|FieldOrderOpen| + 1] == '"' then
      match ParseMarkers(s[|FieldOrderOpen| + 2..])
      case Some(rest) => Some([FieldOrder(s[|FieldOrderOpen|])] + rest)
      case None => None
    else None
  }

  /** Reading one valid marker followed by more text. */
  lemma ParseMarkersCons(m: Marker, rest: string)
    requires m.FieldOrder? ==> m.field != '"'
    ensures ParseMarkers(MarkerText(m) + rest) ==
              match ParseMarkers(rest)
              case Some(ms) => Some([m] + ms)
              case None => None
  {
    var s := MarkerText(m) + rest;
    if m.PreserveOrder? {
      assert s[..|PreserveOrderText|] == PreserveOrderText;
      assert s[|PreserveOrderText|..] == rest;
    } else {
      var n := |FieldOrderOpen|;
      assert s[1] == 'f';
      assert !StartsWith(s, PreserveOrderText);
      assert s[..n] == FieldOrderOpen;
      assert s[n] == m.field;
      assert s[n + 1] == '"';
      assert s[n + 2..] == rest;
    }
  }

  /** Reading the text of valid markers gives the markers back. */
  lemma {:induction false} ParseMarkersText(ms: seq<Marker>)
    requires ValidMarkers(ms)
    ensures ParseMarkers(MarkersText(ms)) == Some(ms)
  {
    if |ms| > 0 {
      ValidMarkersTail(ms);
      ParseMarkersText(ms[1..]);
      var rest := MarkersText(ms[1..]);
      ParseMarkersConsOf(ms[0], rest, ms[1..]);
      assert MarkersText(ms) == MarkerText(ms[0]) + rest;
      assert [ms[0]] + ms[1..] == ms;
    }
  }

  lemma ParseMarkersConsOf(m: Marker, rest: string, tail: seq<Marker>)
    requires m.FieldOrder? ==> m.field != '"'
    requires ParseMarkers(rest) == Some(tail)
    ensures ParseMarkers(MarkerText(m) + rest) == Some([m] + tail)
  {
    ParseMarkersCons(m, rest);
  }

  lemma ValidMarkersTail(ms: seq<Marker>)
    requires |ms| > 0 && ValidMarkers(ms)
    ensures ValidMarkers(ms[1..])
    ensures ms[0].FieldOrder? ==> ms[0].field != '"'
  {
    forall i | 0 <= i < |ms[1..]| && ms[1..][i].FieldOrder? ensures ms[1..][i].field != '"' {
      assert ms[1..][i] == ms[i + 1];
    }
  }

  /** Every run of markers read is valid and is exactly the text it was read from. */
  lemma {:induction false} MarkersTextOfParse(s: string)
    requires ParseMarkers(s).Some?
    ensures ValidMarkers(ParseMarkers(s).value)
    ensures MarkersText(ParseMarkers(s).value) == s
    decreases |s|
  {
    if |s| > 0 {
      var m, rest := ParseMarkersHead(s);
      MarkersTextOfParse(rest);
      MarkersCons(m, ParseMarkers(rest).value, rest, s);
    }
  }

  /** A non-empty run of markers read is its first marker's text, then a shorter run read. */
  lemma ParseMarkersHead(s: string) returns (m: Marker, rest: string)
    requires |s| > 0 && ParseMarkers(s).Some?
    ensures |rest| < |s| && s == MarkerText(m) + rest
    ensures m.FieldOrder? ==> m.field != '"'
    ensures ParseMarkers(rest).Some? && ParseMarkers(s).value == [m] + ParseMarkers(rest).value
  {
    if StartsWith(s, PreserveOrderText) {
      m, rest := PreserveOrder, s[|PreserveOrderText|..];
      assert s == MarkerText(m) + rest;
    } else {
      var n := |FieldOrderOpen|;
      m, rest := FieldOrder(s[n]), s[n + 2..];
      assert s == MarkerText(m) + rest;
    }
  }

  /** A valid marker in front of the text of valid markers. */
  lemma MarkersCons(m: Marker, tail: seq<Marker>, rest: string, s: string)
    requires m.FieldOrder? ==> m.field != '"'
    requires ValidMarkers(tail) && MarkersText(tail) == rest
    requires s == MarkerText(m) + rest
    ensures ValidMarkers([m] + tail) && MarkersText([m] + tail) == s
  {
    assert ([m] + tail)[1..] == tail;
  }

  /** `delete_preserve_order` as written: the `field_order` character is matched by
      an acceptor, not deleted, so it is copied to the output. */
  function DeletePreserveOrderAsWritten(s: string): Option<string>
    decreases |s|
  {
    if |s| == 0 then Some([])
    else if StartsWith(s, PreserveOrderText) then
      DeletePreserveOrderAsWritten(s[|PreserveOrderText|..])
    else if StartsWith(s, FieldOrderOpen) && |s| >= |FieldOrderOpen| + 2
            && s[|FieldOrderOpen|] != '"' && s[|FieldOrderOpen| + 1] == '"' then
      match DeletePreserveOrderAsWritten(s[|FieldOrderOpen| + 2..])
      case Some(rest) => Some([s[|FieldOrderOpen|]] + rest)
      case None => None
    else None
  }

  /** The order-marker deleter with the field character deleted as well: it accepts
      exactly the marker runs and produces no output. */
  function DeletePreserveOrder(s: string): (r: Option<string>)
    ensures r.Some? ==> r.value == []
  {
    if ParseMarkers(s).Some? then Some([]) else None
  }

  /** As written, the deleter accepts the same inputs as the corrected one but
      leaks the field characters of the markers into its output. */
  lemma {:induction false} AsWrittenLeaksFieldChars(s: string)
    ensures DeletePreserveOrderAsWritten(s).Some? <==> DeletePreserveOrder(s).Some?
    ensures DeletePreserveOrderAsWritten(s).Some? ==>
              DeletePreserveOrderAsWritten(s).value == FieldChars(ParseMarkers(s).value)
    decreases |s|
  {
    if |s| > 0 {
      if StartsWith(s, PreserveOrderText) {
        var rest := s[|PreserveOrderText|..];
        AsWrittenLeaksFieldChars(rest);
        if ParseMarkers(rest).Some? {
          var ms := ParseMarkers(s).value;
          assert ms == [PreserveOrder] + ParseMarkers(rest).value;
          assert ms[1..] == ParseMarkers(rest).value;
        }
      } else if StartsWith(s, FieldOrderOpen) && |s| >= |FieldOrderOpen| + 2
                && s[|FieldOrderOpen|] != '"' && s[|FieldOrderOpen| + 1] == '"' {
        var rest := s[|FieldOrderOpen| + 2..];
        AsWrittenLeaksFieldChars(rest);
        if ParseMarkers(rest).Some? {
          var ms := ParseMarkers(s).value;
          assert ms == [FieldOrder(s[|FieldOrderOpen|])] + ParseMarkers(rest).value;
          assert ms[1..] == ParseMarkers(rest).value;
        }
      }
    }
  }

  /** The discrepancy on one input: ` field_order: "d"` leaves "d" behind. */
  lemma FieldOrderLeakExample()
    ensures DeletePreserveOrderAsWritten(" field_order: \"d\"") == Some("d")
    ensures DeletePreserveOrder(" field_order: \"d\"") == Some("")
  {
    var s := " field_order: \"d\"";
    assert MarkersText([FieldOrder('d')]) == s;
    ParseMarkersText([FieldOrder('d')]);
    AsWrittenLeaksFieldChars(s);
    assert FieldChars([FieldOrder('d')]) == "d";
  }

  /** The corrected deleter removes every run of valid markers completely. */
  lemma DeletePreserveOrderDeletesMarkers(ms: seq<Marker>)
    requires ValidMarkers(ms)
    ensures DeletePreserveOrder(MarkersText(ms)) == Some([])
  {
    ParseMarkersText(ms);
  }
}
