/** Case handling of the grammars: `capitalized_input_graph`, which also accepts an
    input whose first letter is a capital, and `string_map_cased`, which expands a
    label list with capitalised and upper-cased variants before inverting it. */
module Casing {
  import opened Wrappers
  import opened Text

  /** One weighted path of a transducer: its output and its accumulated cost. */
  datatype Path = Path(output: string, cost: int)

  /** A weighted grammar: every path it has for one input. */
  type WeightedGrammar = string -> set<Path>

  function Outputs(paths: set<Path>): set<string> {
    set p | p in paths :: p.output
  }

  /** A path with `d` added to its cost. */
  function Shift(p: Path, d: int): Path {
    Path(p.output, p.cost + d)
  }

  /** `pynutil.add_weight`, applied only when a weight is given: a path is in the
      result exactly when it is a path of the input with the weight added (every
      path `q` is the shift of `Shift(q, -d)`, so this fixes the whole set). */
  function AddWeight(paths: set<Path>, w: Option<int>): (r: set<Path>)
    ensures w.None? ==> r == paths
    ensures w.Some? ==> forall p :: p in paths <==> Shift(p, w.value) in r
  {
    match w
    case None => paths
    case Some(d) => set p | p in paths :: Shift(p, d)
  }

  /** Adding a weight changes costs only, never which outputs there are. */
  lemma AddWeightKeepsOutputs(paths: set<Path>, w: Option<int>)
    ensures Outputs(AddWeight(paths, w)) == Outputs(paths)
  {
    if w.Some? {
      var r := AddWeight(paths, w);
      forall o | o in Outputs(paths) ensures o in Outputs(r) {
        var p :| p in paths && p.output == o;
        assert Shift(p, w.value) in r;
      }
      forall o | o in Outputs(r) ensures o in Outputs(paths) {
        var q :| q in r && q.output == o;
        var p := Shift(q, -w.value);
        assert Shift(p, w.value) == q;
      }
    }
  }

  /** Adding a weight and then its negation gives back the paths. */
  lemma AddWeightUndone(paths: set<Path>, d: int)
    ensures AddWeight(AddWeight(paths, Some(d)), Some(-d)) == paths
  {
    var r := AddWeight(paths, Some(d));
    var back := AddWeight(r, Some(-d));
    forall q | q in back ensures q in paths {
      var p := Shift(q, d);
      assert Shift(p, -d) == q;
      assert Shift(q, d) in r;
    }
    forall p | p in paths ensures p in back {
      assert Shift(p, d) in r;
      assert Shift(Shift(p, d), -d) == p;
    }
  }

  /** `TO_LOWER + NEMO_SIGMA`: the input with its first character lowered, defined
      only when that character is an ASCII capital. */
  function LowerFirst(s: string): (r: Option<string>)
    ensures r.Some? <==> |s| > 0 && IsUpper(s[0])
    ensures r.Some? ==> |r.value| == |s| && r.value[0] == ToLower(s[0]).value && r.value[1..] == s[1..]
    ensures r.Some? ==> IsLower(r.value[0])
  {
    if |s| > 0 && IsUpper(s[0]) then Some([ToLower(s[0]).value] + s[1..]) else None
  }

  /** `capitalized_input_graph(graph, original_graph_weight, capitalized_graph_weight)`
      on one input: the base paths, plus the base paths of the input with its
      first letter lowered. */
  function CapitalizedInputGraph(g: WeightedGrammar, originalWeight: Option<int>,
                                 capitalizedWeight: Option<int>, s: string): set<Path>
  {
    AddWeight(g(s), originalWeight)
    + (match LowerFirst(s)
       case Some(t) => AddWeight(g(t), capitalizedWeight)
       case None => {})
  }

  /** Every output of the base grammar stays an output, for every weight choice. */
  lemma CapitalizedKeepsBaseOutputs(g: WeightedGrammar, ow: Option<int>, cw: Option<int>, s: string)
    ensures Outputs(g(s)) <= Outputs(CapitalizedInputGraph(g, ow, cw, s))
  {
    AddWeightKeepsOutputs(g(s), ow);
  }

  /** A word the base grammar reads in lower case is also read with a capital
      first letter, with the same outputs. */
  lemma CapitalizedAcceptsUpperFirst(g: WeightedGrammar, ow: Option<int>, cw: Option<int>, c: char, rest: string)
    requires IsLower(c)
    ensures Outputs(g([c] + rest)) <= Outputs(CapitalizedInputGraph(g, ow, cw, [ToUpper(c).value] + rest))
  {
    var s := [ToUpper(c).value] + rest;
    assert s[1..] == rest;
    assert LowerFirst(s) == Some([c] + rest);
    AddWeightKeepsOutputs(g([c] + rest), cw);
  }

  /** Nothing else is accepted: the outputs are those of the input itself and of
      its lowered form, whatever the two weights are. */
  lemma CapitalizedOutputsExactly(g: WeightedGrammar, ow: Option<int>, cw: Option<int>, s: string)
    ensures Outputs(CapitalizedInputGraph(g, ow, cw, s)) ==
              Outputs(g(s)) + (if |s| > 0 && IsUpper(s[0]) then Outputs(g(LowerFirst(s).value)) else {})
    ensures Outputs(CapitalizedInputGraph(g, ow, cw, s)) == Outputs(CapitalizedInputGraph(g, None, None, s))
  {
    AddWeightKeepsOutputs(g(s), ow);
    var low: set<Path> := if LowerFirst(s).Some? then g(LowerFirst(s).value) else {};
    if LowerFirst(s).Some? {
      AddWeightKeepsOutputs(low, cw);
    }
    OutputsOfUnion(AddWeight(g(s), ow), AddWeight(low, cw));
    OutputsOfUnion(g(s), low);
  }

  lemma OutputsOfUnion(a: set<Path>, b: set<Path>)
    ensures Outputs(a + b) == Outputs(a) + Outputs(b)
  {
  }

  // ---------------------------------------------------------------------------
  // string_map_cased

  /** A label row: written form, spoken form and an optional weight column. */
  datatype Label = Label(written: string, spoken: string, weight: Option<string>)

  /** One entry of the inverted string map: spoken input, written output, weight. */
  datatype Entry = Entry(input: string, output: string, weight: Option<string>)

  const InputCased: string := "cased"
  const InputLowerCased: string := "lower_cased"

  /** Python's `str.upper` on ASCII text. */
  function UpperAll(s: string): (r: string)
    ensures |r| == |s| && forall i :: 0 <= i < |s| ==> r[i] == UpperChar(s[i])
  {
    if |s| == 0 then [] else [UpperChar(s[0])] + UpperAll(s[1..])
  }

  /** Python's `str.lower` on ASCII text. */
  function LowerAll(s: string): (r: string)
    ensures |r| == |s| && forall i :: 0 <= i < |s| ==> r[i] == LowerChar(s[i])
  {
    if |s| == 0 then [] else [LowerChar(s[0])] + LowerAll(s[1..])
  }

  /** Python's `str.capitalize` on ASCII text: first character upper, the rest lower. */
  function Capitalize(s: string): (r: string)
    ensures |r| == |s|
    ensures |s| > 0 ==> r[0] == UpperChar(s[0]) && r[1..] == LowerAll(s[1..])
  {
    if |s| == 0 then [] else [UpperChar(s[0])] + LowerAll(s[1..])
  }

  /** `written[0].upper() + written[1:]`; Python raises IndexError on "". */
  function CapitalizeFirst(w: string): (r: Option<string>)
    ensures r.Some? <==> |w| > 0
    ensures r.Some? ==> |r.value| == |w| && r.value[0] == UpperChar(w[0]) && r.value[1..] == w[1..]
  {
    if |w| == 0 then None else Some([UpperChar(w[0])] + w[1..])
  }

  /** Python's `str.replace(pat, rep)`: leftmost, non-overlapping occurrences. */
  function ReplaceAll(s: string, pat: string, rep: string): string
    requires |pat| > 0
    decreases |s|
  {
    if |s| == 0 then []
    else if StartsWith(s, pat) then rep + ReplaceAll(s[|pat|..], pat, rep)
    else [s[0]] + ReplaceAll(s[1..], pat, rep)
  }

  /** `pat` occurs in `s` at position `i`. */
  predicate OccursAt(s: string, pat: string, i: nat) {
    i + |pat| <= |s| && s[i..i + |pat|] == pat
  }

  /** A text without the pattern is left alone by the replacement. */
  lemma {:induction false} ReplaceAllWithoutPattern(s: string, pat: string, rep: string)
    requires |pat| > 0
    requires forall i: nat :: i < |s| ==> !OccursAt(s, pat, i)
    ensures ReplaceAll(s, pat, rep) == s
    decreases |s|
  {
    if |s| > 0 {
      assert !OccursAt(s, pat, 0);
      forall i: nat | i < |s[1..]| ensures !OccursAt(s[1..], pat, i) {
        assert !OccursAt(s, pat, i + 1);
        if i + |pat| <= |s[1..]| {
          assert s[1..][i..i + |pat|] == s[i + 1..i + 1 + |pat|];
        }
      }
      ReplaceAllWithoutPattern(s[1..], pat, rep);
      assert s == [s[0]] + s[1..];
    }
  }

  /** At the leftmost occurrence the pattern is replaced, the text before it is
      kept and the replacement goes on after the occurrence. */
  lemma {:induction false} ReplaceAllAtLeftmost(a: string, pat: string, rep: string, b: string)
    requires |pat| > 0
    requires forall i: nat :: i < |a| ==> !OccursAt(a + pat + b, pat, i)
    ensures ReplaceAll(a + pat + b, pat, rep) == a + rep + ReplaceAll(b, pat, rep)
    decreases |a|
  {
    var s := a + pat + b;
    if |a| == 0 {
      assert s == pat + b;
      assert s[..|pat|] == pat;
      assert s[|pat|..] == b;
    } else {
      assert !OccursAt(s, pat, 0);
      assert s[1..] == a[1..] + pat + b;
      forall i: nat | i < |a[1..]| ensures !OccursAt(a[1..] + pat + b, pat, i) {
        assert !OccursAt(s, pat, i + 1);
        if i + |pat| <= |s[1..]| {
          assert s[1..][i..i + |pat|] == s[i + 1..i + 1 + |pat|];
        }
      }
      ReplaceAllAtLeftmost(a[1..], pat, rep, b);
      assert s[0] == a[0];
      assert a == [a[0]] + a[1..];
    }
  }

  /** `spoken.replace(" ", "")`. */
  function RemoveSpaces(s: string): (r: string)
    ensures forall c :: c in r <==> c in s && c != ' '
    ensures |r| + CountSpaces(s) == |s|
  {
    if |s| == 0 then []
    else if s[0] == ' ' then RemoveSpaces(s[1..])
    else [s[0]] + RemoveSpaces(s[1..])
  }

  /** Removing the spaces of a concatenation removes them from each part, and a
      single character is dropped exactly when it is a space: together these fix
      the result, the other characters in their order. */
  lemma {:induction false} RemoveSpacesAppend(a: string, b: string)
    ensures RemoveSpaces(a + b) == RemoveSpaces(a) + RemoveSpaces(b)
    ensures forall c :: RemoveSpaces([c]) == (if c == ' ' then [] else [c])
    decreases |a|
  {
    forall c ensures RemoveSpaces([c]) == (if c == ' ' then [] else [c]) {
      assert [c][1..] == [];
    }
    if |a| == 0 {
      assert a + b == b;
    } else {
      assert (a + b)[1..] == a[1..] + b;
      assert (a + b)[0] == a[0];
      RemoveSpacesAppend(a[1..], b);
    }
  }

  function CountSpaces(s: string): nat {
    if |s| == 0 then 0 else (if s[0] == ' ' then 1 else 0) + CountSpaces(s[1..])
  }

  /** The test `len(spoken) == 2 * len(spoken_no_space) - 1` for the no-space variants. */
  predicate HasNoSpaceVariant(spoken: string) {
    |spoken| == 2 * |RemoveSpaces(spoken)| - 1
  }

  /** The test holds exactly when there is one space fewer than other characters. */
  lemma NoSpaceVariantCountsSpaces(spoken: string)
    ensures HasNoSpaceVariant(spoken) <==> CountSpaces(spoken) + 1 == |RemoveSpaces(spoken)|
  {
  }

  /** Single characters separated by single spaces, as in "b m w". */
  function Spelled(letters: string): string
    decreases |letters|
  {
    if |letters| <= 1 then letters else [letters[0]] + " " + Spelled(letters[1..])
  }

  /** A spelled-out abbreviation gets its no-space variant, which is its letters. */
  lemma {:induction false} SpelledHasNoSpaceVariant(letters: string)
    requires |letters| > 0 && ' ' !in letters
    ensures RemoveSpaces(Spelled(letters)) == letters
    ensures HasNoSpaceVariant(Spelled(letters))
    decreases |letters|
  {
    if |letters| > 1 {
      SpelledHasNoSpaceVariant(letters[1..]);
      var s := Spelled(letters);
      assert s == [letters[0]] + " " + Spelled(letters[1..]);
      assert s[1..] == " " + Spelled(letters[1..]);
      assert s[1..][1..] == Spelled(letters[1..]);
      assert letters == [letters[0]] + letters[1..];
    }
  }

  /** The test counts characters only, so "ab " qualifies without being spelled out. */
  lemma TrailingSpaceHasNoSpaceVariant()
    ensures HasNoSpaceVariant("ab ") && RemoveSpaces("ab ") == "ab"
  {
    assert RemoveSpaces(" ") == "";
    assert RemoveSpaces("b ") == "b";
  }

  /** The rows `string_map_cased` adds for one label in the cased mode. */
  function AdditionalLabels(l: Label): Option<seq<Label>> {
    match CapitalizeFirst(l.written)
    case None => None
    case Some(wc) =>
      var variants := [Label(wc, Capitalize(l.spoken), None),
                       Label(wc, ReplaceAll(UpperAll(l.spoken), " AND ", " and "), None)];
      var noSpace := RemoveSpaces(l.spoken);
      if HasNoSpaceVariant(l.spoken) then
        Some(variants + [Label(l.written, noSpace, l.weight), Label(wc, UpperAll(noSpace), l.weight)])
      else Some(variants)
  }

  /** The additional rows of all labels, in label order; None if a written form is empty. */
  function AllAdditionalLabels(labels: seq<Label>): (r: Option<seq<Label>>)
    ensures r.Some? <==> forall i :: 0 <= i < |labels| ==> |labels[i].written| > 0
    ensures r.Some? ==> 2 * |labels| <= |r.value| <= 4 * |labels|
  {
    if |labels| == 0 then Some([])
    else
      match AdditionalLabels(labels[0])
      case None => None
      case Some(head) =>
        match AllAdditionalLabels(labels[1..])
        case None => None
        case Some(tail) => Some(head + tail)
  }

  /** `string_map(labels).invert()`: spoken -> written, weights kept. */
  function Invert(labels: seq<Label>): (r: seq<Entry>)
    ensures |r| == |labels|
    ensures forall i :: 0 <= i < |labels| ==>
              r[i] == Entry(labels[i].spoken, labels[i].written, labels[i].weight)
  {
    if |labels| == 0 then [] else [Entry(labels[0].spoken, labels[0].written, labels[0].weight)] + Invert(labels[1..])
  }

  /** `string_map_cased`; a failure is the IndexError of an empty written form. */
  function StringMapCased(labels: seq<Label>, inputCase: string): Result<seq<Entry>, string> {
    if inputCase == InputCased then
      match AllAdditionalLabels(labels)
      case None => Failure("empty written form")
      case Some(extra) => Success(Invert(labels + extra))
    else Success(Invert(labels))
  }

  /** The inverted entries `string_map_cased` adds for a label with written form
      W, spoken form S and weight w, where Wc is W with a capital first letter:
      (Capitalize(S), Wc) and (S upper-cased with " AND " lowered, Wc), both
      without a weight; and, exactly when S passes the no-space test, (S without
      spaces, W) and (S without spaces upper-cased, Wc), both with w. */
  predicate AddedEntry(l: Label, e: Entry)
    requires |l.written| > 0
  {
    var wc := CapitalizeFirst(l.written).value;
    var noSpace := RemoveSpaces(l.spoken);
    || e == Entry(Capitalize(l.spoken), wc, None)
    || e == Entry(ReplaceAll(UpperAll(l.spoken), " AND ", " and "), wc, None)
    || (HasNoSpaceVariant(l.spoken) && e == Entry(noSpace, l.written, l.weight))
    || (HasNoSpaceVariant(l.spoken) && e == Entry(UpperAll(noSpace), wc, l.weight))
  }

  lemma InvertAppend(a: seq<Label>, b: seq<Label>)
    ensures Invert(a + b) == Invert(a) + Invert(b)
  {
    var r := Invert(a + b);
    forall i | 0 <= i < |r| ensures r[i] == (Invert(a) + Invert(b))[i] {
      if i >= |a| {
        assert (a + b)[i] == b[i - |a|];
      }
    }
  }

  /** A label contributes two rows, or four when its spoken form passes the
      no-space test, and their entries are exactly its added entries. */
  lemma AdditionalEntries(l: Label)
    requires |l.written| > 0
    ensures AdditionalLabels(l).Some?
    ensures |AdditionalLabels(l).value| == if HasNoSpaceVariant(l.spoken) then 4 else 2
    ensures forall e :: e in Invert(AdditionalLabels(l).value) <==> AddedEntry(l, e)
  {
    var r := Invert(AdditionalLabels(l).value);
    forall e | e in r ensures AddedEntry(l, e) {
      var i :| 0 <= i < |r| && r[i] == e;
    }
    forall e | AddedEntry(l, e) ensures e in r {
      var wc := CapitalizeFirst(l.written).value;
      var noSpace := RemoveSpaces(l.spoken);
      if e == Entry(Capitalize(l.spoken), wc, None) {
        assert r[0] == e;
      } else if e == Entry(ReplaceAll(UpperAll(l.spoken), " AND ", " and "), wc, None) {
        assert r[1] == e;
      } else if e == Entry(noSpace, l.written, l.weight) {
        assert r[2] == e;
      } else {
        assert r[3] == e;
      }
    }
  }

  /** The rows added for all labels hold exactly the added entries of some label. */
  lemma {:induction false} AllAdditionalEntries(labels: seq<Label>)
    requires forall i :: 0 <= i < |labels| ==> |labels[i].written| > 0
    ensures AllAdditionalLabels(labels).Some?
    ensures forall e :: e in Invert(AllAdditionalLabels(labels).value) <==>
              exists i :: 0 <= i < |labels| && AddedEntry(labels[i], e)
  {
    if |labels| > 0 {
      var tail := labels[1..];
      assert forall i :: 0 <= i < |tail| ==> tail[i] == labels[i + 1];
      AllAdditionalEntries(tail);
      AdditionalEntries(labels[0]);
      var head := AdditionalLabels(labels[0]).value;
      var rest := AllAdditionalLabels(tail).value;
      InvertAppend(head, rest);
      forall e ensures e in Invert(head + rest) <==> exists i :: 0 <= i < |labels| && AddedEntry(labels[i], e) {
        if e in Invert(rest) {
          var j :| 0 <= j < |tail| && AddedEntry(tail[j], e);
          assert AddedEntry(labels[j + 1], e);
        }
        if exists i :: 0 <= i < |labels| && AddedEntry(labels[i], e) {
          var i :| 0 <= i < |labels| && AddedEntry(labels[i], e);
          if i > 0 {
            assert AddedEntry(tail[i - 1], e);
          }
        }
      }
    }
  }

  /** In the cased mode the map is the inverted labels followed by rows holding
      exactly the added entries of the labels, in both directions. */
  lemma StringMapCasedEntries(labels: seq<Label>)
    requires forall i :: 0 <= i < |labels| ==> |labels[i].written| > 0
    ensures StringMapCased(labels, InputCased).Success?
    ensures var r := StringMapCased(labels, InputCased).value;
            && r[..|labels|] == Invert(labels)
            && forall e :: e in r[|labels|..] <==> exists i :: 0 <= i < |labels| && AddedEntry(labels[i], e)
  {
    AllAdditionalEntries(labels);
    var extra := AllAdditionalLabels(labels).value;
    InvertAppend(labels, extra);
    var r := Invert(labels + extra);
    assert r[..|labels|] == Invert(labels);
    assert r[|labels|..] == Invert(extra);
  }

  /** Outside the cased mode the labels are only inverted; in the cased mode the
      inverted labels come first, followed by two to four variants per label, and
      the map fails exactly when some written form is empty. */
  lemma StringMapCasedShape(labels: seq<Label>, inputCase: string)
    ensures inputCase != InputCased ==> StringMapCased(labels, inputCase) == Success(Invert(labels))
    ensures inputCase == InputCased ==>
              (StringMapCased(labels, inputCase).Failure? <==> exists i :: 0 <= i < |labels| && labels[i].written == [])
    ensures inputCase == InputCased && StringMapCased(labels, inputCase).Success? ==>
              var r := StringMapCased(labels, inputCase).value;
              && 3 * |labels| <= |r| <= 5 * |labels|
              && r[..|labels|] == Invert(labels)
  {
    if inputCase == InputCased && AllAdditionalLabels(labels).Some? {
      var extra := AllAdditionalLabels(labels).value;
      var r := Invert(labels + extra);
      assert r[..|labels|] == Invert(labels);
    }
  }

  /** Every variant of a label maps to its written form or to that form with a
      capital first letter, and any weight it carries is the label's own. */
  lemma VariantsKeepWrittenForm(l: Label)
    requires |l.written| > 0
    ensures AdditionalLabels(l).Some?
    ensures forall v :: v in AdditionalLabels(l).value ==>
              (v.written == l.written || v.written == CapitalizeFirst(l.written).value)
              && (v.weight.Some? ==> v.weight == l.weight)
  {
  }

  lemma BmwCasings()
    ensures Capitalize("b m w") == "B m w"
    ensures UpperAll("b m w") == "B M W"
    ensures UpperAll("bmw") == "BMW"
    ensures CapitalizeFirst("BMW") == Some("BMW")
  {
    var c := Capitalize("b m w");
    assert c[1..] == LowerAll(" m w");
    forall i | 0 <= i < 5 ensures c[i] == "B m w"[i] {
      if i > 0 {
        assert c[i] == c[1..][i - 1];
      }
    }
    var u := UpperAll("b m w");
    forall i | 0 <= i < 5 ensures u[i] == "B M W"[i] {
    }
    var v := UpperAll("bmw");
    forall i | 0 <= i < 3 ensures v[i] == "BMW"[i] {
    }
    assert ['B'] + "BMW"[1..] == "BMW";
  }

  lemma BmwNoSpace()
    ensures RemoveSpaces("b m w") == "bmw"
    ensures HasNoSpaceVariant("b m w")
  {
    assert Spelled("w") == "w";
    assert Spelled("mw") == "m w";
    assert Spelled("bmw") == "b m w";
    SpelledHasNoSpaceVariant("bmw");
  }

  lemma BmwUpperHasNoAnd()
    ensures ReplaceAll("B M W", " AND ", " and ") == "B M W"
  {
    var t := "B M W";
    forall i: nat | i < |t| ensures !OccursAt(t, " AND ", i) {
      if i == 0 {
        assert t[0..5] == t;
      }
    }
    ReplaceAllWithoutPattern(t, " AND ", " and ");
  }

  /** The upper-cased "b and w" gets its conjunction back in lower case. */
  lemma UpperAndExample()
    ensures UpperAll("b and w") == "B AND W"
    ensures ReplaceAll("B AND W", " AND ", " and ") == "B and W"
  {
    var u := UpperAll("b and w");
    forall i | 0 <= i < 7 ensures u[i] == "B AND W"[i] {
    }
    var s := "B AND W";
    assert s == "B" + " AND " + "W";
    assert !OccursAt(s, " AND ", 0) by {
      assert s[0..5] == "B AND";
    }
    assert !OccursAt("W", " AND ", 0);
    ReplaceAllWithoutPattern("W", " AND ", " and ");
    ReplaceAllAtLeftmost("B", " AND ", " and ", "W");
  }

  /** The spelled-out label "b m w" -> "BMW" gains "B m w", "B M W", "bmw" and "BMW". */
  lemma SpelledLabelExample()
    ensures AdditionalLabels(Label("BMW", "b m w", None)) ==
              Some([Label("BMW", "B m w", None), Label("BMW", "B M W", None),
                    Label("BMW", "bmw", None), Label("BMW", "BMW", None)])
  {
    BmwCasings();
    BmwNoSpace();
    BmwUpperHasNoAnd();
    var l := Label("BMW", "b m w", None);
    var variants := [Label("BMW", Capitalize(l.spoken), None),
                     Label("BMW", ReplaceAll(UpperAll(l.spoken), " AND ", " and "), None)];
    assert variants == [Label("BMW", "B m w", None), Label("BMW", "B M W", None)];
    assert AdditionalLabels(l) == Some(variants + [Label("BMW", "bmw", None), Label("BMW", UpperAll("bmw"), None)]);
    assert variants + [Label("BMW", "bmw", None), Label("BMW", UpperAll("bmw"), None)]
        == [Label("BMW", "B m w", None), Label("BMW", "B M W", None),
            Label("BMW", "bmw", None), Label("BMW", "BMW", None)];
  }
}
