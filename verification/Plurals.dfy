/** The English plural rewrite SINGULAR_TO_PLURAL and its inversion
    PLURAL_TO_SINGULAR. The rewrite is a priority union of four rules: the
    suppletive table, consonant+"y" -> "ies", sibilant + "es", and the default
    "+s"; a rule applies only where no higher-priority rule does. */
module Plurals {
  import opened Wrappers
  import opened Text

  /** The suppletive exception table, singular -> plural. */
  type Table = map<string, string>

  /** The `_c` class: the lower-case consonants, `y` included. */
  predicate IsConsonant(c: char) {
    c in "bcdfghjklmnpqrstvwxyz"
  }

  /** Input side of `_ies`: any prefix, a consonant, then a final "y". */
  predicate IesApplies(w: string) {
    |w| >= 2 && w[|w| - 1] == 'y' && IsConsonant(w[|w| - 2])
  }

  /** Input side of `_es`: a final "s", "sh", "ch", "x" or "z". */
  predicate EsApplies(w: string) {
    EndsWith(w, "s") || EndsWith(w, "sh") || EndsWith(w, "ch") || EndsWith(w, "x") || EndsWith(w, "z")
  }

  /** SINGULAR_TO_PLURAL on one input: the nested priority union. */
  function Plural(sup: Table, w: string): string {
    if w in sup then sup[w]
    else if IesApplies(w) then w[..|w| - 1] + "ies"
    else if EsApplies(w) then w + "es"
    else w + "s"
  }

  /** The four rules in priority order. */
  datatype Rule = Suppletive | Ies | Es | S

  const Priority: seq<Rule> := [Suppletive, Ies, Es, S]

  /** One rule on its own, as its own transducer: None outside its input side. */
  function Rewrite(sup: Table, r: Rule, w: string): Option<string> {
    match r
    case Suppletive => if w in sup then Some(sup[w]) else None
    case Ies => if IesApplies(w) then Some(w[..|w| - 1] + "ies") else None
    case Es => if EsApplies(w) then Some(w + "es") else None
    case S => Some(w + "s")
  }

  /** The position in `rules` of the first rule that accepts `w`. */
  function FirstMatch(sup: Table, rules: seq<Rule>, w: string): (k: nat)
    ensures k <= |rules|
    ensures k < |rules| ==> Rewrite(sup, rules[k], w).Some?
    ensures forall i :: 0 <= i < k ==> Rewrite(sup, rules[i], w).None?
  {
    if |rules| == 0 then 0
    else if Rewrite(sup, rules[0], w).Some? then 0
    else 1 + FirstMatch(sup, rules[1..], w)
  }

  /** Exactly one rule fires: the plural is the output of the first rule in priority
      order that accepts the word, every higher-priority rule rejects it, and the
      lower-priority rules play no part. */
  lemma ExactlyOneRuleFires(sup: Table, w: string)
    ensures FirstMatch(sup, Priority, w) < |Priority|
    ensures Plural(sup, w) == Rewrite(sup, Priority[FirstMatch(sup, Priority, w)], w).value
    ensures forall i :: 0 <= i < FirstMatch(sup, Priority, w) ==> Rewrite(sup, Priority[i], w).None?
  {
    assert Priority[1..] == [Ies, Es, S];
    assert Priority[1..][1..] == [Es, S];
    assert Priority[1..][1..][1..] == [S];
    if w in sup {
      assert FirstMatch(sup, Priority, w) == 0;
    } else if IesApplies(w) {
      assert FirstMatch(sup, Priority, w) == 1;
    } else if EsApplies(w) {
      assert FirstMatch(sup, Priority[1..][1..], w) == 0;
      assert FirstMatch(sup, Priority, w) == 2;
    } else {
      assert FirstMatch(sup, Priority[1..][1..][1..], w) == 0;
      assert FirstMatch(sup, Priority[1..][1..], w) == 1;
      assert FirstMatch(sup, Priority, w) == 3;
    }
  }

  /** A word in the suppletive table takes its plural from the table, whatever its ending. */
  lemma SuppletiveSuppressesRules(sup: Table, w: string)
    requires w in sup
    ensures Plural(sup, w) == sup[w]
    ensures FirstMatch(sup, Priority, w) == 0
  {
  }

  /** Consonant + "y" becomes consonant + "ies". */
  lemma PluralOfConsonantY(sup: Table, stem: string, c: char)
    requires IsConsonant(c)
    requires stem + [c] + "y" !in sup
    ensures Plural(sup, stem + [c] + "y") == stem + [c] + "ies"
  {
    var w := stem + [c] + "y";
    assert w[|w| - 2] == c;
    assert w[..|w| - 1] == stem + [c];
  }

  /** Vowel (or any non-consonant) + "y" falls through to the default "+s". */
  lemma PluralOfVowelY(sup: Table, stem: string, v: char)
    requires !IsConsonant(v)
    requires stem + [v] + "y" !in sup
    ensures Plural(sup, stem + [v] + "y") == stem + [v] + "ys"
  {
    var w := stem + [v] + "y";
    assert w[|w| - 2] == v;
    assert w[|w| - 1..] == "y";
    assert w[|w| - 2..] == [v] + "y";
  }

  /** A word ending in "s", "sh", "ch", "x" or "z" gets "es". */
  lemma PluralOfSibilant(sup: Table, stem: string, ending: string)
    requires ending in ["s", "sh", "ch", "x", "z"]
    requires stem + ending !in sup
    ensures Plural(sup, stem + ending) == stem + ending + "es"
  {
    var w := stem + ending;
    assert w[|w| - |ending|..] == ending;
    assert w[|w| - 1] == ending[|ending| - 1];
    assert !IesApplies(w);
    assert EndsWith(w, ending);
    assert EsApplies(w);
  }

  /** Every plural extends its singular, except through the table or the "y" -> "ies" rule. */
  lemma RegularPluralExtendsSingular(sup: Table, w: string)
    requires w !in sup && !IesApplies(w)
    ensures StartsWith(Plural(sup, w), w)
    ensures Plural(sup, w) == w + "es" || Plural(sup, w) == w + "s"
  {
    var p := Plural(sup, w);
    assert p[..|w|] == w;
  }

  /** The regular singulars a plural could come from, one per regular rule. */
  function RegularCandidates(p: string): set<string> {
    (if EndsWith(p, "ies") then {p[..|p| - 3] + "y"} else {})
    + (if EndsWith(p, "es") then {p[..|p| - 2]} else {})
    + (if EndsWith(p, "s") then {p[..|p| - 1]} else {})
  }

  /** PLURAL_TO_SINGULAR on one input: every singular the rewrite maps to `p`. */
  function Singulars(sup: Table, p: string): set<string> {
    (set w | w in sup && sup[w] == p)
    + (set w | w in RegularCandidates(p) && w !in sup && Plural(sup, w) == p)
  }

  /** PLURAL_TO_SINGULAR is exactly the inverse relation of SINGULAR_TO_PLURAL. */
  lemma {:induction false} SingularsInvertPlural(sup: Table, w: string, p: string)
    ensures w in Singulars(sup, p) <==> Plural(sup, w) == p
  {
    if Plural(sup, w) == p && w !in sup {
      RegularCandidateOfPlural(sup, w);
      assert w in RegularCandidates(p);
    }
  }

  /** A word outside the table is among the regular candidates of its plural. */
  lemma RegularCandidateOfPlural(sup: Table, w: string)
    requires w !in sup
    ensures w in RegularCandidates(Plural(sup, w))
  {
    if IesApplies(w) {
      var stem := w[..|w| - 1];
      assert w == stem + "y";
      CandidateOfIes(stem);
    } else if EsApplies(w) {
      CandidateOfSuffix(w, "es");
    } else {
      CandidateOfSuffix(w, "s");
    }
  }

  lemma CandidateOfIes(stem: string)
    ensures stem + "y" in RegularCandidates(stem + "ies")
  {
    var p := stem + "ies";
    assert p[|p| - 3..] == "ies";
    assert p[..|p| - 3] == stem;
  }

  lemma CandidateOfSuffix(w: string, suffix: string)
    requires suffix == "es" || suffix == "s"
    ensures w in RegularCandidates(w + suffix)
  {
    var p := w + suffix;
    assert p[|p| - |suffix|..] == suffix;
    assert p[..|p| - |suffix|] == w;
  }

  /** Pluralising any singular of a plural gives that plural back. */
  lemma PluralOfSingularOfPlural(sup: Table, w: string, v: string)
    requires v in Singulars(sup, Plural(sup, w))
    ensures Plural(sup, v) == Plural(sup, w)
    ensures w in Singulars(sup, Plural(sup, w))
  {
    SingularsInvertPlural(sup, v, Plural(sup, w));
    SingularsInvertPlural(sup, w, Plural(sup, w));
  }

  /** "box" -> "boxes"; inverting "boxes" gives "box" and also "boxe", since
      "boxe" takes the default "+s". */
  lemma BoxExample(sup: Table)
    requires "box" !in sup && "boxe" !in sup
    requires forall w :: w in sup ==> sup[w] != "boxes"
    ensures Plural(sup, "box") == "boxes"
    ensures Singulars(sup, "boxes") == {"box", "boxe"}
  {
    assert "bo" + "x" == "box";
    PluralOfSibilant(sup, "bo", "x");
    var p := "boxes";
    assert RegularCandidates(p) == {"boxe", "box", "boxe"} by {
      assert !EndsWith(p, "ies");
      assert p[..|p| - 2] == "box";
      assert p[..|p| - 1] == "boxe";
    }
    assert Plural(sup, "boxe") == "boxes";
    assert (set w | w in sup && sup[w] == p) == {};
  }
}
