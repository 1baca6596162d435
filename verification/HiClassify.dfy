/** The weighted union of the Hindi `ClassifyFst`: every sub-classifier proposes
    outputs for the same span, each weighted by its class, and the cheapest
    proposals win. Weights are the source's weights times 100. The
    sub-classifiers are parameters. */
module HiClassify {
  import opened Tokens
  import opened Casing

  /** The sub-classifiers of the union, in the order of the source. */
  datatype Class = Whitelist | Cardinal | Decimal | Fraction | Date | Time | Measure | Money | Word

  const AllClasses: set<Class> := {Whitelist, Cardinal, Decimal, Fraction, Date, Time, Measure, Money, Word}

  /** `add_weight` of each class: whitelist 1.01, the semiotic classes 1.1 and
      the word fallback 100. */
  function Weight(c: Class): int {
    match c
    case Whitelist => 101
    case Word => 10000
    case _ => 110
  }

  /** The weight of a punctuation token (2.1). */
  const PunctWeight: int := 210

  /** The union `classify |= add_weight(word_graph, 100)` on one span. */
  function Classify(subs: Class -> Grammar, x: string): set<Path> {
    set c, o | c in AllClasses && o in subs(c)(x) :: Path(o, Weight(c))
  }

  /** The paths of least cost. */
  function Cheapest(ps: set<Path>): set<Path> {
    set p | p in ps && forall q :: q in ps ==> p.cost <= q.cost
  }

  /** Class `c` accepts `x` and no accepting class is lighter. */
  predicate Lightest(subs: Class -> Grammar, x: string, c: Class) {
    && subs(c)(x) != {}
    && forall d :: d in AllClasses && subs(d)(x) != {} ==> Weight(c) <= Weight(d)
  }

  /** The cheapest paths of the union are exactly the outputs of the lightest
      classes that accept the span, at those classes' weights. */
  lemma CheapestIsLightestClass(subs: Class -> Grammar, x: string, p: Path)
    ensures p in Cheapest(Classify(subs, x)) <==>
            exists c :: c in AllClasses && Lightest(subs, x, c) && p.output in subs(c)(x) && p.cost == Weight(c)
  {
    if p in Cheapest(Classify(subs, x)) {
      CheapestIsLight(subs, x, p);
    }
    if exists c :: c in AllClasses && Lightest(subs, x, c) && p.output in subs(c)(x) && p.cost == Weight(c) {
      var c :| c in AllClasses && Lightest(subs, x, c) && p.output in subs(c)(x) && p.cost == Weight(c);
      LightIsCheapest(subs, x, p, c);
    }
  }

  lemma CheapestIsLight(subs: Class -> Grammar, x: string, p: Path)
    requires p in Cheapest(Classify(subs, x))
    ensures exists c :: c in AllClasses && Lightest(subs, x, c) && p.output in subs(c)(x) && p.cost == Weight(c)
  {
    var ps := Classify(subs, x);
    var c, o :| c in AllClasses && o in subs(c)(x) && p == Path(o, Weight(c));
    forall d | d in AllClasses && subs(d)(x) != {} ensures Weight(c) <= Weight(d) {
      var e :| e in subs(d)(x);
      assert Path(e, Weight(d)) in ps;
    }
    assert Lightest(subs, x, c);
  }

  lemma LightIsCheapest(subs: Class -> Grammar, x: string, p: Path, c: Class)
    requires c in AllClasses && Lightest(subs, x, c) && p.output in subs(c)(x) && p.cost == Weight(c)
    ensures p in Cheapest(Classify(subs, x))
  {
    var ps := Classify(subs, x);
    assert p == Path(p.output, Weight(c));
    assert p in ps;
    forall q | q in ps ensures p.cost <= q.cost {
      var d, e :| d in AllClasses && e in subs(d)(x) && q == Path(e, Weight(d));
    }
  }

  /** On a span the whitelist accepts, the whitelist's outputs are the cheapest
      paths, and nothing else is. */
  lemma WhitelistWins(subs: Class -> Grammar, x: string)
    requires subs(Whitelist)(x) != {}
    ensures Cheapest(Classify(subs, x)) == set o | o in subs(Whitelist)(x) :: Path(o, Weight(Whitelist))
  {
    forall p | p in Cheapest(Classify(subs, x))
      ensures p in set o | o in subs(Whitelist)(x) :: Path(o, Weight(Whitelist))
    {
      CheapestIsLightestClass(subs, x, p);
      var c :| c in AllClasses && Lightest(subs, x, c) && p.output in subs(c)(x) && p.cost == Weight(c);
      assert Weight(c) <= Weight(Whitelist);
      assert c == Whitelist;
    }
    forall o | o in subs(Whitelist)(x) ensures Path(o, Weight(Whitelist)) in Cheapest(Classify(subs, x)) {
      assert Lightest(subs, x, Whitelist);
      CheapestIsLightestClass(subs, x, Path(o, Weight(Whitelist)));
    }
  }

  /** The word fallback is among the cheapest paths exactly when it accepts the
      span and no other class does. */
  lemma WordOnlyAsLastResort(subs: Class -> Grammar, x: string, o: string)
    ensures Path(o, Weight(Word)) in Cheapest(Classify(subs, x)) <==>
            o in subs(Word)(x) && forall c :: c in AllClasses && c != Word ==> subs(c)(x) == {}
  {
    var p := Path(o, Weight(Word));
    CheapestIsLightestClass(subs, x, p);
    if p in Cheapest(Classify(subs, x)) {
      var c :| c in AllClasses && Lightest(subs, x, c) && p.output in subs(c)(x) && p.cost == Weight(c);
      assert c == Word;
      forall d | d in AllClasses && d != Word ensures subs(d)(x) == {} {
        assert Weight(d) < Weight(Word);
      }
    }
    if o in subs(Word)(x) && forall c :: c in AllClasses && c != Word ==> subs(c)(x) == {} {
      assert Lightest(subs, x, Word);
    }
  }
}
