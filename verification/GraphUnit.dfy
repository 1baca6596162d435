/** The construction of a grammar unit (`GraphFst.__init__`): a unit has a name, a
    kind and a determinism flag, and loads its compiled transducer from an archive
    whose path is derived from the kind and the name when that archive exists.
    The transducer type `F` and the archive reader `load` are parameters. */
module GraphUnit {
  import opened Wrappers

  datatype Unit<F> = Unit(name: string, kind: string, deterministic: bool, farPath: string, fst: Option<F>)

  /** `dirname(__file__) + '/grammars/' + kind + '/' + name + '.far'`. */
  function FarPath(moduleDir: string, kind: string, name: string): string {
    moduleDir + "/grammars/" + kind + "/" + name + ".far"
  }

  /** Construct a unit: the archive, when it exists, is the unit's transducer;
      otherwise the unit starts without one and the concrete grammar builds it. */
  function NewUnit<F>(name: string, kind: string, deterministic: bool, moduleDir: string,
                      farExists: bool, load: string -> F): (u: Unit<F>)
    ensures u.name == name && u.kind == kind && u.deterministic == deterministic
    ensures u.fst.Some? <==> farExists
    ensures u.fst.Some? ==> u.fst.value == load(FarPath(moduleDir, kind, name))
  {
    var path := FarPath(moduleDir, kind, name);
    Unit(name, kind, deterministic, path, if farExists then Some(load(path)) else None)
  }

  /** The `fst` setter: the built transducer replaces whatever the unit held. */
  function SetFst<F>(u: Unit<F>, f: F): (r: Unit<F>)
    ensures r.fst == Some(f)
    ensures r.name == u.name && r.kind == u.kind && r.deterministic == u.deterministic && r.farPath == u.farPath
  {
    u.(fst := Some(f))
  }

  /** The archive is keyed by (kind, name): for kinds without a slash, two units in
      the same directory share an archive only when kind and name agree. */
  lemma {:induction false} FarPathKeyedByKindAndName(moduleDir: string, k1: string, n1: string, k2: string, n2: string)
    requires '/' !in k1 && '/' !in k2
    requires FarPath(moduleDir, k1, n1) == FarPath(moduleDir, k2, n2)
    ensures k1 == k2 && n1 == n2
  {
    var p := moduleDir + "/grammars/";
    var r := FarPath(moduleDir, k1, n1);
    assert r == p + k1 + "/" + n1 + ".far";
    assert r == p + k2 + "/" + n2 + ".far";
    forall i | 0 <= i < |k1| ensures r[|p| + i] == k1[i] && r[|p| + i] != '/' {
      assert k1[i] in k1;
    }
    forall i | 0 <= i < |k2| ensures r[|p| + i] == k2[i] && r[|p| + i] != '/' {
      assert k2[i] in k2;
    }
    assert r[|p| + |k1|] == '/' && r[|p| + |k2|] == '/';
    assert |k1| == |k2|;
    assert k1 == r[|p|..|p| + |k1|] == k2;
    var tail1 := n1 + ".far";
    var tail2 := n2 + ".far";
    assert r[|p| + |k1| + 1..] == tail1 == tail2;
    assert n1 == tail1[..|n1|] == tail2[..|n2|] == n2;
  }
}
