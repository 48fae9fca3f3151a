/** What definition discovery guarantees: the list is closed under property
    references, every listed name is reachable from a root, every root is
    listed, names from earlier paths come first, and a well-formed contract
    always resolves — cycles included. */
module SwaggerLemmas {
  import opened Wrappers
  import opened Seqs
  import opened Strings
  import opened Schema
  import opened Swagger

  /** Properties `i..` of a definition were all walked, and every name they
      refer to is in `names`. */
  ghost predicate PropsCovered(schemas: map<string, Definition>, props: seq<(string, PropSchema)>, i: nat, names: seq<string>) {
    forall j :: i <= j < |props| ==>
      PropertyRef(props[j].1).Success? && (RefTarget(props[j].1).Some? ==> RefTarget(props[j].1).value in names)
  }

  /** Definition `n` exists and everything it refers to is in `names`. */
  ghost predicate Expanded(schemas: map<string, Definition>, n: string, names: seq<string>) {
    PropertiesOf(schemas, n).Success? && PropsCovered(schemas, PropertiesOf(schemas, n).value, 0, names)
  }

  /** Every listed definition exists and its references are listed too. */
  ghost predicate Closed(schemas: map<string, Definition>, names: seq<string>) {
    forall n :: n in names ==> Expanded(schemas, n, names)
  }

  lemma {:induction false} CoveredGrows(schemas: map<string, Definition>, props: seq<(string, PropSchema)>, i: nat, a: seq<string>, b: seq<string>)
    requires a <= b
    requires PropsCovered(schemas, props, i, a)
    ensures PropsCovered(schemas, props, i, b)
  {
    forall j | i <= j < |props| && RefTarget(props[j].1).Some?
      ensures RefTarget(props[j].1).value in b
    {
      var x := RefTarget(props[j].1).value;
      var k :| 0 <= k < |a| && a[k] == x;
      assert b[k] == x;
    }
  }

  lemma {:induction false} ExpandedGrows(schemas: map<string, Definition>, n: string, a: seq<string>, b: seq<string>)
    requires a <= b
    requires Expanded(schemas, n, a)
    ensures Expanded(schemas, n, b)
  {
    CoveredGrows(schemas, PropertiesOf(schemas, n).value, 0, a, b);
  }

  /** Expansion covers the remaining properties, and every name it adds is itself expanded. */
  lemma {:induction false} ExpandPropsClosed(schemas: map<string, Definition>, props: seq<(string, PropSchema)>, i: nat, acc: seq<string>)
    requires i <= |props|
    requires ExpandProps(schemas, props, i, acc).Success?
    ensures var r := ExpandProps(schemas, props, i, acc).value;
            && PropsCovered(schemas, props, i, r)
            && forall n :: n in r && n !in acc ==> Expanded(schemas, n, r)
    decreases Unvisited(schemas, acc), |props| - i
  {
    if i < |props| {
      var r := ExpandProps(schemas, props, i, acc).value;
      var pr := PropertyRef(props[i].1);
      if pr.value.None? {
        ExpandPropsClosed(schemas, props, i + 1, acc);
      } else {
        var n := LastSegment(pr.value.value);
        if n == "" || n in acc {
          ExpandPropsClosed(schemas, props, i + 1, acc);
          if n in acc {
            var k :| 0 <= k < |acc| && acc[k] == n;
            assert r[k] == n;
          }
        } else {
          var ps := PropertiesOf(schemas, n).value;
          UnvisitedShrinks(schemas, acc, n);
          ExpandPropsClosed(schemas, ps, 0, acc + [n]);
          var acc' := ExpandProps(schemas, ps, 0, acc + [n]).value;
          UnvisitedNoLarger(schemas, acc, acc');
          ExpandPropsClosed(schemas, props, i + 1, acc');
          assert (acc + [n])[|acc|] == n;
          assert r[|acc|] == n;
          NewlyListedExpanded(schemas, acc, n, acc', r);
        }
      }
    }
  }

  /** The names one step of expansion lists are expanded in the final list:
      `n` and the names its own expansion added, then those added afterwards. */
  lemma {:induction false} NewlyListedExpanded(schemas: map<string, Definition>, acc: seq<string>, n: string, acc': seq<string>, r: seq<string>)
    requires acc + [n] <= acc' <= r
    requires Expanded(schemas, n, acc')
    requires forall m :: m in acc' && m !in acc + [n] ==> Expanded(schemas, m, acc')
    requires forall m :: m in r && m !in acc' ==> Expanded(schemas, m, r)
    ensures forall m :: m in r && m !in acc ==> Expanded(schemas, m, r)
  {
    forall m | m in r && m !in acc ensures Expanded(schemas, m, r) {
      if m in acc' {
        ExpandedGrows(schemas, m, acc', r);
      }
    }
  }

  /** Recording a body's root keeps the list closed. */
  lemma {:induction false} ExtractClosed(schemas: map<string, Definition>, b: Body, acc: seq<string>)
    requires Closed(schemas, acc)
    requires ExtractRefDefinition(schemas, b, acc).Success?
    ensures Closed(schemas, ExtractRefDefinition(schemas, b, acc).value)
  {
    var r := ExtractRefDefinition(schemas, b, acc).value;
    var br := BodyRef(b);
    if br.value.Some? {
      var n := LastSegment(br.value.value);
      if n !in acc {
        var ps := PropertiesOf(schemas, n).value;
        ExpandPropsClosed(schemas, ps, 0, acc + [n]);
        forall m | m in r ensures Expanded(schemas, m, r) {
          if m in acc {
            ExpandedGrows(schemas, m, acc, r);
          }
        }
      }
    }
  }

  lemma {:induction false} DiscoverClosed(schemas: map<string, Definition>, bodies: seq<Body>, acc: seq<string>)
    requires Closed(schemas, acc)
    requires DiscoverFrom(schemas, bodies, acc).Success?
    ensures Closed(schemas, DiscoverFrom(schemas, bodies, acc).value)
    ensures forall b :: b in bodies && RootName(b).Some? ==> RootName(b).value in DiscoverFrom(schemas, bodies, acc).value
    decreases |bodies|
  {
    if |bodies| > 0 {
      var acc' := ExtractRefDefinition(schemas, bodies[0], acc).value;
      var r := DiscoverFrom(schemas, bodies, acc).value;
      ExtractClosed(schemas, bodies[0], acc);
      DiscoverClosed(schemas, bodies[1..], acc');
      if RootName(bodies[0]).Some? {
        var k :| 0 <= k < |acc'| && acc'[k] == RootName(bodies[0]).value;
        assert r[k] == acc'[k];
      }
      assert forall b :: b in bodies ==> b == bodies[0] || b in bodies[1..];
    }
  }

  /** Closure of discovery: every listed definition exists, has properties,
      and everything its properties refer to is listed; every root is listed. */
  lemma {:induction false} DefinitionNamesClosed(doc: Document)
    requires DefinitionNames(doc).Success?
    ensures Closed(doc.schemas, DefinitionNames(doc).value)
    ensures forall b :: b in PathBodies(doc.paths) && RootName(b).Some? ==>
              RootName(b).value in DefinitionNames(doc).value
  {
    DiscoverClosed(doc.schemas, PathBodies(doc.paths), []);
  }

  /** `names[j]` is referred to by a definition listed before it. */
  ghost predicate HasEarlierParent(schemas: map<string, Definition>, names: seq<string>, j: nat)
    requires j < |names|
  {
    exists k :: 0 <= k < j && Edge(schemas, names[k], names[j])
  }

  /** Each listed name is a root or is referred to by an earlier listed name. */
  ghost predicate Justified(schemas: map<string, Definition>, roots: set<string>, names: seq<string>) {
    forall j :: 0 <= j < |names| ==> names[j] in roots || HasEarlierParent(schemas, names, j)
  }

  lemma {:induction false} JustifiedAppend(schemas: map<string, Definition>, roots: set<string>, names: seq<string>, n: string, k: nat)
    requires Justified(schemas, roots, names)
    requires n in roots || (k < |names| && Edge(schemas, names[k], n))
    ensures Justified(schemas, roots, names + [n])
  {
    var s := names + [n];
    forall j | 0 <= j < |s| ensures s[j] in roots || HasEarlierParent(schemas, s, j) {
      if j < |names| {
        if names[j] !in roots {
          var k' :| 0 <= k' < j && Edge(schemas, names[k'], names[j]);
          assert s[k'] == names[k'];
        }
      } else if n !in roots {
        assert s[k] == names[k];
      }
    }
  }

  lemma {:induction false} ExpandPropsJustified(schemas: map<string, Definition>, roots: set<string>, parent: string,
                                                props: seq<(string, PropSchema)>, i: nat, acc: seq<string>)
    requires i <= |props|
    requires PropertiesOf(schemas, parent) == Success(props)
    requires parent in acc
    requires Justified(schemas, roots, acc)
    requires ExpandProps(schemas, props, i, acc).Success?
    ensures Justified(schemas, roots, ExpandProps(schemas, props, i, acc).value)
    decreases Unvisited(schemas, acc), |props| - i
  {
    if i < |props| {
      var pr := PropertyRef(props[i].1);
      if pr.value.None? {
        ExpandPropsJustified(schemas, roots, parent, props, i + 1, acc);
      } else {
        var n := LastSegment(pr.value.value);
        if n == "" || n in acc {
          ExpandPropsJustified(schemas, roots, parent, props, i + 1, acc);
        } else {
          var ps := PropertiesOf(schemas, n).value;
          var k :| 0 <= k < |acc| && acc[k] == parent;
          assert RefTarget(props[i].1) == Some(n);
          assert Edge(schemas, acc[k], n);
          JustifiedAppend(schemas, roots, acc, n, k);
          UnvisitedShrinks(schemas, acc, n);
          ExpandPropsJustified(schemas, roots, n, ps, 0, acc + [n]);
          var acc' := ExpandProps(schemas, ps, 0, acc + [n]).value;
          UnvisitedNoLarger(schemas, acc, acc');
          assert acc'[k] == parent;
          ExpandPropsJustified(schemas, roots, parent, props, i + 1, acc');
        }
      }
    }
  }

  lemma {:induction false} DiscoverJustified(schemas: map<string, Definition>, roots: set<string>, bodies: seq<Body>, acc: seq<string>)
    requires Justified(schemas, roots, acc)
    requires forall b :: b in bodies && RootName(b).Some? ==> RootName(b).value in roots
    requires DiscoverFrom(schemas, bodies, acc).Success?
    ensures Justified(schemas, roots, DiscoverFrom(schemas, bodies, acc).value)
    decreases |bodies|
  {
    if |bodies| > 0 {
      var acc' := ExtractRefDefinition(schemas, bodies[0], acc).value;
      var br := BodyRef(bodies[0]);
      if br.value.Some? {
        var n := LastSegment(br.value.value);
        if n !in acc {
          JustifiedAppend(schemas, roots, acc, n, 0);
          ExpandPropsJustified(schemas, roots, n, PropertiesOf(schemas, n).value, 0, acc + [n]);
        }
      }
      DiscoverJustified(schemas, roots, bodies[1..], acc');
    }
  }

  /** A chain of references starting at a root. */
  ghost predicate IsRefPath(schemas: map<string, Definition>, roots: set<string>, path: seq<string>) {
    && |path| >= 1
    && path[0] in roots
    && forall m :: 0 <= m < |path| - 1 ==> Edge(schemas, path[m], path[m + 1])
  }

  ghost predicate Reachable(schemas: map<string, Definition>, roots: set<string>, n: string) {
    exists path :: IsRefPath(schemas, roots, path) && path[|path| - 1] == n
  }

  lemma {:induction false} ExtendRefPath(schemas: map<string, Definition>, roots: set<string>, p: seq<string>, x: string)
    requires IsRefPath(schemas, roots, p)
    requires Edge(schemas, p[|p| - 1], x)
    ensures IsRefPath(schemas, roots, p + [x])
    ensures Reachable(schemas, roots, x)
  {
    var q := p + [x];
    forall m | 0 <= m < |q| - 1 ensures Edge(schemas, q[m], q[m + 1]) {
      if m < |p| - 1 {
        assert q[m] == p[m] && q[m + 1] == p[m + 1];
      }
    }
    assert q[|p|] == x;
  }

  lemma {:induction false} JustifiedReachable(schemas: map<string, Definition>, roots: set<string>, names: seq<string>, j: nat)
    requires Justified(schemas, roots, names)
    requires j < |names|
    ensures Reachable(schemas, roots, names[j])
    decreases j
  {
    if names[j] in roots {
      assert IsRefPath(schemas, roots, [names[j]]);
    } else {
      assert HasEarlierParent(schemas, names, j);
      var k :| 0 <= k < j && Edge(schemas, names[k], names[j]);
      JustifiedReachable(schemas, roots, names, k);
      var p :| IsRefPath(schemas, roots, p) && p[|p| - 1] == names[k];
      ExtendRefPath(schemas, roots, p, names[j]);
    }
  }

  /** Soundness of discovery: every listed definition is reachable, through
      property references, from the root a request or response body names. */
  lemma {:induction false} DefinitionNamesReachable(doc: Document)
    requires DefinitionNames(doc).Success?
    ensures forall n :: n in DefinitionNames(doc).value ==>
              Reachable(doc.schemas, RootNames(PathBodies(doc.paths)), n)
  {
    var names := DefinitionNames(doc).value;
    var roots := RootNames(PathBodies(doc.paths));
    DiscoverJustified(doc.schemas, roots, PathBodies(doc.paths), []);
    forall n | n in names ensures Reachable(doc.schemas, roots, n) {
      var j :| 0 <= j < |names| && names[j] == n;
      JustifiedReachable(doc.schemas, roots, names, j);
    }
  }

  /** Discovery over two runs of bodies is discovery over the first, continued over the second. */
  lemma {:induction false} DiscoverAppend(schemas: map<string, Definition>, bs: seq<Body>, cs: seq<Body>, acc: seq<string>)
    ensures DiscoverFrom(schemas, bs + cs, acc) ==
            match DiscoverFrom(schemas, bs, acc)
            case Failure(e) => Failure(e)
            case Success(a) => DiscoverFrom(schemas, cs, a)
    decreases |bs|
  {
    if |bs| == 0 {
      assert bs + cs == cs;
    } else {
      assert (bs + cs)[0] == bs[0];
      assert (bs + cs)[1..] == bs[1..] + cs;
      match ExtractRefDefinition(schemas, bs[0], acc)
      case Failure(_) =>
      case Success(a) => DiscoverAppend(schemas, bs[1..], cs, a);
    }
  }

  /** The bodies of two runs of paths are those of the first run, then those of the second. */
  lemma {:induction false} PathBodiesAppend(a: seq<(string, seq<(string, Operation)>)>, b: seq<(string, seq<(string, Operation)>)>)
    ensures PathBodies(a + b) == PathBodies(a) + PathBodies(b)
    decreases |a|
  {
    if |a| == 0 {
      assert a + b == b;
    } else {
      var ab := a + b;
      assert ab[0] == a[0];
      assert ab[1..] == a[1..] + b;
      PathBodiesAppend(a[1..], b);
      assert PathBodies(a) == VerbBodies(a[0].1) + PathBodies(a[1..]);
      assert PathBodies(ab) == VerbBodies(a[0].1) + (PathBodies(a[1..]) + PathBodies(b));
      AppendAssoc(VerbBodies(a[0].1), PathBodies(a[1..]), PathBodies(b));
    }
  }

  lemma {:induction false} PathBodiesSplit(paths: seq<(string, seq<(string, Operation)>)>, k: nat)
    requires k <= |paths|
    ensures PathBodies(paths) == PathBodies(paths[..k]) + PathBodies(paths[k..])
  {
    assert paths == paths[..k] + paths[k..];
    PathBodiesAppend(paths[..k], paths[k..]);
  }


  /** A body is among a path item's bodies exactly when one of its verbs has it. */
  lemma {:induction false} VerbBodiesMembers(verbs: seq<(string, Operation)>)
    ensures forall b :: b in VerbBodies(verbs) <==> exists k :: 0 <= k < |verbs| && b in OperationBodies(verbs[k].1)
    decreases |verbs|
  {
    if |verbs| > 0 {
      VerbBodiesMembers(verbs[1..]);
      assert forall k :: 1 <= k < |verbs| ==> verbs[k] == verbs[1..][k - 1];
    }
  }

  /** The bodies of two runs of verbs are those of the first run, then those of the second. */
  lemma {:induction false} VerbBodiesAppend(a: seq<(string, Operation)>, b: seq<(string, Operation)>)
    ensures VerbBodies(a + b) == VerbBodies(a) + VerbBodies(b)
    decreases |a|
  {
    if |a| == 0 {
      assert a + b == b;
    } else {
      var ab := a + b;
      assert ab[0] == a[0];
      assert ab[1..] == a[1..] + b;
      VerbBodiesAppend(a[1..], b);
      assert VerbBodies(a) == OperationBodies(a[0].1) + VerbBodies(a[1..]);
      assert VerbBodies(ab) == OperationBodies(a[0].1) + (VerbBodies(a[1..]) + VerbBodies(b));
      AppendAssoc(OperationBodies(a[0].1), VerbBodies(a[1..]), VerbBodies(b));
    }
  }

  /** Within a path item, the bodies of the first `k` verbs come before those of the rest. */
  lemma {:induction false} VerbBodiesSplit(verbs: seq<(string, Operation)>, k: nat)
    requires k <= |verbs|
    ensures VerbBodies(verbs) == VerbBodies(verbs[..k]) + VerbBodies(verbs[k..])
  {
    assert verbs == verbs[..k] + verbs[k..];
    VerbBodiesAppend(verbs[..k], verbs[k..]);
  }


  /** Order of discovery: the definitions found through the first `k` paths
      form a prefix of the final list. */
  lemma {:induction false} EarlierPathsFirst(doc: Document, k: nat)
    requires k <= |doc.paths|
    requires DefinitionNames(doc).Success?
    ensures DiscoverFrom(doc.schemas, PathBodies(doc.paths[..k]), []).Success?
    ensures DiscoverFrom(doc.schemas, PathBodies(doc.paths[..k]), []).value <= DefinitionNames(doc).value
  {
    PathBodiesSplit(doc.paths, k);
    DiscoverAppend(doc.schemas, PathBodies(doc.paths[..k]), PathBodies(doc.paths[k..]), []);
  }

  /** Every property can be read and every name it refers to is defined. */
  ghost predicate PropsResolvable(schemas: map<string, Definition>, props: seq<(string, PropSchema)>) {
    forall j :: 0 <= j < |props| ==>
      PropertyRef(props[j].1).Success? && (RefTarget(props[j].1).Some? ==> RefTarget(props[j].1).value in schemas)
  }

  /** Every definition has properties, all of them resolvable. */
  ghost predicate SchemasWellFormed(schemas: map<string, Definition>) {
    forall n :: n in schemas ==> schemas[n].properties.Some? && PropsResolvable(schemas, schemas[n].properties.value)
  }

  /** Every definition reachable from the roots exists, has properties, and
      all of them are resolvable: definitions nothing reaches are unconstrained. */
  ghost predicate ReachableWellFormed(schemas: map<string, Definition>, roots: set<string>) {
    forall n :: Reachable(schemas, roots, n) ==>
      n in schemas && schemas[n].properties.Some? && PropsResolvable(schemas, schemas[n].properties.value)
  }

  lemma {:induction false} RootReachable(schemas: map<string, Definition>, roots: set<string>, r: string)
    requires r in roots
    ensures Reachable(schemas, roots, r)
  {
    assert IsRefPath(schemas, roots, [r]);
  }

  lemma {:induction false} ReachableStep(schemas: map<string, Definition>, roots: set<string>, a: string, b: string)
    requires Reachable(schemas, roots, a) && Edge(schemas, a, b)
    ensures Reachable(schemas, roots, b)
  {
    var p :| IsRefPath(schemas, roots, p) && p[|p| - 1] == a;
    ExtendRefPath(schemas, roots, p, b);
  }

  /** A document whose definitions are all well formed satisfies the
      reachable hypothesis for any roots it defines. */
  lemma {:induction false} WellFormedReachable(schemas: map<string, Definition>, roots: set<string>)
    requires SchemasWellFormed(schemas)
    requires forall r :: r in roots ==> r in schemas
    ensures ReachableWellFormed(schemas, roots)
  {
    forall n | Reachable(schemas, roots, n) ensures n in schemas {
      var p :| IsRefPath(schemas, roots, p) && p[|p| - 1] == n;
      if |p| > 1 {
        var x := p[|p| - 2];
        assert Edge(schemas, x, p[|p| - 2 + 1]);
        var j :| 0 <= j < |PropertiesOf(schemas, x).value| && RefTarget(PropertiesOf(schemas, x).value[j].1) == Some(n);
        assert x in schemas;
      }
    }
  }

  lemma {:induction false} ExpandPropsTotal(schemas: map<string, Definition>, roots: set<string>, parent: string,
                                            props: seq<(string, PropSchema)>, i: nat, acc: seq<string>)
    requires ReachableWellFormed(schemas, roots)
    requires Reachable(schemas, roots, parent) && PropertiesOf(schemas, parent) == Success(props)
    requires i <= |props|
    ensures ExpandProps(schemas, props, i, acc).Success?
    decreases Unvisited(schemas, acc), |props| - i
  {
    if i < |props| {
      assert PropsResolvable(schemas, props);
      var pr := PropertyRef(props[i].1);
      if pr.value.None? {
        ExpandPropsTotal(schemas, roots, parent, props, i + 1, acc);
      } else {
        var n := LastSegment(pr.value.value);
        if n == "" || n in acc {
          ExpandPropsTotal(schemas, roots, parent, props, i + 1, acc);
        } else {
          assert RefTarget(props[i].1) == Some(n);
          assert Edge(schemas, parent, n);
          ReachableStep(schemas, roots, parent, n);
          var ps := PropertiesOf(schemas, n).value;
          UnvisitedShrinks(schemas, acc, n);
          ExpandPropsTotal(schemas, roots, n, ps, 0, acc + [n]);
          var acc' := ExpandProps(schemas, ps, 0, acc + [n]).value;
          UnvisitedNoLarger(schemas, acc, acc');
          ExpandPropsTotal(schemas, roots, parent, props, i + 1, acc');
        }
      }
    }
  }

  lemma {:induction false} DiscoverTotal(schemas: map<string, Definition>, roots: set<string>, bodies: seq<Body>, acc: seq<string>)
    requires ReachableWellFormed(schemas, roots)
    requires forall b :: b in bodies ==> BodyRef(b).Success? && (RootName(b).Some? ==> RootName(b).value in roots)
    ensures DiscoverFrom(schemas, bodies, acc).Success?
    decreases |bodies|
  {
    if |bodies| > 0 {
      var br := BodyRef(bodies[0]);
      if br.value.Some? {
        var n := LastSegment(br.value.value);
        if n !in acc {
          RootReachable(schemas, roots, n);
          ExpandPropsTotal(schemas, roots, n, PropertiesOf(schemas, n).value, 0, acc + [n]);
        }
      }
      var acc' := ExtractRefDefinition(schemas, bodies[0], acc).value;
      DiscoverTotal(schemas, roots, bodies[1..], acc');
    }
  }

  /** Termination and success: a contract whose bodies all have schemas and
      whose definitions reachable from the bodies' roots exist and only refer
      to defined names resolves, whatever cycles its references form. */
  lemma {:induction false} WellFormedResolves(doc: Document)
    requires forall b :: b in PathBodies(doc.paths) ==> BodyRef(b).Success?
    requires ReachableWellFormed(doc.schemas, RootNames(PathBodies(doc.paths)))
    ensures DefinitionNames(doc).Success?
  {
    var bodies := PathBodies(doc.paths);
    var roots := RootNames(bodies);
    forall b | b in bodies ensures RootName(b).Some? ==> RootName(b).value in roots {
    }
    DiscoverTotal(doc.schemas, roots, bodies, []);
  }
}
