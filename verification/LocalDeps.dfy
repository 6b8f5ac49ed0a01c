/**
  The release script's dependency closure over a Cargo lock file: a depth-first search
  that records nodes in one shared set and follows those it has not seen before.
 */
module LocalDeps {
  import opened Basics
  import opened Options

  datatype Package = Package(name: string, version: string, dependencies: seq<string>)

  /** A dependency as the script keeps it; without a version it stands for all packages of that name. */
  type Node = (string, Option<string>)

  /** "name", "name version" or "name version (source)". */
  function ParseDependency(dep: string): (n: Node) {
    var i := IndexOf(dep, ' ');
    if i == |dep| then (dep, None)
    else
      var rest := dep[i + 1..];
      (dep[..i], Some(rest[..IndexOf(rest, ' ')]))
  }

  lemma {:induction false} ParseSplit(name: string, rest: string)
    requires ' ' !in name
    ensures ParseDependency(name + [' '] + rest) == (name, Some(rest[..IndexOf(rest, ' ')]))
  {
    var dep := name + [' '] + rest;
    IndexAfter(name, ' ', rest);
    assert dep[..|name|] == name && dep[|name| + 1..] == rest;
  }

  /** Each of the three forms a lock file uses is read as the name and, if given, the version. */
  lemma {:induction false} ParseForms(name: string, version: string, source: string)
    requires ' ' !in name && ' ' !in version
    ensures ParseDependency(name) == (name, None)
    ensures ParseDependency(name + [' '] + version) == (name, Some(version))
    ensures ParseDependency(name + [' '] + (version + [' '] + source)) == (name, Some(version))
  {
    ParseSplit(name, version);
    assert version[..|version|] == version;
    ParseSplit(name, version + [' '] + source);
    IndexAfter(version, ' ', source);
    assert (version + [' '] + source)[..|version|] == version;
  }

  predicate Matches(p: Package, n: Node) {
    p.name == n.0 && (n.1.Some? ==> p.version == n.1.value)
  }

  function DependenciesOf(p: Package): (ns: set<Node>) {
    set dep | dep in p.dependencies :: ParseDependency(dep)
  }

  function Direct(data: seq<Package>, n: Node): (ns: set<Node>) {
    set p, d | p in data && Matches(p, n) && d in DependenciesOf(p) :: d
  }

  function Mentioned(data: seq<Package>): (ns: set<Node>) {
    set p, d | p in data && d in DependenciesOf(p) :: d
  }

  /** The direct dependencies are those of every package with the name and, if one is given, the version. */
  lemma DirectIs(data: seq<Package>, n: Node, d: Node)
    ensures d in Direct(data, n)
            <==> exists i, j ::
                   && 0 <= i < |data| && 0 <= j < |data[i].dependencies|
                   && data[i].name == n.0 && (n.1.None? || n.1.value == data[i].version)
                   && ParseDependency(data[i].dependencies[j]) == d
  {
    if d in Direct(data, n) {
      var p :| p in data && Matches(p, n) && d in DependenciesOf(p);
      var dep :| dep in p.dependencies && ParseDependency(dep) == d;
      var i :| 0 <= i < |data| && data[i] == p;
      var j :| 0 <= j < |p.dependencies| && p.dependencies[j] == dep;
      assert ParseDependency(data[i].dependencies[j]) == d;
    }
    if i, j :| && 0 <= i < |data| && 0 <= j < |data[i].dependencies|
               && data[i].name == n.0 && (n.1.None? || n.1.value == data[i].version)
               && ParseDependency(data[i].dependencies[j]) == d {
      assert data[i] in data && data[i].dependencies[j] in data[i].dependencies;
      assert d in DependenciesOf(data[i]);
    }
  }

  // ---------------------------------------------------------------------------
  // Reachability, in one or more steps

  ghost predicate IsPath(data: seq<Package>, a: Node, path: seq<Node>) {
    && path != []
    && path[0] in Direct(data, a)
    && forall i :: 0 <= i < |path| - 1 ==> path[i + 1] in Direct(data, path[i])
  }

  ghost predicate Reaches(data: seq<Package>, a: Node, b: Node) {
    exists path :: IsPath(data, a, path) && path[|path| - 1] == b
  }

  lemma ReachesDirect(data: seq<Package>, a: Node, b: Node)
    requires b in Direct(data, a)
    ensures Reaches(data, a, b)
  {
    assert IsPath(data, a, [b]);
  }

  lemma ReachesThrough(data: seq<Package>, a: Node, b: Node, c: Node)
    requires b in Direct(data, a) && Reaches(data, b, c)
    ensures Reaches(data, a, c)
  {
    var path :| IsPath(data, b, path) && path[|path| - 1] == c;
    var longer := [b] + path;
    forall i | 0 <= i < |longer| - 1 ensures longer[i + 1] in Direct(data, longer[i]) {
      if i > 0 { assert path[i - 1 + 1] in Direct(data, path[i - 1]); }
    }
    assert IsPath(data, a, longer);
  }

  ghost predicate Closed(data: seq<Package>, s: set<Node>) {
    forall n :: n in s ==> Direct(data, n) <= s
  }

  /** A closed set that contains a node's direct dependencies contains all it reaches. */
  lemma {:induction false} ClosedContains(data: seq<Package>, s: set<Node>, a: Node, path: seq<Node>, i: nat)
    requires Closed(data, s) && Direct(data, a) <= s
    requires IsPath(data, a, path) && i < |path|
    ensures path[i] in s
    decreases i
  {
    if i > 0 {
      ClosedContains(data, s, a, path, i - 1);
      assert path[i - 1 + 1] in Direct(data, path[i - 1]);
    }
  }

  /** Everything added since `base` is reachable from `n` and followed up in `all`. */
  ghost predicate Explored(data: seq<Package>, base: set<Node>, all: set<Node>, n: Node) {
    forall x :: x in all && x !in base ==> Direct(data, x) <= all && Reaches(data, n, x)
  }

  /** Adding a direct dependency and exploring from it keeps the exploration sound. */
  lemma ExploredStep(data: seq<Package>, base: set<Node>, mid: set<Node>, all: set<Node>, n: Node, d: Node)
    requires Explored(data, base, mid, n) && d in Direct(data, n)
    requires mid + {d} <= all && Direct(data, d) <= all && Explored(data, mid + {d}, all, d)
    ensures Explored(data, base, all, n)
  {
    ReachesDirect(data, n, d);
    forall x | x in all && x !in base ensures Direct(data, x) <= all && Reaches(data, n, x) {
      if x !in mid + {d} { ReachesThrough(data, n, d, x); }
    }
  }

  lemma DirectMentioned(data: seq<Package>, n: Node)
    ensures Direct(data, n) <= Mentioned(data)
  {
  }

  class Search {
    const data: seq<Package>
    var all: set<Node>

    constructor (data: seq<Package>)
      ensures this.data == data && all == {}
    {
      this.data := data;
      all := {};
    }

    method GetDirectDependencies(n: Node) returns (next: set<Node>)
      ensures next == Direct(data, n)
    {
      next := {};
      for i := 0 to |data|
        invariant next == Direct(data[..i], n)
      {
        var p := data[i];
        if p.name == n.0 && (n.1.Some? ==> p.version == n.1.value) {
          for j := 0 to |p.dependencies|
            invariant next == Direct(data[..i], n) + set dep | dep in p.dependencies[..j] :: ParseDependency(dep)
          {
            next := next + {ParseDependency(p.dependencies[j])};
            assert p.dependencies[..j + 1] == p.dependencies[..j] + [p.dependencies[j]];
          }
          assert p.dependencies[..|p.dependencies|] == p.dependencies;
        }
        DirectSnoc(data[..i], p, n);
        assert data[..i + 1] == data[..i] + [p];
      }
      assert data[..|data|] == data;
    }

    /** Adds everything reachable from the node that is not there yet, and nothing else. */
    method FindRecursiveDependencies(n: Node)
      requires all <= Mentioned(data)
      modifies this`all
      ensures old(all) <= all <= Mentioned(data)
      ensures Direct(data, n) <= all
      ensures Explored(data, old(all), all, n)
      decreases Mentioned(data) - all
    {
      var next := GetDirectDependencies(n);
      DirectMentioned(data, n);
      var todo := next;
      while todo != {}
        invariant todo <= next
        invariant next - todo <= all
        invariant old(all) <= all <= Mentioned(data)
        invariant Explored(data, old(all), all, n)
        decreases todo
      {
        var d :| d in todo;
        todo := todo - {d};
        if d !in all {
          ghost var before := all;
          all := all + {d};
          FindRecursiveDependencies(d);
          ExploredStep(data, old(all), before, all, n, d);
        }
      }
    }

    method FindMatchingCrates(component: string) returns (crates: set<string>)
      ensures crates == Roots(data, component)
      ensures forall name :: name in crates <==> exists p :: p in data && p.name == name && component <= name
    {
      crates := {};
      for i := 0 to |data|
        invariant crates == Roots(data[..i], component)
      {
        if component <= data[i].name {
          crates := crates + {data[i].name};
        }
        assert data[..i + 1] == data[..i] + [data[i]];
      }
      assert data[..|data|] == data;
    }
  }

  lemma DirectSnoc(data: seq<Package>, p: Package, n: Node)
    ensures Direct(data + [p], n) == Direct(data, n) + if Matches(p, n) then DependenciesOf(p) else {}
  {
  }

  function Roots(data: seq<Package>, component: string): (names: set<string>) {
    set p | p in data && component <= p.name :: p.name
  }

  /** The script: exactly the nodes reachable in one or more steps from the component's crates. */
  method AllDependencies(data: seq<Package>, component: string) returns (all: set<Node>)
    ensures forall x :: x in all <==> exists root :: root in Roots(data, component) && Reaches(data, (root, None), x)
  {
    var search := new Search(data);
    var crates := search.FindMatchingCrates(component);
    var todo := crates;
    while todo != {}
      invariant todo <= crates
      invariant search.data == data
      invariant search.all <= Mentioned(data)
      invariant Closed(data, search.all)
      invariant forall c :: c in crates && c !in todo ==> Direct(data, (c, None)) <= search.all
      invariant forall x :: x in search.all ==> exists root :: root in crates && Reaches(data, (root, None), x)
      decreases todo
    {
      var crate :| crate in todo;
      todo := todo - {crate};
      search.FindRecursiveDependencies((crate, None));
    }
    all := search.all;
    forall root, x | root in crates && Reaches(data, (root, None), x) ensures x in all {
      var path :| IsPath(data, (root, None), path) && path[|path| - 1] == x;
      ClosedContains(data, all, (root, None), path, |path| - 1);
    }
  }
}
