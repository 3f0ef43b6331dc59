/**
 * The depth-first walk that both CollectDependencies and
 * CollectAssetsForExport perform over the asset database's dependency
 * graph, written as a pair of functions that return the paths newly
 * marked as processed, in the order the walk marks them (preorder).
 * The lemmas here say what that order holds: only "Assets/" paths, none
 * already processed, none twice, and from an empty processed set exactly
 * the paths reachable from the start through "Assets/" paths.
 */
module DependencyWalk {
  import opened EditorStrings

  /** AssetDatabase.GetDependencies(path, false) for every path it knows */
  type Graph = map<string, seq<string>>

  const AssetsRoot := "Assets/"

  /** The walk follows only paths inside the project's Assets folder. */
  predicate IsProjectAsset(path: string) {
    StartsWith(path, AssetsRoot)
  }

  /** Direct dependencies of `path`; a path the graph does not list has none */
  function Dependencies(g: Graph, path: string): seq<string> {
    if path in g then g[path] else []
  }

  function Elems(s: seq<string>): set<string> {
    set x | x in s
  }

  predicate NoDuplicates(s: seq<string>) {
    forall i, j :: 0 <= i < j < |s| ==> s[i] != s[j]
  }

  /**
   * Paths newly processed by a walk started at `path` when `visited` are
   * already processed: nothing for a processed or non-"Assets/" path,
   * otherwise the path itself followed by the walks of its dependencies.
   */
  function Visit(g: Graph, path: string, visited: set<string>): (r: seq<string>)
    ensures r == [] <==> path in visited || !IsProjectAsset(path)
    ensures r != [] ==> r[0] == path
    decreases g.Keys - visited, 0, 0
  {
    if path in visited || !IsProjectAsset(path) then []
    else if path in g then [path] + VisitAll(g, g[path], visited + {path})
    else [path]
  }

  /** The walks of `paths` one after another, each seeing what the earlier ones processed */
  function VisitAll(g: Graph, paths: seq<string>, visited: set<string>): (r: seq<string>)
    ensures |paths| > 0 && paths[0] !in visited && IsProjectAsset(paths[0]) ==> |r| > 0 && r[0] == paths[0]
    decreases g.Keys - visited, 1, |paths|
  {
    if paths == [] then []
    else
      var first := Visit(g, paths[0], visited);
      first + VisitAll(g, paths[1..], visited + Elems(first))
  }

  /** A chain of "Assets/" paths, each a direct dependency of the one before */
  ghost predicate IsAssetChain(g: Graph, xs: seq<string>) {
    && |xs| > 0
    && (forall i :: 0 <= i < |xs| ==> IsProjectAsset(xs[i]))
    && (forall i :: 0 <= i < |xs| - 1 ==> xs[i + 1] in Dependencies(g, xs[i]))
  }

  ghost predicate Reachable(g: Graph, from: string, to: string) {
    exists xs :: IsAssetChain(g, xs) && xs[0] == from && xs[|xs| - 1] == to
  }

  /** Every "Assets/" dependency of a path in `xs` lies in `done` */
  ghost predicate DependenciesIn(g: Graph, xs: seq<string>, done: set<string>) {
    forall x, d :: x in xs && d in Dependencies(g, x) && IsProjectAsset(d) ==> d in done
  }

  lemma ElemsConcat(a: seq<string>, b: seq<string>)
    ensures Elems(a + b) == Elems(a) + Elems(b)
  {
  }

  lemma NoDuplicatesConcat(a: seq<string>, b: seq<string>)
    requires NoDuplicates(a) && NoDuplicates(b)
    requires forall x :: x in a ==> x !in b
    ensures NoDuplicates(a + b)
  {
    forall i, j | 0 <= i < j < |a + b| ensures (a + b)[i] != (a + b)[j] {
      if j >= |a| && i < |a| {
        assert (a + b)[i] in a && (a + b)[j] in b;
      }
    }
  }

  /** A walk from an unprocessed "Assets/" path marks it, then walks its dependencies. */
  lemma VisitUnfold(g: Graph, path: string, visited: set<string>)
    requires path !in visited && IsProjectAsset(path)
    ensures Visit(g, path, visited) == [path] + VisitAll(g, Dependencies(g, path), visited + {path})
    ensures Elems(Visit(g, path, visited)) ==
              {path} + Elems(VisitAll(g, Dependencies(g, path), visited + {path}))
  {
    ElemsConcat([path], VisitAll(g, Dependencies(g, path), visited + {path}));
  }

  /** Walking the dependencies from position i on: the i-th walk, then the rest. */
  lemma VisitAllStep(g: Graph, paths: seq<string>, i: int, visited: set<string>)
    requires 0 <= i < |paths|
    ensures VisitAll(g, paths[i..], visited) ==
              Visit(g, paths[i], visited) +
              VisitAll(g, paths[i + 1..], visited + Elems(Visit(g, paths[i], visited)))
    ensures Elems(VisitAll(g, paths[i..], visited)) ==
              Elems(Visit(g, paths[i], visited)) +
              Elems(VisitAll(g, paths[i + 1..], visited + Elems(Visit(g, paths[i], visited))))
  {
    assert paths[i..][0] == paths[i] && paths[i..][1..] == paths[i + 1..];
    ElemsConcat(Visit(g, paths[i], visited),
                VisitAll(g, paths[i + 1..], visited + Elems(Visit(g, paths[i], visited))));
  }

  /** A walk marks only fresh "Assets/" paths, each once, and starts with its own path. */
  lemma {:induction false} VisitFresh(g: Graph, path: string, visited: set<string>)
    ensures forall x :: x in Visit(g, path, visited) ==> IsProjectAsset(x) && x !in visited
    ensures NoDuplicates(Visit(g, path, visited))
    ensures Visit(g, path, visited) == [] <==> path in visited || !IsProjectAsset(path)
    ensures Visit(g, path, visited) != [] ==> Visit(g, path, visited)[0] == path
    decreases g.Keys - visited, 0, 0
  {
    if path !in visited && IsProjectAsset(path) && path in g {
      var rest := VisitAll(g, g[path], visited + {path});
      VisitAllFresh(g, g[path], visited + {path});
      NoDuplicatesConcat([path], rest);
    }
  }

  lemma {:induction false} VisitAllFresh(g: Graph, paths: seq<string>, visited: set<string>)
    ensures forall x :: x in VisitAll(g, paths, visited) ==> IsProjectAsset(x) && x !in visited
    ensures NoDuplicates(VisitAll(g, paths, visited))
    decreases g.Keys - visited, 1, |paths|
  {
    if paths != [] {
      var first := Visit(g, paths[0], visited);
      var rest := VisitAll(g, paths[1..], visited + Elems(first));
      VisitFresh(g, paths[0], visited);
      VisitAllFresh(g, paths[1..], visited + Elems(first));
      NoDuplicatesConcat(first, rest);
    }
  }

  /** Soundness: every path a walk marks is reachable from where it started. */
  lemma {:induction false} VisitSound(g: Graph, path: string, visited: set<string>)
    ensures forall x :: x in Visit(g, path, visited) ==> Reachable(g, path, x)
    decreases g.Keys - visited, 0, 0
  {
    if path !in visited && IsProjectAsset(path) {
      assert IsAssetChain(g, [path]);
      if path in g {
        VisitAllSound(g, g[path], visited + {path});
        forall x | x in VisitAll(g, g[path], visited + {path}) ensures Reachable(g, path, x) {
          var k :| 0 <= k < |g[path]| && Reachable(g, g[path][k], x);
          var xs :| IsAssetChain(g, xs) && xs[0] == g[path][k] && xs[|xs| - 1] == x;
          var ys := [path] + xs;
          forall i | 0 <= i < |ys| - 1 ensures ys[i + 1] in Dependencies(g, ys[i]) {
            if i > 0 { assert ys[i] == xs[i - 1] && ys[i + 1] == xs[i]; }
          }
          assert IsAssetChain(g, ys);
        }
      }
    }
  }

  lemma {:induction false} VisitAllSound(g: Graph, paths: seq<string>, visited: set<string>)
    ensures forall x :: x in VisitAll(g, paths, visited) ==>
              exists k :: 0 <= k < |paths| && Reachable(g, paths[k], x)
    decreases g.Keys - visited, 1, |paths|
  {
    if paths != [] {
      var first := Visit(g, paths[0], visited);
      VisitSound(g, paths[0], visited);
      VisitAllSound(g, paths[1..], visited + Elems(first));
      forall x | x in VisitAll(g, paths, visited)
        ensures exists k :: 0 <= k < |paths| && Reachable(g, paths[k], x)
      {
        if x !in first {
          assert x in VisitAll(g, paths[1..], visited + Elems(first));
          var k :| 0 <= k < |paths[1..]| && Reachable(g, paths[1..][k], x);
          assert paths[1..][k] == paths[k + 1];
        }
      }
    }
  }

  /**
   * Closure: once a walk returns, every "Assets/" dependency of a path it
   * marked is processed, and so is its start path if that is an "Assets/" path.
   */
  lemma {:induction false} VisitClosed(g: Graph, path: string, visited: set<string>)
    ensures DependenciesIn(g, Visit(g, path, visited), visited + Elems(Visit(g, path, visited)))
    ensures IsProjectAsset(path) ==> path in visited + Elems(Visit(g, path, visited))
    decreases g.Keys - visited, 0, 0
  {
    if path !in visited && IsProjectAsset(path) && path in g {
      var rest := VisitAll(g, g[path], visited + {path});
      VisitAllClosed(g, g[path], visited + {path});
      ElemsConcat([path], rest);
    }
  }

  lemma {:induction false} VisitAllClosed(g: Graph, paths: seq<string>, visited: set<string>)
    ensures DependenciesIn(g, VisitAll(g, paths, visited), visited + Elems(VisitAll(g, paths, visited)))
    ensures forall k :: 0 <= k < |paths| && IsProjectAsset(paths[k]) ==>
              paths[k] in visited + Elems(VisitAll(g, paths, visited))
    decreases g.Keys - visited, 1, |paths|
  {
    if paths != [] {
      var first := Visit(g, paths[0], visited);
      var rest := VisitAll(g, paths[1..], visited + Elems(first));
      VisitClosed(g, paths[0], visited);
      VisitAllClosed(g, paths[1..], visited + Elems(first));
      ElemsConcat(first, rest);
      forall k | 0 < k < |paths| && IsProjectAsset(paths[k])
        ensures paths[k] in visited + Elems(VisitAll(g, paths, visited))
      {
        assert paths[k] == paths[1..][k - 1];
      }
    }
  }

  /** A chain that starts inside a dependency-closed set never leaves it. */
  lemma {:induction false} ChainStaysInside(g: Graph, xs: seq<string>, done: set<string>)
    requires IsAssetChain(g, xs) && xs[0] in done
    requires forall x, d :: x in done && d in Dependencies(g, x) && IsProjectAsset(d) ==> d in done
    ensures xs[|xs| - 1] in done
    decreases |xs|
  {
    if |xs| > 1 {
      assert xs[1] in Dependencies(g, xs[0]);
      var ys := xs[1..];
      forall i | 0 <= i < |ys| - 1 ensures ys[i + 1] in Dependencies(g, ys[i]) {
        assert ys[i] == xs[i + 1] && ys[i + 1] == xs[i + 2];
      }
      assert IsAssetChain(g, ys);
      ChainStaysInside(g, ys, done);
    }
  }

  /**
   * A walk from `start` with nothing processed yet marks exactly the paths
   * reachable from `start` through "Assets/" paths, each once.
   */
  lemma WalkMarksReachable(g: Graph, start: string)
    ensures forall x :: x in Visit(g, start, {}) <==> Reachable(g, start, x)
    ensures NoDuplicates(Visit(g, start, {}))
  {
    var walk := Visit(g, start, {});
    VisitSound(g, start, {});
    VisitClosed(g, start, {});
    VisitFresh(g, start, {});
    assert {} + Elems(walk) == Elems(walk);
    forall x | Reachable(g, start, x) ensures x in walk {
      var xs :| IsAssetChain(g, xs) && xs[0] == start && xs[|xs| - 1] == x;
      ChainStaysInside(g, xs, Elems(walk));
    }
  }
}
