/**
 * The custom export window: a check pass that walks the open scene's
 * dependencies and lists every script outside the allow-list and outside
 * the Bakery folder, and an export pass that walks the same graph to build
 * the ordered list of paths handed to the package exporter, then appends
 * the Bakery folder's assets that are not listed yet.
 */
module CustomExport {
  import opened EditorStrings
  import opened DependencyWalk

  const BakeryFolder := "Assets/Bakery"

  /** Script file names (without extension) that never draw a warning */
  const AllowedScripts := ["Webview_Wrapper", "NFTView_Wrapper", "ExitPortalWrapper"]

  /** A visited path the check pass reports as an unauthorized script */
  predicate IsUnauthorizedScript(path: string)
    ensures IsUnauthorizedScript(path) ==> |path| >= 3 && path[|path| - 3..] == ".cs"
    ensures StartsWith(path, BakeryFolder) ==> !IsUnauthorizedScript(path)
  {
    && EndsWith(path, ".cs")
    && FileNameWithoutExtension(path) !in AllowedScripts
    && !StartsWith(path, BakeryFolder)
  }

  /** The unauthorized scripts among `visited`, in visiting order */
  function Warned(visited: seq<string>): (r: seq<string>)
    ensures |r| <= |visited|
  {
    if visited == [] then []
    else (if IsUnauthorizedScript(visited[0]) then [visited[0]] else []) + Warned(visited[1..])
  }

  /** A path is warned about exactly when it was visited and is an unauthorized script. */
  lemma {:induction false} WarnedMembers(visited: seq<string>)
    ensures forall x :: x in Warned(visited) <==> x in visited && IsUnauthorizedScript(x)
    decreases |visited|
  {
    if visited != [] {
      WarnedMembers(visited[1..]);
      assert visited == [visited[0]] + visited[1..];
    }
  }

  lemma {:induction false} WarnedConcat(a: seq<string>, b: seq<string>)
    ensures Warned(a + b) == Warned(a) + Warned(b)
    decreases |a|
  {
    if a != [] {
      assert (a + b)[0] == a[0] && (a + b)[1..] == a[1..] + b;
      WarnedConcat(a[1..], b);
      var head := if IsUnauthorizedScript(a[0]) then [a[0]] else [];
      assert Warned(a + b) == head + Warned(a[1..] + b);
      assert Warned(a) == head + Warned(a[1..]);
    } else {
      assert a + b == b;
    }
  }

  lemma {:induction false} WarnedNoDuplicates(s: seq<string>)
    requires NoDuplicates(s)
    ensures NoDuplicates(Warned(s))
    decreases |s|
  {
    if s != [] {
      WarnedNoDuplicates(s[1..]);
      WarnedMembers(s[1..]);
      assert s[0] !in s[1..] by {
        forall k | 0 <= k < |s[1..]| ensures s[1..][k] != s[0] { assert s[1..][k] == s[k + 1]; }
      }
      var head := if IsUnauthorizedScript(s[0]) then [s[0]] else [];
      NoDuplicatesConcat(head, Warned(s[1..]));
    }
  }

  /** A script named after an allowed wrapper is never reported, wherever it lies. */
  lemma AllowedScriptNeverWarned(dir: string, name: string)
    requires name in AllowedScripts
    ensures !IsUnauthorizedScript(dir + "/" + name + ".cs")
  {
    var path := dir + "/" + name + ".cs";
    assert '/' !in name by {
      assert '/' !in AllowedScripts[0] && '/' !in AllowedScripts[1] && '/' !in AllowedScripts[2];
    }
    assert path == dir + "/" + name + "." + "cs";
    FileNameWithoutExtensionOf(dir, name, "cs");
    assert FileNameWithoutExtension(path) in AllowedScripts;
  }

  /**
   * Any other script is reported exactly when its path does not start with
   * the plain string "Assets/Bakery"; a sibling folder such as
   * "Assets/BakeryTools" is exempt too.
   */
  lemma OtherScriptWarnedUnlessBakery(dir: string, name: string)
    requires name !in AllowedScripts && '/' !in name
    ensures IsUnauthorizedScript(dir + "/" + name + ".cs") <==>
              !StartsWith(dir + "/" + name + ".cs", BakeryFolder)
  {
    var path := dir + "/" + name + ".cs";
    FileNameWithoutExtensionOf(dir, name, "cs");
    assert path == dir + "/" + name + "." + "cs";
    assert path[|path| - 3..] == ".cs";
  }

  /** The Bakery exemption is a plain prefix test, so a look-alike folder is exempt as well. */
  lemma BakeryLookalikeExempt(rest: string)
    ensures !IsUnauthorizedScript("Assets/BakeryX/" + rest)
  {
    assert ("Assets/BakeryX/" + rest)[..|BakeryFolder|] == BakeryFolder;
  }

  /**
   * Appends each of `extra` that `list` does not hold yet, in order; what
   * IncludeBakeryAssets leaves after its loop.
   */
  function AppendMissing(list: seq<string>, extra: seq<string>): (r: seq<string>)
    ensures |list| <= |r| <= |list| + |extra|
    decreases |extra|
  {
    if extra == [] then list
    else AppendMissing(if extra[0] in list then list else list + [extra[0]], extra[1..])
  }

  /**
   * AppendMissing keeps `list` as a prefix and adds only paths of `extra`
   * that `list` does not hold.
   */
  lemma {:induction false} AppendMissingExtends(list: seq<string>, extra: seq<string>)
    ensures AppendMissing(list, extra)[..|list|] == list
    ensures forall i :: |list| <= i < |AppendMissing(list, extra)| ==>
              AppendMissing(list, extra)[i] !in list && AppendMissing(list, extra)[i] in extra
    decreases |extra|
  {
    if extra != [] {
      var next := if extra[0] in list then list else list + [extra[0]];
      var r := AppendMissing(next, extra[1..]);
      AppendMissingExtends(next, extra[1..]);
      assert r[..|list|] == next[..|list|] == list;
      forall i | |list| <= i < |r| ensures r[i] !in list && r[i] in extra {
        if i >= |next| {
          assert r[i] !in next && r[i] in extra[1..];
        } else {
          assert r[i] == next[i] == extra[0];
        }
      }
    }
  }

  /** Every path of `extra` is in the result, and nothing else is added. */
  lemma {:induction false} AppendMissingCovers(list: seq<string>, extra: seq<string>)
    ensures Elems(AppendMissing(list, extra)) == Elems(list) + Elems(extra)
    decreases |extra|
  {
    if extra != [] {
      var next := if extra[0] in list then list else list + [extra[0]];
      AppendMissingCovers(next, extra[1..]);
      assert extra == [extra[0]] + extra[1..];
      ElemsConcat([extra[0]], extra[1..]);
      ElemsConcat(list, [extra[0]]);
    }
  }

  /** No path is appended twice, so a duplicate-free list stays duplicate-free. */
  lemma {:induction false} AppendMissingNoDuplicates(list: seq<string>, extra: seq<string>)
    ensures NoDuplicates(AppendMissing(list, extra)[|list|..])
    ensures NoDuplicates(list) ==> NoDuplicates(AppendMissing(list, extra))
    decreases |extra|
  {
    var r := AppendMissing(list, extra);
    AppendMissingExtends(list, extra);
    if extra != [] {
      var next := if extra[0] in list then list else list + [extra[0]];
      AppendMissingNoDuplicates(next, extra[1..]);
      AppendMissingExtends(next, extra[1..]);
      var tail := r[|next|..];
      if next != list {
        assert r[|list|..] == [extra[0]] + tail;
        assert extra[0] !in tail by {
          forall k | 0 <= k < |tail| ensures tail[k] != extra[0] {
            assert tail[k] == r[|next| + k];
          }
        }
        NoDuplicatesConcat([extra[0]], tail);
      } else {
        assert r[|list|..] == tail;
      }
    }
    if NoDuplicates(list) {
      assert r == list + r[|list|..];
      forall x | x in list ensures x !in r[|list|..] {
        forall k | 0 <= k < |r[|list|..]| ensures r[|list|..][k] != x {
          assert r[|list|..][k] == r[|list| + k];
        }
      }
      NoDuplicatesConcat(list, r[|list|..]);
    }
  }

  /**
   * Sequence concatenation regroups freely; a proof aid that hands the
   * solver the regrouping the walk methods' loop invariants need.
   */
  lemma ConcatAssoc(a: seq<string>, b: seq<string>, c: seq<string>)
    ensures a + b + c == a + (b + c)
  {
  }

  /**
   * A proof aid for CollectDependencies: marking a fresh path and then
   * walking its dependencies adds exactly the walk's paths and warnings.
   */
  lemma WalkStart(g: Graph, assetPath: string, processed: set<string>, warned: seq<string>)
    requires assetPath !in processed && IsProjectAsset(assetPath)
    ensures var rest := VisitAll(g, Dependencies(g, assetPath), processed + {assetPath});
      && (processed + {assetPath}) + Elems(rest) == processed + Elems(Visit(g, assetPath, processed))
      && (warned + Warned([assetPath])) + Warned(rest) == warned + Warned(Visit(g, assetPath, processed))
  {
    var rest := VisitAll(g, Dependencies(g, assetPath), processed + {assetPath});
    VisitUnfold(g, assetPath, processed);
    WarnedConcat([assetPath], rest);
    ConcatAssoc(warned, Warned([assetPath]), Warned(rest));
  }

  /**
   * A proof aid for CollectDependencies: walking the i-th dependency and
   * then the rest adds what walking the dependencies from i on adds.
   */
  lemma WalkStep(g: Graph, paths: seq<string>, i: int, before: set<string>, warned: seq<string>)
    requires 0 <= i < |paths|
    ensures var step := Visit(g, paths[i], before);
      var later := VisitAll(g, paths[i + 1..], before + Elems(step));
      && (before + Elems(step)) + Elems(later) == before + Elems(VisitAll(g, paths[i..], before))
      && (warned + Warned(step)) + Warned(later) == warned + Warned(VisitAll(g, paths[i..], before))
  {
    var step := Visit(g, paths[i], before);
    var later := VisitAll(g, paths[i + 1..], before + Elems(step));
    VisitAllStep(g, paths, i, before);
    WarnedConcat(step, later);
    ConcatAssoc(warned, Warned(step), Warned(later));
  }

  /** What the "Check and Export Scene" button leads to */
  datatype CheckOutcome =
    | CheckCancelled             // the user cancelled the save prompt
    | NoActiveScene              // no scene is open
    | UnauthorizedScripts(count: nat)
    | ReadyToExport              // nothing to warn about; the export dialog comes next

  class CustomExportTool {
    /** Scripts the last check reported, shown in the window */
    var warnedScripts: seq<string>

    constructor ()
      ensures warnedScripts == []
    {
      warnedScripts := [];
    }

    /** Appends `assetPath` to warnedScripts when it is an unauthorized script. */
    method WarnIfUnauthorized(assetPath: string)
      modifies this
      ensures warnedScripts == old(warnedScripts) + Warned([assetPath])
      ensures |warnedScripts| == |old(warnedScripts)| + (if IsUnauthorizedScript(assetPath) then 1 else 0)
    {
      if EndsWith(assetPath, ".cs") {
        var scriptName := FileNameWithoutExtension(assetPath);
        if scriptName !in AllowedScripts && !StartsWith(assetPath, BakeryFolder) {
          warnedScripts := warnedScripts + [assetPath];
        }
      }
    }

    /**
     * The check pass's walk: marks `assetPath` and, recursively, its
     * dependencies, appending each unauthorized script it marks to
     * warnedScripts.
     */
    method CollectDependencies(g: Graph, assetPath: string, processed: set<string>)
      returns (processed': set<string>)
      modifies this
      ensures processed' == processed + Elems(Visit(g, assetPath, processed))
      ensures warnedScripts == old(warnedScripts) + Warned(Visit(g, assetPath, processed))
      ensures assetPath in processed || !IsProjectAsset(assetPath) ==>
                processed' == processed && warnedScripts == old(warnedScripts)
      decreases g.Keys - processed
    {
      if assetPath in processed || !IsProjectAsset(assetPath) {
        return processed;
      }
      processed' := processed + {assetPath};
      WarnIfUnauthorized(assetPath);
      var dependencies := Dependencies(g, assetPath);
      ghost var walk := Visit(g, assetPath, processed);
      WalkStart(g, assetPath, processed, old(warnedScripts));
      for i := 0 to |dependencies|
        invariant processed + {assetPath} <= processed'
        invariant processed' + Elems(VisitAll(g, dependencies[i..], processed')) == processed + Elems(walk)
        invariant warnedScripts + Warned(VisitAll(g, dependencies[i..], processed')) ==
                  old(warnedScripts) + Warned(walk)
      {
        ghost var before := processed';
        WalkStep(g, dependencies, i, before, warnedScripts);
        assert assetPath in g.Keys - processed && assetPath !in g.Keys - before;
        processed' := CollectDependencies(g, dependencies[i], processed');
      }
    }

    /**
     * "Check and Export Scene": after the scene is saved, clears the warning
     * list and walks the open scene's dependencies from an empty processed set.
     */
    method CheckSceneAndUserContent(g: Graph, savePromptAccepted: bool, scenePath: string)
      returns (outcome: CheckOutcome)
      modifies this
      ensures !savePromptAccepted ==> outcome == CheckCancelled && warnedScripts == old(warnedScripts)
      ensures savePromptAccepted && scenePath == [] ==>
                outcome == NoActiveScene && warnedScripts == old(warnedScripts)
      ensures savePromptAccepted && scenePath != [] ==>
                && warnedScripts == Warned(Visit(g, scenePath, {}))
                && NoDuplicates(warnedScripts)
                && (forall p :: p in warnedScripts <==> Reachable(g, scenePath, p) && IsUnauthorizedScript(p))
                && outcome == (if |warnedScripts| > 0 then UnauthorizedScripts(|warnedScripts|) else ReadyToExport)
    {
      if !savePromptAccepted {
        return CheckCancelled;
      }
      if scenePath == [] {
        return NoActiveScene;
      }
      var processedAssets: set<string> := {};
      warnedScripts := [];
      processedAssets := CollectDependencies(g, scenePath, processedAssets);
      WalkMarksReachable(g, scenePath);
      WarnedNoDuplicates(Visit(g, scenePath, {}));
      WarnedMembers(Visit(g, scenePath, {}));
      if |warnedScripts| > 0 {
        outcome := UnauthorizedScripts(|warnedScripts|);
      } else {
        outcome := ReadyToExport;
      }
    }

    /**
     * The export pass's walk: appends each path it newly marks to the export
     * list, in depth-first preorder, and leaves earlier entries alone.
     */
    method CollectAssetsForExport(g: Graph, assetPath: string, assetsToExport: seq<string>, processed: set<string>)
      returns (assetsToExport': seq<string>, processed': set<string>)
      ensures assetsToExport' == assetsToExport + Visit(g, assetPath, processed)
      ensures processed' == processed + Elems(Visit(g, assetPath, processed))
      ensures assetPath in processed || !IsProjectAsset(assetPath) ==>
                assetsToExport' == assetsToExport && processed' == processed
      decreases g.Keys - processed
    {
      if assetPath in processed || !IsProjectAsset(assetPath) {
        return assetsToExport, processed;
      }
      processed' := processed + {assetPath};
      assetsToExport' := assetsToExport + [assetPath];
      var dependencies := Dependencies(g, assetPath);
      ghost var walk := Visit(g, assetPath, processed);
      VisitUnfold(g, assetPath, processed);
      ConcatAssoc(assetsToExport, [assetPath], VisitAll(g, dependencies, processed + {assetPath}));
      for i := 0 to |dependencies|
        invariant processed + {assetPath} <= processed'
        invariant processed' + Elems(VisitAll(g, dependencies[i..], processed')) == processed + Elems(walk)
        invariant assetsToExport' + VisitAll(g, dependencies[i..], processed') == assetsToExport + walk
      {
        ghost var before := processed';
        ghost var step := Visit(g, dependencies[i], before);
        ghost var later := VisitAll(g, dependencies[i + 1..], before + Elems(step));
        VisitAllStep(g, dependencies, i, before);
        assert assetPath in g.Keys - processed && assetPath !in g.Keys - before;
        ghost var listed := assetsToExport';
        assetsToExport', processed' := CollectAssetsForExport(g, dependencies[i], assetsToExport', processed');
        ConcatAssoc(listed, step, later);
      }
    }

    /**
     * Appends the Bakery folder's assets that the export list lacks; when
     * the folder does not exist, leaves the list alone and reports that.
     */
    method IncludeBakeryAssets(assetsToExport: seq<string>, bakeryFolderExists: bool, bakeryAssets: seq<string>)
      returns (assetsToExport': seq<string>, folderMissing: bool)
      ensures folderMissing == !bakeryFolderExists
      ensures assetsToExport' == if bakeryFolderExists then AppendMissing(assetsToExport, bakeryAssets) else assetsToExport
      ensures |assetsToExport| <= |assetsToExport'| && assetsToExport'[..|assetsToExport|] == assetsToExport
      ensures forall i :: |assetsToExport| <= i < |assetsToExport'| ==>
                assetsToExport'[i] in bakeryAssets && assetsToExport'[i] !in assetsToExport
      ensures NoDuplicates(assetsToExport'[|assetsToExport|..])
      ensures bakeryFolderExists ==> forall p :: p in bakeryAssets ==> p in assetsToExport'
    {
      folderMissing := !bakeryFolderExists;
      assetsToExport' := assetsToExport;
      if bakeryFolderExists {
        for i := 0 to |bakeryAssets|
          invariant AppendMissing(assetsToExport', bakeryAssets[i..]) == AppendMissing(assetsToExport, bakeryAssets)
        {
          assert bakeryAssets[i..][1..] == bakeryAssets[i + 1..];
          var assetPath := bakeryAssets[i];
          if assetPath !in assetsToExport' {
            assetsToExport' := assetsToExport' + [assetPath];
          }
        }
        AppendMissingExtends(assetsToExport, bakeryAssets);
        AppendMissingCovers(assetsToExport, bakeryAssets);
        AppendMissingNoDuplicates(assetsToExport, bakeryAssets);
        assert forall p :: p in bakeryAssets ==> p in Elems(assetsToExport');
      }
    }

    /**
     * The list "Export Anyway" and a confirmed check hand to the package
     * exporter: the scene path, then the walk from the scene, then the
     * missing Bakery assets.
     */
    method ExportCurrentSceneAndUserContent(g: Graph, scenePath: string, bakeryFolderExists: bool, bakeryAssets: seq<string>)
      returns (assetsToExport: seq<string>, bakeryMissing: bool)
      ensures var walk := Visit(g, scenePath, {});
        && |assetsToExport| >= 1 + |walk|
        && assetsToExport[0] == scenePath
        && assetsToExport[1..1 + |walk|] == walk
        && (forall x :: x in walk <==> Reachable(g, scenePath, x))
        && NoDuplicates(walk)
        && (IsProjectAsset(scenePath) ==> |walk| >= 1 && assetsToExport[1] == scenePath)
        && (forall i :: 1 + |walk| <= i < |assetsToExport| ==>
              assetsToExport[i] in bakeryAssets && assetsToExport[i] !in assetsToExport[..1 + |walk|])
        && (!bakeryFolderExists ==> |assetsToExport| == 1 + |walk|)
      ensures assetsToExport ==
                if bakeryFolderExists then AppendMissing([scenePath] + Visit(g, scenePath, {}), bakeryAssets)
                else [scenePath] + Visit(g, scenePath, {})
      ensures bakeryFolderExists ==> forall p :: p in bakeryAssets ==> p in assetsToExport
      ensures NoDuplicates(assetsToExport[1 + |Visit(g, scenePath, {})|..])
      ensures bakeryMissing == !bakeryFolderExists
    {
      assetsToExport := [scenePath];
      var processedAssets: set<string> := {};
      assetsToExport, processedAssets := CollectAssetsForExport(g, scenePath, assetsToExport, processedAssets);
      ghost var collected := assetsToExport;
      assetsToExport, bakeryMissing := IncludeBakeryAssets(assetsToExport, bakeryFolderExists, bakeryAssets);
      WalkMarksReachable(g, scenePath);
      VisitFresh(g, scenePath, {});
      assert assetsToExport[..|collected|] == collected;
    }
  }
}
