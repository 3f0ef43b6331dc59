/**
 * Stand-ins for the few .NET string and path helpers the editor tools call:
 * String.StartsWith, String.EndsWith, String.Contains, String.ToLower and
 * Path.GetFileNameWithoutExtension. Every comparison is ordinal (character by
 * character), although .NET's StartsWith(string) and EndsWith(string)
 * compare under the current culture; ToLower folds the ASCII letters A-Z only.
 */
module EditorStrings {

  /** Ordinal String.StartsWith */
  predicate StartsWith(s: string, prefix: string) {
    |prefix| <= |s| && s[..|prefix|] == prefix
  }

  /** Ordinal String.EndsWith */
  predicate EndsWith(s: string, suffix: string) {
    |suffix| <= |s| && s[|s| - |suffix|..] == suffix
  }

  /** Ordinal String.Contains: `sub` occurs at some position of `s` */
  predicate Contains(s: string, sub: string) {
    exists i :: 0 <= i <= |s| - |sub| && StartsWith(s[i..], sub)
  }

  /** Position of the last `c` in `s`, or -1 when `s` holds no `c` */
  function LastIndexOf(s: string, c: char): (r: int)
    ensures -1 <= r < |s|
    ensures r >= 0 ==> s[r] == c
    ensures forall j :: r < j < |s| ==> s[j] != c
  {
    if |s| == 0 then -1
    else if s[|s| - 1] == c then |s| - 1
    else LastIndexOf(s[..|s| - 1], c)
  }

  /** Path.GetFileName: what follows the last '/' */
  function FileName(path: string): (r: string)
    ensures '/' !in r
    ensures |r| <= |path| && r == path[|path| - |r|..]
    ensures |r| == |path| || path[|path| - |r| - 1] == '/'
  {
    path[LastIndexOf(path, '/') + 1..]
  }

  /** Path.GetFileNameWithoutExtension: the file name up to its last '.' */
  function FileNameWithoutExtension(path: string): (r: string)
    ensures '/' !in r
    ensures |r| <= |path|
    ensures '.' !in FileName(path) ==> r == FileName(path)
    ensures |r| <= |FileName(path)| && r == FileName(path)[..|r|]
    ensures '.' in FileName(path) ==>
              |r| < |FileName(path)| && FileName(path)[|r|] == '.' && '.' !in FileName(path)[|r| + 1..]
  {
    var name := FileName(path);
    var dot := LastIndexOf(name, '.');
    if dot < 0 then name else name[..dot]
  }

  /** A single character at position `k` pins down LastIndexOf when no later `c` exists. */
  lemma LastIndexOfAt(s: string, c: char, k: int)
    requires 0 <= k < |s| && s[k] == c
    requires forall j :: k < j < |s| ==> s[j] != c
    ensures LastIndexOf(s, c) == k
  {
  }

  /**
   * The file-name stand-in recovers the stem of "dir/stem.ext" whenever the
   * stem holds no '/' and the extension holds neither '/' nor '.'.
   */
  lemma FileNameWithoutExtensionOf(dir: string, stem: string, ext: string)
    requires '/' !in stem && '/' !in ext && '.' !in ext
    ensures FileNameWithoutExtension(dir + "/" + stem + "." + ext) == stem
  {
    var path := dir + "/" + stem + "." + ext;
    var tail := stem + "." + ext;
    assert path == dir + "/" + tail;
    forall j | |dir| < j < |path| ensures path[j] != '/' {
      assert path[j] == tail[j - |dir| - 1];
    }
    LastIndexOfAt(path, '/', |dir|);
    assert FileName(path) == tail;
    forall j | |stem| < j < |tail| ensures tail[j] != '.' {
      assert tail[j] == ext[j - |stem| - 1];
    }
    LastIndexOfAt(tail, '.', |stem|);
    assert tail[..|stem|] == stem;
  }

  /** ASCII lower-casing of one character */
  function LowerChar(c: char): char {
    if 'A' <= c <= 'Z' then (c as int - 'A' as int + 'a' as int) as char else c
  }

  /** String.ToLower restricted to ASCII letters */
  function ToLower(s: string): (r: string)
    ensures |r| == |s|
    ensures forall i :: 0 <= i < |s| ==> r[i] == LowerChar(s[i])
  {
    if s == [] then [] else [LowerChar(s[0])] + ToLower(s[1..])
  }

  /** Lower-casing commutes with taking a slice. */
  lemma ToLowerSlice(s: string, i: int, j: int)
    requires 0 <= i <= j <= |s|
    ensures ToLower(s)[i..j] == ToLower(s[i..j])
  {
  }

  /** Lower-casing leaves no upper-case ASCII letter and is idempotent. */
  lemma ToLowerIdempotent(s: string)
    ensures forall i :: 0 <= i < |s| ==> !('A' <= ToLower(s)[i] <= 'Z')
    ensures ToLower(ToLower(s)) == ToLower(s)
  {
  }

  predicate IsLowerCase(s: string) {
    forall i :: 0 <= i < |s| ==> !('A' <= s[i] <= 'Z')
  }

  /** `s` and `t` have the same length and agree letter by letter up to ASCII case */
  predicate EqualIgnoringCase(s: string, t: string) {
    |s| == |t| && forall i :: 0 <= i < |s| ==> LowerChar(s[i]) == LowerChar(t[i])
  }

  /** The stretch of `s` starting at `i` equals `sub` up to ASCII case */
  predicate MatchesIgnoringCaseAt(s: string, i: int, sub: string) {
    0 <= i <= |s| - |sub| && EqualIgnoringCase(s[i..i + |sub|], sub)
  }

  predicate ContainsIgnoringCase(s: string, sub: string) {
    exists i :: 0 <= i <= |s| - |sub| && MatchesIgnoringCaseAt(s, i, sub)
  }

  /** For an all-lower-case `t`, lower-casing `s` gives `t` exactly when they agree up to case. */
  lemma ToLowerEqualsIgnoringCase(s: string, t: string)
    requires IsLowerCase(t)
    ensures ToLower(s) == t <==> EqualIgnoringCase(s, t)
  {
    if EqualIgnoringCase(s, t) {
      assert forall j :: 0 <= j < |t| ==> ToLower(s)[j] == LowerChar(t[j]) == t[j];
    }
  }

  /** One position: the lower-cased string starts `sub` there exactly when the original matches it up to case. */
  lemma LowerStartsWithAt(s: string, i: int, sub: string)
    requires IsLowerCase(sub) && 0 <= i <= |s| - |sub|
    ensures StartsWith(ToLower(s)[i..], sub) <==> MatchesIgnoringCaseAt(s, i, sub)
  {
    var window := s[i..i + |sub|];
    ToLowerSlice(s, i, i + |sub|);
    assert ToLower(s)[i..][..|sub|] == ToLower(window);
    ToLowerEqualsIgnoringCase(window, sub);
    assert StartsWith(ToLower(s)[i..], sub) <==> ToLower(window) == sub;
    assert MatchesIgnoringCaseAt(s, i, sub) <==> EqualIgnoringCase(window, sub);
  }

  /**
   * Searching a lower-cased string for an all-lower-case `sub` finds it
   * exactly where the original holds it in any mix of cases.
   */
  lemma LowerContainsIgnoringCase(s: string, sub: string)
    requires IsLowerCase(sub)
    ensures Contains(ToLower(s), sub) <==> ContainsIgnoringCase(s, sub)
  {
    if Contains(ToLower(s), sub) {
      var i :| 0 <= i <= |ToLower(s)| - |sub| && StartsWith(ToLower(s)[i..], sub);
      LowerStartsWithAt(s, i, sub);
    }
    if ContainsIgnoringCase(s, sub) {
      var i :| 0 <= i <= |s| - |sub| && MatchesIgnoringCaseAt(s, i, sub);
      LowerStartsWithAt(s, i, sub);
    }
  }
}
