# Apartment SDK editor tools — a Dafny model

This project models the two Unity editor windows at the core of the
Apartment SDK:

* **Custom Export** (`Assets/Scripts/CustomExportTool.cs`). "Check and
  Export Scene" saves the open scene and clears the list of warned scripts.
  It then walks the scene's asset dependencies depth first, from an empty
  set of processed paths. The walk follows only paths under `Assets/` and
  lists every `.cs` file whose name is not an allowed wrapper script and
  whose path does not start with `Assets/Bakery`. The export pass walks the
  same graph. It builds the list handed to the package exporter: the scene
  path, then every newly processed path in depth-first preorder, then each
  asset of the Bakery folder that the list does not hold yet.
* **Wrapper Prefab Limiter** (`Assets/Scripts/WrapperPrefabLimiter.cs`).
  "Check Current Scene Limits" lower-cases the open scene's name. It picks
  the first apartment type of the rule table that the name contains. Then
  it compares the number of NFTView, ExitPortal and Webview wrapper objects
  in the scene with that type's ceilings, in that order.

Modules:

* `EditorStrings` (`editor_strings.dfy`): stand-ins for `StartsWith`,
  `EndsWith`, `Contains`, `ToLower` and `GetFileNameWithoutExtension`, with
  the facts the other modules need about them. All comparisons are ordinal
  and `ToLower` is ASCII-only (see "Left out").
* `DependencyWalk` (`dependency_walk.dfy`): the walk both export passes
  perform, as the functions `Visit`/`VisitAll`. They return the newly
  processed paths in preorder. Lemmas prove these paths are fresh
  `Assets/` paths with no repeats, and that a walk from an empty set
  processes exactly the paths reachable from its start.
* `CustomExport` (`custom_export.dfy`): the class `CustomExportTool`, whose
  field `warnedScripts` the check pass updates in place. Its methods are
  proved against the walk functions.
* `WrapperLimits` (`wrapper_limits.dfy`): the rule table, the
  apartment-type search and the per-wrapper verdicts, as pure functions.

Host services become inputs:

* `AssetDatabase.GetDependencies(path, false)` is a `Graph`, a map from a
  path to its direct dependencies. A path the map lacks has none.
* Whether the user went past the save prompt (saved or chose not to save) rather than cancelling it is a `bool`.
* `Directory.Exists("Assets/Bakery")` is a `bool`.
* The Bakery folder's asset paths are a sequence.
* The scene's wrapper object counts are a `SceneObjects` record.
* Log lines and dialogs become result values (`CheckOutcome`,
  `LimitReport`, `SceneReport`).

The export list contains the scene path twice when the scene lies under
`Assets/`. It is seeded with the scene path, and the walk then appends the
scene path again as its first entry.
`CustomExport.CustomExportTool.ExportCurrentSceneAndUserContent` states
this.

## Model

| member | source | states |
|---|---|---|
| EditorStrings.LastIndexOf | Assets/Scripts/CustomExportTool.cs:100 | the result is -1 or an index holding the character, and no later index holds it (the search that locates the file name and its extension) |
| EditorStrings.FileName | Assets/Scripts/CustomExportTool.cs:100 | the file name is the suffix of the path after its last '/' (the whole path when it has none) |
| EditorStrings.FileNameWithoutExtension | Assets/Scripts/CustomExportTool.cs:100 | the script name is the file name cut before its last '.', or the whole file name when that has no '.' |
| EditorStrings.FileNameWithoutExtensionOf | Assets/Scripts/CustomExportTool.cs:100 | for "dir/stem.ext", where stem has no '/' and ext has neither '/' nor '.', the extracted script name is exactly stem |
| EditorStrings.ToLower | Assets/Scripts/WrapperPrefabLimiter.cs:69 | lower-casing keeps the length and lower-cases every character in place |
| EditorStrings.ToLowerIdempotent | Assets/Scripts/WrapperPrefabLimiter.cs:69 | a lower-cased name holds no upper-case ASCII letter, and lower-casing it again changes nothing |
| EditorStrings.ToLowerEqualsIgnoringCase | Assets/Scripts/WrapperPrefabLimiter.cs:69 | for an all-lower-case t, ToLower(s) == t holds exactly when s and t agree up to case |
| EditorStrings.LowerStartsWithAt | Assets/Scripts/WrapperPrefabLimiter.cs:69 | at one position, the lower-cased name starts a lower-case key exactly when the original name matches it there up to case |
| EditorStrings.LowerContainsIgnoringCase | Assets/Scripts/WrapperPrefabLimiter.cs:69 | searching the lower-cased name for a lower-case key succeeds exactly when the key occurs in the original name in any mix of cases |
| DependencyWalk.Visit | Assets/Scripts/CustomExportTool.cs:91-112 | the walk from a path processes nothing exactly when the path is already processed or lies outside Assets/ (the early return), and otherwise processes that path first; VisitFresh, VisitSound, VisitClosed and WalkMarksReachable give the rest of its meaning |
| DependencyWalk.VisitAll | Assets/Scripts/CustomExportTool.cs:107-111 | walking a dependency list whose first entry is a fresh Assets/ path processes that entry first |
| DependencyWalk.VisitUnfold | Assets/Scripts/CustomExportTool.cs:93-111 | a walk from an unprocessed Assets/ path yields that path, then the walks of its dependencies in order |
| DependencyWalk.VisitAllStep | Assets/Scripts/CustomExportTool.cs:108-111 | walking the dependencies from position i on is the i-th walk followed by the walks of the rest, each seeing what the earlier ones processed |
| DependencyWalk.VisitFresh | Assets/Scripts/CustomExportTool.cs:93-96 | a walk processes only Assets/ paths not processed before, none twice; it processes nothing exactly when the start is processed or outside Assets/, and otherwise the start first |
| DependencyWalk.VisitAllFresh | Assets/Scripts/CustomExportTool.cs:107-111 | walking a list of dependencies processes only fresh Assets/ paths, none twice |
| DependencyWalk.VisitSound | Assets/Scripts/CustomExportTool.cs:91-112 | every path a walk processes is reachable from its start through a chain of Assets/ paths |
| DependencyWalk.VisitAllSound | Assets/Scripts/CustomExportTool.cs:107-111 | every path processed while walking a dependency list is reachable from one of its entries |
| DependencyWalk.VisitClosed | Assets/Scripts/CustomExportTool.cs:91-112 | after a walk, every Assets/ dependency of a path it processed is processed, and so is an Assets/ start path |
| DependencyWalk.VisitAllClosed | Assets/Scripts/CustomExportTool.cs:107-111 | after walking a dependency list, each Assets/ entry and each Assets/ dependency of a processed path is processed |
| DependencyWalk.ChainStaysInside | Assets/Scripts/CustomExportTool.cs:107-111 | a chain of dependencies that starts inside a dependency-closed set of paths ends inside it |
| DependencyWalk.WalkMarksReachable | Assets/Scripts/CustomExportTool.cs:72-75 | a walk from the scene with nothing processed yet processes exactly the paths reachable from the scene through Assets/ paths, each once |
| CustomExport.IsUnauthorizedScript | Assets/Scripts/CustomExportTool.cs:98-104 | only a path ending in ".cs" can be an unauthorized script, and never one under the "Assets/Bakery" prefix; AllowedScriptNeverWarned and OtherScriptWarnedUnlessBakery state the allow-list side |
| CustomExport.Warned | Assets/Scripts/CustomExportTool.cs:98-105 | the warned scripts among the processed paths are never more numerous than those paths |
| CustomExport.WarnedMembers | Assets/Scripts/CustomExportTool.cs:98-105 | a path is warned about exactly when it was processed and is a .cs file outside the allow-list and outside the Bakery folder |
| CustomExport.WarnedConcat | Assets/Scripts/CustomExportTool.cs:98-110 | the warnings of two walks in a row are the warnings of the first followed by those of the second |
| CustomExport.WarnedNoDuplicates | Assets/Scripts/CustomExportTool.cs:96-103 | since no path is processed twice, no script is warned about twice |
| CustomExport.AllowedScriptNeverWarned | Assets/Scripts/CustomExportTool.cs:12-18 | a script whose file name is an allowed wrapper never draws a warning, whatever folder it is in |
| CustomExport.OtherScriptWarnedUnlessBakery | Assets/Scripts/CustomExportTool.cs:98-104 | any other script draws a warning exactly when its path does not start with "Assets/Bakery" |
| CustomExport.BakeryLookalikeExempt | Assets/Scripts/CustomExportTool.cs:101 | a script under a folder that only begins with "Assets/Bakery" (such as "Assets/BakeryX/") is exempt too |
| CustomExport.AppendMissing | Assets/Scripts/CustomExportTool.cs:138-145 | appending the missing Bakery paths adds at most one entry per Bakery path |
| CustomExport.AppendMissingExtends | Assets/Scripts/CustomExportTool.cs:141-144 | the old list stays a prefix; every appended path is a Bakery path the old list did not hold |
| CustomExport.AppendMissingCovers | Assets/Scripts/CustomExportTool.cs:138-145 | the resulting list holds exactly the old paths together with every Bakery path |
| CustomExport.AppendMissingNoDuplicates | Assets/Scripts/CustomExportTool.cs:141-144 | no path is appended twice, and a list without repeats keeps none |
| CustomExport.CustomExportTool.constructor | Assets/Scripts/CustomExportTool.cs:21 | a new window starts with no warned scripts |
| CustomExport.CustomExportTool.WarnIfUnauthorized | Assets/Scripts/CustomExportTool.cs:98-105 | warnedScripts grows by the path exactly when it is an unauthorized script, and is otherwise unchanged |
| CustomExport.CustomExportTool.CollectDependencies | Assets/Scripts/CustomExportTool.cs:91-112 | the processed set gains exactly the walk's paths, and warnedScripts gains exactly the walk's unauthorized scripts in walk order; a processed or non-Assets/ path changes nothing |
| CustomExport.CustomExportTool.CheckSceneAndUserContent | Assets/Scripts/CustomExportTool.cs:57-89 | an unsaved scene cancels and an empty scene path stops, both leaving the list alone; otherwise the list is reset and then holds, once each, exactly the unauthorized scripts reachable from the scene, and the outcome reports their number or readiness to export |
| CustomExport.CustomExportTool.CollectAssetsForExport | Assets/Scripts/CustomExportTool.cs:153-166 | the export list gains exactly the walk's paths, appended in depth-first preorder, and the processed set gains the same paths; a processed or non-Assets/ path changes nothing |
| CustomExport.CustomExportTool.IncludeBakeryAssets | Assets/Scripts/CustomExportTool.cs:133-151 | with a Bakery folder, the old list stays a prefix, every Bakery path ends up in the list, and each appended entry is a Bakery path not listed before, appended once; without the folder the list is unchanged and the folder is reported missing |
| CustomExport.CustomExportTool.ExportCurrentSceneAndUserContent | Assets/Scripts/CustomExportTool.cs:114-131 | the export list is the scene path, then exactly the paths reachable from the scene (each once, the scene itself again first when under Assets/), then exactly the Bakery paths missing from that prefix, appended in order and once each (every Bakery path ends up in the list), and nothing more when the Bakery folder is missing |
| WrapperLimits.WrapperNames | Assets/Scripts/WrapperPrefabLimiter.cs:79-81 | the three wrapper types have distinct names, and the check visits them as "NFTView_Wrapper", "ExitPortalWrapper", "Webview_Wrapper" in that order |
| WrapperLimits.RuleTable | Assets/Scripts/WrapperPrefabLimiter.cs:10-44 | the table lists four distinct apartment types in declaration order, each limiting all three wrappers with the listed ceilings |
| WrapperLimits.LimitsOf | Assets/Scripts/WrapperPrefabLimiter.cs:78 | the ceilings returned for an apartment type are the ones the table lists for it |
| WrapperLimits.EveryTypeLimitsEveryWrapper | Assets/Scripts/WrapperPrefabLimiter.cs:10-44 | every apartment type has a ceiling for every wrapper type |
| WrapperLimits.KeysAreLowerCase | Assets/Scripts/WrapperPrefabLimiter.cs:10-44 | every apartment-type key is lower case, so it can match a lower-cased scene name |
| WrapperLimits.FirstContainedKey | Assets/Scripts/WrapperPrefabLimiter.cs:84-87 | the index found is the first at or after the start whose key the name contains; none is found exactly when no later key is contained |
| WrapperLimits.FindMatchingScene | Assets/Scripts/WrapperPrefabLimiter.cs:84-87 | the result is absent exactly when the name contains no apartment type; otherwise it is a contained type with no contained type listed before it |
| WrapperLimits.CheckWrapperLimit | Assets/Scripts/WrapperPrefabLimiter.cs:104-123 | a warning exactly when the wrapper has no ceiling, an error exactly when the count exceeds the ceiling, information exactly when the count is at most the ceiling; the report carries the ceiling and the count |
| WrapperLimits.CheckWrappers | Assets/Scripts/WrapperPrefabLimiter.cs:79-81 | three reports, for NFTView, ExitPortal and Webview in that order, each the verdict on that wrapper's count |
| WrapperLimits.CheckWrapperPrefabLimits | Assets/Scripts/WrapperPrefabLimiter.cs:67-82 | no apartment type (reporting the lower-cased name) exactly when the lower-cased name contains no key; otherwise the first matching type's ceilings are applied to the three wrappers in order |
| WrapperLimits.MatchedSceneVerdicts | Assets/Scripts/WrapperPrefabLimiter.cs:78-81 | once a type matches, no wrapper lacks a ceiling, and a wrapper is reported over its limit exactly when its count exceeds it (a count equal to the ceiling passes) |
| WrapperLimits.MatchIgnoresCase | Assets/Scripts/WrapperPrefabLimiter.cs:69-71 | the lower-cased name contains a key exactly when the original name contains it in any mix of cases |
| WrapperLimits.UnmatchedNameIgnoringCase | Assets/Scripts/WrapperPrefabLimiter.cs:69-76 | the check reports a missing apartment type, and checks no wrapper, exactly when no type appears in the name in any mix of cases |
| WrapperLimits.FirstListedTypeWins | Assets/Scripts/WrapperPrefabLimiter.cs:84-87 | a name holding two apartment types is never judged by the one listed later |

## Left out

- The windows, menu items, buttons, scroll view and dialogs are not modelled. Where a dialog decides control flow, its answer is an input.
- The confirmation dialog after a clean check is not modelled. Neither is the "Export Anyway" button. `CheckSceneAndUserContent` returns `ReadyToExport`, and `ExportCurrentSceneAndUserContent` is a separate operation.
- The save-file panel and `AssetDatabase.ExportPackage` are not modelled. The export operation returns the list it would hand to the exporter.
- `CheckAllScenes` is not modelled: it opens each build scene through the editor and repeats the single-scene check on it.
- The scene selector window is not modelled: it only lists the project's scene assets and opens the one clicked, through the asset database.
- Log and dialog message text is not modelled. Reports are values that carry a severity and the numbers the message shows.
- `processedAssets` and `assetsToExport` are passed by reference in the source. The model passes them as values in and out, so aliasing is not captured.
- `String.StartsWith(string)` and `EndsWith(string)` compare under the current culture in .NET. The model compares ordinally, character by character, for the "Assets/", ".cs" and "Assets/Bakery" tests. Ignorable characters and culture-specific contractions are therefore not modelled. `Contains`, used by the apartment-type search, is ordinal in .NET too.
- `ToLower` folds only ASCII letters. Culture-specific and non-ASCII case mapping is not modelled.
- The file-name stand-in splits on '/' only. Windows '\\' separators and invalid path characters are not modelled.
- A null scene path is modelled as the empty path.
- `AssetDatabase.GetDependencies`, `FindAssets`/`GUIDToAssetPath`, `Directory.Exists` and `FindObjectsOfType` are inputs. They are a graph, a path sequence, a flag and three counts.
- The rule table's enumeration order is assumed to be its declaration order. That is the order .NET's `Dictionary` yields when entries are only added.
- The C# code recurses without a bound. The model's walk terminates because each step processes a new path of the finite graph. Stack depth is not modelled.
