/**
 * The per-scene wrapper-count validator. A constant rule table maps each
 * apartment type to a ceiling for each of the three wrapper prefabs; the
 * open scene's lower-cased name picks the first apartment type it
 * contains, and each wrapper's object count is compared with its ceiling.
 * Log lines become report values with a severity.
 */
module WrapperLimits {
  import opened EditorStrings

  datatype Option<T> = None | Some(value: T)

  /** The three wrapper prefab types; Name() is the key the rule table uses for each */
  datatype WrapperType = NFTView | ExitPortal | Webview
  {
    function Name(): string {
      match this
      case NFTView => "NFTView_Wrapper"
      case ExitPortal => "ExitPortalWrapper"
      case Webview => "Webview_Wrapper"
    }
  }

  /**
   * The rule table in its enumeration (declaration) order: apartment type,
   * then the largest number of each wrapper type allowed.
   */
  const SceneLimits: seq<(string, map<WrapperType, int>)> := [
    ("skyapartment", map[ExitPortal := 4, Webview := 5, NFTView := 6]),
    ("studioapartment", map[ExitPortal := 2, Webview := 3, NFTView := 2]),
    ("penthouseapartment", map[ExitPortal := 2, Webview := 4, NFTView := 5]),
    ("standardapartment", map[ExitPortal := 1, Webview := 2, NFTView := 3])
  ]

  /** The order in which one scene's wrappers are checked */
  const CheckOrder := [NFTView, ExitPortal, Webview]

  /**
   * The three wrapper types have distinct names, and the check visits them
   * under the names it passes for them, in the order NFTView_Wrapper,
   * ExitPortalWrapper, Webview_Wrapper.
   */
  lemma WrapperNames()
    ensures forall a: WrapperType, b: WrapperType :: a.Name() == b.Name() ==> a == b
    ensures |CheckOrder| == 3
    ensures CheckOrder[0].Name() == "NFTView_Wrapper"
    ensures CheckOrder[1].Name() == "ExitPortalWrapper"
    ensures CheckOrder[2].Name() == "Webview_Wrapper"
  {
  }

  predicate IsApartmentType(key: string) {
    exists i :: 0 <= i < |SceneLimits| && SceneLimits[i].0 == key
  }

  /** The rule table: four distinct apartment types, each limiting all three wrappers. */
  lemma RuleTable()
    ensures |SceneLimits| == 4
    ensures forall i, j :: 0 <= i < j < |SceneLimits| ==> SceneLimits[i].0 != SceneLimits[j].0
    ensures forall i :: 0 <= i < |SceneLimits| ==> SceneLimits[i].1.Keys == {NFTView, ExitPortal, Webview}
    ensures SceneLimits[0].0 == "skyapartment"
    ensures SceneLimits[0].1[NFTView] == 6 && SceneLimits[0].1[ExitPortal] == 4 && SceneLimits[0].1[Webview] == 5
    ensures SceneLimits[1].0 == "studioapartment"
    ensures SceneLimits[1].1[NFTView] == 2 && SceneLimits[1].1[ExitPortal] == 2 && SceneLimits[1].1[Webview] == 3
    ensures SceneLimits[2].0 == "penthouseapartment"
    ensures SceneLimits[2].1[NFTView] == 5 && SceneLimits[2].1[ExitPortal] == 2 && SceneLimits[2].1[Webview] == 4
    ensures SceneLimits[3].0 == "standardapartment"
    ensures SceneLimits[3].1[NFTView] == 3 && SceneLimits[3].1[ExitPortal] == 1 && SceneLimits[3].1[Webview] == 2
  {
  }

  /** sceneLimits[key]: the ceilings listed for apartment type `key` */
  function LimitsOf(key: string): (limits: map<WrapperType, int>)
    requires IsApartmentType(key)
    ensures exists i :: 0 <= i < |SceneLimits| && SceneLimits[i] == (key, limits)
  {
    if SceneLimits[0].0 == key then SceneLimits[0].1
    else if SceneLimits[1].0 == key then SceneLimits[1].1
    else if SceneLimits[2].0 == key then SceneLimits[2].1
    else SceneLimits[3].1
  }

  /** Every apartment type limits every wrapper type. */
  lemma EveryTypeLimitsEveryWrapper(key: string, wrapper: WrapperType)
    requires IsApartmentType(key)
    ensures wrapper in LimitsOf(key)
  {
    RuleTable();
  }

  /** Every key of the table is already lower case. */
  lemma KeysAreLowerCase()
    ensures forall i :: 0 <= i < |SceneLimits| ==> IsLowerCase(SceneLimits[i].0)
  {
  }

  /** Index of the first entry at or after `from`, in table order, whose key `sceneName` contains */
  function FirstContainedKey(sceneName: string, from: nat): (r: Option<nat>)
    requires from <= |SceneLimits|
    ensures r.Some? ==>
              && from <= r.value < |SceneLimits|
              && Contains(sceneName, SceneLimits[r.value].0)
              && forall j :: from <= j < r.value ==> !Contains(sceneName, SceneLimits[j].0)
    ensures r.None? ==> forall j :: from <= j < |SceneLimits| ==> !Contains(sceneName, SceneLimits[j].0)
    decreases |SceneLimits| - from
  {
    if from == |SceneLimits| then None
    else if Contains(sceneName, SceneLimits[from].0) then Some(from)
    else FirstContainedKey(sceneName, from + 1)
  }

  /**
   * The first apartment type, in table order, that `sceneName` contains;
   * None when it contains none.
   */
  function FindMatchingScene(sceneName: string): (r: Option<string>)
    ensures r.None? <==> forall i :: 0 <= i < |SceneLimits| ==> !Contains(sceneName, SceneLimits[i].0)
    ensures r.Some? ==>
              && Contains(sceneName, r.value)
              && exists i :: 0 <= i < |SceneLimits| && SceneLimits[i].0 == r.value
                   && forall j :: 0 <= j < i ==> !Contains(sceneName, SceneLimits[j].0)
  {
    match FirstContainedKey(sceneName, 0)
    case None => None
    case Some(i) => Some(SceneLimits[i].0)
  }

  datatype LogLevel = Info | Warning | Error

  /** What checking one wrapper type logs */
  datatype LimitReport =
    | NoLimitDefined(wrapper: WrapperType)
    | TooMany(wrapper: WrapperType, limit: int, count: nat)
    | WithinLimits(wrapper: WrapperType, count: nat, limit: int)
  {
    function Level(): LogLevel {
      match this
      case NoLimitDefined(_) => Warning
      case TooMany(_, _, _) => Error
      case WithinLimits(_, _, _) => Info
    }
  }

  /**
   * Compares the number of `wrapper` objects in the scene with the ceiling
   * `limits` gives it; a wrapper without a ceiling only draws a warning.
   */
  function CheckWrapperLimit(wrapper: WrapperType, limits: map<WrapperType, int>, count: nat): (r: LimitReport)
    ensures r.wrapper == wrapper
    ensures r.Level() == Warning <==> wrapper !in limits
    ensures r.Level() == Error <==> wrapper in limits && count > limits[wrapper]
    ensures r.Level() == Info <==> wrapper in limits && count <= limits[wrapper]
    ensures !r.NoLimitDefined? ==> r.limit == limits[wrapper] && r.count == count
  {
    if wrapper !in limits then NoLimitDefined(wrapper)
    else if count > limits[wrapper] then TooMany(wrapper, limits[wrapper], count)
    else WithinLimits(wrapper, count, limits[wrapper])
  }

  /** How many objects of each wrapper type the open scene holds */
  datatype SceneObjects = SceneObjects(nftViews: nat, exitPortals: nat, webviews: nat)
  {
    function CountOf(wrapper: WrapperType): nat {
      match wrapper
      case NFTView => nftViews
      case ExitPortal => exitPortals
      case Webview => webviews
    }
  }

  /** What "Check Current Scene Limits" logs for one scene */
  datatype SceneReport =
    | NoApartmentType(loweredName: string)
    | Checked(apartmentType: string, reports: seq<LimitReport>)

  /** Checks the three wrappers against `limits` in the order NFTView, ExitPortal, Webview. */
  function CheckWrappers(limits: map<WrapperType, int>, objects: SceneObjects): (reports: seq<LimitReport>)
    ensures |reports| == |CheckOrder|
    ensures forall i :: 0 <= i < |CheckOrder| ==>
              reports[i] == CheckWrapperLimit(CheckOrder[i], limits, objects.CountOf(CheckOrder[i]))
  {
    [ CheckWrapperLimit(NFTView, limits, objects.nftViews),
      CheckWrapperLimit(ExitPortal, limits, objects.exitPortals),
      CheckWrapperLimit(Webview, limits, objects.webviews) ]
  }

  /**
   * Lower-cases the scene name, picks its apartment type and checks the
   * three wrappers in the order NFTView, ExitPortal, Webview.
   */
  function CheckWrapperPrefabLimits(sceneName: string, objects: SceneObjects): (r: SceneReport)
    ensures r.NoApartmentType? <==>
              forall i :: 0 <= i < |SceneLimits| ==> !Contains(ToLower(sceneName), SceneLimits[i].0)
    ensures r.NoApartmentType? ==> r.loweredName == ToLower(sceneName)
    ensures r.Checked? ==>
              && Some(r.apartmentType) == FindMatchingScene(ToLower(sceneName))
              && IsApartmentType(r.apartmentType)
              && r.reports == CheckWrappers(LimitsOf(r.apartmentType), objects)
  {
    var loweredName := ToLower(sceneName);
    match FindMatchingScene(loweredName)
    case None => NoApartmentType(loweredName)
    case Some(apartmentType) =>
      Checked(apartmentType, CheckWrappers(LimitsOf(apartmentType), objects))
  }

  /**
   * Once an apartment type matches, no wrapper lacks a ceiling, and a
   * wrapper is reported over its limit exactly when its count exceeds the
   * ceiling; a count equal to the ceiling is within limits.
   */
  lemma MatchedSceneVerdicts(sceneName: string, objects: SceneObjects)
    requires CheckWrapperPrefabLimits(sceneName, objects).Checked?
    ensures var r := CheckWrapperPrefabLimits(sceneName, objects);
      forall i :: 0 <= i < |CheckOrder| ==>
        && r.reports[i].wrapper == CheckOrder[i]
        && CheckOrder[i] in LimitsOf(r.apartmentType)
        && r.reports[i].Level() != Warning
        && (r.reports[i].Level() == Error <==>
              objects.CountOf(CheckOrder[i]) > LimitsOf(r.apartmentType)[CheckOrder[i]])
  {
    var r := CheckWrapperPrefabLimits(sceneName, objects);
    forall i | 0 <= i < |CheckOrder| ensures CheckOrder[i] in LimitsOf(r.apartmentType) {
      EveryTypeLimitsEveryWrapper(r.apartmentType, CheckOrder[i]);
    }
  }

  /**
   * Because the keys are lower case, a name matches an apartment type
   * exactly when some stretch of it spells the type in any mix of cases.
   */
  lemma MatchIgnoresCase(sceneName: string, i: nat)
    requires i < |SceneLimits|
    ensures Contains(ToLower(sceneName), SceneLimits[i].0) <==> ContainsIgnoringCase(sceneName, SceneLimits[i].0)
  {
    KeysAreLowerCase();
    LowerContainsIgnoringCase(sceneName, SceneLimits[i].0);
  }

  /**
   * The check reports a missing apartment type, and checks no wrapper,
   * exactly when no apartment type appears in the name in any mix of cases.
   */
  lemma UnmatchedNameIgnoringCase(sceneName: string, objects: SceneObjects)
    ensures CheckWrapperPrefabLimits(sceneName, objects).NoApartmentType? <==>
              forall i :: 0 <= i < |SceneLimits| ==> !ContainsIgnoringCase(sceneName, SceneLimits[i].0)
  {
    forall i | 0 <= i < |SceneLimits|
      ensures Contains(ToLower(sceneName), SceneLimits[i].0) <==> ContainsIgnoringCase(sceneName, SceneLimits[i].0)
    {
      MatchIgnoresCase(sceneName, i);
    }
  }

  /** A name holding two apartment types is judged by the one listed first in the table. */
  lemma FirstListedTypeWins(sceneName: string, i: nat, j: nat)
    requires i < j < |SceneLimits|
    requires Contains(sceneName, SceneLimits[i].0) && Contains(sceneName, SceneLimits[j].0)
    ensures FindMatchingScene(sceneName) != Some(SceneLimits[j].0)
  {
    RuleTable();
  }
}
