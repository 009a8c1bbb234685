/** The owned-apps listing: the catalogue of games (an XML list, kept in a
    local cache and refreshed weekly), filtered by subscription and
    completed with data from the native client. The native client, the
    network, the file system and the clock are parameters. */
module AppLister {
  import opened Common
  import Decimal
  import opened AppDataKeys
  import opened IpcTypes

  // ---------------------------------------------------------------------
  // App types

  datatype AppModelType = App | Mod | Demo | Junk

  /** The `Display` text of a type. */
  function TypeName(t: AppModelType): string {
    match t
    case App => "App"
    case Mod => "Mod"
    case Demo => "Demo"
    case Junk => "Junk"
  }

  /** The lower-case word `from_str` compares against. */
  function LowerName(t: AppModelType): string {
    match t
    case App => "app"
    case Mod => "mod"
    case Demo => "demo"
    case Junk => "junk"
  }

  const KelvinSign: char := 'K'

  /** The lower case of one character as far as it can matter when the
      result is compared with a lower-case ASCII word: ASCII capitals fold
      to ASCII, and so does the Kelvin sign (to `k`). Every other character
      either is its own lower case or lowers to text that is not ASCII, so
      it can only match itself. */
  function LowerChar(c: char): char {
    if 'A' <= c <= 'Z' then (c as int + 32) as char
    else if c == KelvinSign then 'k'
    else c
  }

  /** `s.to_lowercase() == word`, for a lower-case ASCII `word`. */
  predicate LowersTo(s: string, word: string) {
    |s| == |word| && forall i :: 0 <= i < |s| ==> LowerChar(s[i]) == word[i]
  }

  /** A string lowers to at most one word. */
  lemma LowersToUnique(s: string, w1: string, w2: string)
    requires LowersTo(s, w1) && LowersTo(s, w2)
    ensures w1 == w2
  {
    assert forall i :: 0 <= i < |w1| ==> w1[i] == LowerChar(s[i]) == w2[i];
  }

  /** `from_str`: a case-insensitive match against the four type words;
      anything else is rejected with a message quoting the input. */
  function ParseType(s: string): (r: Result<AppModelType, string>)
    ensures r.Ok? <==> exists t: AppModelType :: LowersTo(s, LowerName(t))
    ensures r.Ok? ==> LowersTo(s, LowerName(r.value))
    ensures r.Err? ==> r.error == "'" + s + "' is not a valid AppModelType"
  {
    if LowersTo(s, "app") then assert LowersTo(s, LowerName(App)); Ok(App)
    else if LowersTo(s, "mod") then assert LowersTo(s, LowerName(Mod)); Ok(Mod)
    else if LowersTo(s, "demo") then assert LowersTo(s, LowerName(Demo)); Ok(Demo)
    else if LowersTo(s, "junk") then assert LowersTo(s, LowerName(Junk)); Ok(Junk)
    else Err("'" + s + "' is not a valid AppModelType")
  }

  /** Parsing never confuses two types: a string that parses at all parses
      to the one type whose word it lowers to. */
  lemma ParseTypeUnique(s: string, t: AppModelType)
    requires LowersTo(s, LowerName(t))
    ensures ParseType(s) == Ok(t)
  {
    var r := ParseType(s);
    LowersToUnique(s, LowerName(t), LowerName(r.value));
  }

  /** Printing a type and parsing it back gives the type, and so does the
      lower-case word itself. */
  lemma ParseTypeName(t: AppModelType)
    ensures ParseType(TypeName(t)) == Ok(t)
    ensures ParseType(LowerName(t)) == Ok(t)
  {
    var name, word := TypeName(t), LowerName(t);
    assert LowerChar(name[0]) == word[0];
    assert LowersTo(name, word);
    ParseTypeUnique(name, t);
    assert LowersTo(word, word);
    ParseTypeUnique(word, t);
  }

  /** The Kelvin sign lowers to `k`, so "JUN" followed by it is accepted as
      `Junk`. */
  lemma KelvinSignIsK()
    ensures ParseType("JUN" + [KelvinSign]) == Ok(Junk)
    ensures ParseType("aPp") == Ok(App)
    ensures ParseType("apps").Err?
  {
    var s := "JUN" + [KelvinSign];
    assert LowersTo(s, "junk");
    ParseTypeUnique(s, Junk);
    assert LowersTo("aPp", "app");
    ParseTypeUnique("aPp", App);
  }

  // ---------------------------------------------------------------------
  // Apps

  /** One `<game>` of the catalogue: its app id and optional `type` attribute. */
  datatype XmlGame = XmlGame(appId: u32, appType: Option<string>)

  datatype AppModel = AppModel(
    appId: u32,
    appName: string,
    imageUrl: Option<string>,
    appType: AppModelType,
    developer: string,
    metacriticScore: Option<u8>)

  /** What the native client answers: app data by app id and key string
      (`None` when the query fails), the subscription check, and the
      current game language. */
  datatype Native = Native(
    appData: (u32, string) -> Option<string>,
    isSubscribed: u32 -> Result<bool, SamError>,
    language: string)

  /** The text stored under `key`, or the empty string when the query fails. */
  function DataOrEmpty(n: Native, appId: u32, key: AppDataKey): string {
    n.appData(appId, KeyString(key)).GetOr("")
  }

  const CapsuleHost: string := "https://shared.cloudflare.steamstatic.com/store_item_assets/steam/apps/"
  const LogoHost: string := "https://cdn.steamstatic.com/steamcommunity/public/images/apps/"

  function CapsuleUrl(appId: u32, file: string): string {
    CapsuleHost + Decimal.NatToString(appId) + "/" + file
  }

  function LogoUrl(appId: u32, file: string): string {
    LogoHost + Decimal.NatToString(appId) + "/" + file + ".jpg"
  }

  /** The image of an app: the small capsule in the current language, else
      the English one (asked for only when the language is not English),
      else the logo; `None` when all of these are empty. */
  function GetAppImageUrl(n: Native, appId: u32): (r: Option<string>)
    ensures r.None? ==> DataOrEmpty(n, appId, Logo) == ""
    ensures DataOrEmpty(n, appId, SmallCapsule(n.language)) != "" ==>
      r == Some(CapsuleUrl(appId, DataOrEmpty(n, appId, SmallCapsule(n.language))))
  {
    var candidate := DataOrEmpty(n, appId, SmallCapsule(n.language));
    if candidate != "" then Some(CapsuleUrl(appId, candidate))
    else
      var english := if n.language != "english" then DataOrEmpty(n, appId, SmallCapsule("english")) else "";
      if english != "" then Some(CapsuleUrl(appId, english))
      else
        var logo := DataOrEmpty(n, appId, Logo);
        if logo != "" then Some(LogoUrl(appId, logo)) else None
  }

  /** The image sources in the order they are tried. */
  function ImageSources(language: string): seq<AppDataKey> {
    [SmallCapsule(language)]
      + (if language != "english" then [SmallCapsule("english")] else [])
      + [Logo]
  }

  /** The URL for a non-empty file name found under `key`. */
  function UrlFor(appId: u32, key: AppDataKey, file: string): string {
    if key.Logo? then LogoUrl(appId, file) else CapsuleUrl(appId, file)
  }

  /** The first source with a non-empty answer, as a URL. */
  function FirstFound(n: Native, appId: u32, keys: seq<AppDataKey>): Option<string> {
    if |keys| == 0 then None
    else if DataOrEmpty(n, appId, keys[0]) != "" then Some(UrlFor(appId, keys[0], DataOrEmpty(n, appId, keys[0])))
    else FirstFound(n, appId, keys[1..])
  }

  /** The image URL is the first hit among the sources, tried in order. */
  lemma ImageUrlIsFirstFound(n: Native, appId: u32)
    ensures GetAppImageUrl(n, appId) == FirstFound(n, appId, ImageSources(n.language))
  {
    var capsule, english := SmallCapsule(n.language), SmallCapsule("english");
    LogoIsLast(n, appId);
    if n.language != "english" {
      assert ImageSources(n.language) == [capsule, english, Logo];
      assert [capsule, english, Logo][1..] == [english, Logo];
      assert [english, Logo][1..] == [Logo];
    } else {
      assert ImageSources(n.language) == [capsule, Logo];
      assert [capsule, Logo][1..] == [Logo];
    }
  }

  lemma LogoIsLast(n: Native, appId: u32)
    ensures FirstFound(n, appId, [Logo]) ==
      if DataOrEmpty(n, appId, Logo) != "" then Some(LogoUrl(appId, DataOrEmpty(n, appId, Logo))) else None
  {
    assert [Logo][1..] == [];
  }

  /** Builds the model of one catalogue entry. The name is required; the
      developer defaults to "Unknown"; the Metacritic score is kept only
      when it parses as a `u8`; a missing type means `App`, and a type that
      does not parse is an error. */
  function GetApp(n: Native, appId: u32, game: XmlGame): (r: Result<AppModel, SamError>)
    ensures r.Err? <==>
      n.appData(appId, KeyString(Name)).None? ||
      (game.appType.Some? && ParseType(game.appType.value).Err?)
    ensures r.Err? ==> r.error == AppListRetrievalFailed
    ensures r.Ok? ==>
      && r.value.appId == appId
      && r.value.appName == n.appData(appId, KeyString(Name)).value
      && r.value.developer == n.appData(appId, KeyString(Developer)).GetOr("Unknown")
      && (game.appType.None? ==> r.value.appType == App)
      && (game.appType.Some? ==> LowersTo(game.appType.value, LowerName(r.value.appType)))
      && (r.value.metacriticScore.Some? <==>
            n.appData(appId, KeyString(MetacriticScore)).Some? &&
            Decimal.ParseU8(n.appData(appId, KeyString(MetacriticScore)).value).Some?)
      && r.value.metacriticScore ==
           (match n.appData(appId, KeyString(MetacriticScore))
            case None => None
            case Some(s) => Decimal.ParseU8(s))
      && r.value.imageUrl == GetAppImageUrl(n, appId)
  {
    match n.appData(appId, KeyString(Name))
    case None => Err(AppListRetrievalFailed)
    case Some(appName) =>
      var developer := n.appData(appId, KeyString(Developer)).GetOr("Unknown");
      var metacritic :=
        match n.appData(appId, KeyString(MetacriticScore))
        case None => None
        case Some(s) => Decimal.ParseU8(s);
      var imageUrl := GetAppImageUrl(n, appId);
      var appType :=
        match game.appType
        case None => Ok(App)
        case Some(t) => ParseType(t);
      match appType
      case Err(_) => Err(AppListRetrievalFailed)
      case Ok(ty) => Ok(AppModel(appId, appName, imageUrl, ty, developer, metacritic))
  }

  // ---------------------------------------------------------------------
  // Owned apps

  /** The catalogue entries the subscription check confirms, in order; an
      entry whose check fails is skipped like an unsubscribed one. */
  function Subscribed(n: Native, games: seq<XmlGame>): (r: seq<XmlGame>)
    ensures |r| <= |games|
    ensures forall i :: 0 <= i < |r| ==> r[i] in games && n.isSubscribed(r[i].appId) == Ok(true)
  {
    if |games| == 0 then []
    else
      var front := Subscribed(n, games[..|games| - 1]);
      var g := games[|games| - 1];
      if n.isSubscribed(g.appId) == Ok(true) then front + [g] else front
  }

  /** The filter keeps catalogue order: the confirmed entries of two
      parts of a catalogue are those of the first part, then those of the
      second. */
  lemma {:induction false} SubscribedAppend(n: Native, a: seq<XmlGame>, b: seq<XmlGame>)
    ensures Subscribed(n, a + b) == Subscribed(n, a) + Subscribed(n, b)
    decreases |b|
  {
    if |b| == 0 {
      assert a + b == a;
    } else {
      var b' := b[..|b| - 1];
      assert (a + b)[..|a + b| - 1] == a + b';
      assert (a + b)[|a + b| - 1] == b[|b| - 1];
      SubscribedAppend(n, a, b');
    }
  }

  /** Every entry the subscription check confirms is kept. */
  lemma SubscribedKeepsConfirmed(n: Native, games: seq<XmlGame>, i: nat)
    requires i < |games| && n.isSubscribed(games[i].appId) == Ok(true)
    ensures games[i] in Subscribed(n, games)
  {
    var g := games[i];
    assert games == (games[..i] + [g]) + games[i + 1..];
    SubscribedAppend(n, games[..i] + [g], games[i + 1..]);
    SubscribedAppend(n, games[..i], [g]);
    assert [g][..0] == [];
    assert Subscribed(n, [g]) == [g];
  }

  /** `get_owned_apps` after the catalogue is loaded: the model of every
      subscribed entry, in catalogue order. The first entry whose model
      fails fails the whole list. */
  function OwnedApps(n: Native, games: seq<XmlGame>): Result<seq<AppModel>, SamError>
  {
    if |games| == 0 then Ok([])
    else
      match OwnedApps(n, games[..|games| - 1])
      case Err(e) => Err(e)
      case Ok(models) =>
        var g := games[|games| - 1];
        if n.isSubscribed(g.appId) == Ok(true) then
          match GetApp(n, g.appId, g)
          case Err(e) => Err(e)
          case Ok(m) => Ok(models + [m])
        else Ok(models)
  }

  /** `f` applied to each element in order, failing at the first element
      whose result fails. */
  function MapResult<A, B, E>(f: A -> Result<B, E>, xs: seq<A>): Result<seq<B>, E> {
    if |xs| == 0 then Ok([])
    else
      match MapResult(f, xs[..|xs| - 1])
      case Err(e) => Err(e)
      case Ok(ys) =>
        match f(xs[|xs| - 1])
        case Err(e) => Err(e)
        case Ok(y) => Ok(ys + [y])
  }

  /** A failure exactly when some element's result fails. */
  lemma {:induction false} MapResultFails<A, B, E>(f: A -> Result<B, E>, xs: seq<A>)
    ensures MapResult(f, xs).Err? <==> exists i :: 0 <= i < |xs| && f(xs[i]).Err?
  {
    if |xs| > 0 {
      var k := |xs| - 1;
      var front := xs[..k];
      MapResultFails(f, front);
      if MapResult(f, front).Err? {
        var i :| 0 <= i < k && f(front[i]).Err?;
        assert front[i] == xs[i];
      } else {
        assert forall i :: 0 <= i < k ==> front[i] == xs[i];
      }
    }
  }

  /** On success, one result per element, in order. */
  lemma {:induction false} MapResultValues<A, B, E>(f: A -> Result<B, E>, xs: seq<A>)
    ensures MapResult(f, xs).Ok? ==>
      |MapResult(f, xs).value| == |xs| &&
      forall i :: 0 <= i < |xs| ==> Ok(MapResult(f, xs).value[i]) == f(xs[i])
  {
    if |xs| > 0 && MapResult(f, xs).Ok? {
      var k := |xs| - 1;
      var front := xs[..k];
      MapResultValues(f, front);
      assert forall i :: 0 <= i < k ==> front[i] == xs[i];
    }
  }

  /** The model of each catalogue entry. */
  function ModelOf(n: Native): XmlGame -> Result<AppModel, SamError> {
    (g: XmlGame) => GetApp(n, g.appId, g)
  }

  /** The models of the given entries, in order, failing at the first
      entry whose model fails. */
  function AllApps(n: Native, games: seq<XmlGame>): Result<seq<AppModel>, SamError> {
    MapResult(ModelOf(n), games)
  }

  /** Listing the catalogue is listing its subscribed entries. */
  lemma {:induction false} OwnedAppsAreSubscribed(n: Native, games: seq<XmlGame>)
    ensures OwnedApps(n, games) == AllApps(n, Subscribed(n, games))
  {
    if |games| > 0 {
      var front := games[..|games| - 1];
      OwnedAppsAreSubscribed(n, front);
      var subs := Subscribed(n, games);
      var g := games[|games| - 1];
      if n.isSubscribed(g.appId) == Ok(true) {
        assert subs[..|subs| - 1] == Subscribed(n, front);
      }
    }
  }

  /** The models of a list of entries: one per entry, in order, and a
      failure exactly when some entry's model fails. */
  lemma AllAppsMeaning(n: Native, games: seq<XmlGame>)
    ensures AllApps(n, games).Err? <==> exists i :: 0 <= i < |games| && GetApp(n, games[i].appId, games[i]).Err?
    ensures AllApps(n, games).Ok? ==>
      |AllApps(n, games).value| == |games| &&
      forall i :: 0 <= i < |games| ==> Ok(AllApps(n, games).value[i]) == GetApp(n, games[i].appId, games[i])
  {
    MapResultFails(ModelOf(n), games);
    MapResultValues(ModelOf(n), games);
  }

  /** The listing loop: walks the catalogue once, keeping the models of
      subscribed entries and stopping at the first failing one. */
  method CollectOwnedApps(n: Native, games: seq<XmlGame>) returns (r: Result<seq<AppModel>, SamError>)
    ensures r == OwnedApps(n, games)
  {
    var models: seq<AppModel> := [];
    var i := 0;
    while i < |games|
      invariant 0 <= i <= |games|
      invariant OwnedApps(n, games[..i]) == Ok(models)
    {
      var g := games[i];
      assert games[..i + 1][..i] == games[..i];
      if n.isSubscribed(g.appId) == Ok(true) {
        var app := GetApp(n, g.appId, g);
        if app.Err? {
          PrefixFailureSticks(n, games, i + 1);
          return Err(app.error);
        }
        models := models + [app.value];
      }
      i := i + 1;
    }
    assert games[..i] == games;
    return Ok(models);
  }

  /** Once a prefix of the catalogue fails, the whole catalogue fails with
      the same error. */
  lemma {:induction false} PrefixFailureSticks(n: Native, games: seq<XmlGame>, k: nat)
    requires k <= |games| && OwnedApps(n, games[..k]).Err?
    ensures OwnedApps(n, games) == OwnedApps(n, games[..k])
    decreases |games| - k
  {
    if k < |games| {
      assert games[..k + 1][..k] == games[..k];
      PrefixFailureSticks(n, games, k + 1);
    } else {
      assert games[..k] == games;
    }
  }

  // ---------------------------------------------------------------------
  // The cached catalogue

  /** Seconds in a week: the age after which the cached catalogue is
      downloaded again. */
  const OneWeekSecs: int := 7 * 24 * 60 * 60

  /** Times are nanoseconds since the epoch. */
  const NanosPerSec: int := 1_000_000_000

  /** What the file system says about the cached catalogue: absent, or
      present with its modification time (`None` when that is unavailable). */
  datatype CacheStatus = Missing | Present(modified: Option<int>)

  datatype Refresh = Download | UseCache

  /** Whether to download the catalogue again: when the cache is missing or
      was last modified more than a week before `now`. An unreadable
      modification time is an error. */
  function RefreshDecision(status: CacheStatus, now: int): (r: Result<Refresh, SamError>)
    ensures r.Err? <==> status.Present? && status.modified.None?
    ensures r.Err? ==> r.error == AppListRetrievalFailed
    ensures r == Ok(Download) <==>
      status.Missing? || (status.modified.Some? && now - status.modified.value > OneWeekSecs * NanosPerSec)
  {
    match status
    case Missing => Ok(Download)
    case Present(None) => Err(AppListRetrievalFailed)
    case Present(Some(t)) => if t < now - OneWeekSecs * NanosPerSec then Ok(Download) else Ok(UseCache)
  }

  /** The catalogue sources: the download (its text, or `None` when the
      request fails), the XML reading of a text, whether saving the
      download to the cache succeeds, and the games read from the cache
      file (`None` when it cannot be opened or read). */
  datatype CatalogueSources = CatalogueSources(
    download: Option<string>,
    parse: string -> Option<seq<XmlGame>>,
    saveSucceeds: bool,
    cached: Option<seq<XmlGame>>)

  /** `get_xml_games`: the downloaded catalogue when a refresh is due (saved
      to the cache first), else the cached one. Every failure is
      `AppListRetrievalFailed`. */
  function GetXmlGames(status: CacheStatus, now: int, src: CatalogueSources): (r: Result<seq<XmlGame>, SamError>)
    ensures r.Err? ==> r.error == AppListRetrievalFailed
    ensures RefreshDecision(status, now).Err? ==> r == Err(AppListRetrievalFailed)
    ensures RefreshDecision(status, now) == Ok(UseCache) ==>
      r == (if src.cached.Some? then Ok(src.cached.value) else Err(AppListRetrievalFailed))
    ensures RefreshDecision(status, now) == Ok(Download) ==>
      (r.Ok? <==> src.download.Some? && src.parse(src.download.value).Some? && src.saveSucceeds)
    ensures r.Ok? && RefreshDecision(status, now) == Ok(Download) ==>
      src.saveSucceeds && src.download.Some? && src.parse(src.download.value) == Some(r.value)
  {
    var decision :- RefreshDecision(status, now);
    match decision
    case Download =>
      (match src.download
       case None => Err(AppListRetrievalFailed)
       case Some(text) =>
         match src.parse(text)
         case None => Err(AppListRetrievalFailed)
         case Some(games) => if src.saveSucceeds then Ok(games) else Err(AppListRetrievalFailed))
    case UseCache =>
      (match src.cached
       case None => Err(AppListRetrievalFailed)
       case Some(games) => Ok(games))
  }

  /** `get_owned_apps`: load the catalogue, then list the subscribed apps. */
  function GetOwnedApps(n: Native, status: CacheStatus, now: int, src: CatalogueSources): (r: Result<seq<AppModel>, SamError>)
    ensures GetXmlGames(status, now, src).Err? ==> r == Err(AppListRetrievalFailed)
    ensures GetXmlGames(status, now, src).Ok? ==> r == OwnedApps(n, GetXmlGames(status, now, src).value)
  {
    var games :- GetXmlGames(status, now, src);
    OwnedApps(n, games)
  }
}
