/** The value-level meaning of the profile file (Profile.cs): the profile as a
    record, the document `Profile.Load` reads and `Profile.Save` writes, the
    account-id conversions and the default AutoCat set. The class in
    profile.dfy performs these step by step and is proved to agree with the
    functions here. */
module ProfileCodec {
  import opened Wrappers
  import opened Numbers
  import opened XmlTree

  /** The schema version `Save` always writes. */
  const Version: Int32 := 3

  /** Added to a Steam directory (short) id to obtain the 64-bit id. */
  const SteamIdOffset: int := 0x0110000100000000

  // Element and attribute names of the profile document
  const XmlProfile := "profile"
  const XmlVersion := "version"
  const XmlSteamId := "steam_id_64"
  const XmlOldSteamIdShort := "account_id"
  const XmlAutoUpdate := "auto_update"
  const XmlOldAutoDownload := "auto_download"
  const XmlAutoImport := "auto_import"
  const XmlAutoExport := "auto_export"
  const XmlLocalUpdate := "local_update"
  const XmlWebUpdate := "web_update"
  const XmlExportDiscard := "export_discard"
  const XmlAutoIgnore := "auto_ignore"
  const XmlIncludeUnknown := "include_unknown"
  const XmlBypassIgnoreOnImport := "bypass_ignore_on_import"
  const XmlOverwriteNames := "overwrite_names"
  const XmlIncludeShortcuts := "include_shortcuts"
  const XmlOldIgnoreExternal := "ignore_external"
  const XmlExclusionList := "exclusions"
  const XmlExclusion := "exclusion"
  const XmlGameList := "games"
  const XmlGame := "game"
  const XmlGameId := "id"
  const XmlGameSource := "source"
  const XmlGameName := "name"
  const XmlGameHidden := "hidden"
  const XmlGameLastPlayed := "lastplayed"
  const XmlGameExecutable := "executable"
  const XmlGameCategoryList := "categories"
  const XmlGameCategory := "category"
  const XmlOldGameFavorite := "favorite"
  const XmlFilterList := "Filters"
  const XmlFilter := "Filter"
  const XmlFilterName := "Name"
  const XmlFilterGame := "Game"
  const XmlFilterHidden := "Hidden"
  const XmlFilterSoftware := "Software"
  const XmlFilterUncategorized := "Uncategorized"
  const XmlFilterVR := "VR"
  const XmlFilterAllow := "Allow"
  const XmlFilterRequire := "Require"
  const XmlFilterExclude := "Exclude"
  const XmlAutoCatList := "autocats"

  /** The in-memory name of the favorite category and the name it is
      persisted under (GameList.FAVORITE_NEW_CONFIG_VALUE and
      GameList.FAVORITE_CONFIG_VALUE). */
  const FavoriteNewConfigValue := "<Favorite>"
  const FavoriteConfigValue := "favorite"

  // ---------------------------------------------------------------------
  // Account ids

  /** `DirNametoID64`: the parsed directory id plus the offset, in unchecked
      `long` arithmetic; 0 when the text is not a `long`. */
  function DirNameToId64(dir: string): (r: Int64)
    ensures ParseInt64(dir).None? ==> r == 0
  {
    match ParseInt64(dir)
    case Some(v) => Wrap64(v + SteamIdOffset)
    case None => 0
  }

  /** `ID64toDirName`: the decimal text of the id minus the offset. */
  function Id64ToDirName(id: Int64): string {
    ShowInt(Wrap64(id - SteamIdOffset))
  }

  // ---------------------------------------------------------------------
  // Entities

  /** GameListingSource, in declaration (ordinal) order. */
  datatype GameSource = Unknown | SteamConfig | WebProfile | Manual {
    function Ordinal(): nat {
      match this
      case Unknown => 0
      case SteamConfig => 1
      case WebProfile => 2
      case Manual => 3
    }

    /** `ToString()` of the enum value. */
    function Name(): string {
      match this
      case Unknown => "Unknown"
      case SteamConfig => "SteamConfig"
      case WebProfile => "WebProfile"
      case Manual => "Manual"
    }
  }

  function ParseSource(s: string): (r: Option<GameSource>)
    ensures r.Some? ==> r.value.Name() == s
  {
    if s == "Unknown" then Some(Unknown)
    else if s == "SteamConfig" then Some(SteamConfig)
    else if s == "WebProfile" then Some(WebProfile)
    else if s == "Manual" then Some(Manual)
    else None
  }

  /** GameInfo as far as the profile file is concerned. */
  datatype Game = Game(
    id: Int32,
    name: Option<string>,
    source: GameSource,
    hidden: bool,
    executable: Option<string>,
    lastPlayed: Int32,
    categories: seq<string>)

  /** The state of a Filter: its name, its five `int` rules and its
      category lists. */
  datatype FilterEntry = FilterEntry(
    name: string,
    game: Int32,
    hidden: Int32,
    software: Int32,
    uncategorized: Int32,
    vr: Int32,
    allow: seq<string>,
    require: seq<string>,
    exclude: seq<string>)

  datatype TimeType = Main | Extras | Completionist

  datatype HltbRule = HltbRule(name: string, minHours: int, maxHours: int, timeType: TimeType)

  /** The AutoCat variants; `OtherKind` stands for the variants only ever
      read from a file. */
  datatype AutoCatKind =
    | Genre
    | Year
    | UserScore(steamRules: bool)
    | Tags(includedTags: seq<string>)
    | Flags(includedFlags: seq<string>)
    | Hltb(includeUnknown: bool, rules: seq<HltbRule>)
    | Platform(windows: bool, mac: bool, linux: bool, steamOS: bool)
    | OtherKind(typeName: string, settings: seq<string>)

  datatype AutoCat = AutoCat(name: string, filter: Option<string>, prefix: Option<string>, kind: AutoCatKind)

  /** The eleven behaviour switches of a profile. */
  datatype Switches = Switches(
    autoUpdate: bool,
    autoImport: bool,
    autoExport: bool,
    localUpdate: bool,
    webUpdate: bool,
    exportDiscard: bool,
    autoIgnore: bool,
    includeUnknown: bool,
    bypassIgnoreOnImport: bool,
    overwriteOnDownload: bool,
    includeShortcuts: bool)

  /** The field initialisers of Profile. */
  const DefaultSwitches := Switches(
    autoUpdate := true, autoImport := true, autoExport := true,
    localUpdate := true, webUpdate := true, exportDiscard := true,
    autoIgnore := true, includeUnknown := false, bypassIgnoreOnImport := false,
    overwriteOnDownload := false, includeShortcuts := true)

  /** The state of a Profile object. */
  datatype ProfileValue = ProfileValue(
    filePath: Option<string>,
    steamId64: Int64,
    switches: Switches,
    ignoreList: set<Int32>,
    games: seq<Game>,
    filters: seq<FilterEntry>,
    autoCats: seq<AutoCat>)

  /** A freshly constructed Profile with the given `FilePath`. */
  function NewProfile(path: Option<string>): ProfileValue {
    ProfileValue(path, 0, DefaultSwitches, {}, [], [], [])
  }

  /** The localised names used by the default AutoCat set. */
  datatype Resources = Resources(
    genreName: string, yearName: string, userScoreName: string, tagsName: string,
    flagsName: string, hltbName: string, platformName: string,
    genreLabel: string, yearLabel: string, scoreLabel: string, tagsLabel: string,
    flagsLabel: string, platformLabel: string)

  /** What the profile code gets from collaborators outside this model: the
      AutoCat element reader (called with null for a non-element node) and
      writer, the Filter writer and a new Filter's rule values, the localised strings, the tag names of the
      database's sorted tag list and the database's store flags. */
  /** The rule values a new Filter starts with; Filter.cs is not part of
      this model, so they are an input. */
  datatype RuleDefaults = RuleDefaults(game: Int32, hidden: Int32, software: Int32, uncategorized: Int32, vr: Int32)

  datatype Env = Env(
    readAutoCat: Option<XNode> -> Option<AutoCat>,
    writeAutoCat: AutoCat -> XNode,
    writeFilter: FilterEntry -> XNode,
    filterDefaults: RuleDefaults,
    strings: Resources,
    sortedTags: seq<string>,
    storeFlags: seq<string>)

  datatype LoadError = Unreadable | DuplicateGameId(id: Int32)

  datatype SaveError = CannotOpen

  // ---------------------------------------------------------------------
  // Default AutoCats

  const DefaultHltbRules := [
    HltbRule(" 0-5", 0, 5, Extras),
    HltbRule(" 5-10", 5, 10, Extras),
    HltbRule("10-20", 10, 20, Extras),
    HltbRule("20-50", 20, 50, Extras),
    HltbRule("50+", 20, 0, Extras)
  ]

  function Prefix(caption: string): string {
    "(" + caption + ") "
  }

  /** The seven AutoCats `GenerateDefaultAutoCatSet` adds, in order. */
  function DefaultAutoCats(strings: Resources, sortedTags: seq<string>, storeFlags: seq<string>): seq<AutoCat> {
    [ AutoCat(strings.genreName, None, Some(Prefix(strings.genreLabel)), Genre),
      AutoCat(strings.yearName, None, Some(Prefix(strings.yearLabel)), Year),
      AutoCat(strings.userScoreName, None, Some(Prefix(strings.scoreLabel)), UserScore(true)),
      AutoCat(strings.tagsName, None, Some(Prefix(strings.tagsLabel)), Tags(sortedTags)),
      AutoCat(strings.flagsName, None, Some(Prefix(strings.flagsLabel)), Flags(storeFlags)),
      AutoCat(strings.hltbName, None, Some("(HLTB) "), Hltb(false, DefaultHltbRules)),
      AutoCat(strings.platformName, None, Some(Prefix(strings.platformLabel)), Platform(true, true, true, true)) ]
  }

  // ---------------------------------------------------------------------
  // AutoCat lookup by name

  function UpperAscii(c: char): char {
    if 'a' <= c <= 'z' then (c as int - 'a' as int + 'A' as int) as char else c
  }

  /** `string.Equals(a, b, StringComparison.OrdinalIgnoreCase)`. */
  predicate SameNameIgnoreCase(a: string, b: string) {
    |a| == |b| && forall i :: 0 <= i < |a| ==> UpperAscii(a[i]) == UpperAscii(b[i])
  }

  /** The position of the first AutoCat called `name` in any letter case,
      or `|acs|` when there is none. */
  function IndexOfAutoCat(acs: seq<AutoCat>, name: string): (k: nat)
    ensures k <= |acs|
    ensures forall j :: 0 <= j < k ==> !SameNameIgnoreCase(acs[j].name, name)
    ensures k < |acs| ==> SameNameIgnoreCase(acs[k].name, name)
  {
    if acs == [] then 0
    else if SameNameIgnoreCase(acs[0].name, name) then 0
    else 1 + IndexOfAutoCat(acs[1..], name)
  }

  /** `GetAutoCat`: nothing for a null or empty name, otherwise the first
      AutoCat whose name matches ignoring case. */
  function LookupAutoCat(acs: seq<AutoCat>, name: Option<string>): (r: Option<AutoCat>)
    ensures r.Some? ==> name.Some? && name.value != "" && r.value in acs && SameNameIgnoreCase(r.value.name, name.value)
    ensures r.None? && name.Some? && name.value != "" ==>
              forall j :: 0 <= j < |acs| ==> !SameNameIgnoreCase(acs[j].name, name.value)
  {
    if name.None? || name.value == "" then None
    else
      var k := IndexOfAutoCat(acs, name.value);
      if k < |acs| then Some(acs[k]) else None
  }

  /** `CloneAutoCatList`: for each name that resolves, a copy of the AutoCat,
      with its filter replaced by the given filter's name when one is given. */
  function ClonedAutoCats(acs: seq<AutoCat>, names: seq<string>, filter: Option<FilterEntry>): seq<AutoCat> {
    if names == [] then []
    else
      var found := LookupAutoCat(acs, Some(names[|names| - 1]));
      ClonedAutoCats(acs, names[..|names| - 1], filter)
      + (if found.None? then []
         else if filter.Some? then [found.value.(filter := Some(filter.value.name))]
         else [found.value])
  }

  // ---------------------------------------------------------------------
  // Reading: the profile header

  /** The `version` attribute; 0 when absent or not an `int`. */
  function ProfileVersion(root: XNode): Int32 {
    if root.Element? && XmlVersion in root.attributes
    then ParseInt32(root.attributes[XmlVersion]).GetOr(0)
    else 0
  }

  /** The owning account: a nonzero `steam_id_64`, else the converted legacy
      `account_id`, else 0. */
  function AccountId(root: XNode): Int64 {
    var accId := GetInt64(Child(root, XmlSteamId), 0);
    if accId != 0 then accId
    else
      match GetString(Child(root, XmlOldSteamIdShort), None)
      case Some(shortId) => DirNameToId64(shortId)
      case None => 0
  }

  /** The switches, each read from its element and otherwise left at its
      current value `d`, with the legacy names of versions below 3 and 2. */
  function ReadSwitches(root: XNode, version: Int32, d: Switches): Switches {
    Switches(
      autoUpdate := GetBool(Child(root, if version < 3 then XmlOldAutoDownload else XmlAutoUpdate), d.autoUpdate),
      autoImport := GetBool(Child(root, XmlAutoImport), d.autoImport),
      autoExport := GetBool(Child(root, XmlAutoExport), d.autoExport),
      localUpdate := GetBool(Child(root, XmlLocalUpdate), d.localUpdate),
      webUpdate := GetBool(Child(root, XmlWebUpdate), d.webUpdate),
      exportDiscard := GetBool(Child(root, XmlExportDiscard), d.exportDiscard),
      autoIgnore := GetBool(Child(root, XmlAutoIgnore), d.autoIgnore),
      includeUnknown := GetBool(Child(root, XmlIncludeUnknown), d.includeUnknown),
      bypassIgnoreOnImport := GetBool(Child(root, XmlBypassIgnoreOnImport), d.bypassIgnoreOnImport),
      overwriteOnDownload := GetBool(Child(root, XmlOverwriteNames), d.overwriteOnDownload),
      includeShortcuts :=
        if version < 2 then
          match TryGetBool(Child(root, XmlOldIgnoreExternal))
          case Some(ignoreShortcuts) => !ignoreShortcuts
          case None => d.includeShortcuts
        else GetBool(Child(root, XmlIncludeShortcuts), d.includeShortcuts))
  }

  // ---------------------------------------------------------------------
  // Reading: lists (each a fold over the nodes, in document order)

  /** The ids of the `exclusion` entries that parse as `int`. */
  function ExclusionIds(nodes: seq<XNode>): set<Int32> {
    if nodes == [] then {}
    else
      var last := TryGetInt(Some(nodes[|nodes| - 1]));
      ExclusionIds(nodes[..|nodes| - 1]) + (if last.Some? then {last.value} else {})
  }

  function ReadIgnoreList(root: XNode): set<Int32> {
    match Child(root, XmlExclusionList)
    case Some(list) => ExclusionIds(Children(list, XmlExclusion))
    case None => {}
  }

  /** The inner texts of the nodes, in order (category names). */
  function Texts(nodes: seq<XNode>): (r: seq<string>)
    ensures |r| == |nodes|
  {
    if nodes == [] then [] else Texts(nodes[..|nodes| - 1]) + [InnerText(nodes[|nodes| - 1])]
  }

  /** `GetEnumFromNode` for the game source, defaulting to Unknown. */
  function ReadSource(node: XNode): GameSource {
    match GetString(Child(node, XmlGameSource), None)
    case Some(s) => ParseSource(s).GetOr(Unknown)
    case None => Unknown
  }

  /** The categories of a game entry: before version 1 a single `category`
      and a `favorite` marker, from version 1 on a `categories` list. */
  function GameCategories(node: XNode, version: Int32): seq<string> {
    if version < 1 then
      (match TryGetString(Child(node, XmlGameCategory))
       case Some(c) => [c]
       case None => [])
      + (if Child(node, XmlOldGameFavorite).Some? then [FavoriteNewConfigValue] else [])
    else
      match Child(node, XmlGameCategoryList)
      case Some(list) => Texts(Children(list, XmlGameCategory))
      case None => []
  }

  function ReadGame(node: XNode, id: Int32, source: GameSource, version: Int32): Game {
    Game(id,
         GetString(Child(node, XmlGameName), None),
         source,
         GetBool(Child(node, XmlGameHidden), false),
         GetString(Child(node, XmlGameExecutable), None),
         GetInt(Child(node, XmlGameLastPlayed), 0),
         GameCategories(node, version))
  }

  function GameIds(games: seq<Game>): set<int> {
    set g | g in games :: g.id
  }

  /** Store-listed titles (source below Manual) that the user ignored. */
  predicate Suppressed(source: GameSource, id: int, ignore: set<Int32>) {
    source.Ordinal() < Manual.Ordinal() && id in ignore
  }

  /** `AddGameFromXmlNode`: an entry without an `int` id is skipped, an
      ignored store title is dropped, a repeated id makes `Dictionary.Add`
      throw, anything else is appended. */
  function AddGame(games: seq<Game>, node: XNode, version: Int32, ignore: set<Int32>): Result<seq<Game>, LoadError> {
    match TryGetInt(Child(node, XmlGameId))
    case None => Success(games)
    case Some(id) =>
      var source := ReadSource(node);
      if Suppressed(source, id, ignore) then Success(games)
      else if id in GameIds(games) then Failure(DuplicateGameId(id))
      else Success(games + [ReadGame(node, id, source, version)])
  }

  function LoadGames(nodes: seq<XNode>, version: Int32, ignore: set<Int32>): Result<seq<Game>, LoadError> {
    if nodes == [] then Success([])
    else
      match LoadGames(nodes[..|nodes| - 1], version, ignore)
      case Failure(e) => Failure(e)
      case Success(games) => AddGame(games, nodes[|nodes| - 1], version, ignore)
  }

  function ReadGames(root: XNode, version: Int32, ignore: set<Int32>): Result<seq<Game>, LoadError> {
    match Child(root, XmlGameList)
    case Some(list) => LoadGames(Children(list, XmlGame), version, ignore)
    case None => Success([])
  }

  /** `AddFilterFromXmlNode`: nothing without a `Name`; otherwise a new
      Filter whose rules that parse overwrite its defaults, and the named
      categories. */
  function ParseFilter(node: XNode, d: RuleDefaults): Option<FilterEntry> {
    match TryGetString(Child(node, XmlFilterName))
    case None => None
    case Some(name) =>
      Some(FilterEntry(name,
                       TryGetInt(Child(node, XmlFilterGame)).GetOr(d.game),
                       TryGetInt(Child(node, XmlFilterHidden)).GetOr(d.hidden),
                       TryGetInt(Child(node, XmlFilterSoftware)).GetOr(d.software),
                       TryGetInt(Child(node, XmlFilterUncategorized)).GetOr(d.uncategorized),
                       TryGetInt(Child(node, XmlFilterVR)).GetOr(d.vr),
                       Texts(Children(node, XmlFilterAllow)),
                       Texts(Children(node, XmlFilterRequire)),
                       Texts(Children(node, XmlFilterExclude))))
  }

  function FilterEntries(nodes: seq<XNode>, d: RuleDefaults): seq<FilterEntry> {
    if nodes == [] then []
    else
      var f := ParseFilter(nodes[|nodes| - 1], d);
      FilterEntries(nodes[..|nodes| - 1], d) + (if f.Some? then [f.value] else [])
  }

  function ReadFilters(root: XNode, d: RuleDefaults): seq<FilterEntry> {
    match Child(root, XmlFilterList)
    case Some(list) => FilterEntries(Children(list, XmlFilter), d)
    case None => []
  }

  /** `node as XmlElement`. */
  function AsElement(n: XNode): Option<XNode> {
    if n.Element? then Some(n) else None
  }

  /** Every child node of `autocats` is handed to the reader, a non-element
      one as null, and what it returns (when not null) is kept. */
  function ReadAutoCats(nodes: seq<XNode>, read: Option<XNode> -> Option<AutoCat>): seq<AutoCat> {
    if nodes == [] then []
    else
      var a := read(AsElement(nodes[|nodes| - 1]));
      ReadAutoCats(nodes[..|nodes| - 1], read) + (if a.Some? then [a.value] else [])
  }

  /** The AutoCats of a profile: those listed, or the default set when the
      `autocats` element is absent. */
  function ReadAutoCatSection(root: XNode, env: Env): seq<AutoCat> {
    match Child(root, XmlAutoCatList)
    case Some(list) => ReadAutoCats(ChildNodes(list), env.readAutoCat)
    case None => DefaultAutoCats(env.strings, env.sortedTags, env.storeFlags)
  }

  /** `Profile.Load` on a document (`None`: `XmlDocument.Load` failed). */
  function Decode(doc: Option<XNode>, path: string, env: Env): Result<ProfileValue, LoadError> {
    match doc
    case None => Failure(Unreadable)
    case Some(root) =>
      if !IsElementNamed(root, XmlProfile) then Success(NewProfile(Some(path)))
      else
        var version := ProfileVersion(root);
        var ignore := ReadIgnoreList(root);
        match ReadGames(root, version, ignore)
        case Failure(e) => Failure(e)
        case Success(games) =>
          Success(ProfileValue(Some(path), AccountId(root), ReadSwitches(root, version, DefaultSwitches), ignore,
                               games, ReadFilters(root, env.filterDefaults), ReadAutoCatSection(root, env)))
  }

  // ---------------------------------------------------------------------
  // Writing

  function HeaderElements(p: ProfileValue): seq<XNode> {
    var s := p.switches;
    [ TextElement(XmlSteamId, ShowInt(p.steamId64)),
      TextElement(XmlAutoUpdate, BoolText(s.autoUpdate)),
      TextElement(XmlAutoImport, BoolText(s.autoImport)),
      TextElement(XmlAutoExport, BoolText(s.autoExport)),
      TextElement(XmlLocalUpdate, BoolText(s.localUpdate)),
      TextElement(XmlWebUpdate, BoolText(s.webUpdate)),
      TextElement(XmlExportDiscard, BoolText(s.exportDiscard)),
      TextElement(XmlAutoIgnore, BoolText(s.autoIgnore)),
      TextElement(XmlIncludeUnknown, BoolText(s.includeUnknown)),
      TextElement(XmlBypassIgnoreOnImport, BoolText(s.bypassIgnoreOnImport)),
      TextElement(XmlOverwriteNames, BoolText(s.overwriteOnDownload)),
      TextElement(XmlIncludeShortcuts, BoolText(s.includeShortcuts)) ]
  }

  /** The name a category is persisted under. */
  function PersistedCategory(c: string): string {
    if c == FavoriteNewConfigValue then FavoriteConfigValue else c
  }

  function CategoryElements(cats: seq<string>): (r: seq<XNode>)
    ensures |r| == |cats|
  {
    if cats == [] then []
    else CategoryElements(cats[..|cats| - 1]) + [TextElement(XmlGameCategory, PersistedCategory(cats[|cats| - 1]))]
  }

  /** `sub` occurs in `s` at position `i`. */
  predicate OccursAt(s: string, sub: string, i: int) {
    0 <= i && i + |sub| <= |s| && s[i..i + |sub|] == sub
  }

  /** `s.Contains(sub)` (ordinal), searching from position `from`. */
  function ContainsAt(s: string, sub: string, from: nat): (b: bool)
    requires from <= |s|
    ensures b <==> exists i :: from <= i && OccursAt(s, sub, i)
    decreases |s| - from
  {
    if from + |sub| > |s| then false
    else if s[from..from + |sub|] == sub then
      assert OccursAt(s, sub, from);
      true
    else
      assert !OccursAt(s, sub, from);
      ContainsAt(s, sub, from + 1)
  }

  /** The executable is written unless it is a steam:// launch link; a game
      without one writes none. */
  function WritesExecutable(g: Game): bool {
    g.executable.Some? && !ContainsAt(g.executable.value, "steam://", 0)
  }

  function GameElement(g: Game): XNode {
    Element(XmlGame, map[],
      [TextElement(XmlGameId, ShowInt(g.id)), TextElement(XmlGameSource, g.source.Name())]
      + (if g.name.Some? then [TextElement(XmlGameName, g.name.value)] else [])
      + [TextElement(XmlGameHidden, BoolText(g.hidden))]
      + (if g.lastPlayed != 0 then [TextElement(XmlGameLastPlayed, ShowInt(g.lastPlayed))] else [])
      + (if WritesExecutable(g) then [TextElement(XmlGameExecutable, g.executable.value)] else [])
      + [Element(XmlGameCategoryList, map[], CategoryElements(g.categories))])
  }

  /** A game is written when shortcuts are included or its id is positive. */
  predicate Written(g: Game, includeShortcuts: bool) {
    includeShortcuts || g.id > 0
  }

  function GameElements(games: seq<Game>, includeShortcuts: bool): seq<XNode> {
    if games == [] then []
    else
      var g := games[|games| - 1];
      GameElements(games[..|games| - 1], includeShortcuts)
      + (if Written(g, includeShortcuts) then [GameElement(g)] else [])
  }

  /** The elements of a section whose entries each write themselves (filters
      and AutoCats): one element per entry, in order. */
  function Elements<T>(xs: seq<T>, write: T -> XNode): (r: seq<XNode>)
    ensures |r| == |xs|
    ensures forall i :: 0 <= i < |xs| ==> r[i] == write(xs[i])
  {
    if xs == [] then []
    else Elements(xs[..|xs| - 1], write) + [write(xs[|xs| - 1])]
  }

  predicate StrictlyAscending(s: seq<int>) {
    forall i, j :: 0 <= i < j < |s| ==> s[i] < s[j]
  }

  lemma {:induction false} LeastElement(s: set<Int32>) returns (m: Int32)
    requires s != {}
    ensures m in s && forall y :: y in s ==> m <= y
    decreases |s|
  {
    var x :| x in s;
    var rest := s - {x};
    if rest == {} {
      m := x;
      forall y | y in s
        ensures m <= y
      {
        assert y == x || y in rest;
      }
    } else {
      var k := LeastElement(rest);
      m := if x < k then x else k;
      forall y | y in s
        ensures m <= y
      {
        assert y == x || y in rest;
      }
    }
  }

  lemma LeastExists(s: set<Int32>)
    requires s != {}
    ensures exists m :: m in s && forall y :: y in s ==> m <= y
  {
    var m := LeastElement(s);
  }

  /** The least element of a nonempty set. */
  function Least(s: set<Int32>): (m: Int32)
    requires s != {}
    ensures m in s && forall y :: y in s ==> m <= y
  {
    LeastExists(s);
    var m :| m in s && forall y :: y in s ==> m <= y;
    m
  }

  /** The enumeration order of a SortedSet<int>. */
  function Ascending(s: set<Int32>): (r: seq<Int32>)
    ensures |r| == |s|
    ensures forall x :: x in r <==> x in s
    ensures StrictlyAscending(r)
    decreases |s|
  {
    if s == {} then []
    else
      var m := Least(s);
      var rest := Ascending(s - {m});
      assert forall i :: 0 <= i < |rest| ==> rest[i] in s - {m};
      PrependAscending(m, rest);
      [m] + rest
  }

  /** A value below every element of an ascending sequence can be put in front. */
  lemma PrependAscending(m: int, rest: seq<int>)
    requires StrictlyAscending(rest) && forall i :: 0 <= i < |rest| ==> m < rest[i]
    ensures StrictlyAscending([m] + rest)
  {
  }

  function ExclusionElements(ids: seq<Int32>): (r: seq<XNode>)
    ensures |r| == |ids|
  {
    if ids == [] then []
    else ExclusionElements(ids[..|ids| - 1]) + [TextElement(XmlExclusion, ShowInt(ids[|ids| - 1]))]
  }

  /** The document `Profile.Save` writes. */
  function Encode(p: ProfileValue, env: Env): XNode {
    Element(XmlProfile, map[XmlVersion := ShowInt(Version)],
      HeaderElements(p)
      + [ Element(XmlGameList, map[], GameElements(p.games, p.switches.includeShortcuts)),
          Element(XmlFilterList, map[], Elements(p.filters, env.writeFilter)),
          Element(XmlAutoCatList, map[], Elements(p.autoCats, env.writeAutoCat)),
          Element(XmlExclusionList, map[], ExclusionElements(Ascending(p.ignoreList))) ])
  }
}
