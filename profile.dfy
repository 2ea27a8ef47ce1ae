/** The Profile object of Profile.cs: its fields, `Load` and the two element
    readers it calls, `Save`, `GenerateDefaultAutoCatSet`, `IgnoreGame`,
    `GetAutoCat` and `CloneAutoCatList`. Each method is proved to agree with
    the value-level definitions of ProfileCodec. */
module Profiles {
  import opened Wrappers
  import opened Numbers
  import opened XmlTree
  import opened ProfileCodec

  class Profile {
    var autoCats: seq<AutoCat>
    var filePath: Option<string>
    /** GameData.Games, in insertion order. */
    var games: seq<Game>
    /** GameData.Filters. */
    var filters: seq<FilterEntry>
    var ignoreList: set<Int32>
    var steamId64: Int64
    /** The eleven boolean settings (AutoUpdate … IncludeShortcuts). */
    var switches: Switches

    /** The state of this profile as a value. */
    function Value(): ProfileValue
      reads this
    {
      ProfileValue(filePath, steamId64, switches, ignoreList, games, filters, autoCats)
    }

    /** `new Profile { FilePath = path }`: every field at its initialiser. */
    constructor (path: Option<string>)
      ensures Value() == NewProfile(path)
    {
      autoCats := [];
      filePath := path;
      games := [];
      filters := [];
      ignoreList := {};
      steamId64 := 0;
      switches := DefaultSwitches;
    }

    /** `Profile.Load`: the profile the document describes, or the error
        that aborts the load. */
    static method Load(doc: Option<XNode>, path: string, env: Env) returns (r: Result<Profile, LoadError>)
      ensures Decode(doc, path, env).Failure? ==> r == Failure(Decode(doc, path, env).error)
      ensures Decode(doc, path, env).Success? ==>
                r.Success? && fresh(r.value) && r.value.Value() == Decode(doc, path, env).value
    {
      var profile := new Profile(Some(path));
      if doc.None? {
        return Failure(Unreadable);
      }
      var root := doc.value;
      if !IsElementNamed(root, XmlProfile) {
        return Success(profile);
      }

      ghost var ignore := ReadIgnoreList(root);
      assert profile.ignoreList + ignore == ignore;
      var err := profile.LoadElements(root, env);
      if err.Some? {
        assert ReadGames(root, ProfileVersion(root), ignore).Failure?;
        return Failure(err.value);
      }
      assert Decode(doc, path, env) == Success(profile.Value());
      return Success(profile);
    }

    /** The body of `Load` for a `profile` root: the version, then the
        account, the switches, the exclusions, the games, the filters and
        the AutoCats, read into this fresh profile. A failure while reading
        the games ends the load. */
    method LoadElements(root: XNode, env: Env) returns (err: Option<LoadError>)
      requires games == [] && filters == [] && autoCats == []
      modifies this
      ensures ReadGames(root, ProfileVersion(root), old(ignoreList) + ReadIgnoreList(root)).Failure? ==>
                err == Some(ReadGames(root, ProfileVersion(root), old(ignoreList) + ReadIgnoreList(root)).error)
      ensures ReadGames(root, ProfileVersion(root), old(ignoreList) + ReadIgnoreList(root)).Success? ==>
                && err.None?
                && Value() == old(Value()).(
                     steamId64 := AccountId(root),
                     switches := ProfileCodec.ReadSwitches(root, ProfileVersion(root), old(switches)),
                     ignoreList := old(ignoreList) + ReadIgnoreList(root),
                     games := ReadGames(root, ProfileVersion(root), old(ignoreList) + ReadIgnoreList(root)).value,
                     filters := ReadFilters(root, env.filterDefaults),
                     autoCats := ReadAutoCatSection(root, env))
    {
      var profileVersion: Int32 := 0;
      if root.Element? && XmlVersion in root.attributes {
        var parsed := ParseInt32(root.attributes[XmlVersion]);
        profileVersion := if parsed.Some? then parsed.value else 0;
      }
      assert profileVersion == ProfileVersion(root);

      ReadAccount(root);
      ReadSwitches(root, profileVersion);
      ReadExclusions(root);
      err := ReadGameList(root, profileVersion);
      if err.Some? {
        return;
      }
      ReadFilterList(root, env.filterDefaults);
      ReadAutoCatList(root, env);
    }

    /** The owning account, with the legacy `account_id` fallback. */
    method ReadAccount(root: XNode)
      modifies this
      ensures Value() == old(Value()).(steamId64 := AccountId(root))
    {
      var accId := GetInt64(Child(root, XmlSteamId), 0);
      if accId == 0 {
        var oldAcc := GetString(Child(root, XmlOldSteamIdShort), None);
        if oldAcc.Some? {
          accId := DirNameToId64(oldAcc.value);
        }
      }
      steamId64 := accId;
    }

    /** The switches, each read from its element or left as it is. */
    method ReadSwitches(root: XNode, profileVersion: Int32)
      modifies this
      ensures Value() == old(Value()).(switches := ProfileCodec.ReadSwitches(root, profileVersion, old(switches)))
    {
      switches := ProfileCodec.ReadSwitches(root, profileVersion, switches);
    }

    /** The ids of the `exclusions` list are added to the ignore list. */
    method ReadExclusions(root: XNode)
      modifies this
      ensures Value() == old(Value()).(ignoreList := old(ignoreList) + ReadIgnoreList(root))
    {
      var exclusionList := Child(root, XmlExclusionList);
      if exclusionList.Some? {
        AddExclusions(Children(exclusionList.value, XmlExclusion));
      }
    }

    /** Each `exclusion` entry that parses as an `int` joins the ignore list. */
    method AddExclusions(nodes: seq<XNode>)
      modifies this
      ensures Value() == old(Value()).(ignoreList := old(ignoreList) + ExclusionIds(nodes))
    {
      var i := 0;
      while i < |nodes|
        invariant 0 <= i <= |nodes|
        invariant Value() == old(Value()).(ignoreList := old(ignoreList) + ExclusionIds(nodes[..i]))
      {
        assert nodes[..i + 1][..i] == nodes[..i];
        var id := TryGetInt(Some(nodes[i]));
        if id.Some? {
          ignoreList := ignoreList + {id.value};
        }
        i := i + 1;
      }
      assert nodes[..|nodes|] == nodes;
    }

    /** The `games` section, if there is one. */
    method ReadGameList(root: XNode, profileVersion: Int32) returns (err: Option<LoadError>)
      requires games == []
      modifies this
      ensures ReadGames(root, profileVersion, ignoreList).Failure? ==>
                err == Some(ReadGames(root, profileVersion, ignoreList).error)
      ensures ReadGames(root, profileVersion, ignoreList).Success? ==>
                err.None? && Value() == old(Value()).(games := ReadGames(root, profileVersion, ignoreList).value)
      ensures ignoreList == old(ignoreList)
    {
      var gameList := Child(root, XmlGameList);
      if gameList.Some? {
        err := AddGames(Children(gameList.value, XmlGame), profileVersion);
      } else {
        err := None;
      }
    }

    /** The game entries, one `AddGameFromXmlNode` each; the first failure
        aborts with the games read so far left in place. */
    method AddGames(nodes: seq<XNode>, profileVersion: Int32) returns (err: Option<LoadError>)
      requires games == []
      modifies this
      ensures LoadGames(nodes, profileVersion, ignoreList).Failure? ==>
                err == Some(LoadGames(nodes, profileVersion, ignoreList).error)
      ensures LoadGames(nodes, profileVersion, ignoreList).Success? ==>
                err.None? && Value() == old(Value()).(games := LoadGames(nodes, profileVersion, ignoreList).value)
      ensures ignoreList == old(ignoreList)
    {
      var i := 0;
      while i < |nodes|
        invariant 0 <= i <= |nodes|
        invariant ignoreList == old(ignoreList)
        invariant LoadGames(nodes[..i], profileVersion, ignoreList).Success?
        invariant Value() == old(Value()).(games := LoadGames(nodes[..i], profileVersion, ignoreList).value)
      {
        assert nodes[..i + 1][..i] == nodes[..i];
        err := AddGameFromXmlNode(nodes[i], profileVersion);
        if err.Some? {
          LoadGamesFailurePersists(nodes, i + 1, profileVersion, ignoreList);
          return;
        }
        i := i + 1;
      }
      assert nodes[..|nodes|] == nodes;
      err := None;
    }

    /** The `Filters` entries, one `AddFilterFromXmlNode` each. */
    method ReadFilterList(root: XNode, defaults: RuleDefaults)
      requires filters == []
      modifies this
      ensures Value() == old(Value()).(filters := ReadFilters(root, defaults))
    {
      var filterList := Child(root, XmlFilterList);
      if filterList.Some? {
        var nodes := Children(filterList.value, XmlFilter);
        var i := 0;
        while i < |nodes|
          invariant 0 <= i <= |nodes|
          invariant Value() == old(Value()).(filters := FilterEntries(nodes[..i], defaults))
        {
          FilterEntriesStep(nodes, i, defaults);
          AddFilterFromXmlNode(nodes[i], defaults);
          i := i + 1;
        }
        assert nodes[..|nodes|] == nodes;
      }
    }

    static lemma FilterEntriesStep(nodes: seq<XNode>, i: nat, d: RuleDefaults)
      requires i < |nodes|
      ensures FilterEntries(nodes[..i + 1], d) ==
                FilterEntries(nodes[..i], d) + (if ParseFilter(nodes[i], d).Some? then [ParseFilter(nodes[i], d).value] else [])
    {
      assert nodes[..i + 1][..i] == nodes[..i];
    }

    /** The `autocats` child nodes, each through the AutoCat reader; the
        default set when the element is absent. */
    method ReadAutoCatList(root: XNode, env: Env)
      requires autoCats == []
      modifies this
      ensures Value() == old(Value()).(autoCats := ReadAutoCatSection(root, env))
    {
      var autocatList := Child(root, XmlAutoCatList);
      if autocatList.Some? {
        var nodes := ChildNodes(autocatList.value);
        var i := 0;
        while i < |nodes|
          invariant 0 <= i <= |nodes|
          invariant Value() == old(Value()).(autoCats := ReadAutoCats(nodes[..i], env.readAutoCat))
        {
          assert nodes[..i + 1][..i] == nodes[..i];
          // The element cast, then a test of `node` (never null) rather than of the cast.
          var autocatElement := AsElement(nodes[i]);
          var autocat := env.readAutoCat(autocatElement);
          if autocat.Some? {
            autoCats := autoCats + [autocat.value];
          }
          i := i + 1;
        }
        assert nodes[..|nodes|] == nodes;
      } else {
        GenerateDefaultAutoCatSet(env.strings, env.sortedTags, env.storeFlags);
      }
    }

    /** `AddGameFromXmlNode`: adds the game an entry describes, unless it has
        no `int` id or is an ignored store title; a repeated id is the
        exception `Dictionary.Add` throws, and nothing is added. */
    method AddGameFromXmlNode(node: XNode, profileVersion: Int32) returns (err: Option<LoadError>)
      modifies this
      ensures AddGame(old(games), node, profileVersion, old(ignoreList)).Failure? ==>
                err == Some(AddGame(old(games), node, profileVersion, old(ignoreList)).error) && Value() == old(Value())
      ensures AddGame(old(games), node, profileVersion, old(ignoreList)).Success? ==>
                err.None? && Value() == old(Value()).(games := AddGame(old(games), node, profileVersion, old(ignoreList)).value)
    {
      var id := TryGetInt(Child(node, XmlGameId));
      if id.None? {
        return None;
      }
      var source := ReadSource(node);
      if source.Ordinal() < Manual.Ordinal() && id.value in ignoreList {
        return None;
      }
      var name := GetString(Child(node, XmlGameName), None);
      if id.value in GameIds(games) {
        return Some(DuplicateGameId(id.value));
      }
      var hidden := GetBool(Child(node, XmlGameHidden), false);
      var executable := GetString(Child(node, XmlGameExecutable), None);
      var lastPlayed := GetInt(Child(node, XmlGameLastPlayed), 0);
      var categories := ReadCategories(node, profileVersion);
      games := games + [Game(id.value, name, source, hidden, executable, lastPlayed, categories)];
      return None;
    }

    /** The category part of `AddGameFromXmlNode`: before version 1 the
        single `category` and the `favorite` marker, from version 1 on each
        entry of `categories`. */
    static method ReadCategories(node: XNode, profileVersion: Int32) returns (categories: seq<string>)
      ensures categories == GameCategories(node, profileVersion)
    {
      categories := [];
      if profileVersion < 1 {
        var catName := TryGetString(Child(node, XmlGameCategory));
        if catName.Some? {
          categories := categories + [catName.value];
        }
        if Child(node, XmlOldGameFavorite).Some? {
          categories := categories + [FavoriteNewConfigValue];
        }
      } else {
        var catListNode := Child(node, XmlGameCategoryList);
        if catListNode.Some? {
          categories := CategoryNames(Children(catListNode.value, XmlGameCategory));
        }
      }
    }

    /** `AddFilterFromXmlNode`: a filter entry with a `Name` is added as a new
        Filter, each rule that parses overwriting that rule's default, with
        its Allow, Require and Exclude categories. */
    method AddFilterFromXmlNode(node: XNode, defaults: RuleDefaults)
      modifies this
      ensures ParseFilter(node, defaults).None? ==> Value() == old(Value())
      ensures ParseFilter(node, defaults).Some? ==>
                Value() == old(Value()).(filters := old(filters) + [ParseFilter(node, defaults).value])
    {
      var name := TryGetString(Child(node, XmlFilterName));
      if name.None? {
        return;
      }
      var game := ReadRule(node, XmlFilterGame, defaults.game);
      var hidden := ReadRule(node, XmlFilterHidden, defaults.hidden);
      var software := ReadRule(node, XmlFilterSoftware, defaults.software);
      var uncategorized := ReadRule(node, XmlFilterUncategorized, defaults.uncategorized);
      var vr := ReadRule(node, XmlFilterVR, defaults.vr);
      var allow := CategoryNames(Children(node, XmlFilterAllow));
      var require := CategoryNames(Children(node, XmlFilterRequire));
      var exclude := CategoryNames(Children(node, XmlFilterExclude));
      filters := filters + [FilterEntry(name.value, game, hidden, software, uncategorized, vr, allow, require, exclude)];
    }

    /** One `TryGetIntFromNode` guard: the rule is overwritten only when its element parses. */
    static method ReadRule(node: XNode, name: string, current: Int32) returns (x: Int32)
      ensures x == TryGetInt(Child(node, name)).GetOr(current)
    {
      x := current;
      var parsed := TryGetInt(Child(node, name));
      if parsed.Some? {
        x := parsed.value;
      }
    }

    /** The loop over the category nodes of a filter rule. */
    static method CategoryNames(nodes: seq<XNode>) returns (names: seq<string>)
      ensures names == Texts(nodes)
    {
      names := [];
      var i := 0;
      while i < |nodes|
        invariant 0 <= i <= |nodes|
        invariant names == Texts(nodes[..i])
      {
        assert nodes[..i + 1][..i] == nodes[..i];
        var catName := TryGetString(Some(nodes[i]));
        if catName.Some? {
          names := names + [catName.value];
        }
        i := i + 1;
      }
      assert nodes[..|nodes|] == nodes;
    }

    /** `GenerateDefaultAutoCatSet(AutoCats)`: appends the seven default
        AutoCats. */
    method GenerateDefaultAutoCatSet(strings: Resources, sortedTags: seq<string>, storeFlags: seq<string>)
      modifies this
      ensures Value() == old(Value()).(autoCats := old(autoCats) + DefaultAutoCats(strings, sortedTags, storeFlags))
    {
      var tags: seq<string> := [];
      var i := 0;
      while i < |sortedTags|
        invariant 0 <= i <= |sortedTags| && tags == sortedTags[..i]
      {
        tags := tags + [sortedTags[i]];
        i := i + 1;
      }
      assert tags == sortedTags;
      var flags: seq<string> := [];
      i := 0;
      while i < |storeFlags|
        invariant 0 <= i <= |storeFlags| && flags == storeFlags[..i]
      {
        flags := flags + [storeFlags[i]];
        i := i + 1;
      }
      assert flags == storeFlags;
      var hltbRules: seq<HltbRule> := [];
      hltbRules := hltbRules + [HltbRule(" 0-5", 0, 5, Extras)];
      hltbRules := hltbRules + [HltbRule(" 5-10", 5, 10, Extras)];
      hltbRules := hltbRules + [HltbRule("10-20", 10, 20, Extras)];
      hltbRules := hltbRules + [HltbRule("20-50", 20, 50, Extras)];
      hltbRules := hltbRules + [HltbRule("50+", 20, 0, Extras)];
      assert hltbRules == DefaultHltbRules;
      var list := [
        AutoCat(strings.genreName, None, Some(Prefix(strings.genreLabel)), Genre),
        AutoCat(strings.yearName, None, Some(Prefix(strings.yearLabel)), Year),
        AutoCat(strings.userScoreName, None, Some(Prefix(strings.scoreLabel)), UserScore(true)),
        AutoCat(strings.tagsName, None, Some(Prefix(strings.tagsLabel)), Tags(tags)),
        AutoCat(strings.flagsName, None, Some(Prefix(strings.flagsLabel)), Flags(flags)),
        AutoCat(strings.hltbName, None, Some("(HLTB) "), Hltb(false, hltbRules)),
        AutoCat(strings.platformName, None, Some(Prefix(strings.platformLabel)), Platform(true, true, true, true))
      ];
      autoCats := autoCats + list;
    }

    /** `IgnoreGame`: `SortedSet.Add`, true exactly when the id was new. */
    method IgnoreGame(gameId: Int32) returns (added: bool)
      modifies this
      ensures added <==> gameId !in old(ignoreList)
      ensures Value() == old(Value()).(ignoreList := old(ignoreList) + {gameId})
    {
      added := gameId !in ignoreList;
      ignoreList := ignoreList + {gameId};
    }

    /** `GetAutoCat`: the first AutoCat whose name matches ignoring case;
        null for a null or empty name or when none matches. */
    method GetAutoCat(name: Option<string>) returns (r: Option<AutoCat>)
      ensures r == LookupAutoCat(autoCats, name)
    {
      if name.None? || name.value == "" {
        return None;
      }
      var i := 0;
      while i < |autoCats|
        invariant 0 <= i <= |autoCats|
        invariant forall j :: 0 <= j < i ==> !SameNameIgnoreCase(autoCats[j].name, name.value)
      {
        if SameNameIgnoreCase(autoCats[i].name, name.value) {
          return Some(autoCats[i]);
        }
        i := i + 1;
      }
      return None;
    }

    /** `CloneAutoCatList`: copies of the named AutoCats, in the order of the
        names, skipping names that do not resolve. */
    method CloneAutoCatList(acList: seq<string>, filter: Option<FilterEntry>) returns (newList: seq<AutoCat>)
      ensures newList == ClonedAutoCats(autoCats, acList, filter)
    {
      newList := [];
      var i := 0;
      while i < |acList|
        invariant 0 <= i <= |acList|
        invariant newList == ClonedAutoCats(autoCats, acList[..i], filter)
      {
        assert acList[..i + 1][..i] == acList[..i];
        var ac := GetAutoCat(Some(acList[i]));
        if ac.Some? {
          var clone := ac.value;
          if filter.Some? {
            clone := clone.(filter := Some(filter.value.name));
          }
          newList := newList + [clone];
        }
        i := i + 1;
      }
      assert acList[..|acList|] == acList;
    }

    /** `Save(path)`: the document written, after which `FilePath` is `path`.
        The backup made first only logs when it fails, so neither its outcome
        nor the file it copies is part of the state; a writer that cannot be
        opened is the exception that aborts the save with nothing changed. */
    method Save(path: string, env: Env, openFails: bool) returns (r: Result<XNode, SaveError>)
      modifies this`filePath
      ensures openFails ==> r == Failure(CannotOpen) && filePath == old(filePath)
      ensures !openFails ==> r == Success(Encode(old(Value()), env)) && filePath == Some(path)
    {
      if openFails {
        return Failure(CannotOpen);
      }
      ghost var before := Value();
      var header := HeaderElements(Value());
      var gameNodes := WriteGames(games, switches.includeShortcuts);
      var filterNodes := WriteAll(filters, env.writeFilter);
      var autocatNodes := WriteAll(autoCats, env.writeAutoCat);
      var exclusionNodes := WriteExclusions(ignoreList);
      var document := Element(XmlProfile, map[XmlVersion := ShowInt(Version)],
        header + [ Element(XmlGameList, map[], gameNodes),
                   Element(XmlFilterList, map[], filterNodes),
                   Element(XmlAutoCatList, map[], autocatNodes),
                   Element(XmlExclusionList, map[], exclusionNodes) ]);
      assert document == Encode(before, env);
      filePath := Some(path);
      return Success(document);
    }

    /** The `games` section: every game that is written, in order. */
    static method WriteGames(games: seq<Game>, includeShortcuts: bool) returns (gameNodes: seq<XNode>)
      ensures gameNodes == GameElements(games, includeShortcuts)
    {
      gameNodes := [];
      var i := 0;
      while i < |games|
        invariant 0 <= i <= |games|
        invariant gameNodes == GameElements(games[..i], includeShortcuts)
      {
        assert games[..i + 1][..i] == games[..i];
        var g := games[i];
        if includeShortcuts || g.id > 0 {
          var el := WriteGame(g);
          gameNodes := gameNodes + [el];
        }
        i := i + 1;
      }
      assert games[..|games|] == games;
    }

    /** The `Filters` and `autocats` sections: one element per entry, by
        the entry's own writer, in order. */
    static method WriteAll<T>(xs: seq<T>, write: T -> XNode) returns (nodes: seq<XNode>)
      ensures nodes == Elements(xs, write)
    {
      nodes := [];
      var i := 0;
      while i < |xs|
        invariant 0 <= i <= |xs|
        invariant nodes == Elements(xs[..i], write)
      {
        assert xs[..i + 1][..i] == xs[..i];
        nodes := nodes + [write(xs[i])];
        i := i + 1;
      }
      assert xs[..|xs|] == xs;
    }

    /** The `exclusions` section, in the ascending order of the SortedSet. */
    static method WriteExclusions(ignoreList: set<Int32>) returns (exclusionNodes: seq<XNode>)
      ensures exclusionNodes == ExclusionElements(Ascending(ignoreList))
    {
      exclusionNodes := WriteExclusionIds(Ascending(ignoreList));
    }

    /** The exclusion entries for ids in the given order. */
    static method WriteExclusionIds(ids: seq<Int32>) returns (exclusionNodes: seq<XNode>)
      ensures exclusionNodes == ExclusionElements(ids)
    {
      exclusionNodes := [];
      var i := 0;
      while i < |ids|
        invariant 0 <= i <= |ids|
        invariant exclusionNodes == ExclusionElements(ids[..i])
      {
        assert ids[..i + 1][..i] == ids[..i];
        exclusionNodes := exclusionNodes + [TextElement(XmlExclusion, ShowInt(ids[i]))];
        i := i + 1;
      }
      assert ids[..|ids|] == ids;
    }

    /** `Save()`: saves to `FilePath`; with no path the writer cannot be
        created and the save fails. */
    method SaveToFilePath(env: Env, openFails: bool) returns (r: Result<XNode, SaveError>)
      modifies this`filePath
      ensures old(filePath).None? || openFails ==> r == Failure(CannotOpen) && filePath == old(filePath)
      ensures old(filePath).Some? && !openFails ==> r == Success(Encode(old(Value()), env)) && filePath == old(filePath)
    {
      if filePath.None? {
        return Failure(CannotOpen);
      }
      r := Save(filePath.value, env, openFails);
    }

    /** The writer calls for one game entry. */
    static method WriteGame(g: Game) returns (el: XNode)
      ensures el == GameElement(g)
    {
      var kids := [TextElement(XmlGameId, ShowInt(g.id)), TextElement(XmlGameSource, g.source.Name())];
      if g.name.Some? {
        kids := kids + [TextElement(XmlGameName, g.name.value)];
      }
      kids := kids + [TextElement(XmlGameHidden, BoolText(g.hidden))];
      if g.lastPlayed != 0 {
        kids := kids + [TextElement(XmlGameLastPlayed, ShowInt(g.lastPlayed))];
      }
      if WritesExecutable(g) {
        kids := kids + [TextElement(XmlGameExecutable, g.executable.value)];
      }
      var catNodes := WriteCategories(g.categories);
      el := Element(XmlGame, map[], kids + [Element(XmlGameCategoryList, map[], catNodes)]);
    }

    static lemma CategoryElementsStep(categories: seq<string>, i: nat)
      requires i < |categories|
      ensures CategoryElements(categories[..i + 1]) ==
                CategoryElements(categories[..i]) + [TextElement(XmlGameCategory, PersistedCategory(categories[i]))]
    {
      assert categories[..i + 1][..i] == categories[..i];
    }

    /** The `categories` element's entries, the favourite under its old name. */
    static method WriteCategories(categories: seq<string>) returns (catNodes: seq<XNode>)
      ensures catNodes == CategoryElements(categories)
    {
      catNodes := [];
      var i := 0;
      while i < |categories|
        invariant 0 <= i <= |categories|
        invariant catNodes == CategoryElements(categories[..i])
      {
        CategoryElementsStep(categories, i);
        var catName := categories[i];
        if catName == FavoriteNewConfigValue {
          catName := FavoriteConfigValue;
        }
        catNodes := catNodes + [TextElement(XmlGameCategory, catName)];
        i := i + 1;
      }
      assert categories[..|categories|] == categories;
    }
  }

  /** Once a game entry has failed, the rest of the list fails the same way. */
  lemma {:induction false} LoadGamesFailurePersists(nodes: seq<XNode>, k: nat, version: Int32, ignore: set<Int32>)
    requires k <= |nodes| && LoadGames(nodes[..k], version, ignore).Failure?
    ensures LoadGames(nodes, version, ignore) == LoadGames(nodes[..k], version, ignore)
    decreases |nodes| - k
  {
    if k < |nodes| {
      assert nodes[..k + 1][..k] == nodes[..k];
      LoadGamesFailurePersists(nodes, k + 1, version, ignore);
    } else {
      assert nodes[..k] == nodes;
    }
  }
}
