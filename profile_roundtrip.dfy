/** What a saved profile reads back as, and the other properties the load
    and save code promises: the account id conversions are inverse to each
    other, `Decode` of what `Encode` wrote is the profile itself up to the
    documented normalisations, and the migration and default rules. */
module ProfileRoundTrip {
  import opened Wrappers
  import opened Numbers
  import opened XmlTree
  import opened ProfileCodec
  import opened ProfileLookups

  // ---------------------------------------------------------------------
  // Account ids

  /** Within one period of the `long` range, wrapping adds or subtracts
      2^64 at most once. */
  lemma Wrap64Near(x: int)
    requires Int64Min - 0x1_0000_0000_0000_0000 <= x <= Int64Max + 0x1_0000_0000_0000_0000
    ensures Wrap64(x) == if x > Int64Max then x - 0x1_0000_0000_0000_0000
                         else if x < Int64Min then x + 0x1_0000_0000_0000_0000
                         else x
  {
    var y := x - Int64Min;
    if x > Int64Max {
      assert 0x1_0000_0000_0000_0000 <= y < 2 * 0x1_0000_0000_0000_0000;
      assert y % 0x1_0000_0000_0000_0000 == y - 0x1_0000_0000_0000_0000;
    } else if x < Int64Min {
      assert -0x1_0000_0000_0000_0000 <= y < 0;
      assert y % 0x1_0000_0000_0000_0000 == y + 0x1_0000_0000_0000_0000;
    }
  }

  /** Adding the offset and subtracting it again, both with wrap-around,
      in either order, gives back the original `long`. */
  lemma OffsetInverse(v: Int64)
    ensures Wrap64(Wrap64(v + SteamIdOffset) - SteamIdOffset) == v
    ensures Wrap64(Wrap64(v - SteamIdOffset) + SteamIdOffset) == v
  {
    Wrap64Near(v + SteamIdOffset);
    Wrap64Near(Wrap64(v + SteamIdOffset) - SteamIdOffset);
    Wrap64Near(v - SteamIdOffset);
    Wrap64Near(Wrap64(v - SteamIdOffset) + SteamIdOffset);
  }

  /** A directory name that parses converts to an id whose directory name is
      the decimal form of the parsed number. */
  lemma DirNameRoundTrip(dir: string)
    requires ParseInt64(dir).Some?
    ensures Id64ToDirName(DirNameToId64(dir)) == ShowInt(ParseInt64(dir).value)
  {
    var v := ParseInt64(dir).value;
    assert DirNameToId64(dir) == Wrap64(v + SteamIdOffset);
    IdDirName(v);
  }

  /** The directory name of the id of directory number `v` is `v`'s text. */
  lemma IdDirName(v: Int64)
    ensures Id64ToDirName(Wrap64(v + SteamIdOffset)) == ShowInt(v)
  {
    OffsetInverse(v);
  }

  /** Every 64-bit id survives the trip through its directory name. */
  lemma Id64RoundTrip(id: Int64)
    ensures DirNameToId64(Id64ToDirName(id)) == id
  {
    var w := Wrap64(id - SteamIdOffset);
    ParseShowInt64(w);
    assert DirNameToId64(ShowInt(w)) == Wrap64(w + SteamIdOffset);
    OffsetInverse(id);
  }

  /** For the ids of real accounts (directory numbers up to 2^32 - 1) no
      wrap-around happens: the id is the number plus the offset. */
  lemma DirNameNoWrap(dir: string)
    requires ParseInt64(dir).Some? && 0 <= ParseInt64(dir).value < 0x1_0000_0000
    ensures DirNameToId64(dir) == ParseInt64(dir).value + SteamIdOffset
  {
  }

  // ---------------------------------------------------------------------
  // The header of a saved profile reads back as written

  /** A saved profile carries the current version. */
  lemma VersionWritten(p: ProfileValue, env: Env)
    ensures ProfileVersion(Encode(p, env)) == Version
  {
    ParseShowInt32(Version);
  }

  /** The account id reads back as written, including 0. */
  lemma AccountIdWritten(p: ProfileValue, env: Env)
    ensures AccountId(Encode(p, env)) == p.steamId64
  {
    EncodeHeader(p, env);
    AccountIdRead(Encode(p, env), p);
  }

  lemma AccountIdRead(root: XNode, p: ProfileValue)
    requires HasHeader(root, p)
    ensures AccountId(root) == p.steamId64
  {
    GetInt64Text(XmlSteamId, p.steamId64, 0);
  }

  /** Every switch reads back as written, whatever the defaults. */
  lemma SwitchesWritten(p: ProfileValue, env: Env, d: Switches)
    ensures ReadSwitches(Encode(p, env), Version, d) == p.switches
  {
    EncodeHeader(p, env);
    SwitchesRead(Encode(p, env), p, d);
  }

  lemma SwitchesRead(root: XNode, p: ProfileValue, d: Switches)
    requires HasHeader(root, p)
    ensures ReadSwitches(root, Version, d) == p.switches
  {
    var s := p.switches;
    GetBoolText(XmlAutoUpdate, s.autoUpdate, d.autoUpdate);
    GetBoolText(XmlAutoImport, s.autoImport, d.autoImport);
    GetBoolText(XmlAutoExport, s.autoExport, d.autoExport);
    GetBoolText(XmlLocalUpdate, s.localUpdate, d.localUpdate);
    GetBoolText(XmlWebUpdate, s.webUpdate, d.webUpdate);
    GetBoolText(XmlExportDiscard, s.exportDiscard, d.exportDiscard);
    GetBoolText(XmlAutoIgnore, s.autoIgnore, d.autoIgnore);
    GetBoolText(XmlIncludeUnknown, s.includeUnknown, d.includeUnknown);
    GetBoolText(XmlBypassIgnoreOnImport, s.bypassIgnoreOnImport, d.bypassIgnoreOnImport);
    GetBoolText(XmlOverwriteNames, s.overwriteOnDownload, d.overwriteOnDownload);
    GetBoolText(XmlIncludeShortcuts, s.includeShortcuts, d.includeShortcuts);
  }

  // ---------------------------------------------------------------------
  // Saved games read back

  /** The category names as saved: the favourite under its persisted name. */
  function PersistedCategories(cats: seq<string>): (r: seq<string>)
    ensures |r| == |cats|
  {
    seq(|cats|, i requires 0 <= i < |cats| => PersistedCategory(cats[i]))
  }

  /** A game as it reads back: a steam:// executable is not saved, and the
      favourite category comes back under its persisted name. */
  function Reloaded(g: Game): Game {
    g.(executable := if WritesExecutable(g) then g.executable else None,
       categories := PersistedCategories(g.categories))
  }

  /** Games with pairwise different ids (the keys of `GameData.Games`). */
  predicate DistinctIds(games: seq<Game>) {
    forall i, j :: 0 <= i < j < |games| ==> games[i].id != games[j].id
  }

  /** The games that survive a save and a load: those written, minus ignored
      store titles, each as it reads back. */
  function KeptGames(games: seq<Game>, includeShortcuts: bool, ignore: set<Int32>): (r: seq<Game>)
    ensures GameIds(r) <= GameIds(games)
  {
    if games == [] then []
    else
      var g := games[|games| - 1];
      var init := KeptGames(games[..|games| - 1], includeShortcuts, ignore);
      assert GameIds(games[..|games| - 1]) <= GameIds(games) by {
        forall x | x in GameIds(games[..|games| - 1]) ensures x in GameIds(games) {
          var h :| h in games[..|games| - 1] && h.id == x;
        }
      }
      init + (if Written(g, includeShortcuts) && !Suppressed(g.source, g.id, ignore) then [Reloaded(g)] else [])
  }

  lemma ParseSourceName(src: GameSource)
    ensures ParseSource(src.Name()) == Some(src)
  {
  }

  lemma {:induction false} CategoriesReadBack(cats: seq<string>)
    ensures forall i :: 0 <= i < |CategoryElements(cats)| ==> IsElementNamed(CategoryElements(cats)[i], XmlGameCategory)
    ensures Texts(CategoryElements(cats)) == PersistedCategories(cats)
  {
    if cats != [] {
      var init := cats[..|cats| - 1];
      CategoriesReadBack(init);
      var els := CategoryElements(cats);
      assert els == CategoryElements(init) + [TextElement(XmlGameCategory, PersistedCategory(cats[|cats| - 1]))];
      assert els[..|els| - 1] == CategoryElements(init);
      assert PersistedCategories(cats) == PersistedCategories(init) + [PersistedCategory(cats[|cats| - 1])];
    }
  }

  /** A saved game entry reads back as the game, up to `Reloaded`. */
  lemma ReadGameWritten(g: Game)
    ensures TryGetInt(Child(GameElement(g), XmlGameId)) == Some(g.id)
    ensures ReadSource(GameElement(g)) == g.source
    ensures ReadGame(GameElement(g), g.id, g.source, Version) == Reloaded(g)
  {
    HeaderFieldsWritten(g);
    ListFieldsWritten(g);
  }

  /** The id, source, name and hidden flag of a saved game read back. */
  lemma HeaderFieldsWritten(g: Game)
    ensures TryGetInt(Child(GameElement(g), XmlGameId)) == Some(g.id)
    ensures ReadSource(GameElement(g)) == g.source
    ensures GetString(Child(GameElement(g), XmlGameName), None) == g.name
    ensures GetBool(Child(GameElement(g), XmlGameHidden), false) == g.hidden
  {
    var el := GameElement(g);
    assert Child(el, XmlGameId) == Some(TextElement(XmlGameId, ShowInt(g.id))) by {
      GameChild(g, XmlGameId);
    }
    assert Child(el, XmlGameSource) == Some(TextElement(XmlGameSource, g.source.Name())) by {
      GameChild(g, XmlGameSource);
    }
    assert Child(el, XmlGameName) == if g.name.Some? then Some(TextElement(XmlGameName, g.name.value)) else None by {
      GameChild(g, XmlGameName);
    }
    assert Child(el, XmlGameHidden) == Some(TextElement(XmlGameHidden, BoolText(g.hidden))) by {
      GameChild(g, XmlGameHidden);
    }
    TryGetIntText(XmlGameId, g.id);
    ParseSourceName(g.source);
    GetBoolText(XmlGameHidden, g.hidden, false);
  }

  /** The last-played time, the executable (unless it is a steam:// link)
      and the categories (the favourite under its persisted name) of a saved
      game read back. */
  lemma ListFieldsWritten(g: Game)
    ensures GetInt(Child(GameElement(g), XmlGameLastPlayed), 0) == g.lastPlayed
    ensures GetString(Child(GameElement(g), XmlGameExecutable), None) == Reloaded(g).executable
    ensures GameCategories(GameElement(g), Version) == PersistedCategories(g.categories)
  {
    var el := GameElement(g);
    assert Child(el, XmlGameLastPlayed) ==
           if g.lastPlayed != 0 then Some(TextElement(XmlGameLastPlayed, ShowInt(g.lastPlayed))) else None by {
      GameChild(g, XmlGameLastPlayed);
    }
    assert Child(el, XmlGameExecutable) ==
           if WritesExecutable(g) then Some(TextElement(XmlGameExecutable, g.executable.value)) else None by {
      GameChild(g, XmlGameExecutable);
    }
    assert Child(el, XmlGameCategoryList) == Some(Element(XmlGameCategoryList, map[], CategoryElements(g.categories))) by {
      GameChild(g, XmlGameCategoryList);
    }
    if g.lastPlayed != 0 {
      TryGetIntText(XmlGameLastPlayed, g.lastPlayed);
    }
    CategoriesReadBack(g.categories);
    FilterNamedAll(CategoryElements(g.categories), XmlGameCategory);
  }

  lemma {:induction false} GameElementsNamed(games: seq<Game>, includeShortcuts: bool)
    ensures forall i :: 0 <= i < |GameElements(games, includeShortcuts)| ==>
              IsElementNamed(GameElements(games, includeShortcuts)[i], XmlGame)
  {
    if games != [] {
      GameElementsNamed(games[..|games| - 1], includeShortcuts);
    }
  }

  /** Re-reading one saved game entry. */
  lemma AddWrittenGame(kept: seq<Game>, g: Game, ignore: set<Int32>)
    requires g.id !in GameIds(kept)
    ensures AddGame(kept, GameElement(g), Version, ignore)
            == Success(kept + if !Suppressed(g.source, g.id, ignore) then [Reloaded(g)] else [])
  {
    var node := GameElement(g);
    ReadGameWritten(g);
    var id := TryGetInt(Child(node, XmlGameId));
    assert id == Some(g.id);
    var source := ReadSource(node);
    assert source == g.source;
    if Suppressed(source, g.id, ignore) {
      assert AddGame(kept, node, Version, ignore) == Success(kept);
      assert kept + [] == kept;
    } else {
      assert ReadGame(node, g.id, source, Version) == Reloaded(g);
      assert AddGame(kept, node, Version, ignore) == Success(kept + [Reloaded(g)]);
    }
  }

  /** Loading the saved game list of games with distinct ids never fails and
      yields exactly the kept games, in order. */
  lemma {:induction false} LoadWrittenGames(games: seq<Game>, includeShortcuts: bool, ignore: set<Int32>)
    requires DistinctIds(games)
    ensures LoadGames(GameElements(games, includeShortcuts), Version, ignore)
            == Success(KeptGames(games, includeShortcuts, ignore))
  {
    if games != [] {
      var init := games[..|games| - 1];
      var g := games[|games| - 1];
      assert DistinctIds(init);
      LoadWrittenGames(init, includeShortcuts, ignore);
      var xs := GameElements(init, includeShortcuts);
      var kept := KeptGames(init, includeShortcuts, ignore);
      if Written(g, includeShortcuts) {
        var all := xs + [GameElement(g)];
        assert GameElements(games, includeShortcuts) == all;
        assert all[..|all| - 1] == xs;
        assert g.id !in GameIds(init);
        AddWrittenGame(kept, g, ignore);
        assert LoadGames(all, Version, ignore) == AddGame(kept, GameElement(g), Version, ignore);
        assert KeptGames(games, includeShortcuts, ignore)
               == kept + if !Suppressed(g.source, g.id, ignore) then [Reloaded(g)] else [];
      } else {
        assert GameElements(games, includeShortcuts) == xs + [] == xs;
        assert KeptGames(games, includeShortcuts, ignore) == kept + [] == kept;
      }
    }
  }

  // ---------------------------------------------------------------------
  // Saved exclusions, filters and AutoCats read back

  lemma {:induction false} ExclusionsNamed(ids: seq<Int32>)
    ensures forall i :: 0 <= i < |ExclusionElements(ids)| ==> IsElementNamed(ExclusionElements(ids)[i], XmlExclusion)
  {
    if ids != [] {
      ExclusionsNamed(ids[..|ids| - 1]);
    }
  }

  lemma {:induction false} ExclusionsReadBack(ids: seq<Int32>)
    ensures ExclusionIds(ExclusionElements(ids)) == set x | x in ids
  {
    if ids != [] {
      var init := ids[..|ids| - 1];
      var x := ids[|ids| - 1];
      ExclusionsReadBack(init);
      var els := ExclusionElements(ids);
      assert els == ExclusionElements(init) + [TextElement(XmlExclusion, ShowInt(x))];
      assert els[..|els| - 1] == ExclusionElements(init);
      TryGetIntText(XmlExclusion, x);
      assert ExclusionIds(els) == ExclusionIds(ExclusionElements(init)) + {x};
      forall y ensures y in ids <==> y in init || y == x {
        if y in ids {
          var i :| 0 <= i < |ids| && ids[i] == y;
          if i < |ids| - 1 {
            assert init[i] == y;
          }
        }
      }
      assert (set y | y in ids) == (set y | y in init) + {x};
    }
  }

  lemma AscendingElements(s: set<Int32>)
    ensures (set y | y in Ascending(s)) == s
  {
  }

  /** The ignore list reads back as saved. */
  lemma IgnoreListWritten(p: ProfileValue, env: Env)
    ensures ReadIgnoreList(Encode(p, env)) == p.ignoreList
  {
    var els := ExclusionElements(Ascending(p.ignoreList));
    EncodeLists(p, env);
    ExclusionsNamed(Ascending(p.ignoreList));
    FilterNamedAll(els, XmlExclusion);
    ExclusionsReadBack(Ascending(p.ignoreList));
    AscendingElements(p.ignoreList);
  }

  /** The external Filter writer produces a `Filter` element that
      `AddFilterFromXmlNode` parses into the same filter. */
  ghost predicate FilterWriterInverse(env: Env) {
    forall f :: IsElementNamed(env.writeFilter(f), XmlFilter) && ParseFilter(env.writeFilter(f), env.filterDefaults) == Some(f)
  }

  /** The external AutoCat writer produces an element the AutoCat reader
      turns back into the same AutoCat. */
  ghost predicate AutoCatWriterInverse(env: Env) {
    forall a :: env.writeAutoCat(a).Element? && env.readAutoCat(Some(env.writeAutoCat(a))) == Some(a)
  }

  /** A Filter writer that sees only a Filter's state: its name, its five
      rules as `int` text, then one element per category of the Allow,
      Require and Exclude lists. */
  function FilterElement(f: FilterEntry): XNode {
    Element(XmlFilter, map[], RuleElements(f) + (CategoryList(XmlFilterAllow, f.allow) +
                             (CategoryList(XmlFilterRequire, f.require) + CategoryList(XmlFilterExclude, f.exclude))))
  }

  function RuleElements(f: FilterEntry): seq<XNode> {
    [ TextElement(XmlFilterName, f.name),
      TextElement(XmlFilterGame, ShowInt(f.game)),
      TextElement(XmlFilterHidden, ShowInt(f.hidden)),
      TextElement(XmlFilterSoftware, ShowInt(f.software)),
      TextElement(XmlFilterUncategorized, ShowInt(f.uncategorized)),
      TextElement(XmlFilterVR, ShowInt(f.vr)) ]
  }

  function CategoryList(name: string, cats: seq<string>): seq<XNode> {
    Elements(cats, (c: string) => TextElement(name, c))
  }

  /** A category list is found under its own name, under no other, and
      reads back as the categories. */
  lemma {:induction false} CategoryListRead(name: string, cats: seq<string>, other: string)
    requires other != name
    ensures FilterNamed(CategoryList(name, cats), name) == CategoryList(name, cats)
    ensures FilterNamed(CategoryList(name, cats), other) == []
    ensures Texts(CategoryList(name, cats)) == cats
  {
    var els := CategoryList(name, cats);
    FilterNamedAll(els, name);
    FilterNamedNone(els, other);
    if cats != [] {
      var init := cats[..|cats| - 1];
      CategoryListRead(name, init, other);
      assert els[..|els| - 1] == CategoryList(name, init);
      assert cats == init + [cats[|cats| - 1]];
    }
  }

  const FilterRuleNames: seq<string> :=
    [XmlFilterName, XmlFilterGame, XmlFilterHidden, XmlFilterSoftware, XmlFilterUncategorized, XmlFilterVR]

  /** The k-th rule element is the first child with its name. */
  lemma RuleChild(f: FilterEntry, rest: seq<XNode>, k: nat)
    requires k < 6
    ensures FindNamed(RuleElements(f) + rest, FilterRuleNames[k]) == Some(RuleElements(f)[k])
  {
    var rules := RuleElements(f);
    forall j | 0 <= j < 6
      ensures IsElementNamed(rules[j], FilterRuleNames[j])
    {
    }
    FindFirst(rules, FilterRuleNames[k], k);
    FindNamedAppend(rules, rest, FilterRuleNames[k]);
  }

  /** The children named `name` after the rules are those of the three lists. */
  lemma ListChildren(rules: seq<XNode>, x: seq<XNode>, y: seq<XNode>, z: seq<XNode>, name: string)
    requires forall i :: 0 <= i < |rules| ==> !IsElementNamed(rules[i], name)
    ensures FilterNamed(rules + (x + (y + z)), name) == FilterNamed(x, name) + FilterNamed(y, name) + FilterNamed(z, name)
  {
    FilterNamedNone(rules, name);
    FilterNamedAppend(rules, x + (y + z), name);
    FilterNamedAppend(x, y + z, name);
    FilterNamedAppend(y, z, name);
  }

  lemma RuleNamesOther(f: FilterEntry, name: string)
    requires name !in FilterRuleNames
    ensures forall i :: 0 <= i < |RuleElements(f)| ==> !IsElementNamed(RuleElements(f)[i], name)
  {
    forall i | 0 <= i < 6
      ensures RuleElements(f)[i].name == FilterRuleNames[i]
    {
    }
  }

  lemma AllowRead(f: FilterEntry)
    ensures Children(FilterElement(f), XmlFilterAllow) == CategoryList(XmlFilterAllow, f.allow)
  {
    RuleNamesOther(f, XmlFilterAllow);
    ListChildren(RuleElements(f), CategoryList(XmlFilterAllow, f.allow), CategoryList(XmlFilterRequire, f.require),
                 CategoryList(XmlFilterExclude, f.exclude), XmlFilterAllow);
    CategoryListRead(XmlFilterAllow, f.allow, XmlFilterRequire);
    CategoryListRead(XmlFilterRequire, f.require, XmlFilterAllow);
    CategoryListRead(XmlFilterExclude, f.exclude, XmlFilterAllow);
  }

  lemma RequireRead(f: FilterEntry)
    ensures Children(FilterElement(f), XmlFilterRequire) == CategoryList(XmlFilterRequire, f.require)
  {
    RuleNamesOther(f, XmlFilterRequire);
    ListChildren(RuleElements(f), CategoryList(XmlFilterAllow, f.allow), CategoryList(XmlFilterRequire, f.require),
                 CategoryList(XmlFilterExclude, f.exclude), XmlFilterRequire);
    CategoryListRead(XmlFilterAllow, f.allow, XmlFilterRequire);
    CategoryListRead(XmlFilterRequire, f.require, XmlFilterAllow);
    CategoryListRead(XmlFilterExclude, f.exclude, XmlFilterRequire);
  }

  lemma ExcludeRead(f: FilterEntry)
    ensures Children(FilterElement(f), XmlFilterExclude) == CategoryList(XmlFilterExclude, f.exclude)
  {
    RuleNamesOther(f, XmlFilterExclude);
    ListChildren(RuleElements(f), CategoryList(XmlFilterAllow, f.allow), CategoryList(XmlFilterRequire, f.require),
                 CategoryList(XmlFilterExclude, f.exclude), XmlFilterExclude);
    CategoryListRead(XmlFilterAllow, f.allow, XmlFilterExclude);
    CategoryListRead(XmlFilterRequire, f.require, XmlFilterExclude);
    CategoryListRead(XmlFilterExclude, f.exclude, XmlFilterAllow);
  }

  /** `FilterElement` parses back into the same filter, whatever the
      defaults of a new Filter: every rule is written. */
  lemma FilterElementParses(f: FilterEntry, d: RuleDefaults)
    ensures IsElementNamed(FilterElement(f), XmlFilter)
    ensures ParseFilter(FilterElement(f), d) == Some(f)
  {
    var rest := CategoryList(XmlFilterAllow, f.allow) +
                (CategoryList(XmlFilterRequire, f.require) + CategoryList(XmlFilterExclude, f.exclude));
    RuleChild(f, rest, 0);
    RuleChild(f, rest, 1);
    RuleChild(f, rest, 2);
    RuleChild(f, rest, 3);
    RuleChild(f, rest, 4);
    RuleChild(f, rest, 5);
    TryGetIntText(XmlFilterGame, f.game);
    TryGetIntText(XmlFilterHidden, f.hidden);
    TryGetIntText(XmlFilterSoftware, f.software);
    TryGetIntText(XmlFilterUncategorized, f.uncategorized);
    TryGetIntText(XmlFilterVR, f.vr);
    AllowRead(f);
    RequireRead(f);
    ExcludeRead(f);
    CategoryListRead(XmlFilterAllow, f.allow, XmlFilterRequire);
    CategoryListRead(XmlFilterRequire, f.require, XmlFilterAllow);
    CategoryListRead(XmlFilterExclude, f.exclude, XmlFilterAllow);
  }

  /** So the filter half of the round trip's hypothesis is met by a writer
      that writes what a Filter holds. */
  lemma FilterWriterInverseMet(env: Env)
    requires env.writeFilter == FilterElement
    ensures FilterWriterInverse(env)
  {
    forall f: FilterEntry {
      FilterElementParses(f, env.filterDefaults);
    }
  }

  lemma {:induction false} FiltersReadBack(fs: seq<FilterEntry>, env: Env)
    requires FilterWriterInverse(env)
    ensures forall i :: 0 <= i < |Elements(fs, env.writeFilter)| ==> IsElementNamed(Elements(fs, env.writeFilter)[i], XmlFilter)
    ensures FilterEntries(Elements(fs, env.writeFilter), env.filterDefaults) == fs
  {
    if fs != [] {
      var init := fs[..|fs| - 1];
      FiltersReadBack(init, env);
      var els := Elements(fs, env.writeFilter);
      assert els[..|els| - 1] == Elements(init, env.writeFilter);
      assert fs == init + [fs[|fs| - 1]];
    }
  }

  lemma {:induction false} AutoCatsReadBack(acs: seq<AutoCat>, env: Env)
    requires AutoCatWriterInverse(env)
    ensures ReadAutoCats(Elements(acs, env.writeAutoCat), env.readAutoCat) == acs
  {
    if acs != [] {
      var init := acs[..|acs| - 1];
      AutoCatsReadBack(init, env);
      var els := Elements(acs, env.writeAutoCat);
      assert els[..|els| - 1] == Elements(init, env.writeAutoCat);
      assert acs == init + [acs[|acs| - 1]];
    }
  }

  lemma GamesWritten(p: ProfileValue, env: Env)
    requires DistinctIds(p.games)
    ensures ReadGames(Encode(p, env), Version, p.ignoreList)
            == Success(KeptGames(p.games, p.switches.includeShortcuts, p.ignoreList))
  {
    EncodeLists(p, env);
    GameElementsNamed(p.games, p.switches.includeShortcuts);
    FilterNamedAll(GameElements(p.games, p.switches.includeShortcuts), XmlGame);
    LoadWrittenGames(p.games, p.switches.includeShortcuts, p.ignoreList);
  }

  lemma FiltersWritten(p: ProfileValue, env: Env)
    requires FilterWriterInverse(env)
    ensures ReadFilters(Encode(p, env), env.filterDefaults) == p.filters
  {
    EncodeLists(p, env);
    FiltersReadBack(p.filters, env);
    FilterNamedAll(Elements(p.filters, env.writeFilter), XmlFilter);
  }

  lemma AutoCatsWritten(p: ProfileValue, env: Env)
    requires AutoCatWriterInverse(env)
    ensures ReadAutoCatSection(Encode(p, env), env) == p.autoCats
  {
    EncodeLists(p, env);
    AutoCatsReadBack(p.autoCats, env);
  }

  // ---------------------------------------------------------------------
  // The round trip

  /** The profile a saved profile loads as: its path is the one loaded from,
      and only the kept games come back. */
  function Saved(p: ProfileValue, path: string): ProfileValue {
    p.(filePath := Some(path), games := KeptGames(p.games, p.switches.includeShortcuts, p.ignoreList))
  }

  /** Loading what `Save` wrote gives back the profile: every setting, the
      account, the ignore list, the filters and AutoCats (an empty AutoCat
      list stays empty), and the games that were written and not ignored. */
  lemma SaveLoadRoundTrip(p: ProfileValue, env: Env, path: string)
    requires DistinctIds(p.games) && FilterWriterInverse(env) && AutoCatWriterInverse(env)
    ensures Decode(Some(Encode(p, env)), path, env) == Success(Saved(p, path))
  {
    var e := Encode(p, env);
    VersionWritten(p, env);
    AccountIdWritten(p, env);
    SwitchesWritten(p, env, DefaultSwitches);
    IgnoreListWritten(p, env);
    GamesWritten(p, env);
    FiltersWritten(p, env);
    AutoCatsWritten(p, env);
    assert IsElementNamed(e, XmlProfile);
  }

  lemma ReloadedStable(g: Game)
    ensures Reloaded(Reloaded(g)) == Reloaded(g)
  {
    var r := Reloaded(g);
    assert WritesExecutable(r) == WritesExecutable(g);
    assert PersistedCategories(r.categories) == r.categories;
  }

  lemma {:induction false} KeptGamesStable(games: seq<Game>, includeShortcuts: bool, ignore: set<Int32>)
    ensures KeptGames(KeptGames(games, includeShortcuts, ignore), includeShortcuts, ignore)
            == KeptGames(games, includeShortcuts, ignore)
  {
    if games != [] {
      var init := games[..|games| - 1];
      var g := games[|games| - 1];
      var kept := KeptGames(init, includeShortcuts, ignore);
      KeptGamesStable(init, includeShortcuts, ignore);
      if Written(g, includeShortcuts) && !Suppressed(g.source, g.id, ignore) {
        var all := kept + [Reloaded(g)];
        assert all[..|all| - 1] == kept;
        ReloadedStable(g);
      } else {
        assert KeptGames(games, includeShortcuts, ignore) == kept + [] == kept;
      }
    }
  }

  /** A loaded profile is stable under saving and loading again. */
  lemma SavedStable(p: ProfileValue, path: string)
    ensures Saved(Saved(p, path), path) == Saved(p, path)
  {
    KeptGamesStable(p.games, p.switches.includeShortcuts, p.ignoreList);
  }
}

module ProfileLookups {
  import opened Wrappers
  import opened Numbers
  import opened XmlTree
  import opened ProfileCodec

  /** The first element with the name is at `k`. */
  lemma {:induction false} FindFirst(ns: seq<XNode>, name: string, k: nat)
    requires k < |ns| && IsElementNamed(ns[k], name)
    requires forall j :: 0 <= j < k ==> !IsElementNamed(ns[j], name)
    ensures FindNamed(ns, name) == Some(ns[k])
    decreases k
  {
    if k > 0 {
      FindFirst(ns[1..], name, k - 1);
    }
  }

  /** The names of the children of a saved profile, in order. */
  const EncodedNames: seq<string> := [
    XmlSteamId, XmlAutoUpdate, XmlAutoImport, XmlAutoExport, XmlLocalUpdate, XmlWebUpdate,
    XmlExportDiscard, XmlAutoIgnore, XmlIncludeUnknown, XmlBypassIgnoreOnImport,
    XmlOverwriteNames, XmlIncludeShortcuts,
    XmlGameList, XmlFilterList, XmlAutoCatList, XmlExclusionList ]

  lemma EncodedNamesDistinct()
    ensures forall i, j :: 0 <= i < j < |EncodedNames| ==> EncodedNames[i] != EncodedNames[j]
  {
  }

  lemma HeaderNamed(p: ProfileValue)
    ensures |HeaderElements(p)| == 12
    ensures forall j :: 0 <= j < 12 ==> IsElementNamed(HeaderElements(p)[j], EncodedNames[j])
  {
  }

  /** The children of a saved profile carry the names above, in order. */
  lemma EncodeChildren(p: ProfileValue, env: Env)
    ensures Encode(p, env).Element? && |Encode(p, env).children| == |EncodedNames|
    ensures forall j :: 0 <= j < |EncodedNames| ==> IsElementNamed(Encode(p, env).children[j], EncodedNames[j])
  {
    HeaderNamed(p);
    var h := HeaderElements(p);
    var ch := Encode(p, env).children;
    assert ch[..12] == h;
  }

  /** Looking a saved profile's child up by name finds the one written. */
  lemma EncodeChild(p: ProfileValue, env: Env, k: nat)
    requires k < |EncodedNames|
    ensures Child(Encode(p, env), EncodedNames[k]) == Some(Encode(p, env).children[k])
  {
    EncodeChildren(p, env);
    EncodedNamesDistinct();
    FindFirst(Encode(p, env).children, EncodedNames[k], k);
  }

  /** Names that a saved profile does not contain are not found. */
  lemma EncodeNoChild(p: ProfileValue, env: Env, name: string)
    requires name !in EncodedNames
    ensures Child(Encode(p, env), name) == None
  {
    EncodeChildren(p, env);
  }

  lemma GetBoolText(name: string, b: bool, d: bool)
    ensures GetBool(Some(TextElement(name, BoolText(b))), d) == b
  {
    ParseBoolText(b);
  }

  lemma TryGetIntText(name: string, x: Int32)
    ensures TryGetInt(Some(TextElement(name, ShowInt(x)))) == Some(x)
  {
    ParseShowInt32(x);
  }

  lemma GetInt64Text(name: string, x: Int64, d: Int64)
    ensures GetInt64(Some(TextElement(name, ShowInt(x))), d) == x
  {
    ParseShowInt64(x);
  }

  /** What the lookups of the header fields find in `root`: the elements
      the header of `p` consists of, and no legacy account id. */
  predicate HasHeader(root: XNode, p: ProfileValue) {
    var s := p.switches;
    && Child(root, XmlSteamId) == Some(TextElement(XmlSteamId, ShowInt(p.steamId64)))
    && Child(root, XmlOldSteamIdShort) == None
    && Child(root, XmlAutoUpdate) == Some(TextElement(XmlAutoUpdate, BoolText(s.autoUpdate)))
    && Child(root, XmlAutoImport) == Some(TextElement(XmlAutoImport, BoolText(s.autoImport)))
    && Child(root, XmlAutoExport) == Some(TextElement(XmlAutoExport, BoolText(s.autoExport)))
    && Child(root, XmlLocalUpdate) == Some(TextElement(XmlLocalUpdate, BoolText(s.localUpdate)))
    && Child(root, XmlWebUpdate) == Some(TextElement(XmlWebUpdate, BoolText(s.webUpdate)))
    && Child(root, XmlExportDiscard) == Some(TextElement(XmlExportDiscard, BoolText(s.exportDiscard)))
    && Child(root, XmlAutoIgnore) == Some(TextElement(XmlAutoIgnore, BoolText(s.autoIgnore)))
    && Child(root, XmlIncludeUnknown) == Some(TextElement(XmlIncludeUnknown, BoolText(s.includeUnknown)))
    && Child(root, XmlBypassIgnoreOnImport) == Some(TextElement(XmlBypassIgnoreOnImport, BoolText(s.bypassIgnoreOnImport)))
    && Child(root, XmlOverwriteNames) == Some(TextElement(XmlOverwriteNames, BoolText(s.overwriteOnDownload)))
    && Child(root, XmlIncludeShortcuts) == Some(TextElement(XmlIncludeShortcuts, BoolText(s.includeShortcuts)))
  }

  /** `root` starts with the header of `p`, followed by the four lists. */
  predicate HeaderLayout(root: XNode, p: ProfileValue) {
    && root.Element?
    && |root.children| == |EncodedNames|
    && root.children[..12] == HeaderElements(p)
    && forall j :: 12 <= j < |EncodedNames| ==> IsElementNamed(root.children[j], EncodedNames[j])
  }

  lemma HeaderChildAt(root: XNode, p: ProfileValue, k: nat)
    requires HeaderLayout(root, p) && k < 12
    ensures Child(root, EncodedNames[k]) == Some(HeaderElements(p)[k])
  {
    HeaderNamed(p);
    EncodedNamesDistinct();
    assert root.children[k] == HeaderElements(p)[k];
    forall j | 0 <= j < k
      ensures !IsElementNamed(root.children[j], EncodedNames[k])
    {
      assert root.children[j] == HeaderElements(p)[j];
    }
    FindFirst(root.children, EncodedNames[k], k);
  }

  lemma HeaderLookup(root: XNode, p: ProfileValue)
    requires HeaderLayout(root, p)
    ensures HasHeader(root, p)
  {
    HeaderChildAt(root, p, 0);
    HeaderChildAt(root, p, 1);
    HeaderChildAt(root, p, 2);
    HeaderChildAt(root, p, 3);
    HeaderChildAt(root, p, 4);
    HeaderChildAt(root, p, 5);
    HeaderChildAt(root, p, 6);
    HeaderChildAt(root, p, 7);
    HeaderChildAt(root, p, 8);
    HeaderChildAt(root, p, 9);
    HeaderChildAt(root, p, 10);
    HeaderChildAt(root, p, 11);
    NoLegacyAccount(root, p);
  }

  lemma NoLegacyAccount(root: XNode, p: ProfileValue)
    requires HeaderLayout(root, p)
    ensures Child(root, XmlOldSteamIdShort) == None
  {
    HeaderNamed(p);
    forall j | 0 <= j < |root.children|
      ensures !IsElementNamed(root.children[j], XmlOldSteamIdShort)
    {
      if j < 12 {
        assert root.children[j] == HeaderElements(p)[j];
      }
      assert IsElementNamed(root.children[j], EncodedNames[j]);
    }
  }

  lemma EncodeHeader(p: ProfileValue, env: Env)
    ensures HasHeader(Encode(p, env), p)
  {
    EncodeChildren(p, env);
    assert Encode(p, env).children[..12] == HeaderElements(p);
    HeaderLookup(Encode(p, env), p);
  }

  /** The first match in a list made of six parts is the first match in the
      first part that has one. */
  lemma FindNamedParts(a: seq<XNode>, b: seq<XNode>, c: seq<XNode>, d: seq<XNode>, e: seq<XNode>, f: seq<XNode>, name: string)
    ensures FindNamed(a + b + c + d + e + f, name) ==
              if FindNamed(a, name).Some? then FindNamed(a, name)
              else if FindNamed(b, name).Some? then FindNamed(b, name)
              else if FindNamed(c, name).Some? then FindNamed(c, name)
              else if FindNamed(d, name).Some? then FindNamed(d, name)
              else if FindNamed(e, name).Some? then FindNamed(e, name)
              else FindNamed(f, name)
  {
    FindNamedAppend(a + b + c + d + e, f, name);
    FindNamedAppend(a + b + c + d, e, name);
    FindNamedAppend(a + b + c, d, name);
    FindNamedAppend(a + b, c, name);
    FindNamedAppend(a, b, name);
  }

  /** What a saved game entry holds under each element name the reader
      looks up: the element the writer emitted, or nothing for an optional
      one it left out. */
  function GameField(g: Game, name: string): Option<XNode> {
    if name == XmlGameId then Some(TextElement(XmlGameId, ShowInt(g.id)))
    else if name == XmlGameSource then Some(TextElement(XmlGameSource, g.source.Name()))
    else if name == XmlGameName then
      (if g.name.Some? then Some(TextElement(XmlGameName, g.name.value)) else None)
    else if name == XmlGameHidden then Some(TextElement(XmlGameHidden, BoolText(g.hidden)))
    else if name == XmlGameLastPlayed then
      (if g.lastPlayed != 0 then Some(TextElement(XmlGameLastPlayed, ShowInt(g.lastPlayed))) else None)
    else if name == XmlGameExecutable then
      (if WritesExecutable(g) then Some(TextElement(XmlGameExecutable, g.executable.value)) else None)
    else if name == XmlGameCategoryList then Some(Element(XmlGameCategoryList, map[], CategoryElements(g.categories)))
    else None
  }

  /** Each field of a saved game entry is found where `GameField` says. */
  lemma GameChild(g: Game, name: string)
    ensures Child(GameElement(g), name) == GameField(g, name)
  {
    var a, b, c, d, e, f := GameParts(g);
    FindNamedParts(a, b, c, d, e, f, name);
    if name == XmlGameId || name == XmlGameSource {
      assert FindNamed(a, name) == GameField(g, name);
    } else if name == XmlGameName {
      assert FindNamed(a, name).None? && FindNamed(b, name) == GameField(g, name);
    } else if name == XmlGameHidden {
      assert FindNamed(a, name).None? && FindNamed(b, name).None?;
      assert FindNamed(c, name) == GameField(g, name);
    } else if name == XmlGameLastPlayed {
      assert FindNamed(a, name).None? && FindNamed(b, name).None? && FindNamed(c, name).None?;
      assert FindNamed(d, name) == GameField(g, name);
    } else {
      assert FindNamed(a, name).None? && FindNamed(b, name).None? && FindNamed(c, name).None?;
      assert FindNamed(d, name).None?;
    }
  }

  /** The six runs of elements a game entry is written as. */
  lemma GameParts(g: Game) returns (a: seq<XNode>, b: seq<XNode>, c: seq<XNode>, d: seq<XNode>, e: seq<XNode>, f: seq<XNode>)
    ensures GameElement(g).children == a + b + c + d + e + f
    ensures a == [TextElement(XmlGameId, ShowInt(g.id)), TextElement(XmlGameSource, g.source.Name())]
    ensures b == if g.name.Some? then [TextElement(XmlGameName, g.name.value)] else []
    ensures c == [TextElement(XmlGameHidden, BoolText(g.hidden))]
    ensures d == if g.lastPlayed != 0 then [TextElement(XmlGameLastPlayed, ShowInt(g.lastPlayed))] else []
    ensures e == if WritesExecutable(g) then [TextElement(XmlGameExecutable, g.executable.value)] else []
    ensures f == [Element(XmlGameCategoryList, map[], CategoryElements(g.categories))]
  {
    a := [TextElement(XmlGameId, ShowInt(g.id)), TextElement(XmlGameSource, g.source.Name())];
    b := if g.name.Some? then [TextElement(XmlGameName, g.name.value)] else [];
    c := [TextElement(XmlGameHidden, BoolText(g.hidden))];
    d := if g.lastPlayed != 0 then [TextElement(XmlGameLastPlayed, ShowInt(g.lastPlayed))] else [];
    e := if WritesExecutable(g) then [TextElement(XmlGameExecutable, g.executable.value)] else [];
    f := [Element(XmlGameCategoryList, map[], CategoryElements(g.categories))];
  }

  /** Where the four lists of a saved profile are found. */
  lemma EncodeLists(p: ProfileValue, env: Env)
    ensures Child(Encode(p, env), XmlGameList)
            == Some(Element(XmlGameList, map[], GameElements(p.games, p.switches.includeShortcuts)))
    ensures Child(Encode(p, env), XmlFilterList)
            == Some(Element(XmlFilterList, map[], Elements(p.filters, env.writeFilter)))
    ensures Child(Encode(p, env), XmlAutoCatList)
            == Some(Element(XmlAutoCatList, map[], Elements(p.autoCats, env.writeAutoCat)))
    ensures Child(Encode(p, env), XmlExclusionList)
            == Some(Element(XmlExclusionList, map[], ExclusionElements(Ascending(p.ignoreList))))
  {
    EncodeChild(p, env, 12);
    EncodeChild(p, env, 13);
    EncodeChild(p, env, 14);
    EncodeChild(p, env, 15);
  }
}
