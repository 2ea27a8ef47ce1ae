/** The rules a loaded profile obeys whatever document it came from, the
    migration of legacy documents, the default AutoCat set, and the AutoCat
    lookup and cloning helpers. */
module ProfileRules {
  import opened Wrappers
  import opened Numbers
  import opened XmlTree
  import opened ProfileCodec
  import opened ProfileRoundTrip

  // ---------------------------------------------------------------------
  // Loaded games

  /** A game list that loads has distinct ids and holds no ignored store
      title: an ignored title is never brought back by a load. */
  lemma {:induction false} LoadGamesInvariant(nodes: seq<XNode>, version: Int32, ignore: set<Int32>)
    requires LoadGames(nodes, version, ignore).Success?
    ensures DistinctIds(LoadGames(nodes, version, ignore).value)
    ensures forall g :: g in LoadGames(nodes, version, ignore).value ==> !Suppressed(g.source, g.id, ignore)
  {
    if nodes != [] {
      var init := nodes[..|nodes| - 1];
      LoadGamesInvariant(init, version, ignore);
      var games := LoadGames(init, version, ignore).value;
      var node := nodes[|nodes| - 1];
      assert LoadGames(nodes, version, ignore) == AddGame(games, node, version, ignore);
      var r := LoadGames(nodes, version, ignore).value;
      if r != games {
        var id := TryGetInt(Child(node, XmlGameId)).value;
        assert r == games + [ReadGame(node, id, ReadSource(node), version)];
        assert id !in GameIds(games);
        forall i, j | 0 <= i < j < |r|
          ensures r[i].id != r[j].id
        {
          if j == |r| - 1 {
            assert r[i] in games;
          }
        }
      }
    }
  }

  /** Every profile a document loads as obeys the two rules above for its
      own ignore list. */
  lemma DecodeInvariant(doc: Option<XNode>, path: string, env: Env)
    requires Decode(doc, path, env).Success?
    ensures DistinctIds(Decode(doc, path, env).value.games)
    ensures forall g :: g in Decode(doc, path, env).value.games ==>
              !Suppressed(g.source, g.id, Decode(doc, path, env).value.ignoreList)
  {
    var root := doc.value;
    if IsElementNamed(root, XmlProfile) {
      var v := ProfileVersion(root);
      var ignore := ReadIgnoreList(root);
      match Child(root, XmlGameList)
      case Some(list) => LoadGamesInvariant(Children(list, XmlGame), v, ignore);
      case None =>
    }
  }

  /** Loading is all-or-nothing on a repeated game id: the whole load fails
      with that id. */
  lemma {:induction false} LoadGamesFailure(nodes: seq<XNode>, version: Int32, ignore: set<Int32>)
    requires LoadGames(nodes, version, ignore).Failure?
    ensures exists i :: 0 <= i < |nodes| &&
              LoadGames(nodes, version, ignore).error == DuplicateGameId(TryGetInt(Child(nodes[i], XmlGameId)).GetOr(0))
  {
    var init := nodes[..|nodes| - 1];
    var last := nodes[|nodes| - 1];
    if LoadGames(init, version, ignore).Failure? {
      LoadGamesFailure(init, version, ignore);
      var i :| 0 <= i < |init| &&
               LoadGames(init, version, ignore).error == DuplicateGameId(TryGetInt(Child(init[i], XmlGameId)).GetOr(0));
      assert nodes[i] == init[i];
    } else {
      assert nodes[|nodes| - 1] == last;
    }
  }

  // ---------------------------------------------------------------------
  // What a save keeps

  /** The games that come back after a save and a load are exactly the
      games that were written (every game when shortcuts are included,
      otherwise those with a positive id) and are not ignored store titles,
      each as it reads back. */
  lemma {:induction false} KeptGamesMembers(games: seq<Game>, includeShortcuts: bool, ignore: set<Int32>, h: Game)
    ensures h in KeptGames(games, includeShortcuts, ignore) <==>
              exists g :: g in games && (includeShortcuts || g.id > 0) && !Suppressed(g.source, g.id, ignore) && h == Reloaded(g)
  {
    if games != [] {
      var init := games[..|games| - 1];
      var last := games[|games| - 1];
      KeptGamesMembers(init, includeShortcuts, ignore, h);
      assert games == init + [last];
      if exists g :: g in games && (includeShortcuts || g.id > 0) && !Suppressed(g.source, g.id, ignore) && h == Reloaded(g) {
        var g :| g in games && (includeShortcuts || g.id > 0) && !Suppressed(g.source, g.id, ignore) && h == Reloaded(g);
        if g != last {
          assert g in init;
        }
      }
    }
  }

  /** A document whose root is not a `profile` element loads as a new
      profile with that path, and without any AutoCats: the defaults are
      only generated for a profile root. */
  lemma NonProfileRoot(root: XNode, path: string, env: Env)
    requires !IsElementNamed(root, XmlProfile)
    ensures Decode(Some(root), path, env) == Success(NewProfile(Some(path)))
    ensures Decode(Some(root), path, env).value.autoCats == []
    ensures Decode(Some(root), path, env).value.games == []
  {
  }

  // ---------------------------------------------------------------------
  // Migration of legacy documents

  /** A legacy document without a (nonzero) 64-bit id but with the short
      account id that `ID64toDirName` gives for `id` loads with account `id`. */
  lemma LegacyAccountId(root: XNode, id: Int64, name: string)
    requires GetInt64(Child(root, XmlSteamId), 0) == 0
    requires Child(root, XmlOldSteamIdShort) == Some(TextElement(name, Id64ToDirName(id)))
    ensures AccountId(root) == id
  {
    Id64RoundTrip(id);
  }

  /** Below version 3 the AutoUpdate switch comes from `auto_download`, from
      version 3 on from `auto_update`; the other is ignored. */
  lemma LegacyAutoUpdate(root: XNode, version: Int32, d: Switches, b: bool, name: string)
    requires Child(root, if version < 3 then XmlOldAutoDownload else XmlAutoUpdate)
             == Some(TextElement(name, BoolText(b)))
    ensures ReadSwitches(root, version, d).autoUpdate == b
  {
    ParseBoolText(b);
  }

  /** Below version 2 IncludeShortcuts is the negation of a readable
      `ignore_external` and keeps its value otherwise; `include_shortcuts`
      is not consulted. */
  lemma LegacyIncludeShortcuts(root: XNode, version: Int32, d: Switches)
    requires version < 2
    ensures TryGetBool(Child(root, XmlOldIgnoreExternal)).Some? ==>
              ReadSwitches(root, version, d).includeShortcuts == !TryGetBool(Child(root, XmlOldIgnoreExternal)).value
    ensures TryGetBool(Child(root, XmlOldIgnoreExternal)).None? ==>
              ReadSwitches(root, version, d).includeShortcuts == d.includeShortcuts
  {
  }

  /** The elements the switches are read from in a document of the given
      version: the legacy names below versions 3 and 2. */
  function SwitchNames(version: Int32): set<string> {
    { if version < 3 then XmlOldAutoDownload else XmlAutoUpdate,
      XmlAutoImport, XmlAutoExport, XmlLocalUpdate, XmlWebUpdate,
      XmlExportDiscard, XmlAutoIgnore, XmlIncludeUnknown,
      XmlBypassIgnoreOnImport, XmlOverwriteNames,
      if version < 2 then XmlOldIgnoreExternal else XmlIncludeShortcuts }
  }

  /** A root without any of the switch elements of its version leaves every
      switch at its current value, whatever else it holds. */
  lemma AbsentSwitchesKept(root: XNode, version: Int32, d: Switches)
    requires forall n :: n in SwitchNames(version) ==> Child(root, n).None?
    ensures ReadSwitches(root, version, d) == d
  {
  }

  /** A profile root without a usable `version` attribute is read as
      version 0, the oldest layout. */
  lemma VersionDefault(root: XNode)
    requires root.Element?
    requires XmlVersion !in root.attributes || ParseInt32(root.attributes[XmlVersion]).None?
    ensures ProfileVersion(root) == 0
  {
  }

  /** Before version 1 a game's categories are the text of its `category`
      element when there is one, followed by the favourite when a
      `favorite` element is present; a `categories` list is not consulted. */
  lemma LegacyCategories(node: XNode, version: Int32)
    requires version < 1
    ensures |GameCategories(node, version)| ==
              (if Child(node, XmlGameCategory).Some? then 1 else 0) +
              (if Child(node, XmlOldGameFavorite).Some? then 1 else 0)
    ensures Child(node, XmlGameCategory).Some? ==>
              GameCategories(node, version)[0] == InnerText(Child(node, XmlGameCategory).value)
    ensures Child(node, XmlOldGameFavorite).Some? ==>
              GameCategories(node, version)[|GameCategories(node, version)| - 1] == FavoriteNewConfigValue
    ensures GameCategories(node, version) == GameCategories(WithoutChildren(node, XmlGameCategoryList), version)
  {
    KeptChild(node, XmlGameCategoryList, XmlGameCategory);
    KeptChild(node, XmlGameCategoryList, XmlOldGameFavorite);
  }

  /** The node with its child elements of the given name removed. */
  function WithoutChildren(node: XNode, name: string): XNode {
    if node.Element? then node.(children := Dropped(node.children, name)) else node
  }

  function Dropped(ns: seq<XNode>, name: string): (r: seq<XNode>)
    ensures forall i :: 0 <= i < |r| ==> !IsElementNamed(r[i], name)
  {
    if ns == [] then []
    else (if IsElementNamed(ns[0], name) then [] else [ns[0]]) + Dropped(ns[1..], name)
  }

  /** Removing the children called `gone` does not change the lookup of a
      child with another name. */
  lemma KeptChild(node: XNode, gone: string, name: string)
    requires gone != name
    ensures Child(WithoutChildren(node, gone), name) == Child(node, name)
  {
    if node.Element? {
      KeptFound(node.children, gone, name);
    }
  }

  lemma {:induction false} KeptFound(ns: seq<XNode>, gone: string, name: string)
    requires gone != name
    ensures FindNamed(Dropped(ns, gone), name) == FindNamed(ns, name)
  {
    if ns != [] {
      KeptFound(ns[1..], gone, name);
      if IsElementNamed(ns[0], gone) {
        assert Dropped(ns, gone) == Dropped(ns[1..], gone);
      } else {
        assert Dropped(ns, gone) == [ns[0]] + Dropped(ns[1..], gone);
        assert Dropped(ns, gone)[1..] == Dropped(ns[1..], gone);
      }
    }
  }

  // ---------------------------------------------------------------------
  // AutoCats

  /** Without an `autocats` element the seven defaults are generated; with
      one, only what it lists, so an empty one gives no AutoCats. */
  lemma AutoCatSectionRule(root: XNode, env: Env)
    ensures Child(root, XmlAutoCatList).None? ==>
              ReadAutoCatSection(root, env) == DefaultAutoCats(env.strings, env.sortedTags, env.storeFlags)
    ensures Child(root, XmlAutoCatList).Some? && ChildNodes(Child(root, XmlAutoCatList).value) == [] ==>
              ReadAutoCatSection(root, env) == []
  {
  }

  /** The default set: seven AutoCats named after the localised names, the
      tag and flag lists copied in, five HLTB rules. */
  lemma DefaultAutoCatsShape(strings: Resources, sortedTags: seq<string>, storeFlags: seq<string>)
    ensures |DefaultAutoCats(strings, sortedTags, storeFlags)| == 7
    ensures forall a :: a in DefaultAutoCats(strings, sortedTags, storeFlags) ==> a.filter.None? && a.prefix.Some?
    ensures DefaultAutoCats(strings, sortedTags, storeFlags)[3].kind == Tags(sortedTags)
    ensures DefaultAutoCats(strings, sortedTags, storeFlags)[4].kind == Flags(storeFlags)
    ensures DefaultAutoCats(strings, sortedTags, storeFlags)[5].kind.Hltb? &&
            |DefaultAutoCats(strings, sortedTags, storeFlags)[5].kind.rules| == 5
  {
  }

  lemma SameNameSymmetric(a: string, b: string)
    requires SameNameIgnoreCase(a, b)
    ensures SameNameIgnoreCase(b, a)
  {
  }

  lemma SameNameTransitive(a: string, b: string, c: string)
    requires SameNameIgnoreCase(a, b) && SameNameIgnoreCase(b, c)
    ensures SameNameIgnoreCase(a, c)
  {
  }

  /** `GetAutoCat` does not depend on the letter case of the name asked for. */
  lemma {:induction false} LookupIgnoresCase(acs: seq<AutoCat>, n1: string, n2: string)
    requires SameNameIgnoreCase(n1, n2)
    ensures LookupAutoCat(acs, Some(n1)) == LookupAutoCat(acs, Some(n2))
  {
    SameNameSymmetric(n1, n2);
    forall j | 0 <= j < |acs|
      ensures SameNameIgnoreCase(acs[j].name, n1) <==> SameNameIgnoreCase(acs[j].name, n2)
    {
      if SameNameIgnoreCase(acs[j].name, n1) {
        SameNameTransitive(acs[j].name, n1, n2);
      }
      if SameNameIgnoreCase(acs[j].name, n2) {
        SameNameTransitive(acs[j].name, n2, n1);
      }
    }
    assert IndexOfAutoCat(acs, n1) == IndexOfAutoCat(acs, n2);
  }

  /** The names of a list that `GetAutoCat` resolves, in order. */
  function Resolving(acs: seq<AutoCat>, names: seq<string>): (r: seq<string>)
    ensures |r| <= |names|
    ensures forall k :: 0 <= k < |r| ==> r[k] in names && LookupAutoCat(acs, Some(r[k])).Some?
    ensures (forall i :: 0 <= i < |names| ==> LookupAutoCat(acs, Some(names[i])).Some?) ==> r == names
  {
    if names == [] then []
    else
      var last := names[|names| - 1];
      Resolving(acs, names[..|names| - 1]) + (if LookupAutoCat(acs, Some(last)).Some? then [last] else [])
  }

  /** A copy of an AutoCat carrying the given filter's name, if any. */
  function WithFilter(c: AutoCat, filter: Option<FilterEntry>): AutoCat {
    if filter.Some? then c.(filter := Some(filter.value.name)) else c
  }

  /** `CloneAutoCatList`: exactly one clone per name that resolves, in the
      order of the names, each the AutoCat that name resolves to carrying
      the given filter's name when a filter is given; so one per name when
      every name resolves, and every clone a copy of an AutoCat of the
      profile. */
  lemma {:induction false} ClonedAutoCatsRule(acs: seq<AutoCat>, names: seq<string>, filter: Option<FilterEntry>)
    ensures |ClonedAutoCats(acs, names, filter)| == |Resolving(acs, names)| <= |names|
    ensures forall k :: 0 <= k < |Resolving(acs, names)| ==>
              ClonedAutoCats(acs, names, filter)[k] == WithFilter(LookupAutoCat(acs, Some(Resolving(acs, names)[k])).value, filter)
    ensures (forall i :: 0 <= i < |names| ==> LookupAutoCat(acs, Some(names[i])).Some?) ==>
              |ClonedAutoCats(acs, names, filter)| == |names|
    ensures forall a :: a in ClonedAutoCats(acs, names, filter) ==>
              exists c :: c in acs && a == WithFilter(c, filter)
  {
    if names != [] {
      var init := names[..|names| - 1];
      ClonedAutoCatsRule(acs, init, filter);
      var r0 := Resolving(acs, init);
      var c0 := ClonedAutoCats(acs, init, filter);
      var found := LookupAutoCat(acs, Some(names[|names| - 1]));
      if found.Some? {
        var r := Resolving(acs, names);
        var cl := ClonedAutoCats(acs, names, filter);
        assert r == r0 + [names[|names| - 1]];
        assert cl == c0 + [WithFilter(found.value, filter)];
        forall k | 0 <= k < |r|
          ensures cl[k] == WithFilter(LookupAutoCat(acs, Some(r[k])).value, filter)
        {
          if k < |r0| {
            assert r[k] == r0[k] && cl[k] == c0[k];
          }
        }
      } else {
        assert Resolving(acs, names) == r0;
        assert ClonedAutoCats(acs, names, filter) == c0;
      }
      forall a | a in ClonedAutoCats(acs, names, filter)
        ensures exists c :: c in acs && a == WithFilter(c, filter)
      {
        if a !in c0 {
          assert a == WithFilter(found.value, filter);
        }
      }
    }
  }
}
