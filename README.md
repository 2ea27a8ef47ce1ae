# Depressurizer profiles, profile updates and the profile dialog, in Dafny

Depressurizer keeps a user's settings, game list, category filters,
AutoCat rules and ignored games in a versioned XML *profile*. This project
models three parts of it:

- **The profile (Profile.cs).** `Profile.Load` reads a profile document and
  migrates older layouts:
  - the version defaults to 0;
  - the account falls back to the legacy short `account_id`;
  - below version 3 the auto-update switch is read from `auto_download`;
  - below version 2 the include-shortcuts switch is the negation of `ignore_external`;
  - before version 1 a game has a single category plus a favourite marker;
  - entries that do not parse are skipped;
  - ignored store titles are dropped;
  - a repeated game id aborts the load;
  - the default AutoCats are generated only when the `autocats` section is absent.

  `Profile.Save` writes:
  - version 3 and the switches as lower-case booleans;
  - games, dropping shortcuts (ids ≤ 0) unless shortcuts are included and renaming the favourite category;
  - filters, AutoCats and the exclusions in ascending order;
  - and it records the path only after the writer opened.

  Also modelled: the Steam id conversions `DirNametoID64` and `ID64toDirName`, `IgnoreGame`, `GetAutoCat`, `CloneAutoCatList` and `GenerateDefaultAutoCatSet`.
- **The update dialog (CDlgUpdateProfile.cs).** It downloads the game list as the XML feed or the HTML page. When XML is preferred and that download throws, it fails over to HTML. It then merges the document the last attempted method produced.
- **The profile dialog (DlgProfile.cs).** This covers:
  - the user records and their text;
  - the background name update: the job queue, `max(1, jobs)` workers, the drain loop with its abort check, the terminate counter, and several workers interleaved step by step;
  - the ignore list kept as text items and its sort comparer;
  - selecting a user by account id.

Files:

| file | contents |
|---|---|
| `wrappers.dfy` | `Option` and `Result` |
| `numbers.dfy` | .NET `int`/`long` (`TryParse`, `ToString`, unchecked wrap-around), `bool.TryParse` |
| `xml_tree.dfy` | the XML document as a tree; the `XmlUtil` getters as option-returning parsers |
| `profile_codec.dfy` | the profile as a value; `Decode` (what `Load` produces) and `Encode` (what `Save` writes) |
| `profile.dfy` | `class Profile`: the imperative `Load`, `Save` and helpers, each proved equal to the value-level functions |
| `profile_roundtrip.dfy` | the id conversions are inverse; saving then loading gives back the profile |
| `profile_rules.dfy` | invariants of every load, migration rules, defaults, AutoCat lookup and cloning |
| `update_profile.dfy` | the fetch/failover state machine |
| `profile_dialog.dfy` | the dialog's bookkeeping and the comparer |

The central theorem is `ProfileRoundTrip.SaveLoadRoundTrip`. It assumes
three things: the profile's game ids are distinct, the Filter writer is
read back by the Filter reading code (`FilterWriterInverse`), and the
AutoCat writer is read back by the AutoCat reader (`AutoCatWriterInverse`).
`ProfileRoundTrip.FilterWriterInverseMet` shows that a writer of a Filter's
own state (name, five `int` rules, three category lists) meets the first,
whatever rule values a new Filter starts with. Under those assumptions, decoding the document tree `Encode` builds gives the same
profile, with three differences:
- the path becomes the one loaded from;
- only the written, non-ignored games return;
- a `steam://` executable is dropped, and the favourite category comes back under its persisted name.

`ProfileRoundTrip.SavedStable` shows that a second save and load changes
nothing more. Both theorems are about the document tree, not its text form;
the "Left out" section below lists what the text form can lose.

## Model

| member | source | states |
|---|---|---|
| `ProfileCodec.DirNameToId64` | src/Depressurizer/Profile.cs:172-180 | text that is not a `long` gives 0 |
| `ProfileRoundTrip.DirNameRoundTrip` | src/Depressurizer/Profile.cs:172-180 | for a directory name that parses, `ID64toDirName(DirNametoID64(s))` is the decimal form of the parsed number (with 64-bit wrap-around) |
| `ProfileRoundTrip.Id64RoundTrip` | src/Depressurizer/Profile.cs:231-234 | `DirNametoID64(ID64toDirName(id)) == id` for every `long` id |
| `ProfileRoundTrip.OffsetInverse` | src/Depressurizer/Profile.cs:176 | adding and subtracting 0x0110000100000000 with wrap-around are inverse in both orders |
| `ProfileRoundTrip.DirNameNoWrap` | src/Depressurizer/Profile.cs:176 | for directory numbers below 2^32 the id is exactly the number plus the offset |
| `Profiles.Profile.constructor` | src/Depressurizer/Profile.cs:128-158 | a new profile has every field at its initialiser |
| `Profiles.Profile.Load` | src/Depressurizer/Profile.cs:236-374 | an unreadable document fails; a non-`profile` root gives a new profile; otherwise the profile `Decode` describes, or the duplicate-id failure |
| `Profiles.Profile.LoadElements` | src/Depressurizer/Profile.cs:259-367 | the fields read in order: account, switches, exclusions, games (stopping at a failure), filters, AutoCats |
| `Profiles.Profile.ReadAccount` | src/Depressurizer/Profile.cs:272-283 | the account is set to a nonzero `steam_id_64`, else the converted `account_id`, else 0 |
| `Profiles.Profile.ReadSwitches` | src/Depressurizer/Profile.cs:285-311 | each switch is read from its element with the legacy names, keeping its value when absent |
| `Profiles.Profile.ReadExclusions` | src/Depressurizer/Profile.cs:313-324 | the parsable exclusion ids join the ignore list |
| `Profiles.Profile.AddExclusions` | src/Depressurizer/Profile.cs:317-323 | the loop over exclusion entries adds exactly the ids that parse as `int` |
| `Profiles.Profile.ReadGameList` | src/Depressurizer/Profile.cs:326-334 | the games of the `games` list are added, or the load fails with the repeated id |
| `Profiles.Profile.AddGames` | src/Depressurizer/Profile.cs:330-333 | the loop over game entries agrees with `LoadGames`, including the failure |
| `Profiles.Profile.AddGameFromXmlNode` | src/Depressurizer/Profile.cs:671-722 | no id: skipped; ignored store title: dropped; repeated id: failure; otherwise the game is appended |
| `Profiles.Profile.ReadCategories` | src/Depressurizer/Profile.cs:694-720 | before version 1 the single category and the favourite marker, from version 1 the `categories` list |
| `Profiles.Profile.ReadFilterList` | src/Depressurizer/Profile.cs:336-344 | the filters of the `Filters` list, in order |
| `Profiles.Profile.AddFilterFromXmlNode` | src/Depressurizer/Profile.cs:601-669 | no `Name`: nothing; otherwise a filter whose rules are those that parse (a new Filter's values elsewhere) and whose lists are the Allow/Require/Exclude names |
| `Profiles.Profile.CategoryNames` | src/Depressurizer/Profile.cs:634-644 | the category names of a rule list, in order |
| `Profiles.Profile.ReadAutoCatList` | src/Depressurizer/Profile.cs:346-366 | the AutoCats listed, or the defaults when the section is absent |
| `Profiles.Profile.GenerateDefaultAutoCatSet` | src/Depressurizer/Profile.cs:186-229 | the seven default AutoCats are appended after the existing ones |
| `Profiles.Profile.IgnoreGame` | src/Depressurizer/Profile.cs:449-452 | returns true exactly when the id was not yet ignored; the id is in the set afterwards |
| `Profiles.Profile.GetAutoCat` | src/Depressurizer/Profile.cs:408-424 | null or empty name: null; otherwise the first AutoCat whose name matches ignoring case |
| `Profiles.Profile.CloneAutoCatList` | src/Depressurizer/Profile.cs:378-400 | one copy per name that resolves, in order, with the filter's name when a filter is given |
| `Profiles.Profile.Save` | src/Depressurizer/Profile.cs:464-595 | a writer that cannot be opened fails and keeps `FilePath`; otherwise the document `Encode` describes is written and `FilePath` becomes the path |
| `Profiles.Profile.SaveToFilePath` | src/Depressurizer/Profile.cs:459-462 | saving to the current `FilePath`; without one the writer cannot be opened |
| `Profiles.Profile.WriteGames` | src/Depressurizer/Profile.cs:512-559 | a game entry for every game with a positive id, or for every game when shortcuts are included |
| `Profiles.Profile.WriteGame` | src/Depressurizer/Profile.cs:519-555 | the entry's elements: id, source, optional name, hidden, nonzero last-played, non-`steam://` executable, categories |
| `Profiles.Profile.WriteCategories` | src/Depressurizer/Profile.cs:541-553 | the categories in order, the favourite under its persisted name |
| `Profiles.Profile.WriteAll` | src/Depressurizer/Profile.cs:561-577 | the filter and AutoCat loops: one element per entry, each made by that entry's own writer, in order |
| `Profiles.Profile.WriteExclusions` | src/Depressurizer/Profile.cs:579-586 | the ignored ids in ascending order |
| `Profiles.Profile.WriteExclusionIds` | src/Depressurizer/Profile.cs:581-584 | one `exclusion` element per id, in the given order |
| `Profiles.LoadGamesFailurePersists` | src/Depressurizer/Profile.cs:688 | once a repeated id has thrown, later entries do not change the outcome |
| `ProfileCodec.Ascending` | src/Depressurizer/Profile.cs:581 | the `SortedSet` enumeration: strictly ascending, the same elements as the set |
| `ProfileCodec.LookupAutoCat` | src/Depressurizer/Profile.cs:408-424 | a found AutoCat is in the list and matches ignoring case; nothing found means no AutoCat matches |
| `ProfileCodec.IndexOfAutoCat` | src/Depressurizer/Profile.cs:415-421 | the first position whose name matches ignoring case |
| `ProfileCodec.ContainsAt` | src/Depressurizer/Profile.cs:536 | `Contains` holds exactly when the text occurs at some position |
| `ProfileRoundTrip.VersionWritten` | src/Depressurizer/Profile.cs:496 | a saved profile reads back as version 3 |
| `ProfileRoundTrip.AccountIdWritten` | src/Depressurizer/Profile.cs:498 | the saved account id reads back unchanged |
| `ProfileRoundTrip.SwitchesWritten` | src/Depressurizer/Profile.cs:500-510 | the lower-cased booleans read back as the switches, whatever the defaults |
| `ProfileRoundTrip.CategoriesReadBack` | src/Depressurizer/Profile.cs:541-553 | the written categories read back as the persisted names |
| `ProfileRoundTrip.ReadGameWritten` | src/Depressurizer/Profile.cs:519-555 | a written game entry reads back as the game, up to the executable and favourite normalisation |
| `ProfileRoundTrip.HeaderFieldsWritten` | src/Depressurizer/Profile.cs:521-529 | the id, source, name and hidden flag of a written game entry read back as written |
| `ProfileRoundTrip.ListFieldsWritten` | src/Depressurizer/Profile.cs:531-551 | the last-played time and categories read back as written (the favourite under its persisted name); the executable reads back unless it is a steam:// link |
| `ProfileRoundTrip.LoadWrittenGames` | src/Depressurizer/Profile.cs:512-559 | loading the written games of a list with distinct ids never fails and yields the kept games in order |
| `ProfileRoundTrip.ExclusionsReadBack` | src/Depressurizer/Profile.cs:579-586 | the written exclusion entries read back as exactly the written ids |
| `ProfileRoundTrip.IgnoreListWritten` | src/Depressurizer/Profile.cs:579-586 | the saved ignore list reads back unchanged |
| `ProfileRoundTrip.FiltersReadBack` | src/Depressurizer/Profile.cs:561-568 | assuming only that the Filter writer is read back by the Filter reading code: the written filters read back in order |
| `ProfileRoundTrip.AutoCatsReadBack` | src/Depressurizer/Profile.cs:570-577 | assuming only that the AutoCat writer is read back by the AutoCat reader: the written AutoCats read back in order |
| `ProfileRoundTrip.GamesWritten` | src/Depressurizer/Profile.cs:512-559 | the saved game list reads back as the kept games |
| `ProfileRoundTrip.FiltersWritten` | src/Depressurizer/Profile.cs:561-568 | assuming only the Filter half of the writer hypothesis: the saved filters read back unchanged |
| `ProfileRoundTrip.AutoCatsWritten` | src/Depressurizer/Profile.cs:570-577 | assuming only the AutoCat half of the writer hypothesis: the saved AutoCats read back unchanged, an empty list staying empty |
| `ProfileRoundTrip.SaveLoadRoundTrip` | src/Depressurizer/Profile.cs:464-595 | with distinct game ids and both writer halves: decoding the document tree `Save` builds gives the profile back up to the documented normalisations |
| `ProfileRoundTrip.FilterElementParses` | src/Depressurizer/Profile.cs:601-669 | a Filter element holding the name, the five rules as `int` text and the three category lists is read back as the same filter, whatever a new Filter's rule values are |
| `ProfileRoundTrip.FilterWriterInverseMet` | src/Depressurizer/Profile.cs:561-568 | a Filter writer that writes the Filter's own state meets the Filter half of the round trip's hypothesis |
| `ProfileRoundTrip.KeptGames` | src/Depressurizer/Profile.cs:516 | the ids of the kept games are among the original ids |
| `ProfileRoundTrip.KeptGamesStable` | src/Depressurizer/Profile.cs:516 | keeping the kept games again changes nothing |
| `ProfileRoundTrip.SavedStable` | src/Depressurizer/Profile.cs:464-595 | on document trees, a second save and load of a loaded profile changes nothing |
| `ProfileRules.LoadGamesInvariant` | src/Depressurizer/Profile.cs:671-689 | a game list that loads has distinct ids and holds no ignored store title |
| `ProfileRules.DecodeInvariant` | src/Depressurizer/Profile.cs:313-334 | every loaded profile has distinct game ids and no game its own ignore list suppresses |
| `ProfileRules.LoadGamesFailure` | src/Depressurizer/Profile.cs:688 | a failed load names the id of one of the entries |
| `ProfileRules.KeptGamesMembers` | src/Depressurizer/Profile.cs:516 | a game comes back after saving exactly when it was written (shortcuts included or id > 0) and is not an ignored store title |
| `ProfileRules.NonProfileRoot` | src/Depressurizer/Profile.cs:257-259 | a document without a `profile` root loads as a new profile with no games and no AutoCats |
| `ProfileRules.LegacyAccountId` | src/Depressurizer/Profile.cs:273-281 | without a nonzero 64-bit id, the legacy short id of an account converts back to that account |
| `ProfileRules.LegacyAutoUpdate` | src/Depressurizer/Profile.cs:286 | auto-update is read from `auto_download` below version 3 and from `auto_update` otherwise |
| `ProfileRules.LegacyIncludeShortcuts` | src/Depressurizer/Profile.cs:301-310 | below version 2 include-shortcuts is the negation of a parsable `ignore_external`, and unchanged otherwise |
| `ProfileRules.AbsentSwitchesKept` | src/Depressurizer/Profile.cs:286-311 | a root holding none of the switch elements its version reads (whatever else it holds) leaves every switch at its value |
| `ProfileRules.VersionDefault` | src/Depressurizer/Profile.cs:262-270 | a missing or non-integer version attribute gives version 0 |
| `ProfileRules.LegacyCategories` | src/Depressurizer/Profile.cs:694-705 | for every version below 1: the `category` text if that element is present, then the favourite if a `favorite` element is present, nothing else; a `categories` list is ignored |
| `ProfileRules.AutoCatSectionRule` | src/Depressurizer/Profile.cs:346-366 | an absent `autocats` gives the defaults; a present but empty one gives none |
| `ProfileRules.DefaultAutoCatsShape` | src/Depressurizer/Profile.cs:186-229 | seven AutoCats without filter and with a prefix; tags and flags copied in; five HLTB rules |
| `ProfileRules.LookupIgnoresCase` | src/Depressurizer/Profile.cs:408-424 | `GetAutoCat` gives the same answer for names that differ only in letter case |
| `ProfileRules.ClonedAutoCatsRule` | src/Depressurizer/Profile.cs:378-400 | exactly one clone per name that resolves, in name order, each the AutoCat it resolves to carrying the given filter's name; so one per name when all resolve |
| `UpdateProfile.UpdateProfileDialog.ForAccount` | src/Depressurizer/CDlgUpdateProfile.cs:52-68 | zero counts, no HTML, no failover; downloads for the account id |
| `UpdateProfile.UpdateProfileDialog.ForUrl` | src/Depressurizer/CDlgUpdateProfile.cs:70-86 | zero counts, no HTML, no failover; downloads from the custom URL |
| `UpdateProfile.UpdateProfileDialog.FetchHtml` | src/Depressurizer/CDlgUpdateProfile.cs:106-110 | `UseHtml` is set before the download; the HTML document is replaced only when the download returns |
| `UpdateProfile.UpdateProfileDialog.FetchXml` | src/Depressurizer/CDlgUpdateProfile.cs:112-116 | `UseHtml` is cleared before the download; the XML document is replaced only when the download returns |
| `UpdateProfile.UpdateProfileDialog.FetchXmlPref` | src/Depressurizer/CDlgUpdateProfile.cs:118-132 | an XML exception is swallowed, `Failover` is set and the HTML download made |
| `UpdateProfile.UpdateProfileDialog.RunProcess` | src/Depressurizer/CDlgUpdateProfile.cs:156-177 | counts reset, then the download the list source selects |
| `UpdateProfile.UpdateProfileDialog.Finish` | src/Depressurizer/CDlgUpdateProfile.cs:134-154 | the state after the merge step the fetch state allows |
| `UpdateProfile.XmlPreferredSuccess` | src/Depressurizer/CDlgUpdateProfile.cs:118-125 | under XmlPreferred an XML download that returns means no HTML download, no failover, no exception |
| `UpdateProfile.XmlPreferredFailover` | src/Depressurizer/CDlgUpdateProfile.cs:126-131 | under XmlPreferred an XML exception sets failover, makes the HTML download and lets its exception escape |
| `UpdateProfile.SingleSourceNoFallback` | src/Depressurizer/CDlgUpdateProfile.cs:166-173 | XmlOnly and WebsiteOnly make only their own download, never fail over, and let its exception escape |
| `UpdateProfile.UseHtmlNamesLastAttempt` | src/Depressurizer/CDlgUpdateProfile.cs:106-132 | after a run `UseHtml` names the last download attempted; `Failover` is set exactly when preferred XML threw |
| `UpdateProfile.RunResetsCounts` | src/Depressurizer/CDlgUpdateProfile.cs:156-177 | a run zeroes `Added` and `Fetched` and never touches `Removed`; an unhandled source downloads nothing |
| `UpdateProfile.FinishMergesAtMostOne` | src/Depressurizer/CDlgUpdateProfile.cs:134-154 | a merge happens exactly when not cancelled, no error and a document for the method used; only that one document is merged and only the counts change |
| `UpdateProfile.XmlPreferredUpdate` | src/Depressurizer/CDlgUpdateProfile.cs:98-177 | a whole XmlPreferred update merges the XML document when there is one, else the HTML one after failover; `Removed` stays 0 |
| `ProfileDialog.RecordText` | src/Depressurizer/DlgProfile.cs:726-734 | the text starts with the directory name |
| `ProfileDialog.RecordTextRule` | src/Depressurizer/DlgProfile.cs:726-734 | the text is the bare directory name exactly when there is no display name; otherwise the name follows " - " |
| `ProfileDialog.PublishName` | src/Depressurizer/DlgProfile.cs:614-637 | only the record at the index changes; the selection stays on it if it was selected and moves to the first record otherwise |
| `ProfileDialog.JobQueue` | src/Depressurizer/DlgProfile.cs:582-590 | one job per record, in list order |
| `ProfileDialog.BuildQueue` | src/Depressurizer/DlgProfile.cs:582-590 | the queue-filling loop builds exactly that queue |
| `ProfileDialog.ThreadCount` | src/Depressurizer/DlgProfile.cs:580-592 | the number of workers is at least 1 and at least the number of jobs, and is one of them |
| `ProfileDialog.DrainQueue` | src/Depressurizer/DlgProfile.cs:386-424 | a lone worker takes one job past the abort point, publishes the names before it, and never publishes more than there are jobs |
| `ProfileDialog.PublishAllNames` | src/Depressurizer/DlgProfile.cs:386-424 | an unaborted run shows every user's looked-up name or "?", leaves the rest alone, and selects the first record |
| `ProfileDialog.NameUpdate.constructor` | src/Depressurizer/DlgProfile.cs:40-42 | no workers, no abort, interface normal |
| `ProfileDialog.NameUpdate.Start` | src/Depressurizer/DlgProfile.cs:573-605 | nothing while workers run; otherwise a fresh abort flag, the job queue and `max(1, jobs)` idle workers, counted |
| `ProfileDialog.NameUpdate.Take` | src/Depressurizer/DlgProfile.cs:390-403 | a worker takes the head of the queue, or leaves its loop on an empty queue, without consulting the abort flag; the round's jobs and the bound `published + in flight + queued <= jobs` are kept |
| `ProfileDialog.NameUpdate.Resolve` | src/Depressurizer/DlgProfile.cs:405-421 | after a lookup an aborted worker leaves without publishing; otherwise it publishes the name and loops; the round's jobs are kept, so published names never exceed them |
| `ProfileDialog.NameUpdate.UpdateDisplayNameInList` | src/Depressurizer/DlgProfile.cs:614-637 | the listing after the name is published |
| `ProfileDialog.NameUpdate.Terminate` | src/Depressurizer/DlgProfile.cs:426-440 | the counter goes down by one and the interface is reset exactly when it reaches 0; the round's jobs are kept |
| `ProfileDialog.NameUpdate.Cancel` | src/Depressurizer/DlgProfile.cs:220-230 | the abort flag is raised only while workers run; the round's jobs are kept |
| `ProfileDialog.NameUpdate.Close` | src/Depressurizer/DlgProfile.cs:442-448 | closing raises the abort flag unconditionally |
| `ProfileDialog.AllTerminated` | src/Depressurizer/DlgProfile.cs:426-440 | when every worker has terminated, the live count is 0 |
| `ProfileDialog.LiveUpdate` | src/Depressurizer/DlgProfile.cs:421-423 | how one worker's step changes the live and in-flight counts |
| `ProfileDialog.ParsedIdsMembers` | src/Depressurizer/DlgProfile.cs:512-521 | an id is in the saved ignore set exactly when some item's text parses to it |
| `ProfileDialog.IgnoreSetFromItems` | src/Depressurizer/DlgProfile.cs:512-521 | the loop builds exactly that set |
| `ProfileDialog.FirstUser` | src/Depressurizer/DlgProfile.cs:528-537 | the first record with the directory name |
| `ProfileDialog.SelectUserById` | src/Depressurizer/DlgProfile.cs:524-540 | true exactly when some record has the account's directory name, and then the first such is selected; otherwise the selection is untouched |
| `ProfileDialog.SelectUserByText` | src/Depressurizer/DlgProfile.cs:542-550 | text that is not a `long` selects nothing and gives false; a `long` selects as the id overload does (the first matching record, or nothing changed on a miss) |
| `ProfileDialog.SelectedUserHasId` | src/Depressurizer/DlgProfile.cs:524-537 | the selected record's directory name converts back to the account id |
| `ProfileDialog.CompareAsWritten` | src/Depressurizer/DlgProfile.cs:762-770 | two ids give their difference modulo 2^32; otherwise the text comparison's result |
| `ProfileDialog.CompareAsWrittenOverflow` | src/Depressurizer/DlgProfile.cs:766 | the 32-bit subtraction wraps: the smallest `int` compares greater than 1 |
| `ProfileDialog.CompareIdsOrder` | src/Depressurizer/DlgProfile.cs:762-770 | the corrected comparer orders ids by value and is antisymmetric |
| `ProfileDialog.CompareAgreesWithoutOverflow` | src/Depressurizer/DlgProfile.cs:762-770 | the written and corrected comparers agree whenever the difference fits in an `int` |
| `Numbers.ParseShowInt32` | src/Depressurizer/Profile.cs:521 | `int.TryParse` of an `int`'s `ToString()` gives it back |
| `Numbers.ParseShowInt64` | src/Depressurizer/Profile.cs:498 | `long.TryParse` of a `long`'s `ToString()` gives it back |
| `Numbers.ParseBoolText` | src/Depressurizer/Profile.cs:500-510 | `bool.TryParse` reads a lower-cased `ToString()` back |
| `Numbers.Wrap64` | src/Depressurizer/Profile.cs:176 | unchecked `long` arithmetic: congruent modulo 2^64 and the identity in range |

## Left out

- XmlUtil's source is not part of this model. The getters are modelled as `TryParse` of the node's inner text, with the default when the node is missing or does not parse.
- `GetEnumFromNode` is modelled as an exact match of the enum names, falling back to `Unknown`. GameListingSource is taken in the declaration order Unknown, SteamConfig, WebProfile, Manual; its file is not part of this model.
- `GameList.FAVORITE_NEW_CONFIG_VALUE` and `FAVORITE_CONFIG_VALUE` are not part of this model. Their values here are stand-ins; only their distinctness matters.
- The `GameList` internals are not modelled: `Games` is a sequence with distinct ids and `Filters` a sequence.
  - `GetCategory` and `AddFilter` are not modelled. A category is its name, and a game's categories are the names in order (no set semantics, no `SetFavorite` de-duplication).
  - `AddFilter` is taken to append a new filter.
- `GameInfo.Executable` is assumed to read a null executable as a `steam://` link, so a game without one writes none.
- AutoCat variant reading, writing and cloning (`LoadACFromXmlElement`, `WriteToXml`, `Clone`) and `Filter.WriteToXml` are opaque functions in `Env`. A clone is the same value. The round trip assumes the Filter writer is read back by the Filter reading code (`ProfileRoundTrip.FilterWriterInverse`) and the AutoCat writer by the AutoCat reader (`ProfileRoundTrip.AutoCatWriterInverse`); each lemma requires only the half it uses.
- The rule values a new Filter starts with come from `Filter.cs`, which is not part of this model; they are the input `Env.filterDefaults`. A rule that does not parse keeps that value.
- Exceptions are modelled as results:
  - `XmlDocument.Load` failing is `Failure(Unreadable)`;
  - `Dictionary.Add` on a repeated id is `Failure(DuplicateGameId)`;
  - `XmlWriter.Create` failing is `Failure(CannotOpen)`.

  Whether the writer opens is a parameter. The backup before a save is not modelled: its failure is only logged and changes neither the result nor the profile. Log messages are not modelled.
- Profiles.Profile.Save: the document is returned instead of being written to a file.
- SaveLoadRoundTrip: the round trip is stated on the document tree, not on XML text. The program writes with indentation and reads without preserving white space, so text-level losses are not modelled:
  - a name, category or filter entry made only of white space comes back empty;
  - a carriage return comes back as a line feed;
  - a character XML 1.0 cannot hold makes the writer throw after it opened, a save failure other than `CannotOpen`.
- SavedStable: stated on the document tree for the same reason.
- Numbers.ParseInteger, Numbers.ParseBool: trim only U+0009–U+000D and the space. .NET `bool.TryParse` also trims other Unicode white space and `'\0'`, and `int.TryParse` accepts trailing `'\0'`; those inputs are modelled as not parsing.
- `string.Equals(…, OrdinalIgnoreCase)` is modelled with ASCII case folding only.
- The eleven boolean settings of `Profile` are one record-valued field `switches`. The verifier handles one field more cheaply than eleven; this changes nothing observable.
- The `Database` inputs of `GenerateDefaultAutoCatSet` are inputs: the sorted tag list and the store flags. So are the localised strings.
- `GetDisplayName`, the HTTP lookup, is an input function from account id to an optional name. `GetAvatar` is not modelled (network and image decoding).
- The downloads (`FetchXmlGameList`, `FetchHtmlGameList`) and merges (`IntegrateXmlGameList`, `IntegrateHtmlGameList`) are inputs. An exception inside a merge is not modelled.
- The dialog base class `CancelableDlg` is not part of this model. `Canceled` and `Error` are inputs to `Finish`, and in `UpdateProfile.Update` an exception that escaped the run counts as the recorded error.
- Threads, locks and `Invoke` marshalling are not modelled. Each step of `ProfileDialog.NameUpdate` is one atomic action, and any interleaving of enabled steps is a run. The list's records are assumed not to change while an update runs.
- Every item of the user list is taken to be a `UserRecord`, so the `as UserRecord` null checks never skip an item.
- The abort flag seen by a lone worker in `ProfileDialog.DrainQueue` is one threshold. It reads as set from a given lookup on, which covers every run because the flag is only ever raised.
- The WinForms code is not modelled: button enabling, labels, message boxes and file pickers. Only the interface state Normal/Running/Stopping is kept.
- `string.Compare` is culture-aware. It is an input to the comparer.
- Program.cs and CDlgHltb.cs are not modelled (startup and a thin wrapper).

Where the code and its description differ, the model follows the code:
- A repeated game id aborts the whole load.
- A worker checks the abort flag only after a lookup, never before taking a job.
- A present but empty `autocats` element yields no AutoCats.
- A document without a `profile` root yields a profile without the default AutoCats.
- A child of `autocats` that is not an element reaches the AutoCat reader as null, because the null test is on the node rather than on the cast (`ProfileCodec.ReadAutoCats`).

## Findings

| source | as written | input that shows it | evidently intended | confidence | as-written member | corrected member |
|---|---|---|---|---|---|---|
| src/Depressurizer/DlgProfile.cs:766 | the ignore-list comparer returns `a - b` in unchecked 32-bit arithmetic | items "-2147483648" and "1": the difference wraps to 2147483647, so the smallest id sorts after 1 | ids compare by value (`a.CompareTo(b)`) | not executed | `ProfileDialog.CompareAsWrittenOverflow` | `ProfileDialog.CompareIdsOrder` |
