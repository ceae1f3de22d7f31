# kdesrc-build completions for Sublime Text, modelled in Dafny

This project models the logic that decides which configuration options and which
values the kdesrc-build editor plugin offers while a `kdesrc-buildrc` file is edited,
together with the documentation scraper that produces the option records the plugin
loads. The proofs are about that logic:

- the scope rule `RegionType.may_contain`;
- the defaults and the "Deprecated" / "Default value" annotations of `fill`;
- `make_link`;
- the `RegionTypeRestriction` flags, the `Option` record and its JSON encoder and decoder hook;
- `parse_region`, the link rewrite of `parse_option` and the filtering loop of `parse_options`;
- `ensure_registry`, `registry` and `get_option_descriptor`, over a module-level state;
- `complete_option_name`, the value-choice merge of `on_query_completions`,
  `get_include_dirs`, `get_filesystem_completions` and the output parsing of `query_modules`.

Modules, one per file:

| module | file | models |
|---|---|---|
| Wrappers | wrappers.dfy | `Option` and `Result` |
| Strings | strings.dfy | Python's `str.strip`, `str.split`, `str.splitlines`, `<=` on `str`, `in`, `replace(' ', '&nbsp;')` and `str(int)` |
| Sorting | sorting.dfy | `sorted` / `list.sort` as a stable insertion sort under a key order |
| Lib | lib.dfy | plugins/lib/__init__.py |
| GenConfOptions | gen_conf_options.dfy | plugins/gen_conf_options.py |
| Completions | completions.dfy | the pure parts of completions.py: `may_contain`, descriptors, `fill`, `render`'s sections, `make_link` |
| Registry | registry.dfy | what `ensure_registry` computes, as functions of the catalogue and the records |
| ChoiceMerge | choice_merge.dfy | the value completions of `on_query_completions` |
| Queries | queries.dfy | `complete_option_name`'s filter and items, `os.path.dirname`, `get_include_dirs`, `get_filesystem_completions`, the parsing in `query_modules` |
| Plugin | plugin.dfy | the module-level state (`OPTION_DESCRIPTOR_REGISTRY`, `MODULES`) as a class, with `ensure_registry`, `registry`, `get_option_descriptor`, `query_modules` and `complete_option_name` as its methods |

The loops of the source are methods with loop invariants, each proved against a
function that specifies it. Those methods are `PluginState.EnsureRegistry`,
`QueryModules`, `Matching`, `GetIncludeDirs`, `Partition`, `AppendGroup`,
`RewriteLinks` (in place, on an array) and `ParseOptions`. The properties are then
proved about the functions.

External inputs become parameters:

- the catalogue `REGISTRY_LIST` and the decoded `conf_options.json` records are
  fields of `PluginState`, given to its constructor;
- the text `kdesrc-build --list-build` prints is the `stdout` argument of
  `QueryModules` (`None` when `check_output` raises `SubprocessError`);
- a folder's listing, with the kind of each entry, is the `listing` argument of
  `FilesystemCompletions` (`None` when `os.listdir` raises);
- each `include` keyword of the file is an `IncludeLine`, the rest of its line
  together with a flag saying whether the cursor is on that line;
- `urljoin` and the serialisation of a notes cell are function parameters of the
  scraper;
- the editor's scope tests at the cursor are the flags `expectsBool` and
  `expectsString` of `ValueCompletions`.

Where the code and its surrounding description disagree, the model follows the code:

- `may_contain` allows any flag value other than the four known ones in every block
  (its final `else`).
- `parse_region` keeps its redundant "Module setting overrides global" test, which
  gives the same `ANY` as the fall-through.
- `get_default` returns `None` when the callable itself returns `None`. So
  `GetDefaultNoneIff` states "both absent, or the callable gives `None`", not just
  "both absent".

## Model

| member | source | states |
|---|---|---|
| Lib.BitOrBits | plugins/lib/__init__.py:17-20 | `\|` on flags is bitwise: bit k of `a \| b` is set iff it is set in `a` or in `b` |
| Lib.CombinedRestriction | plugins/lib/__init__.py:17-20 | `GLOBAL \| MODULE_SET` is 3, and `ANY` (0) is neutral for `\|` on either side |
| Lib.Encode | plugins/lib/__init__.py:34-39 | an encoded `Option` has exactly the keys name, anchor, region and notes; region is stored as an int, the three text fields as strings |
| Lib.EncoderDefault | plugins/lib/__init__.py:32-41 | the encoder succeeds exactly on `Option` objects, giving their four-key dictionary; any other object is handed to the base encoder, which raises `TypeError` naming its type |
| Lib.RegionOf | plugins/lib/__init__.py:51 | the flag constructor accepts exactly integers and booleans; an integer becomes the flag of that value |
| Lib.ObjectHook | plugins/lib/__init__.py:46-54 | a dictionary missing any of the four keys is returned unchanged; a dictionary with all four keys (and possibly others) becomes a record exactly when name, anchor and notes are strings and region is an integer or a boolean, and that record's fields are the dictionary's values; a region of any other kind is refused by the flag constructor |
| Lib.EncodeDecodeRoundTrip | plugins/lib/__init__.py:31-55 | decoding the encoding of any `Option` gives the same `Option`, region flag included |
| Lib.DecodeEncodeRoundTrip | plugins/lib/__init__.py:44-54 | a dictionary of exactly the four well-typed keys decodes to a record whose encoding is that dictionary |
| Lib.DumpOptions | plugins/gen_conf_options.py:107-108 | dumping a list of records gives one encoded object per record |
| Lib.LoadDumpRoundTrip | completions.py:304 | loading what the scraper dumped (one object per record, plugins/gen_conf_options.py:105-108) gives back every record in order, with no error |
| GenConfOptions.ParseRegion | plugins/gen_conf_options.py:30-44 | the restriction a row's texts give is always one of 0, 1, 2 and 3 |
| GenConfOptions.IgnoreModulesIsGlobalAndModuleSet | plugins/gen_conf_options.py:32-33 | "ignore-modules" maps to `GLOBAL \| MODULE_SET` whatever its behaviour text says |
| GenConfOptions.CannotBeOverriddenIsGlobal | plugins/gen_conf_options.py:35-36 | text containing "Cannot be overridden" maps to `GLOBAL`, whether or not it also contains "Can only use in" |
| GenConfOptions.CanOnlyUseInIsModuleSet | plugins/gen_conf_options.py:38-39 | "Can only use in" without "Cannot be overridden" maps to `MODULE_SET` |
| GenConfOptions.OtherTextIsAny | plugins/gen_conf_options.py:41-44 | any other text maps to `ANY` |
| GenConfOptions.ParseRegionBits | plugins/gen_conf_options.py:30-44 | the global bit is set iff the name is "ignore-modules" or the text says "Cannot be overridden"; the module-set bit is set iff the name is "ignore-modules", or the text says "Can only use in" and not "Cannot be overridden" |
| GenConfOptions.RewrittenLink | plugins/gen_conf_options.py:60-67 | an anchor keeps its attributes other than href; an anchor without href, or with an href starting with `http://` or `https://`, is unchanged; any other href becomes its join with the documentation base URL |
| GenConfOptions.RewriteLinks | plugins/gen_conf_options.py:58-67 | the in-place loop over the anchors leaves each anchor of the array rewritten by `RewrittenLink`, position by position |
| GenConfOptions.ParseRow | plugins/gen_conf_options.py:47-72 | a row is skipped iff its name cell has no anchor; it raises `KeyError('name')` iff that anchor has no name attribute; otherwise it gives a record |
| GenConfOptions.ParsedRowFields | plugins/gen_conf_options.py:58-72 | a parsed record takes the name cell's text, the anchor's name, the region `parse_region` gives, and as notes the stripped serialisation of the row's own notes cell with each of its anchors rewritten by `RewrittenLink` |
| GenConfOptions.ParseOption | plugins/gen_conf_options.py:47-72 | the method gives what `ParseRow` specifies; it leaves the notes cell untouched on a skipped row and rewrites its anchors on any other row |
| GenConfOptions.RowResultAt | plugins/gen_conf_options.py:82-84 | the result recorded for each row is `parse_option` of that row |
| GenConfOptions.RowResultsAppend | plugins/gen_conf_options.py:82-84 | the results of two runs of rows, one after the other, are the two lists of results concatenated |
| GenConfOptions.KeptAppend | plugins/gen_conf_options.py:85-86 | the options kept from two runs of results are the two lists of kept options concatenated |
| GenConfOptions.KeptSnoc | plugins/gen_conf_options.py:85-86 | one more result appends its option when it is a parsed record, and nothing otherwise |
| GenConfOptions.ParseStep | plugins/gen_conf_options.py:82-86 | one more row appends its option to what the rows before it yield when it parses, and nothing otherwise |
| GenConfOptions.SkippedRowYieldsNothing | plugins/gen_conf_options.py:52-55 | a row without a name anchor contributes no option and leaves the options of the rows around it in order |
| GenConfOptions.ParseOptions | plugins/gen_conf_options.py:75-86 | the rows give a list iff no row raises, and that list is the parsed records in row order; otherwise the error is `KeyError('name')` |
| Completions.AnyAllowedEverywhere | completions.py:83-84 | an `ANY` option may appear in every block kind |
| Completions.GlobalAndModuleSetBlocks | completions.py:85-86 | `GLOBAL \| MODULE_SET` is allowed exactly in module-set and options blocks, so not in global blocks |
| Completions.GlobalOnlyInGlobalBlocks | completions.py:87-88 | a `GLOBAL` option is allowed exactly in global blocks |
| Completions.ModuleSetOnlyInModuleSetBlocks | completions.py:89-90 | a `MODULE_SET` option is allowed exactly in module-set blocks |
| Completions.UnknownRestrictionAllowedEverywhere | completions.py:91-92 | a flag value outside 0 to 3 restricts nothing |
| Completions.ModuleBlocksTakeOnlyUnrestricted | completions.py:82-92 | among the four known flags, a module block takes only `ANY` |
| Completions.NoDefaultIff | completions.py:141-142 | `has_default` is false exactly when there is neither a literal default nor a callable |
| Completions.LiteralDefaultWins | completions.py:144-146 | a literal default is returned even when a callable is also set |
| Completions.ComputedDefaultWhenNoLiteral | completions.py:147-148 | without a literal default, the callable's value is returned |
| Completions.GetDefaultNoneIff | completions.py:144-149 | `get_default` returns `None` exactly when both are absent or the callable gives `None` |
| Completions.Render | completions.py:126-127 | the documentation always starts with the option's name as its title |
| Completions.RenderShowsDefault | completions.py:128-131 | the documentation shows a default exactly when `has_default` holds, and the default it shows is `get_default` |
| Completions.Fill | completions.py:109-124 | a deprecated option's item is marked "Deprecated"; otherwise it is marked "Default value" when the default (stringified for `int` options) equals the value under Python's `==`, and keeps its annotation when not; trigger, completion and kind are kept; the details are the "More" link when short, the documentation otherwise |
| Completions.DeprecatedNeverDefault | completions.py:110-111 | a deprecated option is never marked "Default value" |
| Completions.IntDefaultMarksOneTrigger | completions.py:113-117 | for an `int` option with an integer default, a trigger is marked exactly when it spells the default in decimal |
| Completions.IntDefaultMarksOneChoice | completions.py:113-117 | two integer values that are both marked as the default are equal |
| Completions.LinkText | completions.py:153-154 | string text loses every space; any other text is shown as `str` gives it |
| Completions.FalsyClassGivesPlainLink | completions.py:155-158 | an empty class name gives the same link as no class name |
| Completions.ClassAttributeInserted | completions.py:155-158 | a non-empty class name adds only its `class='...'` attribute between the href and the text of the plain link |
| Completions.LinkTextHasNoSpaces | completions.py:154 | the link text keeps no space, and for text without '&' each `&nbsp;` goes back to one space |
| Registry.DocsByName | completions.py:305 | the records by name have exactly the records' names as keys |
| Registry.DocsByNameLast | completions.py:305 | each name maps to a record of that name, and a name's last record is the one kept |
| Registry.Enrich | completions.py:316-320 | a documented option takes its region and anchor from the record, and the record's notes only when its own doc is empty; name, type, choices, defaults, since and deprecation are kept |
| Registry.BuildKeysAndDocs | completions.py:307-322 | after the loop over some entries, the registry has exactly their names as keys, and the records left are those of the names not seen |
| Registry.BuildExpected | completions.py:307-322 | each name holds its last catalogue entry, enriched by its record only when that entry is also the name's first one, since the first occurrence pops the record |
| Registry.RegistryKeys | completions.py:308-322 | the built registry has exactly the catalogue's names as keys |
| Registry.RegistryNames | completions.py:322 | the registry stores each descriptor under its own name |
| Registry.DocumentedOption | completions.py:312-322 | an option named once and documented takes the region and anchor of its name's last record, and that record's notes unless it has its own doc |
| Registry.UndocumentedOption | completions.py:312-314 | an option without a record is stored unchanged |
| Registry.DuplicateKeepsLater | completions.py:309-322 | of two entries with one name, the later one is stored, and without the record the earlier one popped |
| Registry.MissingRecords | completions.py:324-325 | the records left over are exactly those whose names are not in the catalogue, and a "Missing options" warning is printed exactly when there are some |
| Registry.BuildWarningsKinds | completions.py:309-314 | the loop prints only "Duplicated" and "Undocumented" warnings |
| Registry.RegistryNonEmpty | completions.py:231-232 | a non-empty catalogue gives a non-empty registry, so a second `ensure_registry` returns at once |
| ChoiceMerge.KeyAsWrittenRejectsIntegers | completions.py:501-508 | as written, `key` fails its assertion exactly on integer (and boolean) choices |
| ChoiceMerge.KeyOfAgreesElsewhere | completions.py:501-508 | the intended `key` differs from the written one only on integer choices of `int` options, where it gives the integer |
| ChoiceMerge.KeyFailureIsAssertion | completions.py:503 | the only way `key` fails is `AssertionError` |
| ChoiceMerge.Put | completions.py:518-521 | `d[k] = v` keeps keys distinct; its keys are the old ones and `k`; `(k, v)` is present; every other pair is kept, and no other pair appears |
| ChoiceMerge.Keyed | completions.py:518 | the comprehension succeeds iff every choice keys; it then has one pair per distinct key, and its keys are exactly the choices' keys |
| ChoiceMerge.KeyedOrigins | completions.py:518 | every pair the comprehension stores is one of the choices under that choice's own key |
| ChoiceMerge.KeyedLastWins | completions.py:518 | a choice that no later choice shares a key with is stored under its key: of several choices with one key, the last wins |
| ChoiceMerge.StoresLastSnoc | completions.py:518 | storing one more choice under its key keeps every earlier choice that is still the last with its key |
| ChoiceMerge.MergedKeys | completions.py:518-521 | after the default goes in, the keys are distinct and are exactly the keys of the choices and of the default |
| ChoiceMerge.MergedValues | completions.py:518-521 | after the default goes in, every pair is a choice or the default under its own key; the default is stored under its key; every choice that is last with its key is stored, unless the default took that key |
| ChoiceMerge.SortedValues | completions.py:518-522 | the sorted pairs hold the same values as the merge |
| ChoiceMerge.SortedChoices | completions.py:522 | sorting succeeds iff the merge succeeds and its keys are all of one kind (else `TypeError`), and it keeps every pair |
| ChoiceMerge.SortedChoicesOnePerKey | completions.py:518-522 | the sorted pairs have one pair per key, keys strictly increasing, and the keys are exactly those of the choices and of the default |
| ChoiceMerge.DefaultIncluded | completions.py:519-522 | the default is always among the sorted pairs, under its own key |
| ChoiceMerge.SortedChoicesOneRank | completions.py:522 | a sort that succeeds saw keys of one kind only |
| ChoiceMerge.ItemOf | completions.py:510-516 | a completion item is kept; a value becomes an item showing `str(value)`; `None` fails the assertion |
| ChoiceMerge.Items | completions.py:522 | the items succeed iff every pair does, and they are the items of the pairs in order |
| ChoiceMerge.BoolDefaultMarked | completions.py:492-496 | a `bool` option offers two items, triggered "true" and "false" in that order, with word completions inhibited and reordering allowed; the "true" item is marked "Default value" exactly when the default is `True`, the "false" item exactly when it is `False` |
| ChoiceMerge.StringBranch | completions.py:498-527 | where a string is expected, a non-`bool` option with choices or a default offers exactly its merged items, with both inhibit flags |
| ChoiceMerge.NothingElsewhere | completions.py:529 | where neither a boolean nor a string is expected, nothing is offered |
| ChoiceMerge.IntOptionFailsAsWritten | completions.py:501-504 | as written, an `int` option with an integer default always fails with `AssertionError` |
| ChoiceMerge.NicenessFailsAsWritten | completions.py:276 | the catalogue's `niceness` option (choices 0 to 20, default 10) gets no value completions as written |
| ChoiceMerge.IntOptionSortedWhenCorrected | completions.py:518-522 | with the intended key, an `int` option with integer choices and default has one pair per distinct value, in strictly increasing numeric order, each pairing an integer with its own choice, and the keys are exactly the default and the choices' values |
| ChoiceMerge.IntOptionCompletesWhenCorrected | completions.py:518-527 | with the intended key, each of those pairs becomes an item whose trigger spells its integer in decimal |
| ChoiceMerge.ItemsOfIntegers | completions.py:510-516 | integer pairs become items whose triggers spell the integers in decimal |
| ChoiceMerge.FilledTriggers | completions.py:524-526 | `fill`, applied to each item against its own trigger, leaves every trigger alone |
| ChoiceMerge.StrKeyOfSome | completions.py:501-508 | among string choices, those keyed to a string are exactly the choices of that string |
| ChoiceMerge.MergedStrings | completions.py:518-521 | an option whose choices and default are strings merges, under either key, into pairs of a string and its own choice |
| ChoiceMerge.SortedStrings | completions.py:518-522 | sorting them succeeds and keeps only such pairs |
| ChoiceMerge.StrKeysOfSorted | completions.py:518-522 | the sorted keys are exactly the default's string and the choices' strings |
| ChoiceMerge.StrOptionSorted | completions.py:518-522 | a string option has one sorted pair per distinct string among its choices and default, in strictly increasing string order, each pairing a string with its own choice |
| ChoiceMerge.StrOptionCompletes | completions.py:518-527 | each of those pairs becomes an item whose trigger is its string, so a string option offers its distinct choices and default in sorted order |
| Queries.EmptyPrefixMatchesAllowed | completions.py:559 | the empty-prefix test is subsumed by the prefix test: every name starts with "" |
| Queries.NameLeTotalPreorder | completions.py:563 | ordering options by name is total and transitive |
| Queries.OptionItem | completions.py:565 | an option's item has its name as trigger, the name followed by a space as completion, the variable kind and the "More" link; it is marked "Deprecated" exactly when the option is deprecated |
| Queries.DirNameEmptyIff | completions.py:396-397 | `os.path.dirname` is empty exactly when the path has no '/', and it is a prefix of the path |
| Queries.DirNameExamples | completions.py:396 | `dirname` of "a/b" is "a", of "a//b" is "a", of "/b" and of "//b" is the slashes, and of "b" is "" |
| Queries.GetIncludeDirs | completions.py:383-400 | the loop computes "mine" and the other directories as `MineOf` and `OthersOf` specify |
| Queries.MineEmptyOffCursor | completions.py:386-394 | with no include on the cursor's line, "mine" is empty |
| Queries.MineIsLastOnCursor | completions.py:393-394 | "mine" is the stripped path of the last include on the cursor's line |
| Queries.OthersNonEmpty | completions.py:396-398 | no other directory is empty |
| Queries.OtherSource | completions.py:395-398 | each other directory is the directory part of an include off the cursor's line whose path has a '/' |
| Queries.OtherCovered | completions.py:395-398 | each include off the cursor's line whose path has a '/' contributes its directory part |
| Queries.Partition | completions.py:408-421 | the listing loop splits the names by kind, in listing order, dropping unreadable entries |
| Queries.AppendGroup | completions.py:427-432 | each appending loop appends exactly one item per name of the group, in order, with the group's completion suffix and kind |
| Queries.FilesystemCompletions | completions.py:402-434 | no listing gives no completions; a listing gives the sorted directories, files and others laid out by `FsItems` |
| Queries.StrLeTotalPreorder | completions.py:422-424 | the order on names is total and transitive |
| Queries.NamesOfKindCount | completions.py:411-421 | every readable entry falls in exactly one of the three groups |
| Queries.NamesOfKindMembers | completions.py:411-421 | a name is in a group exactly when an entry of that name has that kind |
| Queries.GroupSortedAndComplete | completions.py:422-424 | each group is sorted and holds exactly the names of its kind |
| Queries.LayoutFacts | completions.py:426-432 | the items' triggers are the directories, then the files, then the others; directories complete with a trailing '/' as namespaces, files as functions, others as ambiguous |
| Queries.FsItemsCount | completions.py:402-434 | there is one completion per readable entry |
| Queries.FsItemsOrder | completions.py:422-432 | the completions list the sorted directories with a trailing '/', then the sorted files, then the sorted others |
| Queries.ModuleOfLine | completions.py:460-464 | a line gives at most one module name, and it is a whitespace-free word |
| Queries.ListedLines | completions.py:453 | the lines read contain no line break |
| Queries.ModuleNames | completions.py:459-464 | every module name found is a whitespace-free word |
| Queries.ListedLinesDropLast | completions.py:451-453 | the output's last line, kdesrc-build's closing message, is never read |
| Queries.ModuleOfWords | completions.py:455-461 | a line of two or more words, with or without a leading space, gives its second word |
| Queries.ShortLineSkipped | completions.py:460-464 | a line of one word gives no module (the `IndexError` is swallowed) |
| Queries.ListingBranchLine | completions.py:455-456 | " ── gammaray : master" gives "gammaray" |
| Queries.ListingPlainLine | completions.py:457-458 | " ── knotes" gives "knotes" |
| Plugin.PluginState.constructor | completions.py:225-335 | the registry and the module set start empty |
| Plugin.PluginState.EnsureRegistry | completions.py:229-327 | on an empty registry, the loop builds exactly `BuiltRegistry` and prints `BuildWarnings`; on a non-empty one, nothing changes and nothing is printed |
| Plugin.PluginState.Registry | completions.py:330-332 | the registry, built if need be, with each descriptor under its own name |
| Plugin.PluginState.GetOptionDescriptor | completions.py:337-342 | a known name gives its descriptor, an unknown one the fallback "Unknown option" descriptor; the registry knows exactly the catalogue's names |
| Plugin.PluginState.QueryModules | completions.py:441-466 | a non-empty module set is left alone; a run whose `check_output` raised `SubprocessError` leaves it empty with the failure message; otherwise it becomes the module names of every line but the last, with the loaded message |
| Plugin.PluginState.CompleteOptionName | completions.py:554-569 | `None` exactly when no option matches; otherwise one item per matching name (and only those), each the item of its registry entry, in name order, with both inhibit flags |
| Plugin.Matching | completions.py:556-560 | the loop over the registry collects exactly one option per matching name (a name whose option passes the prefix test and `may_contain`), each the registry's entry |
| Plugin.CollectStep | completions.py:558-560 | visiting one more key keeps the loop's invariant, appending its option exactly when it matches |
| Plugin.OfferedItems | completions.py:562-567 | the sorted items of the matching options: one per matching name, each the item of its entry, in name order |
| Plugin.OfferedNames | completions.py:563-567 | sorting the options keeps the set of names their items offer |
| Plugin.OfferedOrder | completions.py:563 | options sorted by name give items in name order |
| Strings.Strip | completions.py:392 | `strip()` leaves no whitespace at either end, is no longer than its input, and leaves whitespace-free text alone |
| Strings.StripCutsSpace | completions.py:392 | `strip()` gives its input with a whitespace-only prefix and a whitespace-only suffix cut off: the result is a slice of the input, and everything outside that slice is whitespace |
| Strings.Split | completions.py:461 | `split()` gives whitespace-free, non-empty words |
| Strings.SplitJoinWords | completions.py:461 | splitting words joined by single spaces gives the words back |
| Strings.SplitLines | completions.py:453 | `splitlines()` gives lines without line breaks |
| Strings.SplitTerminatedLines | completions.py:453 | splitting newline-terminated lines gives the lines back |
| Strings.StrLeTotal | completions.py:563 | any two strings compare under `<=` |
| Strings.StrLeTransitive | completions.py:563 | `<=` on strings is transitive |
| Strings.StrLeAntisymmetric | completions.py:563 | two strings each `<=` the other are equal |
| Strings.ContainsIff | plugins/gen_conf_options.py:35-41 | `pat in text` holds exactly when `pat` occurs at some position of `text` |
| Strings.ReplaceSpaces | completions.py:154 | `replace(' ', '&nbsp;')` leaves no space, and changes nothing in text without one |
| Strings.DecimalRoundTrip | completions.py:115 | reading back the digits `str(n)` prints for a natural `n` gives `n` |
| Strings.IntToDecimalInjective | completions.py:115 | distinct integers print differently |
| Sorting.Sort | completions.py:563 | sorting is a permutation of its input |
| Sorting.SortSorted | completions.py:563 | under a total preorder, the result is sorted |
| Sorting.SortMembers | completions.py:563 | the sorted list has exactly the input's elements |

## Left out

- Editor plumbing is not modelled:
  - selector tests, popups, regions, commands and event listeners;
  - `is_enabled` and `is_applicable`;
  - close_region.py.

  The scope tests `on_query_completions` makes at the cursor are the flags of `ValueCompletions`.
- `on_query_completions`'s routing is not modelled: choosing between option-name completion, value completion and `complete_includes` depends only on editor scopes.
- `complete_includes` is not modelled. It only formats what `get_include_dirs` and `get_filesystem_completions` give (its `sorted(set(others))` included).
- Subprocesses are parameters:
  - `query_modules` receives the text `kdesrc-build` printed, or `None` when `check_output` raises `SubprocessError`;
  - when `kdesrc-build` cannot be started at all, `check_output` raises `FileNotFoundError` (an `OSError`, not a `SubprocessError`), which `query_modules` does not catch; that uncaught exception is not modelled;
  - `default_git_user` and `multiprocessing.cpu_count` are not modelled.
- The filesystem is a parameter. `os.listdir`, `isdir` and `isfile` become a given listing of entries with their kinds; `resolve_path` and `os.path.join` are not modelled.
- `os.path.dirname` is modelled for POSIX paths only.
- The `except IOError: pass` of the listing loop (completions.py:420) is never taken, because `isdir` and `isfile` return `False` rather than raise. The model keeps that branch as the `Unreadable` kind of entry, which no real listing produces; an entry that cannot be inspected falls among the others.
- Foreign libraries are parameters or are left out:
  - JSON text parsing and `sublime.load_resource`: the model starts from the decoded values;
  - `urljoin`, and the serialisation of a notes cell's contents: parameters;
  - BeautifulSoup's traversal: a row is given by the texts of its name and behaviour cells, its name anchor's attributes, and its notes cell with the attributes of that cell's anchors held apart;
  - `html.escape`, `sublime.encode_value` and `command_url`: `render` is modelled as its list of sections, and the "More" link as a value naming the option;
  - the `meinproc5` run and the temporary directory in `main`.
- Python's printing becomes values. The warnings `ensure_registry` prints are returned as `Warning`s, and `Registry` and the other callers drop them. The "Skipping deprecated and removed option" message is not returned.
- The literal catalogue `REGISTRY_LIST` (about 70 entries) and the `LANGUAGES` module are not part of this model. The catalogue is a parameter; only the `niceness` entry is written out, for the finding below.
- Aliasing is not modelled:
  - `choices=MODULES` makes "ignore-modules" offer the live module set; the model takes choices as a fixed list;
  - `ensure_registry` updates the catalogue's descriptor objects in place; the model builds new descriptor values.
- Python dictionaries keep insertion order, modelled as follows:
  - the registry is a `map`, and `Matching` visits its keys in an arbitrary order, which the sort in `complete_option_name` then removes;
  - the value-choice dictionary is a list of pairs in insertion order.
- `parse_options` is a generator. `ParseOptions` models `list(parse_options(soup))`: the laziness is not modelled, and a `KeyError` discards the options gathered before it.
- Only the decoder's hook is modelled, and the type checks of `main` are not.
- `LoadOptions` runs the decoder's hook on the top-level objects only. Python also runs it on nested objects, innermost first, but the dumped records are flat.
- Lib.ObjectHook: a record whose name, anchor or notes is not a string is refused with `TextFieldNotString`. Python would build an `Option` holding the foreign value, which a typed record cannot hold.
- Lib.BitOr: defined on non-negative integers only, the only flag values the scraper produces.
- GenConfOptions.ParseOption: the `assert isinstance(..., Tag)` checks of the HTML tree are not modelled. The tree's shape is given by `Row`.
- Lib.DumpOptions: states only the length of the dump. Its contents are stated by `LoadDumpRoundTrip`.
- Plugin.Matching: requires each registry entry to be stored under its own name, which `registry()` guarantees (`Registry.RegistryNames`).
- Completions.Render: the HTML markup of the popup is not modelled, only its sections.
- Floating point, threads and `sublime.set_timeout_async` are not modelled.

## Findings

| source | as written | input that shows it | evidently intended | confidence | as-written member | corrected member |
|---|---|---|---|---|---|---|
| completions.py:503 | `key` asserts `isinstance(option.type, int)`, but `option.type` is the class `int`, not an integer, so the assertion fails for every integer choice | the `niceness` option (type `int`, default 10, choices 0 to 20) with the cursor where a string is expected: `key(0)` raises `AssertionError` and no value completions appear | `option.type == int` (or `is int`), so integer choices of `int` options key as themselves | not executed | ChoiceMerge.NicenessFailsAsWritten | ChoiceMerge.IntOptionSortedWhenCorrected |
