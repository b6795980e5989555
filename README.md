# Salus yarn auto-fix engine, in Dafny

This project models the yarn audit scanner of Salus, the security scanning
orchestrator, as it finds vulnerable npm packages and tries to fix them:

- **Reading the legacy `yarn audit` output.** Find the box table
  (`┌─…─┐` to `└─…─┘`) in the output. Parse each box into a record,
  with empty-key rows continuing the previous cell. Move the severity
  column into `Severity`/`Title`, take the advisory number from the
  `More info` link, and sort the records by ID.
- **Shaping the findings.** Merge records that share an advisory ID
  (`combine_vulns`). Build the fix feed: one `update` action per
  (package, patched range) pair (`generate_fix_feed`). Choose the
  `--groups` argument of the audit command (`scan_deps`). Copy records
  (`deep_copy_wo_paths`) and format them (`format_vulns`).
- **The auto-fix engine.** It has two copies: the legacy scanner
  (`Salus::Scanners::YarnAudit`) and the standalone autofixer
  (`Salus::Autofixers::YarnAuditV2`).
  - A finding whose advisory path is the package itself is **direct**.
    It is fixed in package.json (`update_direct_dependency`).
  - Every other finding is **indirect**. Its path `A > B > C` is walked
    through the parsed yarn.lock down to the parent entry of `C` and the
    key `C@range` (`create_subparent_to_package_mapping`).
  - Indirect findings are fixed in the yarn.lock text by two passes.
    Pass A (`update_package_definition`) rewrites the child's block.
    Pass B (`update_sub_parent_resolution`) rewrites the parent's
    dependency line and the parsed lockfile.
  - Every rewrite is guarded by `is_major_bump`.
- **The Gemfile.lock version policy** (`RubyPackageScanner`): minimum,
  maximum and blocked versions of a gem.

The two engine copies differ in the following ways. The model shares
one engine and uses a `Dialect` (`V1` for the scanner, `V2` for the
autofixer) to choose between them:

- the path delimiter (`" > "` or `">"`);
- the child key (`C@range` or `C@npm:range`);
- the fallback section for later hops (`optionalDependencies` or
  `peerDependencies`);
- where Pass A reads registry data (under `data` or at the top level);
- Pass B's guard (`include?(target)` or a non-nil match);
- what a refused range does (V1 reports it, V2 raises `AutofixError`).

Ruby behaviour is modelled explicitly:

- **Exceptions.** `NoMethodError` on nil, `Integer > nil` in
  `is_major_bump`, `ArgumentError` from `<=>` across kinds and
  `AutofixError` are `Err(Fault)` values (module `Wrappers`).
- **`split`.** `String#split` drops trailing empty fields.
- **Hashes.** Hash iteration order is insertion order: records and the
  parsed lockfile are ordered sequences with distinct keys.
- **`group_by`.** It groups by first occurrence (module `Grouping`).
- **`to_i`.** It reads the numeral after optional blanks and a sign:
  digits, with a single `_` allowed between two digits (`"1_0"` gives
  10). With no numeral it gives 0.
- **`sub!`.** It replaces the first match only. The replacement text is
  inserted as it is (see "## Left out" for backslashes).
- **Discarded results.** In `is_major_bump`, the results of
  `gsub`/`sub` are discarded, so the comparison is on the raw strings.
  The results of `blocks.uniq {…}` are discarded too, so no
  de-duplication happens.

Code this model does not contain is passed in as parameters, the fields
of `Registry.Env`:

- the package registry behind `get_package_info` (`yarn info` /
  `yarn npm info`, nil on failure);
- `Salus::SemanticVersion.select_upgrade_version`;
- the `SEMVER_RANGE_REGEX` test;
- `Salus::YarnLockfileFormatter#format`.

Gem versions are sequences of naturals. They are compared as
`Gem::Version` compares them: on their canonical segments, with trailing
zeros dropped, so `1.0` and `1.0.0` are the same version.

The state the Ruby code updates in place is modelled as Dafny classes and
arrays:

| Ruby state | Dafny |
|---|---|
| the scanner's `@parsed_yarn_lock`, `@packages` and reported errors | `YarnAudit.YarnAuditScanner` |
| the autofixer's written manifest | `YarnAuditV2.YarnAuditV2` |
| the package.json hash | `Manifest.PackageJson` |
| the gem validator | `PackageVersion.RubyPackageScanner` |
| the `parts` array rewritten by `sub!` | a Dafny `array<string>` |

Each method is proved equal to a specification function. The
properties are proved as lemmas about those functions.

## Model

Paths are relative to the repository root.

| member | source | states |
|---|---|---|
| AuditTable.FirstTop | lib/salus/scanners/yarn_audit.rb:103 | the index found is the first line at or after `k` that is a top border; none means no line from `k` on is one |
| AuditTable.LastBottom | lib/salus/scanners/yarn_audit.rb:104 | the index found is the last bottom border before `n`; none means there is none |
| AuditTable.TableLinesBounds | lib/salus/scanners/yarn_audit.rb:102-113 | a table slice exists iff the output has both a top and a bottom border; a non-empty slice is a contiguous run of the output lines that starts at the first top border and ends at the last bottom border |
| AuditTable.AddOnce | lib/salus/scanners/yarn_audit.rb:360 | `Set#add`: a record equal to one already present (same keys, same values) leaves the set unchanged, any other is appended |
| AuditTable.AddOnceKeepsDistinct | lib/salus/scanners/yarn_audit.rb:360 | adding to a set of pairwise unequal records keeps them pairwise unequal |
| AuditTable.ParseLinesKeepsSetDistinct | lib/salus/scanners/yarn_audit.rb:343-363 | the whole scan never puts two equal records in the set |
| AuditTable.FirstSeverity | lib/salus/scanners/yarn_audit.rb:408-417 | the level found is the first of info, low, moderate, high, critical (from `k` on) present in the record; none means none is present |
| AuditTable.RowIsNotBorder | lib/salus/scanners/yarn_audit.rb:347-359 | a `│ ` row is neither a top nor a bottom border, so the three branches never overlap |
| AuditTable.RowsKeepRecordOpen | lib/salus/scanners/yarn_audit.rb:349-358 | rows keep a record open and add nothing to the set |
| AuditTable.TopLine | lib/salus/scanners/yarn_audit.rb:347-348 | a top border starts a fresh empty record and keeps the set |
| AuditTable.BottomLine | lib/salus/scanners/yarn_audit.rb:359-360 | a bottom border adds the open record to the set |
| AuditTable.OneRecordPerTable | lib/salus/scanners/yarn_audit.rb:346-363 | a top border, rows and a bottom border add exactly the record the rows build, or fail exactly as the rows fail |
| AuditTable.RowEffect | lib/salus/scanners/yarn_audit.rb:350-358 | a row with key `k` sets `k` to the stripped value and remembers `k`, leaving other keys alone; a row with an empty key appends `" " + value` to the remembered key, and raises iff there is no remembered key or its value is missing |
| AuditTable.ParseOutputSorted | lib/salus/scanners/yarn_audit.rb:365-366 | `parse_output` succeeds iff the scan succeeds and every record normalises; its result is sorted by ID and is a permutation of the normalised records |
| AuditTable.MoveSeverityEffect | lib/salus/scanners/yarn_audit.rb:410-417 | with a severity column present, that column is removed, `Title` takes its value, `Severity` its name, every other key is unchanged; with none, nothing changes |
| AuditTable.NormalizedMeaning | lib/salus/scanners/yarn_audit.rb:407-423 | normalising succeeds iff `More info` is a string; `ID` becomes the advisory number of that link and keys other than ID, Severity, Title and the severity levels are kept |
| AuditTable.NormalizedSeverity | lib/salus/scanners/yarn_audit.rb:410-416 | after normalising, `Severity`/`Title` come from the first present level, that level is gone and the later levels are kept |
| AuditTable.AdvisoryIdOfLink | lib/salus/scanners/yarn_audit.rb:421-422 | for `…/advisories/<n><rest>`, where the rest does not continue the numeral, the ID is `n` |
| AuditTable.AdvisoryIdWithoutLink | lib/salus/scanners/yarn_audit.rb:421-422 | without the advisory link the ID is 0 (`nil.to_i`) |
| AuditTable.NormalizeVuln | lib/salus/scanners/yarn_audit.rb:407-423 | the severity loop with its `break` computes the normalised record, or the `nil.split` fault |
| AuditTable.ScanLines | lib/salus/scanners/yarn_audit.rb:342-363 | the `while i < lines.size` loop computes the scan's final state and set, or its fault |
| AuditTable.NormalizeAll | lib/salus/scanners/yarn_audit.rb:366 | `each { normalize_vuln }` normalises every record in order, stopping at the first fault |
| AuditTable.ParseOutput | lib/salus/scanners/yarn_audit.rb:342-367 | computes the sorted, normalised records of the table |
| AuditCommand.ExcludingOptionalAuditsEverything | lib/salus/scanners/yarn_audit.rb:383-386 | excluding only `optionalDependencies` returns nil, so the command is `yarn audit --no-color ` with no `--groups`; the intended argument lists dependencies and devDependencies |
| AuditCommand.AsWrittenDiffersOnlyOnOptional | lib/salus/scanners/yarn_audit.rb:369-387 | the code as written and the intended code report the same notices and differ in their argument exactly when the exclusions are non-empty, include `optionalDependencies` and are not all three groups |
| AuditCommand.IntendedListsIncludedGroups | lib/salus/scanners/yarn_audit.rb:383-386 | the corrected argument is ` --groups ` followed by exactly the groups not excluded, and at least one group is listed |
| AuditCommand.OnlyOptionalWarning | lib/salus/scanners/yarn_audit.rb:374-381 | the misconfiguration warning is given iff only `optionalDependencies` remains; the "nothing scanned" error iff every group is excluded |
| AuditCommand.GroupsArgument | lib/salus/scanners/yarn_audit.rb:383-386 | the `<<` chain: nil when `optionalDependencies` is excluded, otherwise ` --groups ` and the included groups |
| AuditCommand.ScanDeps | lib/salus/scanners/yarn_audit.rb:369-387 | computes the argument and the notices of `scan_deps` as written |
| VulnReport.ValueOrderIsTotal | lib/salus/scanners/yarn_audit.rb:440 | the order `sort` uses on `Dependency of` values is total and antisymmetric |
| VulnReport.SortValuesMeaning | lib/salus/scanners/yarn_audit.rb:440 | sorting succeeds iff all values are of one kind; the result is sorted, a permutation of the input, and the only such list |
| VulnReport.CombinedOneRecordPerId | lib/salus/scanners/yarn_audit.rb:425-443 | one output record per distinct ID, IDs pairwise different, in first-seen order, and every input ID is covered |
| VulnReport.CombinedAt | lib/salus/scanners/yarn_audit.rb:428-441 | the k-th output record is the first record with the k-th ID, whose `Dependency of` is the sorted values of that ID joined with `", "` |
| VulnReport.CombinedRecord | lib/salus/scanners/yarn_audit.rb:428-441 | other keys come from the first record with that ID; the joined list holds one value per record with that ID, duplicates kept |
| VulnReport.CombinedFails | lib/salus/scanners/yarn_audit.rb:440 | `combine_vulns` raises iff some ID's values mix kinds (nil, Integer, String) |
| VulnReport.GroupById | lib/salus/scanners/yarn_audit.rb:426-436 | the first loop groups the records by ID, in first-seen order |
| VulnReport.CombineVulns | lib/salus/scanners/yarn_audit.rb:425-443 | computes the combined records or the sort fault |
| VulnReport.FixFeedAction | lib/salus/scanners/yarn_audit.rb:139-163 | the k-th action is an `update` of the k-th distinct (Package, Patched in) pair, with one resolve per record of that pair, in record order, none dev, optional or bundled |
| VulnReport.ActionMeaning | lib/salus/scanners/yarn_audit.rb:145-161 | an action carries its group's package and patched range and one resolve per record |
| VulnReport.FixFeedPairsDistinct | lib/salus/scanners/yarn_audit.rb:141 | the actions' pairs are pairwise distinct |
| VulnReport.FixFeedCovers | lib/salus/scanners/yarn_audit.rb:141-157 | every record appears as a resolve of the action for its pair |
| VulnReport.ResolvesOf | lib/salus/scanners/yarn_audit.rb:146-155 | the `values.each` loop builds one resolve per record |
| VulnReport.GenerateFixFeed | lib/salus/scanners/yarn_audit.rb:139-163 | computes the fix feed |
| VulnReport.CopyIsSameRecord | lib/salus/scanners/yarn_audit.rb:511-512 | copying a record key by key gives back the same record |
| VulnReport.DeepCopyWoPaths | lib/salus/scanners/yarn_audit.rb:508-516 | one copy per record, in order |
| VulnReport.FormatTextConcat | lib/salus/scanners/yarn_audit.rb:528-537 | formatting a concatenation is the concatenation of the formatted parts |
| VulnReport.AppendRecord | lib/salus/scanners/yarn_audit.rb:531-533 | appends `k: v\n` for every field in order |
| VulnReport.FormatVulns | lib/salus/scanners/yarn_audit.rb:528-537 | computes the text of every record, each followed by a blank line |
| FixFeed.CollectSubparentMappings | lib/salus/scanners/yarn_audit.rb:193-208 | the nested loop collects exactly the mappings of the indirect findings |
| FixFeed.CollectFromAction | lib/salus/scanners/yarn_audit.rb:196-207 | one action's resolves add their mappings after those found so far |
| FixFeed.PushMapping | lib/salus/scanners/yarn_audit.rb:200-205 | one resolve adds its mapping only when the target is usable, the path differs from the module and the walk finds a key |
| FixFeed.CollectFromResolvesSound | lib/salus/scanners/yarn_audit.rb:199-207 | every collected mapping comes from a resolve of the action that passes the guard |
| FixFeed.CollectFromResolvesComplete | lib/salus/scanners/yarn_audit.rb:199-207 | every resolve that passes the guard and resolves contributes its mapping with the action's target |
| FixFeed.CollectMappingsExact | lib/salus/scanners/yarn_audit.rb:195-208 | over the whole feed: the mappings are exactly those of guarded resolves whose path resolves |
| FixFeed.NoIndirectResolveCollectsNothing | lib/salus/scanners/yarn_audit.rb:200 | an action without indirect resolves adds nothing |
| FixFeed.NoIndirectFindingNoMappings | lib/salus/scanners/yarn_audit.rb:195-208 | a feed without indirect findings collects nothing |
| FixFeed.GroupsDistinctCover | lib/salus/scanners/yarn_audit.rb:219 | `group_by [prev, key]` gives pairwise different pairs, one for every mapping, each taken from a mapping |
| FixFeed.GroupsDistinct | lib/salus/scanners/yarn_audit.rb:219 | no two groups have the same (prev, key) |
| FixFeed.GroupsCover | lib/salus/scanners/yarn_audit.rb:219 | every mapping's pair has a group |
| FixFeed.GroupsFrom | lib/salus/scanners/yarn_audit.rb:219 | every group is a mapping of the input |
| FixFeed.GroupsShape | lib/salus/scanners/yarn_audit.rb:218-219 | the groups are the first mapping of each pair, in order of first occurrence, so the discarded `uniq` changes nothing |
| Grouping.FirstIndex | lib/salus/scanners/yarn_audit.rb:141 | the position of the first occurrence of a key; none iff absent |
| Grouping.FirstSeen | lib/salus/scanners/yarn_audit.rb:141 | the group keys are exactly the keys that occur |
| Grouping.GroupsFor | lib/salus/scanners/yarn_audit.rb:141 | one group per distinct key |
| Grouping.FirstSeenDistinct | lib/salus/scanners/yarn_audit.rb:141 | group keys are pairwise distinct |
| Grouping.FirstSeenOrder | lib/salus/scanners/yarn_audit.rb:141 | group keys are in order of first occurrence |
| Grouping.SelectCount | lib/salus/scanners/yarn_audit.rb:141 | a group holds one element per occurrence of its key |
| Grouping.SelectHas | lib/salus/scanners/yarn_audit.rb:141 | every element is in its key's group |
| Grouping.FirstSeenMember | lib/salus/scanners/yarn_audit.rb:141 | a key is a group key iff it occurs |
| Ordering.StringOrder | lib/salus/scanners/yarn_audit.rb:440 | `String#<=>` is a total, antisymmetric order |
| Ordering.SortPermutes | lib/salus/scanners/yarn_audit.rb:366 | sorting permutes its input |
| Ordering.SortSorted | lib/salus/scanners/yarn_audit.rb:366 | under a total preorder the result is sorted |
| Ordering.SortedUnique | lib/salus/scanners/yarn_audit.rb:440 | two sorted permutations under an antisymmetric order are equal, so for the sort of the `Dependency of` strings the sorting algorithm does not matter |
| Records.Get | lib/salus/scanners/yarn_audit.rb:411 | `hash[k]` is present iff some entry has key `k` |
| Records.PutGet | lib/salus/scanners/yarn_audit.rb:354 | after `hash[k] = v`, `k` reads `v` and every other key reads as before |
| Records.DeleteGet | lib/salus/scanners/yarn_audit.rb:414 | after `delete(k)`, `k` is absent and every other key reads as before |
| Records.PutKeepsDistinct | lib/salus/scanners/yarn_audit.rb:354 | assignment keeps keys distinct, replacing an existing key in place and appending a new one |
| RubyStrings.DropTrailingEmpty | lib/salus/scanners/yarn_audit.rb:102 | `split` keeps a prefix of the raw fields that does not end in an empty one, dropping only empty fields |
| RubyStrings.JoinRawSplit | lib/salus/scanners/yarn_audit.rb:520 | joining the raw fields with the delimiter gives the string back |
| RubyStrings.JoinRawBlocks | lib/salus/scanners/yarn_audit.rb:209 | joining the raw `split(/^\n/)` blocks with `"\n"` gives the yarn.lock text back |
| RubyStrings.BlocksRoundTrip | lib/salus/scanners/yarn_audit.rb:209-213 | when the last block is not empty, `parts.join("\n")` of the untouched blocks is the original text |
| RubyStrings.ToIOfDecimal | lib/salus/scanners/yarn_audit.rb:520 | `to_i` of a decimal followed by text that does not continue the numeral (neither a digit nor `_` and a digit) is its value |
| RubyStrings.NumeralSkipsUnderscore | lib/salus/scanners/yarn_audit.rb:520 | `to_i` drops a single `_` between two digits and reads on |
| RubyStrings.ToIUnderscoreSkipped | lib/salus/scanners/yarn_audit.rb:520 | `"1_0".to_i` is 10 |
| RubyStrings.ToIUnderscoreEnds | lib/salus/scanners/yarn_audit.rb:520 | a double `_`, or a `_` with no digit after it, ends the numeral: `"1__0"` gives 1 and `"7_"` gives 7 |
| RubyStrings.ToIOfNonNumeric | lib/salus/scanners/yarn_audit.rb:520 | `to_i` of a string starting with anything but a blank, digit or sign is 0 |
| RubyStrings.DeleteChars | lib/salus/scanners/yarn_audit.rb:242 | `tr(chars, "")` leaves none of those characters |
| RubyStrings.MatchToEol | lib/salus/scanners/yarn_audit.rb:241 | `/(lit .*)/` matches at an occurrence of the literal and runs to the end of its line |
| RubyStrings.SubToEolLine | lib/salus/scanners/yarn_audit.rb:247 | `sub!` replaces the first match, from the literal to the end of that line, and keeps the text before and after |
| RubyStrings.IndexFrom | lib/salus/scanners/yarn_audit.rb:243 | the first occurrence at or after `k`; none iff there is none |
| RubyStrings.AwkFirstOfWord | lib/salus/scanners/yarn_audit.rb:284 | `split(" ").first` of `word + " " + rest` is the word |
| Traversal.MapEachMeaning | lib/salus/scanners/yarn_audit.rb:240-251 | a loop over the blocks succeeds iff every step does, and then yields the steps' results in order |
| Lockfile.IndexOfKey | lib/salus/scanners/yarn_audit.rb:289 | the position of the entry with that key; none iff absent |
| Lockfile.SetDependency | lib/salus/scanners/yarn_audit.rb:289-291 | succeeds iff the source entry has a `dependencies` section; then only that section's `target` changes, to the value given |
| Registry.DataVersions | lib/salus/scanners/yarn_audit.rb:223 | `info["data"]["versions"]` raises iff the query failed or there is no `data` |
| Registry.TopVersions | lib/salus/autofixers/yarn_audit_v2.rb:71 | `info["versions"]` raises iff the query failed |
| Registry.DigDataVersions | lib/salus/scanners/yarn_audit.rb:304 | `dig("data", "versions")` raises iff the query failed, and returns the versions under `data` |
| Registry.DataDist | lib/salus/scanners/yarn_audit.rb:236-238 | the `dist` under `data`, raising iff it is missing |
| Registry.TopDist | lib/salus/autofixers/yarn_audit_v2.rb:84-86 | the top-level `dist`, raising iff it is missing |
| PatchEngine.DistLines | lib/salus/scanners/yarn_audit.rb:236-238 | the resolved and integrity lines are built iff tarball, shasum and integrity are all present; a missing one raises `TypeError` |
| PathResolver.FirstHit | lib/salus/scanners/yarn_audit.rb:461-470 | the first entry, in lockfile order, that passes the hop test; none iff no entry does |
| PathResolver.FirstHopIsFirstMatch | lib/salus/scanners/yarn_audit.rb:460-472 | hop 0 succeeds iff some entry whose key starts with `name@` declares the next package in `dependencies` or the fallback section, and it picks the first such entry |
| PathResolver.FailedHopIsFinal | lib/salus/scanners/yarn_audit.rb:448-456 | after a failed hop (`{}`) every later hop fails |
| PathResolver.WalkResult | lib/salus/scanners/yarn_audit.rb:448-457 | a successful walk ends at an entry that declares the last package and a key naming it |
| PathResolver.ResolvedKeyShape | lib/salus/scanners/yarn_audit.rb:445-458 | a single-name path resolves to nothing; a resolved path gives a parent entry and the key of the last package |
| VersionPolicy.RawFieldsEmptyIff | lib/salus/scanners/yarn_audit.rb:520 | the raw `.`-fields are all empty iff the string is only dots |
| VersionPolicy.SplitDotsShape | lib/salus/scanners/yarn_audit.rb:520 | `split('.')` is empty iff the string is only dots, and otherwise starts with its first piece |
| VersionPolicy.MajorBumpIff | lib/salus/scanners/yarn_audit.rb:518-526 | `is_major_bump` raises iff either string is only dots; otherwise it is true iff `to_i` of the updated first piece exceeds that of the current one |
| VersionPolicy.MajorOfNumeric | lib/salus/scanners/yarn_audit.rb:520 | the major of `n` or `n.rest` is `n` |
| VersionPolicy.MajorOfNonNumeric | lib/salus/scanners/yarn_audit.rb:519-520 | a string starting with `^`, `~` or a letter has major 0, since the stripping `gsub` is discarded |
| VersionPolicy.CaretRangeBlocksUpgrade | lib/salus/scanners/yarn_audit.rb:322 | a caret range against any version with major at least 1 counts as a major bump |
| VersionPolicy.NumericGate | lib/salus/scanners/yarn_audit.rb:518-526 | for numeric versions the answer is `upd > cur` on the majors |
| VersionPolicy.BumpOfMajors | lib/salus/scanners/yarn_audit.rb:518-526 | whenever both majors are defined, the answer is the comparison of the majors |
| PatchEngine.PackageNameOfResolvedKey | lib/salus/scanners/yarn_audit.rb:227-231 | the package name of `next@range` is `next` for an unscoped name and `""` for a scoped one |
| PatchEngine.StepA | lib/salus/scanners/yarn_audit.rb:241-250 | a block without the key is untouched; a block raises iff it has the key and its version text makes `is_major_bump` raise |
| PatchEngine.RewriteBlockA | lib/salus/scanners/yarn_audit.rb:241-250 | the four `sub!` calls on one block |
| PatchEngine.PassARewrite | lib/salus/scanners/yarn_audit.rb:243-249 | a block that passes the gate gets the new name in place of the key and the new version, resolved and integrity lines in place of the old ones; its other text is kept |
| PatchEngine.GroupAEffect | lib/salus/scanners/yarn_audit.rb:220-253 | one group raises when the version list or the `dist` lines raise, keeps the blocks when no version is selected or the registry has no answer, and otherwise maps every block through the gate and rewrite with name `<name>@^v` and line `version "v"` |
| PatchEngine.RewriteBlocksA | lib/salus/scanners/yarn_audit.rb:240-251 | the `each_with_index` loop rewrites the array in place, or stops at the first raise |
| PatchEngine.GroupAOnlyTouchesKeyBlocks | lib/salus/scanners/yarn_audit.rb:220-253 | one group keeps the number of blocks and leaves every block without the child key unchanged |
| PatchEngine.PassAKeepsBlockCount | lib/salus/scanners/yarn_audit.rb:217-256 | Pass A keeps the number of blocks |
| PatchEngine.PassAGate | lib/salus/scanners/yarn_audit.rb:241-245 | a block with `version "<cur>…"` is rewritten iff the selected major is not above `cur` |
| PatchEngine.CurrentVersionOfLine | lib/salus/scanners/yarn_audit.rb:241-242 | the `tr` calls turn `version "1.2.3"` into `1.2.3` |
| PatchEngine.UpdatePackageDefinition | lib/salus/scanners/yarn_audit.rb:217-256 | Pass A over the groups of the mappings rewrites the blocks in place, or reports the first fault |
| PatchEngine.RewriteBlockB | lib/salus/scanners/yarn_audit.rb:280-287 | the guarded `sub!` on one block |
| PatchEngine.RewriteBlocksB | lib/salus/scanners/yarn_audit.rb:279-288 | the loop rewrites the array in place, or stops at the first raise |
| PatchEngine.UpdateSubParentResolution | lib/salus/scanners/yarn_audit.rb:260-295 | Pass B rewrites the blocks in place and returns the updated parsed lockfile, or reports the first fault |
| PatchEngine.StepBRewrites | lib/salus/scanners/yarn_audit.rb:283-286 | a block that passes the guard has its first `<target> …` line replaced by its first word and `"^v"` |
| PatchEngine.CaretRewriteOfLine | lib/salus/scanners/yarn_audit.rb:283-285 | on a line `target rest`, the rewrite gives `target "^v"` and keeps the text before and after, indentation included |
| PatchEngine.TargetLineOfMatch | lib/salus/scanners/yarn_audit.rb:280-285 | the matched line's first word is the target, and the substitution touches that line only |
| PatchEngine.PassBLineRewrite | lib/salus/scanners/yarn_audit.rb:280-286 | a block that passes the guard becomes `pre + target "^v" + post` |
| PatchEngine.TargetLineBump | lib/salus/scanners/yarn_audit.rb:280-282 | the guard compares the whole matched line, whose major is 0, so a version with major at least 1 never passes as "not a bump" |
| PatchEngine.PassBRefusesPastZero | lib/salus/scanners/yarn_audit.rb:280-287 | so Pass B never changes a block when the selected major is at least 1 |
| PatchEngine.PassBDialectsOnUnmatchedBlock | lib/salus/autofixers/yarn_audit_v2.rb:151-153 | a block containing source and target but no `target ` match raises in V1 (`is_major_bump("")`) and is kept in V2 |
| PatchEngine.GroupBEffect | lib/salus/scanners/yarn_audit.rb:263-292 | one group keeps the number of blocks, leaves blocks without the parent key unchanged, and sets the parent's `dependencies[target]` to `"^v"` whenever a version is selected |
| PatchEngine.GroupBLockWithoutRewrite | lib/salus/scanners/yarn_audit.rb:276-291 | with a selected major of at least 1 no block changes, yet the parsed lockfile is still updated |
| PatchEngine.PassBKeepsBlocksPastZero | lib/salus/scanners/yarn_audit.rb:279-288 | the loop over blocks then returns them unchanged |
| Manifest.BumpSectionStep | lib/salus/scanners/yarn_audit.rb:320-325 | one section raises iff its listed range makes `is_major_bump` raise; otherwise only that entry changes, to `Bumped` |
| Manifest.BumpSectionsRaises | lib/salus/scanners/yarn_audit.rb:319-326 | the section loop raises iff some visited section lists a range that raises |
| Manifest.BumpSectionsKeeps | lib/salus/scanners/yarn_audit.rb:319-326 | sections not visited, and every other package, are unchanged |
| Manifest.BumpSectionsListed | lib/salus/scanners/yarn_audit.rb:319-326 | every visited section's entry for the package becomes `"^v"` iff it is listed and not a major bump |
| Manifest.BumpSectionsEffect | lib/salus/scanners/yarn_audit.rb:319-326 | the raise condition and the whole new manifest together |
| Manifest.DirectUpdateEffect | lib/salus/scanners/yarn_audit.rb:297-328 | a refused range or missing versions leaves the manifest unchanged with the message; otherwise only the package's direct-section entries can change, each to `"^v"` for the selected version, and only when not a major bump |
| Manifest.IndirectResolvesChangeNothing | lib/salus/scanners/yarn_audit.rb:182-186 | resolves that are not direct findings leave the state unchanged |
| Manifest.DirectPhaseNeedsDirectFinding | lib/salus/scanners/yarn_audit.rb:178-187 | a feed without direct findings leaves package.json unchanged |
| Manifest.DialectsAgreeOnResolves | lib/salus/autofixers/yarn_audit_v2.rb:29-33 | V2 never records a message; when V1 records none, both copies compute the same result, and whenever V2 succeeds V1 agrees |
| Manifest.ReportsOnlyGrow | lib/salus/scanners/yarn_audit.rb:182-186 | messages are only appended |
| Manifest.DirectPhaseDialects | lib/salus/autofixers/yarn_audit_v2.rb:23-36 | the same agreement between the two copies over the whole feed |
| Manifest.ReportsOnlyGrowPhase | lib/salus/scanners/yarn_audit.rb:178-187 | messages are only appended over the whole feed |
| Manifest.PackageJson.constructor | lib/salus/scanners/yarn_audit.rb:177 | holds the parsed sections |
| Manifest.PackageJson.BumpDirectSections | lib/salus/scanners/yarn_audit.rb:319-326 | the section loop updates the manifest in place, or reports the raise |
| Manifest.PackageJson.UpdateDirectDependency | lib/salus/scanners/yarn_audit.rb:297-328 | returns the refusal message with the manifest unchanged, or updates the manifest, or reports the raise |
| Manifest.PackageJson.ApplyDirectFixes | lib/salus/scanners/yarn_audit.rb:178-187 | the nested loop leaves the manifest and messages of the direct phase, or reports the raise |
| YarnAudit.IndirectFixWithoutIndirectFindings | lib/salus/scanners/yarn_audit.rb:191-214 | without indirect findings the lockfile written is the joined blocks, which is the original text when it does not end in a blank line |
| YarnAudit.IndirectFixWithoutMappings | lib/salus/scanners/yarn_audit.rb:209-213 | if no path resolves, both passes leave the blocks alone |
| YarnAudit.AutoFixWithoutUsableTargets | lib/salus/scanners/yarn_audit.rb:183 | a feed with no usable target writes the unchanged blocks and package.json and reports nothing |
| YarnAudit.AutoFixOrder | lib/salus/scanners/yarn_audit.rb:169-174 | indirect fixing runs first: if it raises, no file is written and the rescued exception is the only report the model records; otherwise the lockfile is written; package.json is written iff both phases complete |
| YarnAudit.YarnAuditScanner.FixIndirectDependency | lib/salus/scanners/yarn_audit.rb:191-214 | sets the parsed lockfile and yarn-autofixed.lock from the two passes, or reports the fault with nothing written |
| YarnAudit.YarnAuditScanner.FixDirectDependency | lib/salus/scanners/yarn_audit.rb:176-189 | sets `@packages` and package-autofixed.json from the direct phase and appends its refusals |
| YarnAudit.YarnAuditScanner.RunAutoFix | lib/salus/scanners/yarn_audit.rb:169-174 | the files written and the errors reported are those of `AutoFix` |
| YarnAuditV2.AutoFixV2AgreesWithLegacy | lib/salus/autofixers/yarn_audit_v2.rb:14-17 | when the legacy indirect phase succeeds, V2 succeeds iff the legacy direct phase completes without refusals, with the same package.json |
| YarnAuditV2.RefusalRaises | lib/salus/autofixers/yarn_audit_v2.rb:217-228 | a refused direct fix raises `AutofixError` with its message in V2, and is reported and skipped in V1 |
| YarnAuditV2.YarnAuditV2.constructor | lib/salus/autofixers/yarn_audit_v2.rb:6-8 | keeps the repository path |
| YarnAuditV2.YarnAuditV2.FixIndirectDependency | lib/salus/autofixers/yarn_audit_v2.rb:38-62 | only collects the mappings, each from a guarded resolve; nothing is rewritten |
| YarnAuditV2.YarnAuditV2.FixDirectDependency | lib/salus/autofixers/yarn_audit_v2.rb:23-36 | writes the manifest of the V2 direct phase, or raises with nothing written |
| YarnAuditV2.YarnAuditV2.RunAutoFix | lib/salus/autofixers/yarn_audit_v2.rb:14-17 | the outcome is the direct phase's: no rescue |
| PackageVersion.CanonShape | lib/salus/scanners/package_version/ruby_package_version_scanner.rb:17 | the canonical segments are a prefix of the version ending in a non-zero segment, and only zeros are dropped |
| PackageVersion.PaddingIgnored | lib/salus/scanners/package_version/ruby_package_version_scanner.rb:49 | trailing zero segments do not change a version: `1.0` is the same version as `1.0.0` |
| PackageVersion.LessIrreflexive | lib/salus/scanners/package_version/ruby_package_version_scanner.rb:32 | no version is below itself |
| PackageVersion.LessTransitive | lib/salus/scanners/package_version/ruby_package_version_scanner.rb:32 | the version order is transitive |
| PackageVersion.LessTrichotomy | lib/salus/scanners/package_version/ruby_package_version_scanner.rb:40 | two versions are the same or exactly one is below the other; the same versions are below neither way |
| PackageVersion.DependencyMapLastWins | lib/salus/scanners/package_version/ruby_package_version_scanner.rb:57-64 | a gem is in the map iff some spec names it, and it maps to the version of the last spec naming it |
| PackageVersion.MinViolations | lib/salus/scanners/package_version/ruby_package_version_scanner.rb:31-37 | one "below minimum" report iff a minimum is given and the version is below it |
| PackageVersion.MaxViolations | lib/salus/scanners/package_version/ruby_package_version_scanner.rb:39-45 | one "above maximum" report iff a maximum is given and the version is above it |
| PackageVersion.BlockedViolations | lib/salus/scanners/package_version/ruby_package_version_scanner.rb:47-55 | one "matches blocked" report per blocked entry that is the same version (equal canonical segments), naming that entry |
| PackageVersion.ReportsAboutThePackage | lib/salus/scanners/package_version/ruby_package_version_scanner.rb:15 | a gem not in the lockfile gets no report; every report names the gem and its lockfile version |
| PackageVersion.MinReportIff | lib/salus/scanners/package_version/ruby_package_version_scanner.rb:20 | a "below minimum" report appears iff the gem is present, a minimum is given and its version is below it |
| PackageVersion.MaxReportIff | lib/salus/scanners/package_version/ruby_package_version_scanner.rb:21 | a "above maximum" report appears iff the gem is present, a maximum is given and its version is above it |
| PackageVersion.ReportOrder | lib/salus/scanners/package_version/ruby_package_version_scanner.rb:19-25 | reports come in the order min, max, blocked |
| PackageVersion.BlockedReportCount | lib/salus/scanners/package_version/ruby_package_version_scanner.rb:22-24 | the number of reports is the min and max reports plus one per matching blocked entry, and those come last |
| PackageVersion.MinMaxExclusive | lib/salus/scanners/package_version/ruby_package_version_scanner.rb:20-21 | with max not below min, one version is never both below min and above max |
| PackageVersion.SeveralReports | lib/salus/scanners/package_version/ruby_package_version_scanner.rb:19-25 | one version can draw four reports: below min, above max, and a blocked entry written as `5` and again as `5.0` |
| PackageVersion.GenerateDependencyHash | lib/salus/scanners/package_version/ruby_package_version_scanner.rb:57-64 | the loop builds the map of the specs |
| PackageVersion.RubyPackageScanner.constructor | lib/salus/scanners/package_version/ruby_package_version_scanner.rb:5-8 | dependencies are the spec map when a Gemfile.lock is present, else empty; no reports |
| PackageVersion.RubyPackageScanner.CheckForViolations | lib/salus/scanners/package_version/ruby_package_version_scanner.rb:14-27 | appends exactly the reports of `Violations`, dependencies unchanged |
| PackageVersion.RubyPackageScanner.CheckMinVersion | lib/salus/scanners/package_version/ruby_package_version_scanner.rb:31-37 | appends the minimum report, if any |
| PackageVersion.RubyPackageScanner.CheckMaxVersion | lib/salus/scanners/package_version/ruby_package_version_scanner.rb:39-45 | appends the maximum report, if any |
| PackageVersion.RubyPackageScanner.CheckBlockedVersions | lib/salus/scanners/package_version/ruby_package_version_scanner.rb:47-55 | appends one report per matching blocked entry |

## Left out

- Shell commands, JSON and files are not modelled. This covers `run`,
  `version`, `handle_latest_yarn_audit`, the command execution in
  `handle_legacy_yarn_audit`, `get_package_info`'s shell call,
  `write_auto_fix_files`, `JSON.pretty_generate`/`JSON.dump`,
  `Dir.chdir` and `Salus::YarnLock#add_line_number`. The registry is a
  parameter; a written file is a field holding its content.
- Reporting (`report_error`, `report_warn`, `report_*`, `log`, `puts`)
  is not modelled, except for the errors of the auto-fix: the refusals
  of the direct fix and the rescued exception of `run_auto_fix`, kept
  as an appended list.
- YarnAudit.YarnAuditScanner.RunAutoFix: does not record the
  `"#{info} did not return JSON"` error that the legacy
  `get_package_info` reports each time a registry query fails
  (lib/salus/scanners/yarn_audit.rb:488-498). A failed query is the
  registry parameter's `None`. So `errors` grows by the refusals and
  the rescued exception only.
- YarnAudit.AutoFixOrder: for the same reason, "the only report" means
  the only report the model records. The registry-failure reports
  made before the exception are not part of the outcome.
- `find_nested_hash_value` is not called by the modelled code.
- `Salus::SemanticVersion.select_upgrade_version`,
  `SEMVER_RANGE_REGEX` and `Salus::YarnLockfileFormatter` are not part
  of this model. They are uninterpreted parameters (`Registry.Env`).
- `Bundler::LockfileParser` and the parsing of `Gem::Version` are not
  part of this model. Versions are given as their numeric segments.
- PackageVersion.Less: a version is only numeric segments. Prerelease
  segments (`1.0.0.pre`, which `Gem::Version` orders before `1.0.0`)
  cannot be written, so their order is not modelled.
- `sub!` replacements: Ruby reads `\0`, `\&`, `\1` and `\\` in a
  replacement string as references to the match. `RubyStrings.SubFirst` and
  `RubyStrings.SubToEol` insert the replacement as it is. The
  replacements are package names, versions, tarball URLs and integrity
  hashes, which hold no backslash.
- Lockfile entries hold only their dependency sections. The formatter's
  other fields are never read by the engine.
- Regular expressions `/(#{target} .*)/` are matched as the literal
  `target ` up to the end of the line. Regex metacharacters in package
  names are not modelled.
- The table borders are matched on `┌─`/`─┐` and `└─`/`─┘`. A bottom
  border before the top border gives an empty slice, which the model
  treats like Ruby's `[]`.
- `present?` on `min_version`/`max_version` is modelled as the option
  being present. On `blocked_versions` it is modelled as the list being
  non-empty.
- `if repo_version` is always truthy and is not modelled.
- `combine_vulns` mutates the first record of each ID in place. The
  model returns new records. Aliasing with `vulns` is not modelled, and
  neither is the identity of the copies made by `deep_copy_wo_paths`.
- Ruby's `sort` is not stable. The model sorts by a stable insertion
  sort. For the sort of the `Dependency of` strings (line 440) the order
  is antisymmetric, so every sort gives the same list
  (`Ordering.SortedUnique`). For the sort by `ID` in `parse_output`
  (line 366), records with equal IDs keep their Set order in the model.
  Ruby leaves their order unspecified.
- AuditTable.ScanLines: a `│` row after a bottom border changes, in
  Ruby, the record already added to the Set, because the Set holds the
  same Hash object. The model adds a copy of the record, so such a row
  changes only the open record. A second bottom border then adds the
  changed copy unless an equal record is present. What Ruby's Set does
  with a member whose hash changed after it was added is not modelled.
  In yarn's table output a top border comes before every record's rows.
- The message and backtrace of a rescued exception are kept only as the
  `Fault` that caused it.
- In the standalone autofixer, `update_package_definition` and
  `update_sub_parent_resolution` are modelled through the V2 dialect of
  the shared passes, but `fix_indirect_dependency` never calls them.
  The calls are commented out.
- VulnReport.GenerateFixFeed: a record without an integer `ID` or a
  string `Path` stops the feed with a fault, where Ruby would put nil
  into the resolve. Likewise a group whose `Package` is not a string
  stops the feed, where Ruby would build the action with a nil module.
  The legacy table parser always provides all three fields.
- YarnAudit.YarnAuditScanner.FixDirectDependency: on a raise, the
  contract says only that the earlier errors are kept. It does not say
  which refusals were appended before the raise.

## Findings

| source | as written | input that shows it | evidently intended | confidence | as-written member | corrected member |
|---|---|---|---|---|---|---|
| lib/salus/scanners/yarn_audit.rb:383-386 | `scan_deps` returns the value of its last `command << … unless …` line. That value is nil when `optionalDependencies` is excluded, so the audit command gets no `--groups` and every group is audited, the excluded ones included. | `exclude_groups: ["optionalDependencies"]` | return ` --groups dependencies devDependencies `, the groups not excluded | not executed | AuditCommand.ExcludingOptionalAuditsEverything | AuditCommand.IntendedListsIncludedGroups |
