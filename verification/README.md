# PatchMon agent: a verified model of its decisions

This project models the parts of the PatchMon Go agent that decide something others rely
on, and proves what they promise. `dafny verify dfyconfig.toml` checks all of it.

Three groups of modules:

- **Version orders and their users.** `Keys` holds one theory of lexicographic order. The
  comparers of apk, rpm, the agent's own releases, Linux kernels and dotted Windows
  versions (`ApkVersion`, `RpmVersion`, `RpmEdition`, `PkgVersion`, `Kernel`,
  `DottedVersions`) are methods that scan two strings at once; each is proved equal to the
  order of two keys that depend on one string each, which makes it a total preorder. What
  the order of written versions is, field by field, is stated on their parts alone
  (`ApkOrder`, `RpmOrder`, `PkgWritten`, `KernelWritten`, `DottedWritten`). The
  users of these orders follow: the grammar of apk versions (`ApkGrammar`), the place of
  unreadable ones in the order (`ApkReadable`), world holds and security fixes (`ApkWorld`,
  `RpmEdition`), config migration and kernel selection.
- **The Windows patch run.** `WindowsPatch` is its pure half. `PatchTrace` states the safety
  rules on traces of backend calls, `PatchItems` what an item table and an item's status
  must satisfy, and `PatchAnswers` what the raw answers make of the items. `PatchEnvironment` answers every call arbitrarily, lets time pass, and may
  stop or expire the run at any point. `WindowsPatchRun` is the run, step by step.
  `WindowsUpdateCache` holds the state it shares with reports, and the protocol between
  them as a transition system.
- **Merges and canonical forms.** `RegistryMerge`, `AppxIndex` and `AppxInstallState` (the
  Windows package list), `CombinePackages` (the Linux one), `CanonicalRows` and `CheckInRows` (what
  is hashed), `LineLogger`, and `ConfigState` and `ConfigManager` (the configuration, its
  file and the rule never to overwrite what could not be read).

Where a property is false of the code, the exact condition is proved, next to a witness:

- ties of rpm editions chain through an edition exactly when it has a release
  (`RpmEdition.ChainsExactlyThroughReleases`, `TieIsNotTransitive`);
- zypper's security-fix test splits over intervals except where a missing release drops a
  bound (`RpmEdition.FixesSecuritySplits`, `MissingReleaseBreaksSplit`);
- pre-releases follow item 11 of Semantic Versioning 2.0.0 exactly when the integer parser
  takes for numbers just the identifiers that are all digits
  (`PkgVersion.PreReleaseFollowsItem11Exactly`, `SignedIdentifierDeparts`,
  `LongIdentifiersDepart`);
- equality of Windows versions chains except through a numeric version written with a v
  (`DottedVersions.EqualityChainsExactly`, `BrokenEquality`);
- a lower bound in the world file holds back a newer version exactly when that cannot be
  read (`ApkWorld.LowerBoundNeverHolds`, `UnreadableIsHeldBack`);
- a hold by an upper bound lasts with all newer versions exactly when what can be read of
  the held-back version is not allowed either (`ApkWorld.UpperBoundPersistsExactly`,
  `UnreadableHoldEnds`);
- the two modes of apk comparison agree unless both versions have a component with a leading
  zero (`ApkVersion.ModesAgree`, `ModesDisagree`);
- a saved config loads back exactly when its interval is positive and its host ID survives
  the migration (`ConfigState.SavedLoadsBack`);
- a completed Windows run had good answers only, for every update that was planned once; one
  planned twice can hide its failure (`WindowsPatchRun.AllWentWell`, `RepeatedHidesFailure`);
- compliance normalisation changes the reported mode of the flat text "disabled" and of
  nothing else (`ConfigState.NestingKeepsMode`, `DisabledTextChangesMode`);
- repository rows are complete exactly when no joined keys clash
  (`CheckInRows.RepoListIsCompleteIffNoClash`, `BarsClash`);
- the logged lines depend on the chunking exactly when a rest above 64 KiB is followed by
  more input (`LineLogger.ChunkingDoesNotMatter`, `OverflowBreaksLine`);
- a failed host ID save restores the config object, but the integrations map is shared
  between the old and the new config, so the completion done for the save stays
  (`ConfigState.FailedHostIDSave`, `FailedWriteCompletes`). The comment in config.go speaks
  of snapshots that are not mutated; the model follows the code.

## Model

| member | source | states |
|---|---|---|
| ApkVersion.VersionLexer.Digits | agent-source-code/internal/packages/apk_version.go:48-61 | The digits read so far become one number modulo 2^64; the rest of the text and the digits removed from it make up the old text. |
| ApkVersion.VersionLexer.Span | agent-source-code/internal/packages/apk_version.go:63-71 | Removes the longest run of accepted bytes and returns it. |
| ApkVersion.VersionLexer.Next | agent-source-code/internal/packages/apk_version.go:73-141 | One lexer step: the next token kind, number and text depend on the previous token and the text alone, and the text gets shorter unless the token is End or Invalid, so every lexer loop ends. |
| ApkVersion.TokenCompareIsKeyOrder | agent-source-code/internal/packages/apk_version.go:143-202 | Comparing two tokens of one kind, by the plain rule or by apk 2's leading-zero rule, is comparing two keys that depend on one token each. |
| ApkVersion.CompareAPKVersions | agent-source-code/internal/packages/apk_version.go:242-268 | In both modes and on all strings, valid or not, the two-lexer loop with its final rank test gives the lexicographic order of the two token keys. |
| ApkVersion.CompareOrderLaws | agent-source-code/internal/packages/apk_version.go:143-268 | In both modes comparison is a total preorder on all strings: antisymmetric in sign, transitive, and 0 exactly for equal keys. |
| ApkVersion.ModesAgree | agent-source-code/internal/packages/apk_version.go:217-224 | The two modes give the same result unless both versions have a dotted component that starts with 0. |
| ApkVersion.ModesDisagree | agent-source-code/internal/packages/apk_version.go:217-224 | 0.012 is above 0.04 for apk-tools 2 and below it for apk-tools 3. |
| ApkOrder.NumberIsValue | agent-source-code/internal/packages/apk_version.go:48-61 | The number the lexer accumulates is the decimal value of the digits modulo 2^64. |
| ApkOrder.SuffixValues | agent-source-code/internal/packages/apk_version.go:31-34 | The known suffixes are alpha, beta, pre and rc before, and cvs, svn, git, hg and p behind the release, in this order. |
| ApkOrder.ZeroedTokens | agent-source-code/internal/packages/apk_version.go:174-202 | The rule of apk-tools 2 for components of which one has leading zeros: that one is lower, more zeros are lower, then digits behind them are higher, then their value decides. |
| ApkOrder.RestCompares | agent-source-code/internal/packages/apk_version.go:73-202 | Behind equal parts, what is left of two versions compares by its fields: which field wins when only one version has it, and how two values of one field compare, stated on the fields alone. |
| ApkOrder.PrintedCompare | agent-source-code/internal/packages/apk_version.go:216-268 | Comparing two written versions, in both modes, gives the order of their parts: first numbers, components, letter, suffixes with their numbers, hash, revision. Every valid version is one that was written (ApkGrammar.ValidIffPrinted). |
| ApkOrder.RevisionsAscend | agent-source-code/internal/packages/apk_version.go:143-172 | A version with a higher revision, or with a revision instead of none, is newer, everything else being equal. |
| ApkGrammar.ParseInvertsPrint | agent-source-code/internal/packages/apk_version.go:73-141 | Parsing a printed well-formed structured version gives it back. |
| ApkGrammar.PrintInvertsParse | agent-source-code/internal/packages/apk_version.go:73-141 | Printing what was parsed gives the text back, and what was parsed is well formed. |
| ApkGrammar.APKVersionValid | agent-source-code/internal/packages/apk_version.go:233-240 | The lexer loop accepts exactly the strings the grammar parses. |
| ApkGrammar.ValidIffPrinted | agent-source-code/internal/packages/apk_version.go:233-240 | Accepted strings are exactly the printed well-formed versions, and each has one structure. |
| ApkGrammar.SplitAPKNameVersion | agent-source-code/internal/packages/apk.go:333-349 | The method splits where the specification does: at the last dash, or at the one before it when an -r revision follows. |
| ApkGrammar.SplitInvertsJoin | agent-source-code/internal/packages/apk.go:333-349 | For every non-empty name and valid version, name + "-" + version splits back into the two. |
| ApkReadable.PrefixIsLeastAbove | agent-source-code/internal/packages/apk_version.go:73-268 | When the first number of a text can be read, what stands before its first error is a valid version, and a valid version is at or above the text exactly when it is at or above that prefix. |
| ApkReadable.ValidIsPrefix | agent-source-code/internal/packages/apk_version.go:73-141 | A valid version is its own readable prefix. |
| ApkReadable.LowIsLower | agent-source-code/internal/packages/apk_version.go:73-268 | Below each version whose first number can be read there is a valid one. |
| ApkReadable.UnreadableIsLowest | agent-source-code/internal/packages/apk_version.go:242-268 | A text whose first number cannot be read is below every one whose first number can. |
| ApkWorld.ParseAPKWorld | agent-source-code/internal/packages/apk_world.go:60-84 | The constraints are those of the entries that parse, in order. |
| ApkWorld.ParseEntryInvertsPrint | agent-source-code/internal/packages/apk_world.go:60-92 | A name, an accepted operator and a version written together, with or without a repository tag, are read back exactly. |
| ApkWorld.AllowsVersion | agent-source-code/internal/packages/apk_world.go:95-124 | The verdict on a version is the specified one for every operator, fuzzy matching and unreadable versions included. |
| ApkWorld.FuzzyMeans | agent-source-code/internal/packages/apk_world.go:118-124 | A fuzzy match is the written prefix followed by nothing or by something that starts with no digit. |
| ApkWorld.FuzzyAllows | agent-source-code/internal/packages/apk_world.go:95-124 | "~" allows a valid version exactly if it compares equal or continues the prefix with no digit, so "~1.2" does not allow "1.20". |
| ApkWorld.APKWorldHolds | agent-source-code/internal/packages/apk_world.go:137-152 | The holds are exactly those of the constraints on installed packages that allow no available version they should, in order. |
| ApkWorld.HoldsTell | agent-source-code/internal/packages/apk_world.go:137-152 | Each hold and each conflict tells the package, its installed and its available version, and the entry behind it, and every constraint that holds is told. |
| ApkWorld.LowerBoundNeverHolds | agent-source-code/internal/packages/apk_world.go:95-152 | With installed below available, a plain > or >= constraint that allows the installed version holds back the available one exactly if it cannot be read. |
| ApkWorld.UnreadableIsHeldBack | agent-source-code/internal/packages/apk_world.go:95-152 | ">=1" with "1" installed holds back the newer but unreadable "2!". |
| ApkWorld.ExactPinHolds | agent-source-code/internal/packages/apk_world.go:95-152 | A plain = that allows the installed version holds back every available version above it. |
| ApkWorld.UpperBoundStaysExactly | agent-source-code/internal/packages/apk_world.go:95-124 | A < or <= constraint allows nothing from a version on, that version included, if and only if the bound cannot be read at all, or the version starts readably and its readable prefix is not allowed; for <= and a valid bound, if and only if the version is above the bound. |
| ApkWorld.UpperBoundPersistsExactly | agent-source-code/internal/packages/apk_world.go:95-152 | A hold by < or <= lasts with every newer available version, readable or not, if and only if the held-back version starts readably and the bound does not allow its readable prefix. |
| ApkWorld.UpperBoundPersists | agent-source-code/internal/packages/apk_world.go:95-152 | When the held-back version is valid, the hold lasts with every newer version, valid or not. |
| ApkWorld.UnreadableHoldEnds | agent-source-code/internal/packages/apk_world.go:95-152 | "<=2" with "1" installed holds back the unreadable "1!" and not the newer "2". |
| ApkWorld.UnreadableHoldLasts | agent-source-code/internal/packages/apk_world.go:95-152 | "2!" is below "2", and yet "<2" allows neither it nor anything newer. |
| ApkWorld.APKFixesSecurity | agent-source-code/internal/packages/apk_secdb.go:288-298 | True exactly when the installed and the available version are valid and some fix version, valid or not, lies above the installed and not above the available one. |
| ApkWorld.FixesSecuritySplits | agent-source-code/internal/packages/apk_secdb.go:288-298 | For valid a <= b <= c, a to c crosses a fix exactly when a to b or b to c does. |
| ApkWorld.FixAtBounds | agent-source-code/internal/packages/apk_secdb.go:288-298 | A fix that the available version reaches exactly counts; one that the installed version has already does not. |
| RpmVersion.RPMVerCmp | agent-source-code/internal/packages/rpm_version.go:39-123 | The two-index scan gives the lexicographic order of two token keys, tilde below end below caret below letters below numbers, and it ends. |
| RpmOrder.CompareIsOrder | agent-source-code/internal/packages/rpm_version.go:39-123 | On all strings the order is that of the tokens: separators between them are left out, tilde is below the end, the end below caret, caret below letters, letters below digits, letters compare by bytes and digits by value. |
| Text.CharClasses | agent-source-code/internal/packages/rpm_version.go:35-36 | Digits, letters and hex digits, spelt out. |
| RpmVersion.SeparatorsAreAlike | agent-source-code/internal/packages/rpm_version.go:39-123 | Any two runs of separators, between two texts or at the end, give the same key; at the end they change nothing. |
| RpmVersion.SeparatorsMatterExactly | agent-source-code/internal/packages/rpm_version.go:39-123 | Leaving out the separators between two texts changes the key if and only if that joins two runs of digits or of letters. |
| RpmVersion.CompareRuns | agent-source-code/internal/packages/rpm_version.go:82-113 | Two runs of one class compare as the source compares them: letters by bytes, digits as numbers of any length, leading zeros ignored. |
| RpmEdition.SplitRPMEVR | agent-source-code/internal/packages/rpm_version.go:21-33 | Epoch, version and release are cut at the first colon and the last dash after it; an absent epoch is "0". |
| RpmEdition.CompareRPMEVR | agent-source-code/internal/packages/rpm_version.go:6-19 | Epoch, version and release decide in turn; a missing release ties with any. |
| RpmEdition.SplitPrinted | agent-source-code/internal/packages/rpm_version.go:21-33 | An edition written from its fields splits into them, an absent epoch as "0", with or without a release. |
| RpmEdition.FieldsDecide | agent-source-code/internal/packages/rpm_version.go:6-33 | Of two written editions the epochs decide, then the versions, then the releases if both have one; otherwise they tie. |
| RpmEdition.CompareIsStrictPartialOrder | agent-source-code/internal/packages/rpm_version.go:6-19 | On all strings the result is antisymmetric in sign and "less" is transitive. |
| RpmEdition.CompareOrderLaws | agent-source-code/internal/packages/rpm_version.go:6-19 | When every side has a release it is a total preorder; which release each half needs is the matter of ChainsExactlyThroughReleases and LessThenNotAboveExactly. |
| RpmEdition.TieIsNotTransitive | agent-source-code/internal/packages/rpm_version.go:6-19 | "1-1" ties with "1", "1" ties with "1-2", and "1-1" is below "1-2". |
| RpmEdition.ChainsExactlyThroughReleases | agent-source-code/internal/packages/rpm_version.go:6-19 | "Not above" chains through an edition, for all neighbours, if and only if that edition has a release. |
| RpmEdition.LessThenNotAboveExactly | agent-source-code/internal/packages/rpm_version.go:6-19 | "Less, then not above" gives "less" from an edition, for all others, if and only if that edition has no release. |
| RpmEdition.SplitInvertsEdition | agent-source-code/internal/packages/zypper.go:192-198 | Splitting an edition printed from fields without a colon and a release without a dash gives them back, an absent epoch as "0". |
| RpmEdition.ZypperFixesSecurity | agent-source-code/internal/packages/zypper.go:289-296 | True exactly when some fix lies above the current and not above the available edition. |
| RpmEdition.FixesSecuritySplits | agent-source-code/internal/packages/zypper.go:289-296 | For all a <= b <= c, "a to c crosses a fix exactly when a to b or b to c does" holds for every fix list if and only if no missing release drops a bound, a test on a, b and c alone. |
| RpmEdition.FixAtBounds | agent-source-code/internal/packages/zypper.go:289-296 | A fix that the available edition reaches exactly counts; one that the current edition has already does not. |
| RpmEdition.MissingReleaseBreaksSplit | agent-source-code/internal/packages/zypper.go:289-296 | "1-1" <= "1" <= "1-2" is a case in which the interval law fails. |
| RpmEdition.ReleasesSplitExactly | agent-source-code/internal/packages/zypper.go:289-296 | The interval law holds whenever a and b carry releases, whatever the fixes carry. |
| PkgVersion.CompareNumericParts | agent-source-code/internal/pkgversion/compare.go:40-61 | Component lists compare position by position, the shorter padded with zeros. |
| PkgVersion.PaddedIgnoresTrailingZeros | agent-source-code/internal/pkgversion/compare.go:40-61 | That order is the lexicographic order of the lists without their trailing zeros. |
| PkgVersion.ComparePreRelease | agent-source-code/internal/pkgversion/compare.go:63-101 | The loop gives the lexicographic order of the identifiers: what the integer parser accepts as a number, below what it does not as text, fewer below more. |
| PkgVersion.IdentifierFollowsItem11Exactly | agent-source-code/internal/pkgversion/compare.go:63-101 | An identifier is ordered as item 11 of Semantic Versioning 2.0.0 orders it, against all identifiers of the usual kind, if and only if it is of that kind: parsed as a number exactly when it is all digits. |
| PkgVersion.PreReleaseFollowsItem11Exactly | agent-source-code/internal/pkgversion/compare.go:63-101 | The same for whole pre-releases, and among pre-releases of legal identifiers. |
| PkgVersion.SignedIdentifierDeparts | agent-source-code/internal/pkgversion/compare.go:74-83 | "-5" is a number below "3" for the code and a text above it for item 11. |
| PkgVersion.LongIdentifiersDepart | agent-source-code/internal/pkgversion/compare.go:86-92 | Two numbers beyond 64 bits compare as text in the code and as numbers in item 11. |
| PkgVersion.Compare | agent-source-code/internal/pkgversion/compare.go:10-38 | The case analysis gives the order of keys that depend on one version each. |
| PkgWritten.SplitPrinted | agent-source-code/internal/pkgversion/compare.go:29-38 | The core and the pre-release of a written version are read back, with or without a v, and build metadata is dropped. |
| PkgWritten.PaddedMeans | agent-source-code/internal/pkgversion/compare.go:40-61 | The first component that differs decides, missing ones counting as 0. |
| PkgWritten.WrittenCompare | agent-source-code/internal/pkgversion/compare.go:10-112 | Written versions compare by their numbers, then a pre-release is below none, then pre-releases of usual identifiers follow item 11; build metadata and a leading v change nothing. |
| PkgWritten.StepRunsBelow | agent-source-code/internal/config/migrate.go:41-54 | A migration step applies exactly to configs of written versions below its own. |
| PkgVersion.CompareOrderLaws | agent-source-code/internal/pkgversion/compare.go:10-112 | A total preorder on all strings. |
| PkgVersion.MigrateConfig | agent-source-code/internal/config/migrate.go:41-54 | A config of the program's own version is left alone; any other gets the steps newer than its current version, in order, and the program's version. |
| PkgVersion.RanIsSelected | agent-source-code/internal/config/migrate.go:41-54 | Steps that leave the version alone are selected by the version the config came with. |
| PkgVersion.NewerConfigRunsFewerSteps | agent-source-code/internal/config/migrate.go:41-54 | A config at least as new runs a subset of the steps an older one runs; configs of equal rank run the same. |
| PkgVersion.MigrationIsDone | agent-source-code/internal/config/migrate.go:41-54 | After a migration to a version no step is newer than, no step runs again. |
| PkgVersion.Migrate214Idempotent | agent-source-code/internal/config/migrate.go:29-37 | The 2.1.4 step leaves an empty or valid host ID, keeps a valid one, and is idempotent. |
| Kernel.CompareKernelVersions | agent-source-code/internal/system/reboot.go:335-394 | The part-by-part comparison is the order of keys that depend on one release each. |
| KernelWritten.ParseInvertsPrint | agent-source-code/internal/system/reboot.go:403-408 | The parts of a release written with dots, dashes and plus signs are read back exactly. |
| KernelWritten.WrittenCompare | agent-source-code/internal/system/reboot.go:335-408 | Written releases compare part by part whatever breaks stand between: numbers that fit an int by value and above labels, labels as text, fewer parts below more. |
| Kernel.CompareOrderLaws | agent-source-code/internal/system/reboot.go:335-394 | A total preorder on all strings. |
| Kernel.KernelFlavour | agent-source-code/internal/system/reboot.go:317-330 | The flavour is the joined non-numeric labels of the release. |
| KernelWritten.PiMeans | agent-source-code/internal/system/reboot.go:317-333 | A Raspberry Pi variant is a v, digits, and perhaps an l. |
| KernelWritten.LabelMeans | agent-source-code/internal/system/reboot.go:317-333 | A label is kept as it is if it is a Pi variant, and else loses the digits and underscores at its end. |
| KernelWritten.LineOfWritten | agent-source-code/internal/system/reboot.go:317-333 | The line of a written release is the labels of its parts that are no numbers, joined with dashes. |
| KernelWritten.CoreMeans | agent-source-code/internal/system/reboot.go:303-315 | A usable release starts with digits, a dot and a digit. |
| Kernel.SelectLatestKernel | agent-source-code/internal/system/reboot.go:216-247 | Gives an eligible candidate of the flavour that no eligible candidate is newer than, and "" exactly when none is eligible. |
| Kernel.KernelIsOutdated | agent-source-code/internal/system/reboot.go:83-88 | True exactly when both releases are known and the running one is older. |
| Kernel.LatestInstalledKernel | agent-source-code/internal/system/reboot.go:179-204 | The first source with a usable kernel decides, by its newest eligible one. |
| Kernel.KernelIsStale | agent-source-code/internal/system/reboot.go:83-88 | A restart is asked for exactly when the running kernel is known and the first usable source holds an eligible newer one. |
| StableSort.SortSorts | agent-source-code/internal/packages/windows_patch_logic.go:346-356 | The sorted list ascends by key and is a permutation. |
| StableSort.SortIsStable | agent-source-code/internal/packages/windows_patch_logic.go:346-356 | Rows with equal keys keep their order. |
| WindowsPatch.NewWindowsPatchRequest | agent-source-code/internal/packages/windows_patch_logic.go:1619-1653 | Accepted targets are the valid ones, Windows Update IDs lower-cased, the first of each folded key; invalid ones are returned; the error cases are exactly "nothing included" and "no valid target". |
| WindowsPatch.AcceptedIsDeduplication | agent-source-code/internal/packages/windows_patch_logic.go:1637-1648 | The accepted targets are valid and normalised, no key occurs twice, and their keys are exactly the keys of the valid input targets. |
| WindowsPatch.AcceptedAreFirst | agent-source-code/internal/packages/windows_patch_logic.go:1619-1653 | The accepted targets are, in order, the first valid ones of each kind and ID, update IDs in lower case and app IDs as they came. |
| WindowsPatch.GuidMeans | agent-source-code/internal/packages/windows_patch_logic.go:64-82 | An update ID is groups of 8, 4, 4, 4 and 12 hex digits between dashes. |
| WindowsPatch.WingetIdMeans | agent-source-code/internal/packages/windows.go:35-35 | An app ID is a letter or digit followed by up to 127 letters, digits, dots, underscores, plus signs and dashes. |
| WindowsPatch.SelectWUAUpdates | agent-source-code/internal/packages/windows_patch_logic.go:307-344 | The method gives the specified selection: what to install, in order, and what is decided already. |
| WindowsPatch.OrderForInstallSorts | agent-source-code/internal/packages/windows_patch_logic.go:346-356 | The install order loses and adds nothing, puts security and critical updates first, and ascends by folded title within each class. |
| PatchSelection.SelectionCoversTargets | agent-source-code/internal/packages/windows_patch_logic.go:307-344 | The folded targets are exactly the IDs to install together with the IDs decided. |
| PatchSelection.PatchAllInstallsEligible | agent-source-code/internal/packages/windows_patch_logic.go:277-344 | A run of everything installs exactly the offered updates that are no driver, optional or feature upgrade and that nothing stands in the way of now. |
| PatchSelection.TargetsTakeLastOffer | agent-source-code/internal/packages/windows_patch_logic.go:307-344 | A targeted run installs of each target the offer that came last, only where no restart is pending, no input is needed and no restart comes first. |
| PatchSelection.SelectionIsBacked | agent-source-code/internal/packages/windows_patch_logic.go:307-344 | Each decided item, and each update a dry run would install, is accounted for by the scan. |
| PatchSelection.PlanIsDistinct | agent-source-code/internal/packages/windows_patch_logic.go:307-356 | Distinct targets give an install plan without repetitions, letter case aside. |
| PatchSelection.PatchAllPlanIsDistinctExactly | agent-source-code/internal/packages/windows_patch_logic.go:307-356 | A run of everything plans no update twice, letter case aside, if and only if no two of the updates it installs share an ID in the search. |
| WindowsPatch.NormalisedHResult | agent-source-code/internal/packages/windows_patch_logic.go:426-435 | Normalising a result code is idempotent. |
| PatchTrace.SaysBlockedIs | agent-source-code/internal/packages/windows_patch_logic.go:426-443 | The blocking code is recognised in any letter case, with or without its prefix and spaces around it, and nothing else is. |
| PatchTrace.StatusIsGiven | agent-source-code/internal/packages/windows_patch_logic.go:369-382 | On the raw answer of an install: 2 is installed, 3 installed with errors, 5 aborted, any other code failed; not found, already installed and pending come before the code. |
| PatchTrace.ExitIsGiven | agent-source-code/internal/packages/windows_patch_logic.go:469-505 | On the raw exit code of an upgrade: which codes are installed, which of these need a restart, which are not applicable, which is a pin; all others fail. |
| WindowsPatch.NewPendingRenames | agent-source-code/internal/packages/windows_patch_logic.go:685-703 | True exactly when some entry occurs more often afterwards, letter case aside. |
| WindowsPatch.EntryCounts | agent-source-code/internal/packages/windows_patch_logic.go:685-706 | Each entry counts once, letter case aside, and empty entries do not. |
| WindowsPatch.FinalWindowsStage | agent-source-code/internal/packages/windows_patch_logic.go:553-582 | Cancelled exactly when stopped; failed exactly when not stopped and there is a run error or a failed or aborted item; otherwise by dry run. |
| WindowsPatchRun.PatchRun.Upsert | agent-source-code/internal/packages/windows_patch_logic.go:1004-1023 | A new key is appended and indexed; a known one is overwritten in place keeping what the new item lacks; one entry per key and the index stays right. |
| WindowsPatchRun.PatchRun.InterruptReason | agent-source-code/internal/packages/windows_patch_logic.go:1075-1087 | A stop already requested is always the reason, a limit already passed is always noticed, a passed check means neither; the limit is recorded once. |
| WindowsPatchRun.PatchRun.RecheckAfterTimeout | agent-source-code/internal/packages/windows_patch_logic.go:1323-1358 | Asks at least once and returns true exactly if some answer settled the timed-out install; the item is then installed or waits for a restart, and otherwise fails. |
| WindowsPatchRun.PatchRun.ApplyInstallResult | agent-source-code/internal/packages/windows_patch_logic.go:1384-1414 | The item gets the status, codes and restart flag of the answer, and a blocked failure is recognisable by its normalised code. |
| WindowsPatchRun.PatchRun.ItemAfter | agent-source-code/internal/packages/windows_patch_logic.go:1384-1413 | Status, result code, code text and restart flag follow the raw answer; an answer that blocks leaves the item failed with the blocking code. |
| WindowsPatchRun.PatchRun.InstallOne | agent-source-code/internal/packages/windows_patch_logic.go:1289-1316 | One install with its recheck: the raw answer shows in its item, and either nothing blocks the next install or the rest is held back because it timed out unresolved, or because it failed and its item carries 0x80240016 from an install answer in the trace. |
| WindowsPatchRun.PatchRun.InstallOrSkip | agent-source-code/internal/packages/windows_patch_logic.go:1276-1317 | One turn of the loop: the update is installed after a passed check, or skipped for a reason; the installs so far stay a subsequence of the plan. |
| WindowsPatchRun.PatchRun.InstallAll | agent-source-code/internal/packages/windows_patch_logic.go:1275-1317 | The loop decides every queued item and leaves other kinds alone. |
| WindowsPatchRun.PatchRun.QueueSelection | agent-source-code/internal/packages/windows_patch_logic.go:1190-1211 | Records what the search decided and queues the rest; every pending update is queued, and the keys are exactly the targets of a targeted run. |
| WindowsPatchRun.PatchRun.DropFailedDownloads | agent-source-code/internal/packages/windows_patch_logic.go:1264-1273 | Updates whose download was neither a success nor a success with errors fail and leave the queue. |
| WindowsPatchRun.PatchRun.DownloadAndInstall | agent-source-code/internal/packages/windows_patch_logic.go:1226-1317 | One download, then installs; when the download fails every queued item is skipped for the interrupt reason or else fails. |
| WindowsPatchRun.PatchRun.SearchAndInstall | agent-source-code/internal/packages/windows_patch_logic.go:1157-1318 | From the search on: no Windows Update item stays pending and apps are not touched. |
| WindowsPatchRun.PatchRun.RecordWUAOutcome | agent-source-code/internal/packages/windows_patch_logic.go:1362-1382 | The restart-pending set gains exactly the items that wait for a restart, and the cached list is dropped exactly when an install was called; a dry run records nothing. |
| WindowsPatchRun.PatchRun.CallUpgrade | agent-source-code/internal/packages/windows_patch_logic.go:1537-1565 | The upgrade runs between two looks at the pending file renames; its exit code decides the status, and a restart is due exactly if the code says so or new renames appeared. |
| WindowsPatchRun.PatchRun.FailWUATargets | agent-source-code/internal/packages/windows_patch_logic.go:1148-1155 | Every target ends with the same status and message, and no update stays pending. |
| WindowsPatchRun.PatchRun.SearchFails | agent-source-code/internal/packages/windows_patch_logic.go:1173-1188 | After a failed search the targets are skipped for the interrupt reason, or else fail; a run without targets records a run error. |
| WindowsPatchRun.PatchRun.UpgradeOne | agent-source-code/internal/packages/windows_patch_logic.go:1537-1565 | The item carries the exit code, the status it means, and the restart flag of the code or of new renames. |
| WindowsPatchRun.PatchRun.HandleApp | agent-source-code/internal/packages/windows_patch_logic.go:1488-1534 | One app: skipped, failed, found up to date or upgraded, each for a reason in the trace. |
| WindowsPatchRun.PatchRun.QueueApps | agent-source-code/internal/packages/windows_patch_logic.go:1462-1471 | The queue is the first updatable app with a valid ID of each folded ID, in the order of the listing. |
| WindowsPatchRun.PatchRun.UpgradeAll | agent-source-code/internal/packages/windows_patch_logic.go:1488-1534 | The loop decides every queued app, and the upgrades are a subsequence of the queue. |
| WindowsPatchRun.PatchRun.RunWingetPhase | agent-source-code/internal/packages/windows_patch_logic.go:1448-1535 | No app stays pending, updates are not touched and nothing is installed through Windows Update. |
| WindowsPatchRun.PatchRun.Conclude | agent-source-code/internal/packages/windows_patch_logic.go:1123-1145 | The stage is cancelled exactly when the stop flag is set and otherwise follows from the items and the errors; a restart is reported exactly when an item asks for one, or none does, a real run installed an update and the system, asked last, says so. |
| WindowsPatchRun.PatchRun.Run | agent-source-code/internal/packages/windows_patch_logic.go:1091-1146 | For all backend answers, stop points and expiries: every item ends decided, with an event of the trace that accounts for its status; a dry run changes nothing; each install directly follows a passed check, was downloaded well, follows the install order, which is also what is downloaded, and never follows a blocked or unresolved install; each app upgrade directly follows a passed check and a found upgrade; once a check found a reason none passes; the items of a targeted run are its targets; the stage is sound, and cancelled exactly when the run was stopped by its end; a restart is reported exactly as Conclude says; the raw answer of each install and upgrade that was planned once shows in its item; completed means that all of them were good; exactly the updates that wait for a restart are noted in the shared cache. |
| PatchTrace.AppendInstall | agent-source-code/internal/packages/windows_patch_logic.go:1276-1304 | An install that directly follows a passed check, has a good download, nothing blocking and is next in the plan keeps every safety rule. |
| PatchAnswers.InstalledIsShown | agent-source-code/internal/packages/windows_patch_logic.go:1276-1317 | After an install and its rechecks the raw answer shows in the item of the update, and what earlier installs show stays. |
| PatchAnswers.UpgradedIsShown | agent-source-code/internal/packages/windows_patch_logic.go:1488-1566 | After the turn of an app its raw exit code shows in its item, and what earlier upgrades show stays. |
| PatchAnswers.NoneBadWentWell | agent-source-code/internal/packages/windows_patch_logic.go:553-582 | Without a failed or aborted item, every install that shows answered 2 or 3, was not needed or was finished by Windows later, and every upgrade that shows ended with a good exit code. |
| PatchAnswers.ShownRestarts | agent-source-code/internal/packages/windows_patch_logic.go:1362-1382 | Of the updates whose install was answered, exactly those are noted for a restart that the raw answer leaves waiting for one, besides what was noted before. |
| PatchTrace.AppendAppUpgrade | agent-source-code/internal/packages/windows_patch_logic.go:1488-1531 | An app upgrade that directly follows a passed check and a found upgrade, of an app the Store does not update, keeps every safety rule. |
| PatchTrace.AppendKeepsInterrupt | agent-source-code/internal/packages/windows_patch_logic.go:1075-1087 | A check that passes with no reason seen before, and any other event, keeps "once interrupted, no check passes". |
| PatchItems.AppIDsCoverOnce | agent-source-code/internal/packages/windows_patch_logic.go:1462-1471 | The queued app IDs are distinct letter case aside, and their folded IDs are those of all updatable apps with a valid ID. |
| PatchTrace.NothingBlocksAfterInstall | agent-source-code/internal/packages/windows_patch_logic.go:1306-1316 | After an install and its rechecks nothing blocks, unless it failed with 0x80240016 or timed out unresolved. |
| PatchTrace.SubsequenceDistinct | agent-source-code/internal/packages/windows_patch_logic.go:1276-1317 | A subsequence of a plan without repetitions has none. |
| PatchItems.TableHasNoDuplicates | agent-source-code/internal/packages/windows_patch_logic.go:1004-1023 | A valid item table has no two entries with one kind and ID. |
| WindowsPatchRun.ItemsAreTargets | agent-source-code/internal/packages/windows_patch_logic.go:1091-1108 | The items of a targeted run with deduplicated targets are the requested targets, one each. |
| WindowsPatchRun.InstallsAtMostOnce | agent-source-code/internal/packages/windows_patch_logic.go:1276-1317 | Each update is installed at most once, letter case aside, for deduplicated targets and for a run of everything whose search offers each update once. |
| WindowsPatchRun.UpgradesAtMostOnce | agent-source-code/internal/packages/windows_patch_logic.go:1462-1531 | Each app is upgraded at most once, letter case aside, for deduplicated targets and for every listing of a run of everything. |
| WindowsPatchRun.AllWentWell | agent-source-code/internal/packages/windows_patch_logic.go:1248-1317 | When nothing is planned twice, every install of a completed run went well. |
| WindowsPatchRun.RepeatedHidesFailure | agent-source-code/internal/packages/windows_patch_logic.go:1276-1317 | With an update planned twice this fails: a first install that fails with the blocking code lets the second turn overwrite the item as skipped, and the run completes. |
| WindowsPatchRun.RunIsProtocol | agent-source-code/internal/packages/windows_patch_logic.go:1157-1160 | For real and dry runs, the steps of a run in the protocol of reports and runs are allowed whenever nobody else holds the lock, and end in the cache state that the run itself ends with. |
| WindowsPatchRun.RunWindowsPatch | agent-source-code/internal/packages/windows_patch_logic.go:1591-1593 | A whole run on a fresh environment: safe trace, decided items, answers shown in them, stage and restart as they must be, targets one each, no update installed and no app upgraded twice, and a completed run in which nothing was planned twice had good answers only; in every history of reports and runs with the same cache, the protocol steps of this run lead to its final cache. |
| WindowsUpdateCache.UpdateCache.ApplyRestartPending | agent-source-code/internal/packages/windows_patch_logic.go:825-837 | In place, exactly the updates in the restart-pending set that need an update are shown as waiting. |
| WindowsUpdateCache.UpdateCache.Guarded | agent-source-code/internal/packages/windows_patch_logic.go:763-804 | Without the lock the cached list or "omitted"; with it the report and the new cache state of the answer. |
| WindowsUpdateCache.RunAmountsToRecorded | agent-source-code/internal/packages/windows_patch_logic.go:1157-1160 | A run from its start to its record changes the cache as Recorded says, whatever reports do meanwhile: its notes add up, and the list is dropped exactly if an install was started. |
| WindowsUpdateCache.InvariantHolds | agent-source-code/internal/packages/windows_patch_logic.go:763-837 | Every interleaving of reports and runs keeps: the cached list is that of a fresh search, the restart-pending set is what was noted, the streak counts COM failures since the last success. |
| WindowsUpdateCache.SearchesShowFound | agent-source-code/internal/packages/windows_patch_logic.go:763-837 | In every history each successful search reported what it found, with exactly the updates noted before it shown as pending a restart. |
| WindowsUpdateCache.ServesWhatIsThere | agent-source-code/internal/packages/windows_patch_logic.go:763-810 | A report that found the lock taken serves a list exactly when a search succeeded and no run that started an install recorded its outcome since. |
| WindowsUpdateCache.RecordedMeans | agent-source-code/internal/packages/windows_patch_logic.go:1362-1382 | The record of a run adds its notes, drops the list if the run started an install, and touches nothing else. |
| WindowsUpdateCache.ServedListIsFresh | agent-source-code/internal/packages/windows_patch_logic.go:763-804 | In every interleaving, a served list is what one successful search found, all of it after the last finished run that started an install, with exactly the updates noted until now shown as pending a restart and everything else as it was found. |
| WindowsUpdateCache.FreshReportIsSound | agent-source-code/internal/packages/windows_patch_logic.go:763-804 | A fresh success reports what was found, only the noted updates changed; a failure keeps the server's rows; from the third COM failure since the last success on, the packages are reported as they came. |
| LineLogger.Logger.Write | agent-source-code/internal/packages/windows_patch_logic.go:916-931 | Appends the complete lines of the pending text and the chunk, and gives up a rest above 64 KiB as a line. |
| LineLogger.Logger.Flush | agent-source-code/internal/packages/windows_patch_logic.go:933-938 | A pending rest becomes a line. |
| LineLogger.Logger.Emit | agent-source-code/internal/packages/windows_patch_logic.go:940-952 | The log and the captured text stay what the lines so far make of them. |
| LineLogger.ShownOne | agent-source-code/internal/packages/windows_patch_logic.go:940-952 | A line shows without the blanks at its end, unless it is all space; then it does not show. |
| LineLogger.ShownAppend | agent-source-code/internal/packages/windows_patch_logic.go:940-952 | Each line shows on its own, in turn. |
| LineLogger.CapturedIsPrefixOfShown | agent-source-code/internal/packages/windows_patch_logic.go:940-956 | The captured text is a run of whole shown lines from the first, all of them if the limit is not reached, and none begins behind the limit. |
| LineLogger.CutLosesNothing | agent-source-code/internal/packages/windows_patch_logic.go:916-931 | Cut lines hold no newline and, with the rest, put the text back together. |
| LineLogger.CutAppend | agent-source-code/internal/packages/windows_patch_logic.go:916-931 | Cutting a text in two pieces cuts the same lines. |
| LineLogger.ChunkingDoesNotMatter | agent-source-code/internal/packages/windows_patch_logic.go:905-956 | For every split of the input, the lines equal those of the whole input if and only if no prefix of the chunks leaves a rest above 64 KiB with input to follow. |
| LineLogger.OverflowBreaksLine | agent-source-code/internal/packages/windows_patch_logic.go:916-931 | Two chunks, the first one character above 64 KiB and without a newline: one line of the input comes out as two. |
| LineLogger.LimitKeepsLine | agent-source-code/internal/packages/windows_patch_logic.go:916-931 | A rest of exactly 65536 bytes is kept, so a second chunk completes the same line. |
| DottedVersions.ParseDottedVersion | agent-source-code/internal/packages/windows.go:269-284 | All components as 64-bit numbers, or failure when any field is not one. |
| DottedVersions.CompareDottedVersions | agent-source-code/internal/packages/windows.go:245-267 | The loop gives the padded order; not ok exactly when a side is not numeric. |
| DottedWritten.ComponentsOfWritten | agent-source-code/internal/packages/windows.go:269-288 | The numbers of a written version are read, with or without a v; there are none if a field is no number of 64 bits. |
| DottedWritten.WrittenIsOlder | agent-source-code/internal/packages/windows.go:219-267 | Of two written versions the installed one is older exactly if its number is lower where they first differ, and they are equal exactly if no number differs, missing ones counting as 0. |
| DottedWritten.OlderOtherwise | agent-source-code/internal/packages/windows.go:219-243 | An unknown installed version is not older; without numbers on both sides a known one is taken to be older, and equality is that of the texts, letter case aside. |
| DottedVersions.CompareDottedOrderLaws | agent-source-code/internal/packages/windows.go:245-267 | A total preorder on numeric versions. |
| DottedVersions.VersionsEqualLaws | agent-source-code/internal/packages/windows.go:219-224 | Reflexive, symmetric, and transitive within numeric and within other versions; mixed ones are the matter of EqualityChainsExactly. |
| DottedVersions.EqualityChainsExactly | agent-source-code/internal/packages/windows.go:219-224 | Equality chains through a version, for all neighbours, if and only if that version is not a numeric one written with a v. |
| DottedVersions.BrokenEquality | agent-source-code/internal/packages/windows.go:219-224 | A numeric version with a v equals itself without it and itself with a capital V, which do not equal each other. |
| RegistryMerge.MatchRows | agent-source-code/internal/packages/windows.go:136-153 | The rank-greedy passes over the used and match arrays give an injective matching with positive ranks that is settled: no pair could claim both its sides by rank and position. |
| RegistryMerge.FindRow | agent-source-code/internal/packages/windows.go:147-152 | The first free row of the rank, or none. |
| RegistryMerge.SettledIsUnique | agent-source-code/internal/packages/windows.go:136-153 | There is exactly one settled matching, so rank and then position decide it. |
| RegistryMerge.SettledMatchesByName | agent-source-code/internal/packages/windows.go:136-217 | In terms of names and versions: matched are only equal names, or a cut-off name that begins the entry's with an equal version; every pair that fits is matched or lost a side to a pair that wins over it, name and version before name before cut-off name, then the earlier entry and row. |
| RegistryMerge.RankMeans | agent-source-code/internal/packages/windows.go:204-217 | What each rank stands for. |
| RegistryMerge.SettledIsMaximalAndStable | agent-source-code/internal/packages/windows.go:136-153 | No pair of positive rank has both sides free, and none outranks both partners. |
| RegistryMerge.LeftoverNamesAreNew | agent-source-code/internal/packages/windows.go:155-198 | No appended row has the normalised name of a registry entry. |
| RegistryMerge.AppendedRowsAreNew | agent-source-code/internal/packages/windows.go:177-198 | Appended names are new and distinct, and each entry is the first of its name that needs an update, or else the first. |
| RegistryMerge.NoRowIsLost | agent-source-code/internal/packages/windows.go:155-198 | Every row is matched, or its name is a matched or an appended one. |
| RegistryMerge.Enriched | agent-source-code/internal/packages/windows.go:156-175 | A registry entry keeps its name and version; its row's update is taken over exactly if the installed version is older, and then, and only then, a missing available version is filled in with the row's. |
| RegistryMerge.MergeRegistryAndWinget | agent-source-code/internal/packages/windows.go:124-201 | The list and its origins are those of the settled matching, which matches by name and version as SettledMatchesByName says. |
| FirstOrBetter.PickedIsBest | agent-source-code/internal/packages/packages.go:143-162 | Each name gets one entry: the first better one of its name, or else the first. |
| FirstOrBetter.PickedAppend | agent-source-code/internal/packages/packages.go:153-162 | A new name adds an entry; a known one is replaced exactly by a better row over a plain one. |
| AppxIndex.ReadStates | agent-source-code/internal/packages/windows.go:478-490 | Which states a package is in: installed, present for some user, staged. |
| AppxIndex.StatesAreFields | agent-source-code/internal/packages/windows.go:466-503 | The states of a package are the fields between commas, without the spaces around them. |
| AppxIndex.PresenceMeans | agent-source-code/internal/packages/windows.go:466-503 | Present, installed and staged-only in terms of the states. |
| AppxIndex.IndexAppxPackages | agent-source-code/internal/packages/windows.go:466-503 | The map holds, for each name with a numeric version, what its packages add up to. |
| AppxIndex.IndexSays | agent-source-code/internal/packages/windows.go:466-503 | An entry says whether some user has the package, its newest installed version if there is one, and the versions that are staged and nobody has. |
| AppxIndex.AppxVersionsFor | agent-source-code/internal/packages/windows.go:582-596 | The entry of the name, or of the only longer name that begins so, in whatever order the map is read. |
| AppxIndex.AppxVersionsForRow | agent-source-code/internal/packages/windows.go:505-517 | By family name for a row of winget alone, else by a name that looks like a package name. |
| AppxIndex.FamilyMeans | agent-source-code/internal/packages/windows.go:415-424 | A name, an underscore and thirteen characters are a family name exactly if they have the right characters, and then the name is read back. |
| AppxIndex.RowFinds | agent-source-code/internal/packages/windows.go:411-596 | Which entry a row finds, in terms of its name, its family name and the names of the index. |
| AppxInstallState.JudgeIsCareful | agent-source-code/internal/packages/windows.go:520-580 | Registry rows and rows some user has are never dropped; names are kept; an update is raised only above the installed version and cleared only where the installed one is not known to be older. |
| AppxInstallState.JudgeDecides | agent-source-code/internal/packages/windows.go:520-580 | Exactly which rows are dropped, cleared of their update and given one, and exactly what is kept of all others. |
| AppxInstallState.NothingVanishes | agent-source-code/internal/packages/windows.go:520-560 | Every row is kept or reported as dropped. |
| AppxInstallState.ApplyAppxInstallState | agent-source-code/internal/packages/windows.go:520-560 | With the index built from the Appx packages, filtering the array into its own front gives what judging the original rows gives, with the dropped and suppressed names in order. |
| CanonicalRows.KeepLast | agent-source-code/internal/hashing/canonical.go:92-106 | The index map and the length test keep exactly the rows no later row replaces. |
| CanonicalRows.CanonicalIsLastPerKey | agent-source-code/internal/hashing/canonical.go:91-106 | Sorted and deduplicated rows ascend strictly and are the last input row of each key. |
| CanonicalRows.SameRowsIffSameLast | agent-source-code/internal/hashing/canonical.go:91-106 | Two inputs give equal rows exactly when they agree on the last row of each key. |
| CanonicalRows.ReorderingKeepsList | agent-source-code/internal/hashing/canonical.go:91-106 | A reordering that keeps the order within each key changes nothing. |
| CanonicalRows.SortedStringsForgetOrder | agent-source-code/internal/hashing/canonical.go:67-71 | Sorting strings forgets their order. |
| CheckInRows.PackageRows | agent-source-code/internal/hashing/canonical.go:63-106 | Builds, sorts and deduplicates the package rows. |
| CheckInRows.PackageListIsLastPerName | agent-source-code/internal/hashing/canonical.go:63-106 | Names ascend strictly and the rows are exactly those of the last package of each normalised name. |
| CheckInRows.PackageListIgnoresMixing | agent-source-code/internal/hashing/canonical.go:63-106 | Equal package rows exactly for equal last packages of every name. |
| CheckInRows.CategoryOrderDoesNotMatter | agent-source-code/internal/hashing/canonical.go:67-71 | Permuting the categories of a package changes no row. |
| CheckInRows.RowTellsPackage | agent-source-code/internal/hashing/canonical.go:65-90 | Packages with equal fields, up to normal form and the order of categories, have equal rows, and if different texts have different normal forms any other change of a package changes its row. |
| CheckInRows.RowIsPackage | agent-source-code/internal/hashing/canonical.go:65-90 | The row of a package in normal form is the package, categories sorted. |
| CheckInRows.RowTellsRepository | agent-source-code/internal/hashing/canonical.go:126-140 | Rows of repositories are equal exactly if all fields are, up to normal form, and a repository in normal form is its own row. |
| CheckInRows.RepoRows | agent-source-code/internal/hashing/canonical.go:126-166 | Builds, sorts and deduplicates the repository rows, the latter by the joined key. |
| CheckInRows.RepoListIsCompleteIffNoClash | agent-source-code/internal/hashing/canonical.go:149-166 | The list holds the last row of every URL, distribution and components if and only if no two different ones have one joined key. |
| CheckInRows.RepoListIsLastPerPlace | agent-source-code/internal/hashing/canonical.go:126-166 | Without clashes rows ascend strictly by URL, distribution and components, are those of the last repository of each place, and are equal exactly when the last ones are. |
| CheckInRows.NoBarsNoClash | agent-source-code/internal/hashing/canonical.go:150-152 | URLs and distributions without a bar never clash. |
| CheckInRows.BarsClash | agent-source-code/internal/hashing/canonical.go:150-152 | Two different repositories whose joined keys are equal. |
| CombinePackages.CombinePackageData | agent-source-code/internal/packages/packages.go:136-179 | The method gives the specified list for every order in which the map is read. |
| CombinePackages.CombinedIsUnion | agent-source-code/internal/packages/packages.go:136-179 | One entry for each name of the union: its first security update or else its first upgrade, described as installed; any other name has its installed entry, which needs no update. |
| CombinePackages.ReadingOrderOnlyMovesTail | agent-source-code/internal/packages/packages.go:165-176 | The reading order of the map changes only the order of the installed tail. |
| ConfigManager.IntegrationMap.EnsureComplianceNested | agent-source-code/internal/config/config.go:268-327 | The steps on the integrations map give the specified nested form. |
| ConfigState.NestingKeepsMode | agent-source-code/internal/config/config.go:268-327 | Nesting keeps the reported mode if and only if the stored value is not the flat text "disabled". |
| ConfigState.DisabledTextChangesMode | agent-source-code/internal/config/config.go:281-293 | The flat text "disabled" reports on-demand before nesting and disabled after. |
| ConfigState.NestingKeepsScanners | agent-source-code/internal/config/config.go:299-320 | Nesting keeps both scanner toggles for every stored value. |
| ConfigState.NestingIsIdempotent | agent-source-code/internal/config/config.go:268-327 | Nesting, and completing for a save, are idempotent. |
| ConfigState.LoadKeepsMode | agent-source-code/internal/config/config.go:205-247 | A load keeps the mode of the stored value if and only if that is not the flat text "disabled". |
| ConfigState.ModeSetIsReported | agent-source-code/internal/config/config.go:902-919 | A mode that was set is the one reported, saved or not. |
| ConfigState.SettersStore | agent-source-code/internal/config/config.go:646-694 | Each setter stores its value if it is allowed, whether or not the save works; a value that is not allowed changes nothing; after a success the file holds what is in memory. |
| ConfigState.SaveStores | agent-source-code/internal/config/config.go:443-521 | When a save works, what it leaves in the file, and what a failed one leaves alone. |
| ConfigState.SwitchIsStored | agent-source-code/internal/config/config.go:786-812 | A plain switch holds what was set and the others what they held; missing ones turn up as off. |
| ConfigState.ScannersAreStored | agent-source-code/internal/config/config.go:942-988 | The scanners report what was set, and the mode does not change by it. |
| ConfigState.DefaultsReported | agent-source-code/internal/config/config.go:268-328 | What is reported, and completed to, when nothing is stored. |
| ConfigState.FileOverlays | agent-source-code/internal/config/config.go:158-264 | A key the file has is taken from it and an absent one keeps what is in memory, but for the host ID; an interval that is not positive becomes 60. |
| ConfigState.LoadTakesSwitches | agent-source-code/internal/config/config.go:158-264 | A load takes the plain switches the file has and turns missing ones off. |
| ConfigState.DefaultsLoaded | agent-source-code/internal/config/config.go:158-328 | What a file without integrations turns into, and the two spellings of on-demand. |
| ConfigState.LoadOutcome | agent-source-code/internal/config/config.go:158-264 | Which files load, which fail and keep everything, and that a missing one keeps everything too. |
| ConfigManager.Manager.SaveConfigLocked | agent-source-code/internal/config/config.go:443-506 | Refused while the last load failed; otherwise completes the integrations and replaces the file or leaves it alone. |
| ConfigManager.Manager.LoadConfig | agent-source-code/internal/config/config.go:158-264 | A missing, unreadable, empty or readable file gives the specified state; a config that was handed out is not changed. |
| ConfigManager.Manager.TakeDocument | agent-source-code/internal/config/config.go:188-252 | A readable file becomes a new config: overlaid, normalised, migrated. |
| ConfigManager.Manager.SetHostIDLocked | agent-source-code/internal/config/config.go:633-643 | On success a new config with the host ID is in place and saved; on failure the config object before it is back, its settings untouched. |
| ConfigManager.Manager.AdoptHostID | agent-source-code/internal/config/config.go:596-612 | Ignored, match, conflict or adopted, as specified. |
| ConfigManager.Manager.SetPatchmonServer | agent-source-code/internal/config/config.go:661-667 | Lifts the refusal, sets the server and saves. |
| ConfigManager.Manager.SetComplianceMode | agent-source-code/internal/config/config.go:895-919 | An unknown mode is refused after nesting; a known one is set and saved. |
| ConfigManager.Manager.SetIntegrationEnabled | agent-source-code/internal/config/config.go:786-804 | Compliance is switched inside its nested form, any other integration directly, then saved. |
| ConfigManager.Manager.SetUpdateInterval | agent-source-code/internal/config/config.go:646-654 | Positive intervals only, then saved. |
| ConfigManager.Manager.SetPackageCacheRefresh | agent-source-code/internal/config/config.go:681-693 | Known modes and ages from 1 to 1440 only, then saved. |
| ConfigState.UnreadableFileIsKept | agent-source-code/internal/config/config.go:443-446 | Over every sequence of operations: after a failed load the file stays as other programs left it, until a new server address or a load that does not fail. |
| ConfigState.WhoWritesUnreadable | agent-source-code/internal/config/config.go:158-264 | While a load failure stands, only a new server address or a load that can read the file writes it, and a failing load changes nothing else. |
| ConfigState.HostIDIsKept | agent-source-code/internal/config/config.go:594-643 | Over every sequence without explicit host ID commands and loads, a host ID that is set stays. |
| ConfigState.AdoptOnlyFillsIn | agent-source-code/internal/config/config.go:596-612 | Adopted exactly when none was set, the server's is valid and the save worked, and then the file carries it; otherwise settings and file stay. |
| ConfigState.FailedHostIDSave | agent-source-code/internal/config/config.go:633-643 | A failed host ID save restores everything but the shared integrations, and those too if and only if it was refused early or they were complete. |
| ConfigState.FailedWriteCompletes | agent-source-code/internal/config/config.go:633-643 | From the default config, a host ID save whose write fails leaves the shared integrations completed. |
| ConfigState.SavedLoadsBack | agent-source-code/internal/config/config.go:158-506 | Whatever is in memory, a saved config loads back with the same integrations and settings, defaults made explicit, version stamped; interval and host ID come back too if and only if the interval is positive and the host ID is trimmed and either empty, valid or not up for migration. |

## Left out

- Tool output scrapers, HTTP, WebSocket, COM, ACLs, signatures and the user interface.
- JSON, YAML and SHA-256: rows are modelled up to encoding, the config file as a decoded document. Viper's lower-casing of keys is not modelled.
- Unicode: lower-casing and white space are modelled on the ASCII range (and the two Latin-1 spaces); a char stands for a byte where the source works on bytes.
- User-facing texts: an item's message is one of the few that decide something, or `Detail`. Timestamps, heartbeats, posted batches and log output are not modelled.
- Item pointers: a pointer to an item is its position in the item list.
- sort.SliceStable and sort.Strings appear as the functions `StableSort.Sort` and `CanonicalRows.SortedStrings` with the laws the library promises; their in-place exchange of elements is not modelled.
- strings.Fields: the world file is given as its white-space-separated entries.
- Inner loops of one source function are often separate methods here, so that each has its own contract.
- RegistryMerge.MergeRegistryAndWinget: the caller's slice is a sequence, so the update of the caller's own array is not modelled; the match and used arrays are.
- WindowsPatchRun.PatchRun.Run: the two contexts are a stop flag and an expiry that only ever get set; the limits of single calls are part of the arbitrary answers.
- WindowsPatchRun.PatchRun.QueueApps: the listing of updatable apps is an arbitrary answer; winget's dry-run classification of exit codes is not reached by a run and is not modelled.
- WindowsUpdateCache.FreshReportIsSound: a COM failure that is reported keeps its packages as they came, restart-pending or not, as in the source.
- LineLogger.Logger.Emit: the removal of terminal controls is an unknown function.
- ConfigManager.Manager.LoadConfig: settings are copied by value, whereas the copy in config.go (line 190) shares the bool pointers of docker_update_check and apk_secdb with the config handed out before, so a decoder that writes through a pointer that is set would change that config too. The file path is fixed, credentials are not modelled, and a nil integrations map counts as an empty one.
- ConfigState.WhoWritesUnreadable: for the same reason, what a failing load may write through those shared pointers is outside the claim that it changes nothing else.
- The remaining setters (scan interval, on-demand switch) repeat the pattern of those modelled.
- InterfacesHash, DockerHash and ComplianceHash: sorts without deduplication, easier than the two modelled.
- The secdb download with its backoff and file cache, and the server's half of the hash comparison.
- WindowsPatchRun.RepeatedHidesFailure: gives a run for one plan with a repetition; that every plan with one has such a run is not stated, because backend answers are arbitrary and not chosen by the model.
