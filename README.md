# opkg core model in Dafny

This project models the deterministic core of opkg, a lightweight package manager
that hands dependency solving to libsolv. It covers the logic around the solver:

- **Version ordering.** `verrevcmp` and its character weights `order` implement the
  dpkg algorithm of section 5.6.12 ("Version") of the Debian Policy Manual.
- **Package state codecs.** These cover:
  - the want / flag / status word tables;
  - the comma-separated flag writer and reader;
  - the three-word "Status:" reader;
  - restoring a saved status line (`pkg_restore_status`);
  - the dependency-list formatter (`get_solv_dep`);
  - the installed-files reference count.
- **Solver-side bookkeeping** (`opkg_solv.c`). This covers:
  - the priority-sorted architecture vector and the `a>b>c` policy string built from it;
  - the flag-word → mode and mode → state tables;
  - the "not wanted in the status file" filter;
  - the `flag` command's overwrite of package states;
  - the mode → job-type route and the job-word decoration loop;
  - the unpacked → installed step after a successful configure.
- **The file-ownership table** (`pkg_hash.c`). It strips the offline-root prefix,
  and transferring a file's ownership marks both file lists dirty.
- **Cache paths and URLs** (`opkg_download.c`). This covers:
  - the `/` → `_` cache-name transform;
  - remote-protocol detection;
  - the `file:` short cut;
  - the signature URL;
  - the preamble of `opkg_download_pkg`.
- **The command table** (`opkg_cmd.c`). This covers:
  - exact-name lookup, including the underscore/hyphen aliases;
  - the argv → package-name list conversion;
  - the argument split of `flag`;
  - the mode each command passes on;
  - the filling of the architecture vector from the configured `arch` lines.

Modules, one per area:

| module | file | models |
|---|---|---|
| `Wrappers` | wrappers.dfy | `Option` (a NULL pointer is `None`) |
| `CStrings` | strings.dfy | joining, splitting, first-match removal from a string list |
| `Version` | version.dfy | `order`, `verrevcmp` |
| `PkgState` | state.dfy | the state word tables, the flag codec, the "Status:" reader |
| `Pkg` | pkg.dfy | `pkg_t` (class `Package`), `pkg_dest_t` (class `Dest`), status restore, `get_solv_dep`, installed-files count |
| `Solv` | solv.dfy | `opkg_solv_mode_t`, the arch vector (class `ArchVec`), mode tables, job decoration, flag overwrite, configure |
| `PkgHash` | pkghash.dfy | the file hash (class `FileHash`) |
| `Download` | download.dfy | cache paths, URL classification, signature URL, package download preamble |
| `Cmd` | cmd.dfy | the `cmds` table and the command wrappers |

Conventions:

- **Strings.** A C string is a Dafny `string` holding its characters before the
  terminator. Functions that walk past a string's end read `'\0'` there
  (`Version.At`).
- **Flags.** `state_flag` is a `bv32`.
- **Status and want words.** These are `int`, so that the `-1` of
  `pkg_state_from_mode` can be stored as the source stores it.
- **Constants.** The `SW_*`, `SS_*` and `SF_*` values come from opkg's `pkg.h`,
  which is not part of this model. The model uses opkg's values:
  - `SW_*` are 1–4 and `SS_*` are 1–8;
  - `SF_*` are single bits, plus `SF_CHANGED`;
  - `SF_NONVOLATILE_FLAGS` is hold | noprune | prefer | obsolete | user.

  The libsolv job constants come from libsolv's `solver.h`: `SOLVER_INSTALL` 0x100,
  `SOLVER_ERASE` 0x200, `SOLVER_UPDATE` 0x300, `SOLVER_DISTUPGRADE` 0x700,
  `SOLVER_CLEANDEPS` 0x40000 and `SOLVER_FORCEBEST` 0x100000.
- **Modes.** `MODE_STATUS` and `MODE_STATUS_INSTALLED` are used by `opkg_solv.c` and
  `opkg_cmd.c` but missing from the enum in `opkg_solv.h`. They are two extra
  constructors of `Solv.Mode`.

## Model

| member | source | states |
|---|---|---|
| Version.OrderEqual | libopkg/pkg.c:944-956 | order() gives two characters the same weight only when they are the same character, once one of them is a non-digit other than the terminator |
| Version.ScanNonDigits | libopkg/pkg.c:968-974 | the non-digit loop, run on the strings, ends in the same step as the reference definition: the difference of weights at the first mismatch, or the two equally advanced positions where neither side is in a non-digit run |
| Version.ScanZeros | libopkg/pkg.c:976-979 | the zero-skipping loop stops at the first character that is not '0' (the reference definition) |
| Version.ScanDigits | libopkg/pkg.c:980-991 | the digit loop ends in the same step as the reference definition: 1 or -1 for a longer run, else the first digit difference, else both positions after the runs |
| Version.VerRevCmp | libopkg/pkg.c:958-994 | the two-pointer comparison returns the reference comparison of the two versions, with a NULL side read as "" |
| Version.Round | libopkg/pkg.c:965-992 | every round that does not decide advances at least one side, unless both are already at their ends, so the comparison terminates |
| Version.RoundInString | libopkg/pkg.c:965-992 | every character a round steps over on either side lies inside that string, before its terminator |
| Version.Reflexive | libopkg/pkg.c:958-994 | verrevcmp(v, v) == 0 |
| Version.Antisymmetric | libopkg/pkg.c:958-994 | verrevcmp(r, v) == -verrevcmp(v, r) |
| Version.CompareIsKeyOrder | libopkg/pkg.c:944-994 | the sign of verrevcmp(v, r) is the lexicographic order of two integer keys, one per version. A key lists each non-digit's weight; each digit run gives 0, its length without leading zeros, then its digits; the end of the string reads as zeros |
| Version.Transitive | libopkg/pkg.c:958-994 | verrevcmp(a, b) <= 0 and verrevcmp(b, c) <= 0 give verrevcmp(a, c) <= 0, and < 0 when either premise is < 0 |
| Version.SameTransitive | libopkg/pkg.c:958-994 | versions that compare equal to a third compare equal to each other |
| Version.PrefixCancel | libopkg/pkg.c:965-992 | a common prefix without NUL that does not end inside a digit run continuing on both sides can be dropped from both versions without changing the result |
| Version.TildeFirst | libopkg/pkg.c:944-975 | after a common prefix, '~' sorts before anything else, the end of the string included |
| Version.TildeBeforeRelease | libopkg/pkg.c:944-975 | "1.0~rc1" < "1.0" |
| Version.EndBeforeNonDigit | libopkg/pkg.c:944-975 | a version sorts before the same version followed by any non-digit other than '~' |
| Version.LetterBeforeNonLetter | libopkg/pkg.c:944-975 | at the first difference in a non-digit run, a letter sorts before any other non-digit (other than '~' and the end) |
| Version.ZerosThenSame | libopkg/pkg.c:976-979 | leading zeros in front of a digit run are ignored |
| Version.LeadingZerosIgnored | libopkg/pkg.c:976-979 | inserting any number of zeros at the start of a numeric run does not change the order |
| Version.LeadingZeroExample | libopkg/pkg.c:976-991 | "1.01" equals "1.1" |
| Version.LongerNumberGreater | libopkg/pkg.c:980-989 | of two numbers without leading zeros, the one with more digits is greater (result 1) |
| Version.EqualLengthFirstDiff | libopkg/pkg.c:980-991 | of two numbers of equal length, the first differing digit decides, and the result is that digit difference |
| Version.NumericExample | libopkg/pkg.c:980-991 | "1.10" > "1.9" |
| PkgState.ScansFindEntry | libopkg/pkg.c:407-433 | in a table with distinct words and values, the scans by value and by word find an entry's word and value |
| PkgState.WantMapDistinct | libopkg/pkg.c:51-56 | the want table has distinct words and distinct values |
| PkgState.StatusMapDistinct | libopkg/pkg.c:69-78 | the status table has distinct words and distinct values |
| PkgState.WantRoundTrip | libopkg/pkg.c:407-433 | want to-string and from-string are inverse on every table entry, in both directions |
| PkgState.StatusRoundTrip | libopkg/pkg.c:501-527 | status to-string and from-string are inverse on every table entry, in both directions |
| PkgState.Fallbacks | libopkg/pkg.c:407-527 | an unknown word reads as SW_UNKNOWN / SS_NOT_INSTALLED; an out-of-table value prints as "<STATE_WANT_UNKNOWN>" / "<STATE_STATUS_UNKNOWN>" |
| PkgState.StrNCat | libopkg/pkg.c:463-464 | strncat appends the whole source when it fits within the bound |
| PkgState.TerminatedJoin | libopkg/pkg.c:461-470 | writing each name followed by a comma and then squashing the last comma gives the names joined by "," |
| PkgState.WriteNames | libopkg/pkg.c:452-470 | the strncat loop produces the names of the set flags, in table order, joined by "," |
| PkgState.FlagToStr | libopkg/pkg.c:440-472 | pkg_state_flag_to_str returns "ok" when no non-volatile flag is set, otherwise the joined names |
| PkgState.FlagWordsPrefixFree | libopkg/pkg.c:58-67 | no flag word is a prefix of another, so the prefix reader cannot confuse two of them |
| PkgState.NonVolatileInTable | libopkg/pkg.c:58-67 | every non-volatile flag has an entry in the flag table |
| PkgState.ReadEntry | libopkg/pkg.c:485-495 | one table step of the reader ORs in the entry's flag and steps over its word and comma, or stops at the end |
| PkgState.ReadNames | libopkg/pkg.c:484-496 | the reader loop computes the reference parse: a table walk that takes each entry whose word starts the rest, and stops after the first entry not followed by ',' |
| PkgState.FlagFromStr | libopkg/pkg.c:474-499 | pkg_state_flag_from_str returns SF_OK for "ok" and the reference parse otherwise |
| PkgState.ParseNames | libopkg/pkg.c:440-499 | reading back the written names of a flag word gives back that word masked to the table's flags |
| PkgState.FlagRoundTrip | libopkg/pkg.c:440-499 | flag_from_str(flag_to_str(sf)) == sf & SF_NONVOLATILE_FLAGS |
| PkgState.FlagOrderMatters | libopkg/pkg.c:484-496 | the reader walks the table once: "hold,noprune" gives both flags, "noprune,hold" only noprune |
| PkgState.FlagStringWord | libopkg/pkg.c:440-472 | a written flag string is one token of at most 63 characters without white space, so "%63s" reads it whole |
| PkgState.ScanToken | libopkg/pkg.c:534 | a "%63s" conversion that succeeds reads a non-empty token of at most 63 non-space characters |
| PkgState.ScanThreeWords | libopkg/pkg.c:534 | "%63s %63s %63s" reads back three words separated by spaces |
| PkgState.StatusValueRoundTrip | libopkg/pkg.c:529-543 | a status value written from table words parses back to the same want, the non-volatile flags and the same status |
| Pkg.Package.constructor | libopkg/pkg.c:83-127 | a new package wants nothing, has no flag, is not installed, and has no cached file list and a zero count |
| Pkg.Package.ParseStatusStr | libopkg/pkg.c:529-543 | the three states become the three words read, and all stay unchanged unless three tokens are read |
| Pkg.Package.RestoreStatus | libopkg/pkg.c:607-635 | returns 0 iff some line matches the name, arch and version prefixes, else -1; the states are those left by parsing every matching line in order |
| Pkg.RestoredNoMatch | libopkg/pkg.c:613-632 | with no matching line the states are unchanged |
| Pkg.RestoredLastMatch | libopkg/pkg.c:613-632 | the last matching line whose status parses decides the states; later lines that do not match, or match without three status words, change nothing |
| Pkg.PrefixFieldsIgnoresSeparator | libopkg/pkg.c:616-629 | as written, any character may follow each compared field: the version "1.0" matches a line for "1.0.1" |
| Pkg.ExactFieldsFindsOwnLine | libopkg/pkg.c:607-635 | corrected matcher: the line written for a package matches it and yields its status part |
| Pkg.ExactFieldsRejectsOthers | libopkg/pkg.c:607-635 | corrected matcher: a line written for a different name, arch or version never matches |
| Pkg.ExactFieldsNeedsSpace | libopkg/pkg.c:607-635 | corrected matcher: a field followed by anything other than a space does not match |
| Pkg.Package.GetInstalledFiles | libopkg/pkg.c:1089-1103 | the count goes up by one, and the cached list is returned when there is one, else the list read becomes the cache |
| Pkg.Package.FreeInstalledFiles | libopkg/pkg.c:1213-1225 | the count goes down by one, and the cache is dropped once the count is no longer positive |
| Pkg.Package.BorrowInstalledFiles | libopkg/pkg_hash.c:63-65 | a get followed by a free leaves the count as it was, and the cache stays only while the count is positive |
| Pkg.FormatDepRoundTrip | libopkg/pkg.c:652-670 | an entry "name rest" is shown as "name (rest)" and a bare name as itself; the form can be read back to the entry |
| Pkg.DepFieldEntries | libopkg/pkg.c:637-675 | the field is NULL iff nothing is shown (no entries, or only the self entry of provides); otherwise it is the shown entries joined by ", ", with the last entry dropped for provides |
| Pkg.DepEntry | libopkg/pkg.c:652-670 | one entry is rendered as the reference form |
| Pkg.GetSolvDep | libopkg/pkg.c:637-675 | the appending loop builds the reference field |
| CStrings.RemoveFirstSpec | libopkg/pkg_hash.c:64 | removing an element from a list drops exactly one occurrence when present and changes nothing otherwise |
| CStrings.SplitJoin | libopkg/opkg_solv.c:92-100 | splitting names joined by a separator they do not contain gives the names back |
| Solv.ModeWord | libopkg/opkg_solv.c:1435-1451 | each of the six flag words maps to its MODE_FLAG_* value |
| Solv.OtherWordRefused | libopkg/opkg_solv.c:1446-1451 | every other word maps to MODE_UNKNOWN |
| Solv.ModeStates | libopkg/opkg_solv.c:1247-1258 | each MODE_FLAG_* maps to its SF_* / SS_* value |
| Solv.ModeStateMapShape | libopkg/opkg_solv.c:1247-1254 | the mode → state table lists each mode once, and only flag modes |
| Solv.FlagModes | libopkg/opkg_solv.c:1244-1261 | a mode is a flag mode iff the flag-word table produces it, iff pkg_state_from_mode does not return -1 |
| Solv.FlagWordsAgree | libopkg/opkg_solv.c:1428-1452 | for a flag word, the state stored by the flag command equals what pkg.c's flag or status parser reads from the same word; any other word gives MODE_UNKNOWN and -1 |
| Solv.InsertPos | libopkg/opkg_solv.c:429-441 | the new architecture goes before the first entry of strictly greater priority, else at the end |
| Solv.InsertedShape | libopkg/opkg_solv.c:427-442 | the vector grows by one, the new entry sits at that position, and removing it gives back the old vector |
| Solv.InsertedAfterEqual | libopkg/opkg_solv.c:429-436 | in a sorted vector every entry of equal or lower priority stays in front of the new one |
| Solv.InsertedPermutes | libopkg/opkg_solv.c:427-442 | the new vector holds the old entries and the new one, nothing else |
| Solv.InsertedSorted | libopkg/opkg_solv.c:424-443 | inserting keeps the vector sorted by priority |
| Solv.ShiftRight | libopkg/opkg_solv.c:431-432 | the memmove shifts the entries from i up by one place, leaving the rest |
| Solv.Grow | libopkg/opkg_solv.c:427-428 | the realloc gives one more slot and keeps the entries |
| Solv.InsertAt | libopkg/opkg_solv.c:429-441 | the array holds the old front, the new entry, then the old tail |
| Solv.ArchVec.AddArch | libopkg/opkg_solv.c:424-443 | the vector's contents become the reference insertion of the new architecture |
| Solv.AddArchKeepsSorted | libopkg/opkg_solv.c:424-443 | after add_arch the vector is sorted and exactly one longer |
| Solv.ArchPolicyNames | libopkg/opkg_solv.c:88-103 | the policy string is NULL iff the vector is empty; otherwise splitting it at '>' gives the names in vector order |
| Solv.ArchVec.PrepareArch | libopkg/opkg_solv.c:88-103 | the strcat loop builds the reference policy string |
| Solv.SolvingModes | libopkg/opkg_solv.c:1342-1384 | exactly install, remove, upgrade and dist-upgrade reach the solver |
| Solv.SolveJobsDistinct | libopkg/opkg_solv.c:1372-1379 | the four solving modes get four different job types |
| Solv.FlagModesSetFlags | libopkg/opkg_solv.c:1365-1370 | the flag modes, exactly the modes with a state to store, return early through the flag overwrite |
| Solv.OnlyUnknownFails | libopkg/opkg_solv.c:1342-1384 | only MODE_UNKNOWN makes opkg_solv_process return -1 before solving |
| Solv.DecoratedJob | libopkg/opkg_solv.c:1401-1407 | a decorated job keeps its selection, carries SOLVER_CLEANDEPS iff autoremove and SOLVER_FORCEBEST iff not force_reinstall, and gets the job type (an empty update becomes an install) |
| Solv.DecorateJobs | libopkg/opkg_solv.c:1399-1408 | the loop decorates every even slot and leaves every odd slot alone |
| Solv.Overwrite | libopkg/opkg_solv.c:1288-1294 | installed/unpacked modes overwrite the status, other modes overwrite (not OR) the flag word, and the package's dest is marked changed |
| Solv.Visit | libopkg/opkg_solv.c:1280-1295 | one selection slot: an installed-repo package is overwritten and its dest marked, anything else is skipped |
| Solv.ProgressFinished | libopkg/opkg_solv.c:1280-1295 | once every slot is visited, each package is overwritten iff it is selected from the installed repo, and each dest is changed iff it was before or one of them lives there |
| Solv.OverwriteAll | libopkg/opkg_solv.c:1280-1295 | the loop visits every slot of the selection |
| Solv.SetInstalledPackagesFlag | libopkg/opkg_solv.c:1263-1298 | only selected installed-repo packages change, by the overwrite above; every other package keeps its states; dests are marked changed exactly for changed packages |
| Solv.StatusFileKeeps | libopkg/opkg_solv.c:536-546 | installed packages, packages wanted installed and held deinstalls are written; not-installed packages with unknown or purge want, or with deinstall want and no hold, are not |
| Solv.ConfiguredFlags | libopkg/opkg_solv.c:843-845 | configuring clears SF_PREFER, sets SF_CHANGED and keeps every other flag |
| Solv.ConfigureIfUnpacked | libopkg/opkg_solv.c:841-848 | an unpacked package that configures becomes installed with the configured flags; only its status and flag word may change, and they stay as they were otherwise; a failure counts only without an offline root |
| Solv.ConfigureOldPkgs | libopkg/opkg_solv.c:1005-1052 | returns 0 with no change in offline-root mode without force or without an installed repo; -1 when the intercepts cannot be prepared; otherwise it configures exactly the packages wanted installed and unpacked, and returns -1 iff finalizing fails or some configure failed without an offline root; only the status and flag word of installed packages may change |
| PkgHash.StripOfflineRoot | libopkg/pkg_hash.c:28-39 | the offline root is dropped exactly when the name starts with it; otherwise, or without a root, the name is unchanged |
| PkgHash.SameKey | libopkg/pkg_hash.c:41-57 | a name with and without the offline-root prefix addresses the same entry |
| PkgHash.MarkFileList | libopkg/pkg_hash.c:68-69 | SF_FILELIST_CHANGED is set and every other flag kept |
| PkgHash.RemoveListedFile | libopkg/pkg_hash.c:64 | the file is removed from the package's installed-files list, and nothing else of the package changes |
| PkgHash.FileHash.GetFileOwner | libopkg/pkg_hash.c:47-51 | the owner of the stripped name |
| PkgHash.FileHash.Remove | libopkg/pkg_hash.c:41-45 | the stripped name loses its owner, and every other name keeps its owner |
| PkgHash.FileHash.SetFileOwner | libopkg/pkg_hash.c:53-71 | the file is owned by the new package and other names keep their owners; with a previous owner the file leaves its list and both packages gain SF_FILELIST_CHANGED; with none, no package's flags change. Only flag words, file lists and their counts may change; every package except the previous owner keeps its list and count, and every package except the two keeps its flags |
| PkgHash.Disown | libopkg/pkg_hash.c:62-70 | the previous owner loses the file from its list and keeps its count; both packages gain SF_FILELIST_CHANGED; a distinct new owner keeps its list and count, and no want, status or local file name changes |
| PkgHash.SetThenGet | libopkg/pkg_hash.c:47-60 | after setting an owner, looking the file up, with or without the root prefix, gives that owner |
| PkgHash.RemoveThenGet | libopkg/pkg_hash.c:41-51 | after removal, looking the file up, with or without the root prefix, gives no owner |
| Download.CacheNameShape | libopkg/opkg_download.c:134-139 | the cache name has the length of the source, no '/', each '/' turned into '_', and every other character kept |
| Download.CacheNameMerges | libopkg/opkg_download.c:137-139 | sources that differ only by '/' against '_' share one cache name |
| Download.CachePathShape | libopkg/opkg_download.c:132-144 | the cache location is cache_dir + "/" + the cache name, and its part after cache_dir + "/" holds no '/' |
| Download.GetCacheLocation | libopkg/opkg_download.c:132-144 | the character loop builds the cache location |
| Download.CacheUrlExists | libopkg/opkg_download.c:152-164 | cache_url_exists returns the same string as get_cache_location |
| Download.UrlHasRemoteProtocol | libopkg/opkg_download.c:308-326 | returns 1 iff the URL starts with a remote protocol and 0 otherwise |
| Download.RemoteProtocols | libopkg/opkg_download.c:310-315 | the remote protocols are http://, ftp://, https:// and ftps:// |
| Download.FileNotRemote | libopkg/opkg_download.c:308-326 | a file: URL is not remote |
| Download.NotRemoteByInitial | libopkg/opkg_download.c:308-326 | a URL that does not start with 'h' or 'f' is not remote |
| Download.DownloadRoute | libopkg/opkg_download.c:106-124 | a file: source is copied locally with its 5-character prefix removed; any other source stops on an environment error or else reaches the backend unchanged |
| Download.LocalRoundTrip | libopkg/opkg_download.c:111-115 | "file:" + path is handled locally with exactly that path |
| Download.RemoteReachesBackend | libopkg/opkg_download.c:106-124 | a remote URL never takes the local branch and reaches the backend |
| Download.DownloadCache | libopkg/opkg_download.c:174-186 | the cache location on success, NULL on a download error |
| Download.SignatureUrl | libopkg/opkg_download.c:226-234 | NULL without a url; otherwise url + ".asc" when signature_type is exactly "gpg-asc", else url + ".sig" |
| Download.SignatureUrlExt | libopkg/opkg_download.c:229-234 | the signature URL is four characters longer, and ends in "asc" iff the type is "gpg-asc" |
| Download.PkgDownloadSignature | libopkg/opkg_download.c:220-240 | NULL without a url or on a download error, otherwise the cache location of the signature URL |
| Download.DownloadPkg | libopkg/opkg_download.c:248-269 | -1 with nothing changed without a url; otherwise local_filename first becomes the cache location of the url, and the result follows the two verifications and the download |
| Cmd.FindFromFirst | libopkg/opkg_cmd.c:1382-1388 | the scan returns the first entry at or after the start whose name equals the query, and none when there is none |
| Cmd.FindIsFirst | libopkg/opkg_cmd.c:1376-1389 | opkg_cmd_find returns the first entry with exactly that name, and NULL iff no entry has it |
| Cmd.CmdFind | libopkg/opkg_cmd.c:1376-1389 | the lookup loop returns the reference lookup, an entry with that exact name |
| Cmd.FoundFirst | libopkg/opkg_cmd.c:1382-1386 | a name carried by entry k and by no earlier entry is found at k |
| Cmd.ListInstalledAlias | libopkg/opkg_cmd.c:1340-1341 | list_installed and list-installed reach the same handler |
| Cmd.ListUpgradableAlias | libopkg/opkg_cmd.c:1342-1343 | list_upgradable and list-upgradable reach the same handler |
| Cmd.ListChangedConffilesAlias | libopkg/opkg_cmd.c:1344-1347 | list_changed_conffiles and list-changed-conffiles reach the same handler |
| Cmd.CompareVersionsAlias | libopkg/opkg_cmd.c:1358-1359 | compare_versions and compare-versions reach the same handler |
| Cmd.PrintArchitectureAlias | libopkg/opkg_cmd.c:1360-1361 | print-architecture and print_architecture reach the same handler |
| Cmd.PrintInstallationArchitectureAlias | libopkg/opkg_cmd.c:1362-1365 | both spellings of print-installation-architecture reach the print-architecture handler |
| Cmd.FindsListInstalledUnderscore | libopkg/opkg_cmd.c:1340 | "list_installed" is found at its own entry |
| Cmd.FindsListInstalledHyphen | libopkg/opkg_cmd.c:1341 | "list-installed" is found at its own entry |
| Cmd.FindsListUpgradableUnderscore | libopkg/opkg_cmd.c:1342 | "list_upgradable" is found at its own entry |
| Cmd.FindsListUpgradableHyphen | libopkg/opkg_cmd.c:1343 | "list-upgradable" is found at its own entry |
| Cmd.FindsListChangedConffilesUnderscore | libopkg/opkg_cmd.c:1344-1345 | "list_changed_conffiles" is found at its own entry |
| Cmd.FindsListChangedConffilesHyphen | libopkg/opkg_cmd.c:1346-1347 | "list-changed-conffiles" is found at its own entry |
| Cmd.FindsCompareVersionsUnderscore | libopkg/opkg_cmd.c:1358 | "compare_versions" is found at its own entry |
| Cmd.FindsCompareVersionsHyphen | libopkg/opkg_cmd.c:1359 | "compare-versions" is found at its own entry |
| Cmd.FindsPrintArchitectureHyphen | libopkg/opkg_cmd.c:1360 | "print-architecture" is found at its own entry |
| Cmd.FindsPrintArchitectureUnderscore | libopkg/opkg_cmd.c:1361 | "print_architecture" is found at its own entry |
| Cmd.FindsPrintInstallationArchitectureHyphen | libopkg/opkg_cmd.c:1362-1363 | "print-installation-architecture" is found at its own entry |
| Cmd.FindsPrintInstallationArchitectureUnderscore | libopkg/opkg_cmd.c:1364-1365 | "print_installation_architecture" is found at its own entry |
| Cmd.PkgNamesFromArgs | libopkg/opkg_cmd.c:60-71 | NULL for no arguments, otherwise the arguments in order, all of them |
| Cmd.Dispatch | libopkg/opkg_cmd.c:882-896 | flag fails with -1 on an unknown flag word, else passes its mode with the names after the first argument; the other wrappers pass their own mode with all their arguments |
| Cmd.InfoIsStatus | libopkg/opkg_cmd.c:717-789 | info and status both pass MODE_STATUS and the same names, whatever installed_only says |
| Cmd.FlagCommandMode | libopkg/opkg_cmd.c:882-896 | a flag command that reaches the solver carries a flag mode |
| Cmd.CommandModesAreJobs | libopkg/opkg_cmd.c:298-306 | the modes of the other command wrappers are neither flag modes nor MODE_UNKNOWN |
| Cmd.AtoiDigits | libopkg/opkg_cmd.c:56 | atoi reads a run of decimal digits as its value |
| Cmd.AtoiNegDigits | libopkg/opkg_cmd.c:56 | atoi reads a minus sign followed by digits as the negated value |
| Cmd.AtoiDecimal | libopkg/opkg_cmd.c:56 | atoi inverts the decimal form of a priority, with or without a minus sign |
| Cmd.AddedAllSorted | libopkg/opkg_cmd.c:51-58 | filling from the configured list keeps the arch vector sorted |
| Cmd.AddedAllPermutes | libopkg/opkg_cmd.c:51-58 | filling adds exactly the configured architectures, each with priority atoi(value), and keeps those already there |
| Cmd.PopulateArchList | libopkg/opkg_cmd.c:51-58 | the vector's contents become the configured architectures added in list order |

## Left out

- **libsolv.** Solving, transactions, selection making, recommends, excludes and the
  pool are foreign code. The model stands in for them as follows:
  - the selection of `set_installed_packages_flag` is a sequence of optional packages
    (`None` marks a solvable without a package);
  - whether a package is in the installed repo is a field;
  - `pool_isemptyupdatejob` is a boolean per job.
- **Solv.DecoratedJob.** `emptyUpdate` is a parameter. The test
  `opmode & SOLVER_UPDATE` also passes for install, erase and dist-upgrade jobs, and
  the lemma states what the XOR would then do. Whether libsolv ever reports an empty
  update for such a job is not modelled.
- **Callers of the verification and download results.** `pkg_verify`, the backend
  download and the `file:` copy are left out; their results are parameters of
  `Download.DownloadPkg`, `Download.DownloadCache` and `Download.DownloadRoute`.
  `opkg_download`, `opkg_download_pkg_to_dir`, `opkg_download_set_env` and
  `opkg_download_file` are I/O.
- **File, process and terminal I/O.** This covers reading `status_tmp` and the file
  lists (the lines read are parameters), writing status files, running maintainer
  scripts (`opkg_configure` results are parameters), messages, and the SIGINT
  handler.
- **The remaining command handlers.** The handlers of `opkg_cmd.c` other than those
  with a mode (update, clean, configure, search, download, the `what*` queries and
  so on) are outside the core. The model records them as `Elsewhere`.
- **Code under `#if 0`.** `pkg_compare_versions_no_reinstall` (with the epoch and
  revision split), `pkg_version_satisfied` and `pkg_merge` have no live body. They are
  not modelled.
- **`get_packages_from_selection`.** It depends on libsolv's `solvable_identical`
  and `pool_evrcmp`, so it is not modelled.
- **Cmd.Atoi.** The overflow of atoi() on more digits than an `int` holds is not
  modelled; the value is unbounded.
- **PkgState.FlagToStr.** The buffer sizing is not modelled: the model appends
  whole strings, which is what `strncat` does when the computed length suffices.
- **CStrings.RemoveFirst.** This is the first-match removal of `str_list_remove_elt`.
  libopkg/str_list.c is not part of this model.
- **PkgHash.RemoveListedFile.** When the previous owner's file list could not be
  extracted, `pkg_get_installed_files` returns NULL. `file_hash_set_file_owner` then
  hands that NULL to `str_list_remove_elt`, whose body is outside this model. The model
  treats a missing list (`None`) as a no-op, so `PkgHash.ListAfterTransfer` keeps it `None`.
- **Pkg.Package.RestoreStatus.** A line that ends exactly at a compared field makes
  the C code step past the terminator. The model reads that position as the empty
  string.
- **Version.VerRevCmp.** `char` is taken as signed and characters as single bytes.
  Wide characters outside 0–255 get the weight 256 + code.
- **Aliasing of the file hash.** The hash table lives in a global configuration; it is
  the `FileHash` object's `table` field.

## Findings

| source | as written | input that shows it | evidently intended | confidence | as-written member | corrected member |
|---|---|---|---|---|---|---|
| libopkg/pkg.c:613-629 | each of name, architecture and version is compared with `strncmp` over its own length, and then one character is skipped whatever it is | package foo, all, 1.0 against the line "foo all 1.0.1 install ok installed": the version "1.0" matches, and the status words read are "1", "install" and "ok" | a field matches only when it is followed by a space, so only the package's own line matches | not executed | Pkg.PrefixFieldsIgnoresSeparator | Pkg.ExactFieldsRejectsOthers |
