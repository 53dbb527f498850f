# zlog log rotation, modelled in Dafny

This project models the log-rotation engine of zlog (`src/rotater.c`). A
rotation runs in five steps:

1. It takes the rotater's lock.
2. It parses the archive specification (`prefix#<width><r|s>suffix`, or none)
   into a glob pattern, the offsets of the numeric field, a field width and a
   mode.
3. It lists the existing archives through glob(3), reads each match's
   generation index and keeps the records in an ordered list.
4. It runs one of two strategies:
   - SEQUENCE archives the base file under the next unused index and prunes
     the oldest archives beyond `max_count`;
   - ROLLING renumbers the archives upward, archives the base file as
     generation 0 and prunes past the limit.

   Either way, a fresh base file is opened and `dup2`'d onto the caller's
   descriptor.
5. It clears the single-use state and releases the lock.

The modules are:

- `Decimal` (decimal.dfy): `"%0*d"` rendering, the `"%d%n"` digit-run scan, and their round trip.
- `ArchiveSpec` (archive_spec.dfy): the parser. It comes in two forms: the source's bound checks as written, and the corrected checks.
- `Enumerator` (enumerator.dfy): `zlog_file_check_new`, `zlog_file_cmp`, sorted insertion, and the loop of `zlog_rotater_add_archive_files`.
- `FileSystem` (filesystem.dfy): the filesystem as a value `Disk`.
  - `files` maps path to file identity.
  - `slots` maps descriptor to file identity.
  - `nextId` is the identity the next created file gets.
  - `refused` is the set of calls the system fails.
  - A `Call` is a rename (which overwrites its target), an unlink, an open with `O_CREAT` followed by `dup2` onto a slot, or a stop on a name that does not fit its buffer. `Run` performs the calls in order and stops at the first failure.
- `Strategies` (strategies.dfy): each strategy's calls as a plan, `SeqPlan` or `RollPlan`, and properties of the plans.
- `Effects` (effects.dfy): what a successful run of a plan leaves on the disk.
- `RotaterClass` (rotater.dfy): the rotater record of `src/rotater_head.h` as a class.
  - It has a method per function: parse, add_archive_files, seq_files, roll_files, clean, lsmv, trylock, unlock, rotate.
  - Each method runs its filesystem calls one at a time and is proved equal to the run of its plan.
  - `Rotation` is the outcome of lsmv as a function.

External inputs become parameters:

- **glob(3)**: the function `expand` from pattern to `GlobResult`.
- **`MAXLEN_PATH`**: the parameter `maxLenPath`. Path buffers hold `maxLenPath + 1` bytes.
- **Filesystem**: the `Disk` value, which each rotation takes and returns.
- **`fcntl` lock and unlock**: `LockResult` and `released`.
- **Descriptor**: the integer `slot`.

## Model

| member | source | states |
|---|---|---|
| Decimal.Digits | src/rotater.c:191-194 | the `%d` text of a value has at least one character, only digits, and is one character exactly for values below 10 |
| Decimal.Zeros | src/rotater.c:191-194 | the zero padding of `%0*d` is n characters, all '0' |
| Decimal.DigitChar | src/rotater.c:191-194 | a digit value below 10 becomes a digit character whose code is '0' plus the value |
| Decimal.LeadingDigits | src/rotater.c:91 | counts the digits at the head of the text: all counted characters are digits, and the next character is not a digit |
| Decimal.ScanInt | src/rotater.c:91 | `%d%n` matches nothing exactly when the text does not start with a digit; otherwise it consumes exactly the leading digit run, which is non-empty |
| Decimal.ValueOfDigits | src/rotater.c:191-194 | the `%d` text of k reads back as k |
| Decimal.ValueOfZeros | src/rotater.c:191-194 | a run of padding zeros reads as 0 |
| Decimal.ValueIgnoresZeros | src/rotater.c:191-194 | zero padding in front of a digit run does not change its value |
| Decimal.RenderValue | src/rotater.c:191-194 | a `%0*d` field is all digits, at least `width` and at least one character long, and reads back as the value |
| Decimal.RenderInjective | src/rotater.c:191-194 | two values written at the same width give the same text only if they are equal |
| Decimal.LeadingDigitsOfConcat | src/rotater.c:91 | a digit run followed by text that does not start with a digit has exactly the run as its leading digits |
| Decimal.ScanRender | src/rotater.c:91-97 | scanning a `%0*d` field followed by a suffix that does not start with a digit gives the value back and consumes the whole field, which is at least `width` long |
| ArchiveSpec.FindMarker | src/rotater.c:404 | strchr: the position of the first '#', with no '#' before it |
| ArchiveSpec.ReadMarker | src/rotater.c:410-420 | a marker is accepted only when the character after '#' and the optional digits is 'r' (ROLLING) or 's' (SEQUENCE), and the mode matches that letter |
| ArchiveSpec.ReadMarkerFields | src/rotater.c:410-420 | a marker is read exactly when 'r' or 's' follows '#' and its digits; it then spans the digits and the letter, its mode follows the letter, and its width is the digits' value or, with no digits, the width held before |
| ArchiveSpec.PlaceField | src/rotater.c:422-452 | whatever it accepts keeps the marker's width and mode |
| ArchiveSpec.Parse | src/rotater.c:381-456 | an accepted layout is well formed: the field is one character, `'*'` at `start`; the pattern is prefix + `"*"` + suffix and fits the buffer; the mode is ROLLING or SEQUENCE |
| ArchiveSpec.ParseDefault | src/rotater.c:387-401 | no specification, or an empty one, gives `"<base>.*"`, ROLLING, width 0, offsets \|base\|+1 and \|base\|+2, prefix `"<base>."` and an empty suffix; it is refused exactly when that pattern does not fit |
| ArchiveSpec.ParseNeedsMarker | src/rotater.c:404-408 | a non-empty specification without '#' is refused |
| ArchiveSpec.ParseMarker | src/rotater.c:410-420 | without an 'r' or 's' after '#' and the digits, the parse is refused; otherwise the mode follows the letter, and the width is the digits' value or, when there are none, the width held before |
| ArchiveSpec.MarkerRefused | src/rotater.c:416-420 | when the character after '#' and its digits is missing or is neither 'r' nor 's', the parse is refused for want of a mode letter |
| ArchiveSpec.MarkerMode | src/rotater.c:416-419 | an accepted marked parse is ROLLING when the letter is 'r' and SEQUENCE otherwise |
| ArchiveSpec.MarkerWidth | src/rotater.c:410-415 | an accepted marked parse takes the width from the digits after '#', or keeps the width held before when there are none |
| ArchiveSpec.MarkerDecides | src/rotater.c:410-452 | a marked specification is refused when its marker is, and otherwise takes width and mode from the marker |
| ArchiveSpec.ParsePrefixed | src/rotater.c:422-439 | a '#' after a non-empty prefix: the result is accepted exactly when the mode letter is valid and prefix + `"*"` + rest fits; the pattern is then that text, with start = \|prefix\| and end = start+1 |
| ArchiveSpec.PrefixedAccepts | src/rotater.c:422-439 | with a non-empty prefix before '#', the parse is accepted exactly when the mode letter is valid and prefix + `"*"` + the text after the letter fits the buffer |
| ArchiveSpec.PrefixedPattern | src/rotater.c:429-439 | an accepted prefixed parse has pattern prefix + `"*"` + the text after the letter, start = \|prefix\| and end = start+1 |
| ArchiveSpec.PrefixedAffixes | src/rotater.c:429-439 | an accepted prefixed parse names archives with the text before '#' in front and the text after the mode letter behind |
| ArchiveSpec.PlaceFieldPrefixed | src/rotater.c:422-439 | placing the field after a non-empty prefix is accepted exactly when prefix + `"*"` + rest fits, and then gives that pattern, its offsets and its prefix and suffix |
| ArchiveSpec.ParseMarkerFirst | src/rotater.c:440-452 | a '#' at position 0 falls back to `"<base>.*"` and its offsets, with an empty suffix, and is accepted exactly when the letter is valid and the pattern fits |
| ArchiveSpec.ParseExampleMarkerOnly | src/rotater.c:440-452 | `"#5r"` on base `"x.log"` gives pattern `"x.log.*"`, offsets 6 and 7, width 5, ROLLING |
| ArchiveSpec.ParseExamplePrefixed | src/rotater.c:429-439 | `"pre#3s.log"` gives pattern `"pre*.log"`, offsets 3 and 4, width 3, SEQUENCE |
| ArchiveSpec.ExamplePattern | src/rotater.c:429-439 | `"pre#3s.log"` is accepted with pattern `"pre*.log"` and offsets 3 and 4 |
| ArchiveSpec.ExampleModeWidth | src/rotater.c:410-420 | `"pre#3s.log"`, when accepted, is SEQUENCE with width 3 |
| ArchiveSpec.AsWrittenAcceptsTruncatedGlob | src/rotater.c:391-396 | for every base path whose `"<base>.*"` is exactly the buffer's size, the parse as written is accepted with the pattern `"<base>."`, whose field end lies past the pattern; the corrected parser refuses the same input |
| ArchiveSpec.AsWrittenTruncatesSuffix | src/rotater.c:429-439 | when prefix + `"*"` + the text after the mode letter is exactly the buffer's size, the parse as written is accepted with that pattern minus its last character, field at the prefix's end |
| ArchiveSpec.IntendedRefusesFullPrefixed | src/rotater.c:429-439 | the corrected parser refuses a prefixed pattern that exactly fills the buffer |
| ArchiveSpec.AsWrittenTruncatesExample | src/rotater.c:429-439 | base `"x.log"`, specification `"pre#s.log"` and `MAXLEN_PATH` 7: as written the layout is `"pre*.lo"`, SEQUENCE, offsets 3 and 4; the corrected parser refuses it |
| Enumerator.CheckNewAccepts | src/rotater.c:69-104 | a match becomes a record exactly when it is not the base path, does not end in '/', and has, when the width is non-zero, at least `width` leading digits at the field offset; the index is the scanned value, or 0 when no digits lead |
| Enumerator.CheckNewSkipsBaseAndDirs | src/rotater.c:74-82 | the base path and directory entries are never records |
| Enumerator.NameReaccepted | src/rotater.c:91-97 | prefix + `%0*d` of k + a suffix that neither starts with a digit nor ends in '/' is read back as index k, unless it is the base path |
| Enumerator.WidthFilterExample | src/rotater.c:93-97 | at width 2, `"base.1.log"` is skipped and `"base.01.log"` is index 1 |
| Enumerator.SortAdd | src/rotater.c:147-148 | insertion adds exactly the new record to the list's contents |
| Enumerator.SortAddSorted | src/rotater.c:107-110 | inserting with the `>` comparator keeps the list non-decreasing |
| Enumerator.SortedCons | src/rotater.c:107-110 | a record ranking after no record of an ordered list may stand in front of it, and the list stays ordered |
| Enumerator.Collect | src/rotater.c:139-155 | the list is non-decreasing and holds exactly the accepted indices, duplicates included |
| Enumerator.CollectArchives | src/rotater.c:139-155 | the loop over the matches builds a list that is non-decreasing and holds exactly the accepted indices |
| Enumerator.Enumerate | src/rotater.c:121-127 | a glob error other than no-match is a failure; no match gives no records; otherwise the records are the accepted matches, in order |
| FileSystem.Perform | src/rotater.c:202-216 | a call succeeds exactly when it is not refused, is not a stop, and its rename or unlink source exists. An open leaves the slot referring to the file at the path, a new file when none existed; only an open changes slots; identities stay fresh |
| FileSystem.Run | src/rotater.c:165-254 | a run never changes which calls are refused, and keeps identities fresh |
| FileSystem.RunAppend | src/rotater.c:165-254 | running two call lists is running the first, then the second from where it left off, unless the first failed |
| FileSystem.RunCons | src/rotater.c:165-254 | a run is its first call, then the rest from where that call left off; a failing first call fails the run with nothing changed |
| FileSystem.RunSnoc | src/rotater.c:227-251 | after a successful run, running one more call gives that call's outcome |
| FileSystem.RunPrefixStep | src/rotater.c:227-251 | after a failure-free prefix, the run of one more call is that call's outcome |
| FileSystem.RunPrefixFails | src/rotater.c:227-251 | a failure in a prefix is the failure of the whole run, with the effects made before it |
| FileSystem.RunUnlinks | src/rotater.c:227-251 | a successful run of unlinks leaves the descriptors alone, removes every unlinked path and keeps every other path |
| FileSystem.RunKeepsMissing | src/rotater.c:227-251 | unlinks never bring a missing path back |
| FileSystem.UnlinksKeepPath | src/rotater.c:227-251 | unlinks that spare a path keep it, with its file, and leave every descriptor alone |
| FileSystem.ReopenThenUnlinks | src/rotater.c:207-216 | after a successful reopen of the base and unlinks that spare it, the slot refers to the file at the base path, which is new if the base path was missing |
| FileSystem.PerformRename | src/rotater.c:202-205 | a successful rename moves the source's file to the target, replacing what was there, removes the source and touches nothing else |
| FileSystem.NextIdIsNew | src/rotater.c:207-210 | the next identity handed out names no existing file |
| Strategies.ArchiveName | src/rotater.c:191-200 | a rendered name fits the buffer, starts with the layout's prefix and is at least as long as it; it is None when the text and its NUL would not fit |
| Strategies.SeqPruneCount | src/rotater.c:218-225 | SEQUENCE removes nothing without a positive max_count; otherwise it keeps min(count, max_count) records |
| Strategies.RollLimit | src/rotater.c:275-278 | without a positive max_count the ROLLING limit is the record count; with one it is the record count when that is below max_count, and max_count−1 otherwise |
| Strategies.NameInjective | src/rotater.c:191-194 | different generations never share an archive name |
| Strategies.NameReadBack | src/rotater.c:91-97 | an archive name written for generation k is accepted again by the enumerator as index k with at least `width` digits, when the suffix neither starts with a digit nor ends in '/' and the name is not the base path |
| Strategies.SeqNextAboveAll | src/rotater.c:178-188 | the SEQUENCE generation is above every listed index and at least the record count |
| Strategies.SeqPlanAt | src/rotater.c:189-251 | SEQUENCE renames the base file to name(j), reopens it, then unlinks the oldest count − max_count records in list order |
| Strategies.SeqKeepsNewArchive | src/rotater.c:227-251 | SEQUENCE never unlinks the archive it has just written |
| Strategies.RollPlanAt | src/rotater.c:283-375 | ROLLING renames positions limit−1 down to 0 from their stored index to position+1, renames the base file to name(0), reopens it, then unlinks positions from the last one down to limit+1 when max_count is positive |
| Strategies.NoPruneWithoutMaxCount | src/rotater.c:218-220 | with max_count ≤ 0 neither strategy unlinks anything |
| Strategies.RollBoundaryUntouched | src/rotater.c:348-375 | with distinct indices, the record at position limit is neither renamed away nor unlinked |
| Strategies.ShiftsSpareRecord | src/rotater.c:283-317 | with increasing indices, the shifts unlink nothing and never rename away the archive of a record at or past the limit |
| Strategies.DropsSpareRecord | src/rotater.c:352-375 | with increasing indices, the unlinks from position i on rename nothing and never unlink the archive of a record before i |
| Strategies.ShiftLeavesOthers | src/rotater.c:283-317 | a ROLLING shift renames no other generation's archive |
| Strategies.DropLeavesOthers | src/rotater.c:352-375 | an unlink of one generation removes no other generation's archive |
| Strategies.RollNoClobber | src/rotater.c:283-317 | with contiguous indices, no shift targets the name of a record still waiting to be shifted |
| Strategies.DropsUpAt | src/rotater.c:227-251 | the SEQUENCE unlinks are positions 0 .. hi−1, in that order |
| Strategies.ShiftsAt | src/rotater.c:283-317 | the ROLLING shifts are positions limit−1 down to i |
| Strategies.DropsDownAt | src/rotater.c:352-375 | the ROLLING unlinks are positions from the last one down to i |
| Effects.RunOkNoOverflow | src/rotater.c:195-200 | a successful run met no name that did not fit |
| Effects.MoveAndReopen | src/rotater.c:202-216 | after the move and the reopen, the old base file sits at the archive name, the base path is a new file, and every other path is unchanged |
| Effects.DropsUpEffect | src/rotater.c:227-251 | the SEQUENCE unlinks remove each pruned archive, leave descriptors alone and keep every other path |
| Effects.DropsUpOnlyUnlinks | src/rotater.c:227-251 | SEQUENCE pruning issues only unlinks, or a stop on a name that does not fit |
| Effects.DropsUpKeeps | src/rotater.c:227-251 | a path that is none of the pruned names survives the SEQUENCE unlinks with its file |
| Effects.SeqNextNotDropped | src/rotater.c:178-251 | the name SEQUENCE archives the base file under is none of the names it prunes |
| Effects.SeqSplit | src/rotater.c:189-216 | a successful SEQUENCE run is the move, the reopen, then the unlinks |
| Effects.SeqEffect | src/rotater.c:165-254 | a successful SEQUENCE rotation, with no archive name equal to the base path: the old base file is archived as generation j; the descriptor refers to a new base file; the pruned archives are gone; every other path is untouched |
| Effects.ShiftsEffect | src/rotater.c:283-317 | with contiguous indices, the shifts move each archive i .. limit−1 up one generation, empty generation i and change no other path |
| Effects.ShiftStep | src/rotater.c:283-317 | renaming generation i to i+1 after the shifts above i extends their effect to i: generation i is emptied, i+1 holds its old file, nothing else changes |
| Effects.DropsDownEffect | src/rotater.c:352-375 | the ROLLING unlinks remove each archive after the limit, leave descriptors alone and keep every other path |
| Effects.DropsDownOnlyUnlinks | src/rotater.c:352-375 | ROLLING pruning issues only unlinks, or a stop on a name that does not fit |
| Effects.RollSplit | src/rotater.c:283-346 | a successful ROLLING run is the shifts, the move, the reopen, then the unlinks |
| Effects.RollPlanParts | src/rotater.c:283-375 | a ROLLING plan is the shifts, then the move of the base file to generation 0, the reopen and the unlinks |
| Effects.RollPieces | src/rotater.c:283-346 | a successful ROLLING run is the shifts, which succeed, the move of the base file to generation 0, which succeeds, then the reopen and the unlinks |
| Effects.RollMoveEffect | src/rotater.c:283-335 | after the shifts and the move: the base path is empty; generation 0 holds the old base file; generations 1 .. limit hold the previous generations; every other path is untouched |
| Effects.RollEffect | src/rotater.c:257-378 | a successful ROLLING rotation with contiguous indices, whose rendered names fit and differ from the base path: the old base file is generation 0; archives 0 .. limit−1 each moved up one generation; the descriptor refers to a new base file; archives after the limit are gone; other paths are untouched |
| Effects.RollStages | src/rotater.c:283-375 | with contiguous indices, the shifts, the move, the reopen and the unlinks, each successful, leave the disk RollEffect describes |
| Effects.RolledFromStages | src/rotater.c:319-375 | given the disk after the shifts and the move, the reopen and the unlinks of everything after the limit leave the disk RollEffect describes |
| Effects.RollDropsKeep | src/rotater.c:348-375 | the ROLLING unlinks spare the base path and generations 0 .. limit, and remove every archive after the limit |
| Effects.RenamesSpare | src/rotater.c:283-317 | renames that neither take nor replace a path leave it and every descriptor as they were |
| Effects.ShiftsSpareBase | src/rotater.c:283-317 | the ROLLING shifts leave a base path that is no archive name as it was |
| Effects.DropsSpareBase | src/rotater.c:352-375 | the ROLLING unlinks never unlink a base path that is no archive name |
| Effects.RollSwapsDescriptor | src/rotater.c:257-378 | for any records, a successful ROLLING rotation leaves the base path naming a new file that the descriptor refers to |
| Effects.ShiftedKeepsBase | src/rotater.c:283-317 | the shifts leave the base path present exactly when it was, and never hand out an older identity |
| Effects.MoveAwayFromBase | src/rotater.c:319-335 | the move of the base file to another name leaves the base path empty; it existed before |
| Effects.SwapFromStages | src/rotater.c:336-375 | after the base file has been moved away, the reopen and unlinks that spare the base path leave it naming a new file that the descriptor refers to |
| RotaterClass.Rotation | src/rotater.c:474-514 | a parse failure or a glob failure fails before any filesystem call; a rotation changes no refusal and keeps identities fresh |
| RotaterClass.StrategyRun | src/rotater.c:495-507 | running the strategy of the parsed mode changes no refusal and keeps identities fresh |
| RotaterClass.RotationOfLayout | src/rotater.c:474-514 | once the parse and the listing succeed, the parsed layout is well formed and the rotation is the run of its strategy |
| RotaterClass.RotationSwapsDescriptor | src/rotater.c:474-514 | a successful rotation, in either mode and with no archive name equal to the base path, leaves the base path naming a new file that the caller's descriptor refers to; the base path existed before |
| RotaterClass.DefaultNamesAvoidBase | src/rotater.c:387-401 | with no specification, no archive name is the base path |
| RotaterClass.Rotater.CurrentLayout | src/rotater_head.h:21-26 | the layout fields describe a well-formed numeric field |
| RotaterClass.Rotater.constructor | src/rotater_head.c:47-56 | a zero-filled rotater, with the lock file and its descriptor when one is given |
| RotaterClass.Rotater.New | src/rotater_head.c:42-80 | a lock file that fails to open gives no rotater; otherwise the rotater is zero-filled and holds the lock file and descriptor only when a lock file is given |
| RotaterClass.Rotater.ParseArchivePath | src/rotater.c:381-456 | returns 0 exactly when the parse succeeds, and the layout fields then hold the parsed layout; on failure they are left as they were |
| RotaterClass.Rotater.AddArchiveFiles | src/rotater.c:112-163 | no match succeeds and keeps the list; any other glob error returns −1; otherwise the list becomes the ordered accepted records |
| RotaterClass.Rotater.SeqFiles | src/rotater.c:165-254 | returns 0 exactly when the SEQUENCE plan succeeds, and leaves the disk that plan's run leaves |
| RotaterClass.Rotater.DropOldestArchives | src/rotater.c:222-251 | the pruning loop of SEQUENCE succeeds exactly when the run of its unlinks does, with the same disk |
| RotaterClass.Rotater.RollFiles | src/rotater.c:257-378 | returns 0 exactly when the ROLLING plan succeeds, and leaves the disk that plan's run leaves |
| RotaterClass.Rotater.ShiftArchives | src/rotater.c:283-317 | the shift loop succeeds exactly when the shifts run does, with the same disk |
| RotaterClass.Rotater.DropArchivesAbove | src/rotater.c:352-375 | the pruning loop succeeds exactly when the unlinks run does, with the same disk |
| RotaterClass.Rotater.RunStrategy | src/rotater.c:495-507 | returns 0 exactly when the strategy of the current mode succeeds, −1 otherwise, and leaves that run's disk |
| RotaterClass.Rotater.Clean | src/rotater.c:458-472 | resets the paths, max_count, mode, width, offsets and list, and keeps the pattern buffer |
| RotaterClass.Rotater.Lsmv | src/rotater.c:474-514 | returns 0 exactly when Rotation succeeds, leaves its disk, and ends cleaned on every path |
| RotaterClass.Rotater.TryLock | src/rotater.c:517-549 | no lock file: granted, flag untouched. Flag already set: refused. Otherwise granted exactly when fcntl locks, and the flag stays set only then |
| RotaterClass.Rotater.Unlock | src/rotater.c:551-574 | no lock file: 0, flag untouched; otherwise the flag is cleared, and 0 exactly when fcntl unlocks and the flag was set |
| RotaterClass.Rotater.Rotate | src/rotater.c:576-607 | a missing base path returns −1; a lock not obtained returns 0 with nothing moved; otherwise the result is that of Rotation, whatever the unlock reports; with a lock file the flag ends clear |

## Left out

- glob(3) itself: the matches, the `/` that GLOB_MARK appends to directories, and the order of the matches are inputs (`expand`).
- `sscanf("%d")`:
  - leading white space and signs are not modelled; a field is a run of decimal digits;
  - int overflow is not modelled: indices and widths are unbounded naturals.
- The libc calls:
  - `snprintf` failing with a negative result is not modelled.
  - The return value of `dup2` is ignored, as in the source.
  - The file flags and permissions passed to `open` are not modelled.
  - What files contain is not modelled, only their identities.
- `ATOM_CASB` is not atomic in the model. It is a sequential flag transition, and concurrent callers are not modelled.
- The `lock_mutex`, and `pthread_mutex_init` failing in `zlog_rotater_new`, are not modelled.
- Allocation failures are not modelled: `calloc` in `zlog_file_check_new`, `zc_arraylist_new`, `zc_arraylist_sortadd`, and the list read `zc_arraylist_get` returning NULL.
- `zc_arraylist.c` is not part of this model. `zc_arraylist_sortadd` is taken to insert the new record in front of the first record that ranks after it.
- Logging (`zc_error`, `zc_warn`, `zc_debug`, src/zc_profile.c) and `zlog_rotater_profile` are not modelled; they are output only.
- `zlog_rotater_del` is not modelled: it only frees memory and closes the lock descriptor.
- RotaterClass.Rotater.ParseArchivePath: on failure the model leaves the layout fields as they were, while the source may already have written `mv_type`, `num_width` or a truncated `glob_path`. `zlog_rotater_lsmv` cleans up right after, so only `glob_path` could differ, and no later step reads it before the next successful parse rewrites it.
- RotaterClass.Rotater.ParseArchivePath, RotaterClass.Rotation: the rotater parses with the corrected bound, so it refuses (returns −1, moves nothing) a pattern that exactly fills the glob buffer. The source accepts that pattern with its last character cut off and goes on to rotate under the shortened names; ParseAsWritten and AsWrittenTruncatesExample capture that behaviour, and the class does not.
- Effects.RollEffect: assumes every record holds the index of its position (archives `0 .. n-1`), and that every generation the run names fits the buffer and is not the base path (each record's position, plus generation n when max_count does not cap the limit). RollSwapsDescriptor covers any records, but only for the base path and the descriptor.
- Effects.SeqEffect and RotaterClass.RotationSwapsDescriptor: both assume that no archive name is the base path. DefaultNamesAvoidBase proves this for the default specification. A prefixed specification can make them coincide.
- NULL `files` and an empty list are the same empty sequence; both strategies treat them alike.

## Findings

| source | as written | input that shows it | evidently intended | confidence | as-written member | corrected member |
|---|---|---|---|---|---|---|
| src/rotater.c:391-396 | the check after writing `"<base>.*"` (and likewise at lines 433 and 445) refuses only `nwrite > sizeof(glob_path)`, so a pattern of exactly the buffer's size is accepted after snprintf has dropped its last character | `MAXLEN_PATH` 3 (a 4-byte buffer), base path `"ab"`, no archive specification: the pattern becomes `"ab."` while `num_end_len` is 4, past the pattern's end | refuse `nwrite >= sizeof(glob_path)`, as every strategy's render check does | not executed | ArchiveSpec.AsWrittenAcceptsTruncatedGlob | ArchiveSpec.Parse |
