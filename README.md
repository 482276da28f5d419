# chezmoi actual state, command helpers and the `state` command, in Dafny

This project models three parts of chezmoi, the dotfile manager:

- **Actual-state entries** (`internal/chezmoi/actualstateentry.go`). One
  filesystem inspection, either an error or a file mode, is classified as
  `Absent`, `Dir`, `File` or `Symlink`. Any other file type is rejected with
  `UnsupportedFileType`. Each entry projects to a comparable `EntryState`
  descriptor and knows how to remove itself. The `System` capability is a
  class holding a filesystem map, a fault table and call counters. The lazy
  contents and link-name cells are compute-once classes. SHA-256 is a
  function parameter.
- **Command helpers** (`cmd/util.go`):
  - `firstNonEmptyString`, `parseBool`, `titleize` and `isWellKnownAbbreviation`;
  - UPPER_SNAKE_CASE to camelCase conversion, for single strings and for map keys;
  - `uniqueAbbreviations`;
  - `validateKeys` over nested maps and lists, with the key regexp given as a predicate.

  The loops of the Go code are methods with loop invariants. Some are proved
  against a specification function whose properties are proved separately:
  `UpperSnakeCaseToCamelCase` against `CamelCase`, `UniqueAbbreviations`
  against `Holders`, and `ValidateKeys` against `KeysValid`. The others state
  their property directly in their postconditions: `FirstNonEmptyString` and
  `UpperSnakeCaseToCamelCaseMap`.
- **The `chezmoi state` command** (`cmd/statecmd.go`). The `get`, `set`,
  `delete`, `data` and `dump` handlers forward to a bucketed store. The
  store maps bucket bytes to key bytes to value bytes. `reset` is modelled
  as a stat, then a force check, then a yes/no prompt, then removal. The
  prompt answer and output failures are inputs. The persistent-state mode
  annotations of the subcommands are modelled too.

Modules, one per file: `Wrappers` (Option/Result), `FileModes` (Go's
`io/fs` mode bits), `Errors`, `Systems` (the filesystem capability), `Lazy`
(compute-once cells), `ActualState`, `Strings` (the Go `strings`
functions the helpers use), `Util`, `PersistentStates` (the store) and
`StateCmd`.

## Model

| member | source | states |
|---|---|---|
| ActualState.NewActualStateEntry | internal/chezmoi/actualstateentry.go:41-81 | With no `info`, `Lstat(absPath)` is called exactly once. With an `info`, nothing is called and the supplied info/err pair is classified. The entry's shape is `Classify` of that inspection. Construction never calls `ReadFile` or `Readlink` and does not change the filesystem. A new entry has the given path. Its cells are fresh, unforced, bound to this system and path, and read the file (File) or the link (Symlink). |
| ActualState.Classify | internal/chezmoi/actualstateentry.go:45-80 | The result is Absent exactly when the error is "does not exist". Any other error is returned unchanged. Success holds exactly when the type bits are 0, `ModeDir` or `ModeSymlink`. Otherwise the error is `UnsupportedFileType(absPath, full mode)`. File and Dir `perm` is `mode & ModePerm` and carries no type bits. |
| ActualState.EntryOfMode | internal/chezmoi/actualstateentry.go:54-80 | The type switch builds the entry whose shape is `Classify` of the mode. Cells are fresh and unforced. |
| ActualState.TypeBitsSelectVariant | internal/chezmoi/actualstateentry.go:54-80 | Type bits 0 give File, `ModeDir` gives Dir and `ModeSymlink` gives Symlink, each as an if-and-only-if. Every other type value is rejected with the unmasked mode. |
| ActualState.UnsupportedKindsRejected | internal/chezmoi/actualstateentry.go:75-79 | Named pipes, sockets, devices, character devices and irregular files are rejected with `UnsupportedFileType` carrying the path and the full mode, whatever the other bits are. |
| ActualState.SpecialBitsDropped | internal/chezmoi/actualstateentry.go:58-66 | For every mode whose type bits are 0 or `ModeDir`, the entry is built, and none of the setuid, setgid, sticky or append bits is in its `perm`. |
| ActualState.ActualStateEntry.EntryState | internal/chezmoi/actualstateentry.go:84-161 | Absent gives `{Type: Remove}` and Dir gives `{Type: Dir, Mode: ModeDir \| perm}`. Neither fails. File and Symlink give `ExpectedEntryState` of their kind and their forced cell's result. Each cell is fetched at most once: a cached value is kept, and an unforced cell takes the system's answer. A File raises only the `ReadFile` counter, by one on its first call. A Symlink raises only the `Readlink` counter. |
| ActualState.CellEntryState | internal/chezmoi/actualstateentry.go:119-161 | Forcing the cell of a file or symlink gives `ExpectedEntryState` of the cell's fetched result: a fetch error is returned as is, otherwise the descriptor with the bytes and their digest. The cell's fetch runs only if it was unforced. |
| ActualState.FileEntryStateMode | internal/chezmoi/actualstateentry.go:119-134 | For a regular file whose contents read successfully, the descriptor is `{Type: File, Mode: mode & ModePerm, ContentsSHA256: hash(contents), contents}`. |
| ActualState.SymlinkEntryStateOf | internal/chezmoi/actualstateentry.go:147-161 | A symlink inspection classifies as a symlink. When its target reads successfully, the descriptor is `{Type: Symlink, ContentsSHA256: hash(linkname), contents: linkname}` with no mode. |
| ActualState.ExpectedEntryState | internal/chezmoi/actualstateentry.go:84-161 | The descriptor each variant's `EntryState` returns, given the cell's fetch result. Its properties are the `EntryStateOutcomes`, `FileEntryStateMode`, `DirEntryStateMode` and `SymlinkEntryStateOf` lemmas. |
| ActualState.FileEntryState | internal/chezmoi/actualstateentry.go:119-134 | A fetch error is returned as is. Otherwise the File descriptor carries the perm, the digest and the contents. Its properties are in `EntryStateOutcomes` and `FileEntryStateMode`. |
| ActualState.SymlinkEntryState | internal/chezmoi/actualstateentry.go:147-161 | A fetch error is returned as is. Otherwise the Symlink descriptor carries the digest and the link target. Its properties are in `EntryStateOutcomes` and `SymlinkEntryStateOf`. |
| ActualState.DirEntryStateMode | internal/chezmoi/actualstateentry.go:101-106 | For a directory, the descriptor's mode is `ModeDir \| (mode & ModePerm)`, which is `mode & (ModeType \| ModePerm)`. |
| ActualState.EntryStateOutcomes | internal/chezmoi/actualstateentry.go:84-161 | Absent and Dir never fail and carry no contents. File and Symlink fail exactly when their fetch fails, with that error. Otherwise they carry the fetched bytes and `hash` of them. The descriptor type matches the variant. |
| ActualState.EntryStateTwice | internal/chezmoi/actualstateentry.go:119-127 | Asking an entry twice gives the same answer both times and reads the filesystem at most once. |
| ActualState.ActualStateEntry.Remove | internal/chezmoi/actualstateentry.go:95-116 | Absent returns nil and touches nothing. Dir, File and Symlink (lines 141-144 and 168-171 too) call `RemoveAll` once, on their own path only, and return its error. The filesystem becomes `RemoveAll`'s result. |
| Lazy.LazyBytes.Get | internal/chezmoi/actualstateentry.go:59-73 | The first call runs the captured `ReadFile`/`Readlink` of the path and caches the result. Later calls return the cached result without touching the system. |
| Lazy.LazyBytes.Digest | internal/chezmoi/actualstateentry.go:124-127 | The digest is `hash` of the cached bytes, or the fetch error. It forces the cell at most once. |
| Systems.System.Lstat | internal/chezmoi/actualstateentry.go:43 | Returns the fault, `NotExist` or the entry's mode. Increments the Lstat counter only. |
| Systems.System.RemoveAll | internal/chezmoi/actualstateentry.go:115 | Removes the path and everything below it, unless a fault is injected. Appends the path to the removal log and returns the fault. |
| Systems.RemoveTree | internal/chezmoi/actualstateentry.go:115 | Keeps exactly the paths outside the removed subtree, unchanged. The empty path holds nothing. |
| Systems.RemoveTreeIdempotent | internal/chezmoi/actualstateentry.go:115 | A non-empty removed root is gone and other paths remain. Removing twice is the same as removing once. Removing the empty path changes nothing, as with Go's `os.RemoveAll("")`. |
| Systems.System.Stat | cmd/statecmd.go:165 | Returns the fault, `NotExist` or the entry's mode. Increments the Stat counter only. |
| Systems.System.ReadFile | internal/chezmoi/actualstateentry.go:60 | Returns the fault, `NotExist`, a failure for a directory, or the file's bytes. Increments the ReadFile counter only. |
| Systems.System.Readlink | internal/chezmoi/actualstateentry.go:72 | Returns the fault, `NotExist`, a failure for a non-symlink, or the link target. Increments the Readlink counter only. |
| ActualState.ActualStateEntry.Path | internal/chezmoi/actualstateentry.go:90-93 | The construction path, for every variant (also lines 108-111, 136-139 and 163-166). `NewActualStateEntry`'s contract states that a new entry's `Path()` is the path it was built for. |
| Util.FirstNonEmptyString | cmd/util.go:72-79 | The result is "" exactly when every argument is empty, including when there are none. Otherwise it is an argument all of whose predecessors are empty. |
| Util.IsWellKnownAbbreviation | cmd/util.go:101-104 | True exactly for "ANSI", "CPE", "ID" and "URL" (the set at cmd/util.go:22-28). |
| Util.ParseBool | cmd/util.go:108-117 | A trimmed, lowercased n/no/off gives false and on/y/yes gives true, before the fallback is consulted. Any other word gives exactly `strconv.ParseBool` of the original, untrimmed string. Every failure is a syntax error carrying the original string. |
| Util.StrconvParseBool | cmd/util.go:115 | Succeeds exactly on strconv's twelve spellings (1, t, T, TRUE, true, True, 0, f, F, FALSE, false, False). The value is true exactly for the first six. Every other input is a syntax error on that input. |
| Util.StrconvValueIsFirstCharacter | cmd/util.go:115 | On success, the value is true exactly when the spelling starts with 1, t or T. |
| Util.ParseBoolAccepts | cmd/util.go:108-117 | `parseBool` succeeds exactly when the trimmed, lowercased input is one of n/no/off/on/y/yes or the untrimmed input is one of strconv's spellings. A failure is a syntax error on the original string. |
| Util.ParseBoolIgnoresCaseAndSpace | cmd/util.go:109-113 | Any surrounding whitespace and any ASCII case of n/no/off gives false, and of on/y/yes gives true. |
| Util.ParseBoolFallbackIsUntrimmed | cmd/util.go:115 | The fallback sees the untrimmed string, so " true" is a syntax error. |
| Util.ParseBoolFallbackIsCaseSensitive | cmd/util.go:115 | The fallback is not lowercased, so "tRUE" is a syntax error. |
| Util.Titleize | cmd/util.go:120-126 | "" stays "". Otherwise the length is kept, the first rune is title-cased and the rest is unchanged. |
| Util.TitleizeIdempotent | cmd/util.go:120-126 | Titleizing twice is titleizing once. |
| Util.UpperSnakeCaseToCamelCase | cmd/util.go:130-140 | The in-place rewrite of the split words computes `CamelCase`: the first word is lowercased, later abbreviations are kept, other later words are lowercased then titleized, and all are joined with nothing. |
| Util.CamelCase | cmd/util.go:130-140 | The specification of the conversion: split on '_', convert word i by `CamelWord`, concatenate. Its properties are the `CamelCase*` lemmas below. |
| Util.CamelWords | cmd/util.go:132-138 | Word i of the result is the conversion of word i of the input, and the count is kept. |
| Util.CamelCaseOfTwoWords | cmd/util.go:131-139 | "a_w" becomes the lowercased a followed by w kept (abbreviation) or title-cased. |
| Util.CamelCaseOfOneWord | cmd/util.go:131-139 | A string without '_' is just lowercased. |
| Util.CamelCaseAppend | cmd/util.go:131-139 | Appending "_w" appends the conversion of w as a later word. |
| Util.CamelCaseDropsUnderscores | cmd/util.go:130-140 | The result has no '_', and its length is the input's minus the number of '_'. |
| Util.CamelCaseKeepsLaterAbbreviation | cmd/util.go:135 | "GITHUB_ID" becomes "githubID". |
| Util.CamelCaseLowersFirstAbbreviation | cmd/util.go:133-134 | "ID_URL" becomes "idURL": the first word is lowercased even when it is an abbreviation. |
| Util.CamelCaseNotInjective | cmd/util.go:130-140 | "A_B" and "A__B" both become "aB", so different keys can collide. |
| Util.UpperSnakeCaseToCamelCaseMap | cmd/util.go:166-172 | The output keys are exactly the conversions of the input keys. Each carries the value of some input key that converts to it. There are no more keys than in the input. |
| Util.ImageNoLarger | cmd/util.go:166-172 | Converting a set of keys never gives more keys. |
| Util.UniqueAbbreviations | cmd/util.go:144-162 | Every value maps to itself. Any other key is present exactly when it is a non-empty prefix of exactly one occurrence in the input, and it maps to that occurrence. |
| Util.AbbreviationTable | cmd/util.go:145-151 | The nested loops list under each non-empty prefix exactly the input occurrences it abbreviates, in input order, and no other key. |
| Util.SingleHolders | cmd/util.go:152-157 | Exactly the abbreviations with one holder are kept, each mapped to that holder. |
| Util.AddValues | cmd/util.go:158-160 | Every value is added mapped to itself. Other keys keep their entries. |
| Util.HoldersAbbreviate | cmd/util.go:146-150 | Every value listed under an abbreviation is an input value that starts with it. |
| Util.UniqueAbbreviationIsUniquePrefix | cmd/util.go:153-157 | A non-value key in the result is a prefix of the value it maps to and of no other occurrence. |
| Util.SharedPrefixIsDropped | cmd/util.go:153-160 | A prefix shared by two occurrences, including a value listed twice, is absent unless it is itself a value. |
| Util.KeysValidIffEveryKeyMatches | cmd/util.go:175-194 | The recursive validity check holds exactly when every map key at every depth matches. |
| Util.ValidateKeys | cmd/util.go:175-194 | No error exactly when every nested map key matches. Scalars are always accepted. An error is `InvalidKey` of a key that occurs in the data and fails the match. |
| Strings.JoinSplit | cmd/util.go:131-139 | Joining the split pieces with the separator gives back the input. |
| Strings.SplitPieces | cmd/util.go:131 | No piece contains the separator. There is one more piece than separators. The pieces' lengths add up to the input length minus the separators. |
| Strings.Split | cmd/util.go:131 | `strings.Split` on a one-rune separator always yields at least one piece. Its pieces are described by `JoinSplit` and `SplitPieces`. |
| Strings.TrimSpaceDropsSpace | cmd/util.go:109 | `strings.TrimSpace` gives the middle of the input between two all-white-space margins. The result neither starts nor ends with white space. |
| Strings.TrimLeftSpaceDropsSpace | cmd/util.go:109 | Trimming on the left leaves a suffix that does not start with white space and drops only white space. |
| Strings.TrimRightSpaceDropsSpace | cmd/util.go:109 | Trimming on the right leaves a prefix that does not end with white space and drops only white space. |
| Strings.ConcatLength | cmd/util.go:139 | `strings.Join(words, "")` is as long as the words together. |
| Strings.ToLower | cmd/util.go:109 | Lowercasing keeps the length and maps each rune by the ASCII lowercase map. |
| PersistentStates.SetGetDelete | cmd/statecmd.go:143-185 | After a set, get of that key gives the value. After a delete it gives nothing. Other keys are unaffected. |
| PersistentStates.PersistentState.Get | cmd/statecmd.go:156 | Returns the store fault, or the value stored under the bucket and key (none if absent). |
| PersistentStates.PersistentState.Data | cmd/statecmd.go:136 | Returns the store fault or the whole bucket map. |
| PersistentStates.PersistentState.Set | cmd/statecmd.go:184 | Fails with the fault or, on a read-only store, with `ReadOnlyDatabase`, changing nothing. Otherwise it writes the value, creating the bucket. |
| PersistentStates.PersistentState.Delete | cmd/statecmd.go:144 | Fails like `Set`. Otherwise it removes the key and keeps the bucket. |
| StateCmd.Config.RunStateDataCmd | cmd/statecmd.go:135-141 | A store error is returned with no output. Otherwise the store's data is marshalled in the `data` format, and the output error is returned. |
| StateCmd.Config.RunStateDeleteCmd | cmd/statecmd.go:143-145 | The delete flags' bucket and key go to the store unchanged. The store's error is returned. |
| StateCmd.Config.RunStateDumpCmd | cmd/statecmd.go:147-153 | A store error is returned with no output. Otherwise the dump is marshalled in the `dump` format. |
| StateCmd.Config.RunStateGetCmd | cmd/statecmd.go:155-161 | A store error is returned with no output. Otherwise exactly the stored value is written (nothing for a missing key), and the output error is returned. |
| StateCmd.Config.RunStateSetCmd | cmd/statecmd.go:183-185 | The set flags' bucket, key and value go to the store unchanged. The store's error is returned. |
| StateCmd.Config.RunStateResetCmd | cmd/statecmd.go:163-181 | The state file is stat'ed once. The user is prompted "Remove <path>" with yes/no exactly when the file exists and the command is not forced. The result is `ResetDecision`: either an early return with the file untouched, or `RemoveAll(path)` with its error. |
| StateCmd.ResetDecision | cmd/statecmd.go:164-180 | The decision of `reset` from the stat result, the force flag and the prompt answer. Its properties are the two lemmas below. |
| StateCmd.ResetRemovesOnlyWithConsent | cmd/statecmd.go:164-180 | The file is removed exactly when it exists and the command is forced or the answer is not "no". A missing file gives nil with no prompt. |
| StateCmd.ResetErrorsPassThrough | cmd/statecmd.go:166-177 | Every error returned without removal is the stat's or the prompt's, unchanged. "no" returns nil. |
| StateCmd.AnnotationOf | cmd/statecmd.go:57-124 | `reset` alone modifies the destination directory. `set` and `delete` are exactly the read-write subcommands, and `data`, `dump` and `get` exactly the read-only ones. |
| StateCmd.Config.WriteOutput | cmd/statecmd.go:160 | Appends exactly the given bytes to the output and returns the output error. |
| StateCmd.Config.Marshal | cmd/statecmd.go:140 | Appends the format and the data handed over to the output and returns the output error (also line 152). |
| StateCmd.Config.Run | cmd/statecmd.go:57-124 | Read-only-annotated subcommands (data, dump, get) never call Set or Delete and leave the store unchanged. `reset` leaves the store alone and is the only subcommand that changes the filesystem. Only read-write-annotated subcommands (set, delete) write to the store, and they succeed on a read-write store that does not fail. |
| StateCmd.Config.PromptChoice | cmd/statecmd.go:172 | Records the prompt and returns the user's answer. |

## Left out

- `newGitHubClient`, `defaultConfigFile` and `defaultSourceDir` (cmd/util.go:38-98). These are environment lookup, network client construction and XDG directory probing, not logic of the modelled core.
- The Cobra command tree and flag registration in `newStateCmd`. Only the annotations are modelled (`StateCmd.AnnotationOf`).
- JSON/YAML serialisation in `marshal` and `writeOutput`. The model records the format and data handed over, and an output failure is an input.
- SHA-256 is a parameter `hash`. The hex encoding of `HexBytes` is not modelled.
- The internals of `lazyContents`/`lazyLinkname` are not part of this model. They are modelled as compute-once cells that cache the fetch result and the digest.
- `Strings.ToLower` and `Util.Titleize` map ASCII letters only. The full-Unicode `unicode.ToTitle` and `strings.ToLower` are not modelled. `strconv.ParseBool` is modelled by its fixed list of spellings.
- Util.UniqueAbbreviations: prefixes are taken per rune, while Go slices bytes (`value[:i]`). The two agree on ASCII values. For non-ASCII values, Go also produces byte prefixes that split a rune.
- Go strings are byte strings, and those holding invalid UTF-8 cannot be represented here. The helpers' strings are sequences of runes. In the source, `[]rune(s)` in `titleize` and `strings.ToLower` turn such bytes into U+FFFD. That conversion is not modelled.
- `Data` stands for `map[string]interface{}`, `[]interface{}` and everything else. Other map types, such as `map[string]string` or YAML's `map[interface{}]interface{}`, are `Scalar` values that `validateKeys` does not descend into, as in the source.
- The key regexp of `validateKeys` is an arbitrary predicate `matches`. The order in which Go visits map keys is random, so for a map with several bad keys the model promises only that some bad key is reported.
- Systems.System.Stat: it is modelled like `Lstat` and does not follow symbolic links.
- Systems.System.RemoveAll: an injected fault removes nothing. Partial removal is not modelled.
- The store behind `persistentState` (bbolt) and the decoding in `PersistentStateData` are not part of this model. `dump` marshals the same bucket map as `data`, and a store fault applies to every operation.
- `yesNoAllQuit` (cmd/util.go:30-35) is used only by other commands.
- cmd/managedcmd_test.go exercises source-name parsing, which is not part of this model.
- Concurrency and real filesystem effects such as races and durability.
