# Sahne64 package manager — a Dafny model of its core

This project models the core of the Sahne64 package manager: the parts that
decide what gets installed and in what state the manager's records are left.
It covers two dependency descriptor parsers and their resolvers, conflict
detection, the name-based resolver, the transaction journal, the lock file, the
feature set, the repository index, the trust lists, zip extraction paths, the
package cache, the command line, the interactive shell, the progress bar, the
terminal menu, the three-tier package list cache and the error type.

Each source file has one Dafny module:

| module | source |
|---|---|
| `Resolver` | src/srcresolver.rs |
| `Conflict` | src/srcconflict.rs |
| `Dependency` | src/srcdependency.rs |
| `Transaction` | src/srctransaction.rs |
| `LockFile` | src/srclockfile.rs |
| `Features` | src/srcfeatures.rs |
| `RepositoryIndex` | src/srcrepositoryindex.rs |
| `Trust` | src/srctrust.rs |
| `Archive` | srcarchive.rs |
| `Cache` | src/srccache.rs |
| `Cli` | src/srccli.rs |
| `Interactive` | src/srcinteractive.rs |
| `Progress` | src/srcprogress.rs |
| `Ui` | src/srcui.rs |
| `Repository` | src/srcrepository.rs |
| `Repo` | src/srcrepo.rs |
| `Errors` | src/srcerror.rs, plus the error variants other files declare locally |
| `Package` | src/srcpackage.rs |

Six shared modules support them:

- `Wrappers` holds `Option` and `Result`.
- `Text` models the Rust string operations the sources use: `trim`, `split`, `lines`, `replace`, `rfind`, `split_whitespace` and `to_lowercase`.
- `Resource` holds the kernel error type, the outcomes of `acquire`, `read` and `write`, and the read-to-end and write-all loops.
- `LineReader` is the byte-by-byte line splitter of the dependency reader.
- `Tokens` parses a comma-separated list token by token.
- `Graph` defines reachability for the resolvers.

Kernel calls (`resource::acquire`, `read`, `write`, `control`, `release`, task
spawning) are not performed. Their outcomes are parameters: an `Access` that is
granted or denied with a kernel error, a sequence of read chunks, or a
function from call number to write result. What a component does to a resource
is recorded as a sequence of effects, or as a class field holding the
resource's contents. Where the source keeps state in an object and updates it
in place (the transaction manager, lock manager, feature set, index, trust
manager, progress bar, menu and repository managers), the model is a `class`
with those fields. Each of its methods states the new state, and lemmas relate
the results of successive calls.

The code is followed where a comment in it says otherwise. The main
cases are these:

- The cycle branch of `resolve_dependencies` cannot fire. The model proves that and keeps the result an unordered set.
- `get_dependencies` in src/srcconflict.rs silently skips a package token that does not hold exactly one `@`.
- `Feature::from_str` accepts 28 names.
- `paket_verisini_kaydet` in src/srccache.rs ignores the byte count its single write reports, so a short write still succeeds and stores only a prefix.
- The two defects under "## Findings" are modelled as written: `Archive.ZipAc` joins targets as srcarchive.rs:205-218 does, and `main`'s `kur` runs `install_package` with its second `add_package`. The corrected definitions sit beside them, with lemmas relating the two.

## Model

| member | source | states |
|---|---|---|
| Archive.FromSahneError | srcarchive.rs:423-432 | `ResourceNotFound` and `PermissionDenied` become file-system errors, every other kernel error a Sahne API error, carrying the same kernel error |
| Archive.ReplaceDotsClean | srcarchive.rs:202 | after `replace("..", "_")` no two consecutive dots are left |
| Archive.ReplaceSlashesKeeps | srcarchive.rs:202 | the following `replace("//", "/")` never brings two dots together |
| Archive.SanitizeNoDotDot | srcarchive.rs:202 | a cleaned entry name never contains `..`, whatever the archive holds |
| Archive.TargetAsWrittenPassesCheck | srcarchive.rs:205-231 | the target id as the code joins it always starts with the base, so the security check can never reject it |
| Archive.TargetAsWrittenEscapes | srcarchive.rs:205-231 | with base "pkg" and entry "//bin" the code's join yields "pkgbin": outside "pkg/", yet accepted by the prefix check |
| Archive.TargetAgreesUnlessSlashJoin | srcarchive.rs:205-218 | the corrected join agrees with the code's exactly when the base ends in '/' or the cleaned name does not start with '/' |
| Archive.TargetPassesCheck | srcarchive.rs:205-231 | the corrected target also always starts with the base, so the check rejects no entry and a corrected entry is never stopped by it |
| Archive.TargetWithin | srcarchive.rs:202-218 | with the corrected join, every entry's target lies inside the base directory with no `..` below it |
| Archive.CreateParent | srcarchive.rs:266-281 | for a file entry, the prefix before the last '/' is created when it is non-empty, and a refusal is reported through `from_sahne_error` |
| Archive.ExtractFile | srcarchive.rs:285-332 | a file entry is opened with truncation, written with one call whose count is not checked, so the target keeps the prefix the kernel accepted, and its handle released; on any failure the archive handle is released last and the error returned |
| Archive.ExtractFileEntry | srcarchive.rs:264-333 | a file entry touches only the archive, its target and its parent, and succeeds only after one granted write, which leaves the prefix of its contents the kernel accepted |
| Archive.ExtractDirectory | srcarchive.rs:234-262 | a directory entry other than "/" is created with MODE_CREATE; a refusal releases the archive and is returned |
| Archive.ExtractEntry | srcarchive.rs:197-333 | one entry as the code handles it, the target joined as at 205-218: a failing entry always ends its calls by releasing the archive |
| Archive.ExtractEntryCorrected | srcarchive.rs:197-333 | the same entry with the separator kept between base and name: a failing entry always ends its calls by releasing the archive |
| Archive.ExtractTarget | srcarchive.rs:223-333 | a target that fails the prefix check releases the archive and returns the security `InvalidPath` error; otherwise the entry is handled as a directory or a file by its trailing '/' |
| Archive.RunSticks | srcarchive.rs:196-334 | once an entry stops the loop, later entries change nothing |
| Archive.RunLoop | srcarchive.rs:196-334 | the entry loop processes entries in order, stopping at the first one that cannot be decoded or fails |
| Archive.ZipAc | srcarchive.rs:143-344 | `zip_ac` as written, targets joined as at 205-218: open the archive for reading, decode it, extract every entry, release the archive; an open or decode failure returns at once |
| Archive.ZipAcConfined | srcarchive.rs:143-344 | `zip_ac` with the corrected join (`ZipAcCorrected`): extraction creates, opens, writes and releases nothing but the archive and resources inside the base directory |
| Archive.RunConfined | srcarchive.rs:196-334 | a loop whose every step is confined to a directory is confined to it |
| Archive.ExtractEntryConfined | srcarchive.rs:197-333 | with the corrected join, each entry's calls, the created parent included, stay inside the base directory |
| Archive.FileEntryConfined | srcarchive.rs:264-333 | a file entry whose target and parent are inside a directory makes calls only there and on the archive |
| Archive.DirectoryConfined | srcarchive.rs:234-262 | a directory entry whose target is inside a directory makes calls only there and on the archive |
| Archive.ParentWithinDir | srcarchive.rs:266-281 | the parent created for a target inside a directory is inside it too, or is the directory itself |
| Archive.RunComplete | srcarchive.rs:196-334 | when the loop ends without error every entry was decoded and every call its step made is kept |
| Archive.ExtractEntryDone | srcarchive.rs:234-333 | an entry the code extracts without error has had its directory created, or the bytes its single write accepted written to the target the code joins, all of its contents when the write reported every byte |
| Archive.ZipAcSuccess | srcarchive.rs:143-344 | a successful `zip_ac`, as written, opened and released the archive and extracted every entry to the target the code joins: each directory created, each file holding what its write accepted, its whole contents when the write reported every byte |
| Archive.RunAgree | srcarchive.rs:196-334 | two loops whose steps agree on every entry give the same result |
| Archive.ZipAcAgrees | srcarchive.rs:143-344 | when the base ends in '/', `zip_ac` as written equals the corrected extraction and is confined to the base directory |
| Archive.RunSingle | srcarchive.rs:196-334 | the loop over one decoded entry is that entry's step |
| Archive.EscapingEntry | srcarchive.rs:197-333 | as written, the entry "//bin" under base "pkg" is opened, written and released as "pkgbin" |
| Archive.ShortWriteEntry | srcarchive.rs:285-332 | as written, the entry "f" under base "pkg/" with a write that accepts only `n` bytes creates "pkg", writes the first `n` bytes to "pkg/f" and succeeds |
| Archive.ZipAcShortWriteSucceeds | srcarchive.rs:143-344 | as written, `zip_ac` returns `Ok(())` although the file holds only a strict prefix of the entry's contents, because the write count at srcarchive.rs:301-303 is ignored |
| Archive.ZipAcAsWrittenEscapes | srcarchive.rs:143-344 | as written, `zip_ac` with base "pkg" and one entry "//bin" succeeds after writing "pkgbin", a resource outside "pkg/" |
| Archive.RunReleasesOnError | srcarchive.rs:197-329 | when an entry stops the loop, the archive was released iff the entry was decoded and its own step failed; an entry that cannot be decoded returns without releasing |
| Resolver.ParsePackageId | src/srcresolver.rs:144-162 | a failure is always the ParsingError "Geçersiz paket ID formatı: " followed by the token as given |
| Resolver.ParsePackageIdSpec | src/srcresolver.rs:144-162 | a token parses exactly when it holds one `@`; the package is then the text before it as name and the text after it as version, with every other field empty |
| Resolver.ParsePackageIdRoundTrip | src/srcresolver.rs:144-162 | `ad@surum` with no other `@` parses back to the bare package `ad`, `surum` |
| Resolver.CollectDependencies | src/srcresolver.rs:128-132 | the loop over the comma-separated tokens yields what the token-by-token specification does: each token trimmed and parsed, in order, or the first failure |
| Resolver.ProcessLine | src/srcresolver.rs:108-139 | bytes that are not UTF-8 give ParsingError("Geçersiz UTF-8 karakteri") and leave the map alone; otherwise the map becomes what `LineEffect` says for the text |
| Resolver.BlankLineChangesNothing | src/srcresolver.rs:116-119 | a line that is blank after trimming succeeds and leaves the map unchanged |
| Resolver.LineEffectShape | src/srcresolver.rs:121-137 | a non-blank line that succeeds splits into exactly two parts on " -> " and adds or replaces exactly one entry, with a non-empty dependency list, keeping every other entry |
| Resolver.FormatLineRoundTrip | src/srcresolver.rs:108-139 | the line `p -> d1,...,dn` written for plain packages records exactly `[d1,...,dn]` for `p`, replacing any earlier entry |
| Resolver.FormatLineSplits | src/srcresolver.rs:116-127 | such a written line trims to itself and splits on " -> " into the package text and the comma-joined list |
| Resolver.DependencyListRoundTrip | src/srcresolver.rs:129-132 | the comma-joined ids of plain packages parse back, token by token, to those packages in order |
| Resolver.ParseDependenciesAllOk | src/srcresolver.rs:129-132 | when every token parses, the list is the parsed values in token order |
| Resolver.MissingResourceIsEmpty | src/srcresolver.rs:94-98 | a dependency resource that is not found reads as the empty map |
| Resolver.ReadDependenciesFromResource | src/srcresolver.rs:43-104 | the byte loop computes `ReadDependencies`: acquire errors other than not-found are returned; each `\n`-terminated line is processed as it arrives, a read error is returned, and a non-empty last line without `\n` is processed at the end |
| Resolver.AddDemoCycle | src/srcresolver.rs:169-198 | the keys gain `C@3.0.0`; its list gets `A@1.0.0` appended, or becomes `[A@1.0.0]` when it was absent; every other entry is unchanged |
| Resolver.GetDependenciesWithCycle | src/srcresolver.rs:169-198 | a read error is passed on unchanged; otherwise the result is the read map with the demonstration edge added |
| Resolver.AddDemoCycleEdges | src/srcresolver.rs:186-196 | every old edge survives, `C@3.0.0 -> A@1.0.0` is an edge, and when `A@1.0.0` already reached `C@3.0.0` the two now form a cycle |
| Resolver.PushAll | src/srcresolver.rs:254-265 | pushing the dependencies appends them to the stack in their listed order |
| Resolver.ResolveDependencies | src/srcresolver.rs:222-279 | the result is an error iff the root is not a key, and that error is PackageNotFound with the root's message; on success the set is exactly the packages reachable from the root (non-key dependencies included as leaves); `resolving_stack` is empty at the top of every iteration, so the CycleDetected branch is unreachable and cyclic graphs terminate |
| Resolver.ResolvedSetClosed | src/srcresolver.rs:238-279 | a successful result contains the root and every dependency of each of its members |
| Conflict.CompareTextEqual | src/srcconflict.rs:236-250 | the string order used by `cmp` says Equal exactly on equal strings |
| Conflict.CompareTextFlip | src/srcconflict.rs:236-250 | the string order is antisymmetric: `a` below `b` iff `b` above `a` |
| Conflict.CompareTextTransitive | src/srcconflict.rs:236-250 | the string order is transitive |
| Conflict.CompareEqual | src/srcconflict.rs:236-250 | `Package::cmp` is Equal exactly when name and version are both equal |
| Conflict.CompareFlip | src/srcconflict.rs:236-250 | `p < q` iff `q > p` under the name-then-version order |
| Conflict.CompareTransitive | src/srcconflict.rs:236-250 | the name-then-version order is transitive |
| Conflict.CompareTotal | src/srcconflict.rs:236-250 | of two different packages exactly one is below the other |
| Conflict.ParseDependencySpec | src/srcconflict.rs:124-137 | a dependency token parses iff, trimmed, it holds exactly one `@`; the package's `name@version` is then the trimmed token; the error quotes the token untrimmed |
| Conflict.ParseDependenciesError | src/srcconflict.rs:124-138 | the dependency list fails iff some token is malformed, with the error of the first such token; otherwise it holds each token's package in order |
| Conflict.ApplyLine | src/srcconflict.rs:103-150 | handling one line (its inner loop included) has exactly the effect `LineEffect` describes |
| Conflict.CollectDependencyList | src/srcconflict.rs:123-139 | the inner loop computes the token-by-token parse of the comma-separated list |
| Conflict.ParseDescriptor | src/srcconflict.rs:102-153 | the line loop folds `LineEffect` over `str::lines` of the content from the empty map, stopping at the first error |
| Conflict.ReadResourceToString | src/srcconflict.rs:30-72 | acquire and read failures are the kernel error through the local `From`; bytes `from_utf8` refuses are an invalid-parameter error naming the resource; otherwise the decoded text |
| Conflict.GetDependencies | src/srcconflict.rs:77-154 | `get_dependencies` follows its specification: read the resource, a `ResourceNotFound` from it meaning the empty map, then parse the text |
| Conflict.DependenciesRead | src/srcconflict.rs:77-99 | a missing descriptor, whether acquire or a read reports it, gives the empty map; any other kernel error and a UTF-8 failure are returned; text is parsed line by line |
| Conflict.SkippedLine | src/srcconflict.rs:103-106 | a line that is blank or starts with `#` once trimmed leaves the map unchanged |
| Conflict.MalformedLine | src/srcconflict.rs:108-150 | any other line that does not split into two parts on " -> " is ParsingError("Geçersiz satır formatı: " + trimmed line) |
| Conflict.MalformedPackageDropped | src/srcconflict.rs:113-145 | a package token without exactly one `@` drops the line silently: the map is unchanged |
| Conflict.WellFormedLine | src/srcconflict.rs:110-140 | otherwise the line succeeds iff every dependency token parses, and then binds the package written before " -> " (replacing an earlier entry, nothing else changed) to the dependencies in written order |
| Conflict.CollectRecursive | src/srcconflict.rs:167-190 | the recursive walk keeps `collected` equal to the visited packages grouped by name, visits the package, adds only packages it reaches, and leaves every added package with all its dependencies visited |
| Conflict.CollectEach | src/srcconflict.rs:185-189 | the `for dep in deps` loop walks every dependency in turn, keeping the same facts |
| Conflict.CollectedIsReachable | src/srcconflict.rs:193-196 | a walk started afresh from a key visits exactly what that key reaches |
| Conflict.SmallGroupNoPairs | src/srcconflict.rs:200 | a group of at most one version has no pair, so the `versions.len() > 1` guard loses nothing |
| Conflict.PairsOfGroup | src/srcconflict.rs:199-219 | the normalised pairs of one name's group are exactly the ordered same-name pairs of the visited set for that name |
| Conflict.AddGroupConflicts | src/srcconflict.rs:199-222 | the loop over the groups adds exactly the ordered same-name pairs of the visited set |
| Conflict.DetectConflicts | src/srcconflict.rs:158-226 | `(a, b)` is reported iff `a` and `b` share a name, `a < b`, and one key of the graph reaches both (the key itself included) |
| Conflict.ConflictPairNormalised | src/srcconflict.rs:217 | every reported pair has one name, different versions, and is in `(min, max)` order |
| Conflict.TwoVersionsConflict | src/srcconflict.rs:173-219 | for `{R@1 -> [A@1, A@2]}` the only conflict is `(A@1, A@2)` |
| Conflict.ResolveConflicts | src/srcconflict.rs:259-275 | the result is an error iff there are conflicts, PaketKurulumHatasi("Bağımlılık çakışmaları çözülemedi"); otherwise it is the graph unchanged |
| Conflict.ResolveAfterDetect | src/srcconflict.rs:158-275 | detection followed by resolution returns the graph unchanged iff no key reaches two packages of one name |
| Conflict.ConflictBreaksUnique | src/srcconflict.rs:193-219 | a reported conflict shows a key reaching two versions of one name |
| Conflict.DuplicateConflicts | src/srcconflict.rs:193-219 | a key reaching two versions of one name makes the conflict set non-empty |
| Dependency.NameMapSpec | src/srcdependency.rs:45-50 | a name is a key of the package map iff some package has it, and it maps to the last package with that name |
| Dependency.NameMapKnown | src/srcdependency.rs:45-50 | a name is a key iff some package has it |
| Dependency.NameMapLastWins | src/srcdependency.rs:45-50 | of several packages with one name the later one wins in `collect` |
| Dependency.NameGraph | src/srcdependency.rs:94-96 | the walked graph has the map's keys, each with its package's dependency names |
| Dependency.Reversed | src/srcdependency.rs:144 | `Vec::reverse`: same length, element `i` is element `n-1-i` of the input |
| Dependency.ReversedKeeps | src/srcdependency.rs:144 | reversing keeps the same members and keeps them free of duplicates |
| Dependency.PushDependencies | src/srcdependency.rs:96-110 | the loop over a package's dependencies returns the first name not in the map, or pushes every unvisited dependency, leaving all of them visited or stacked |
| Dependency.ResolveOrder | src/srcdependency.rs:36-147 | PaketBulunamadi iff the start is unknown, and then with the start's name; BagimlilikBulunamadi names an unknown dependency of a reachable package; success iff the start is known and no reachable package lists an unknown name; on success the names are duplicate-free, exactly those reachable from the start, and the start is last |
| Dependency.WalkMissing | src/srcdependency.rs:96-103 | a missing dependency found while a package is open is an unknown dependency of a reachable package, and the start is then known |
| Dependency.WalkResolved | src/srcdependency.rs:69-147 | an emptied stack leaves a reversed output that is duplicate-free, holds exactly the reachable names, and ends with the start |
| Dependency.WalkEnd | src/srcdependency.rs:69-135 | at the end of the walk the output holds exactly the reachable names, the start first, and every reachable package's dependencies are known |
| Transaction.IslemYoneticisi.constructor | src/srctransaction.rs:70-74 | a new manager names its journal resource and sees whatever journal is already there |
| Transaction.IslemYoneticisi.LogEntry | src/srctransaction.rs:79-128 | the entry's result and the new journal are what `AppendEntry` gives: a refused open changes nothing, otherwise the written part of `message + "\n"` is appended |
| Transaction.IslemYoneticisi.BaslatIslem | src/srctransaction.rs:132-135 | `baslat_islem` appends the entry `ISLEM BASLADI` |
| Transaction.IslemYoneticisi.IslemAdimi | src/srctransaction.rs:139-142 | `islem_adimi(adim)` appends the entry `adim` |
| Transaction.IslemYoneticisi.TamamlaIslem | src/srctransaction.rs:145-148 | `tamamla_islem` appends the entry `ISLEM TAMAMLANDI` |
| Transaction.IslemYoneticisi.GeriAlIslem | src/srctransaction.rs:153-218 | the result and the new journal are what `Rollback` gives |
| Transaction.AppendOnly | src/srctransaction.rs:79-128 | the old text stays a prefix; a refused open changes nothing and is reported; the entry succeeds iff the open is granted and every character is written, and then the journal ends with exactly `message + "\n"` |
| Transaction.ZeroWriteStops | src/srctransaction.rs:101-108 | a write that reports writing nothing stops the entry with IslemYoneticisiHatasi and appends nothing |
| Transaction.FailedWriteReported | src/srctransaction.rs:112-117 | a failed write is reported as the kernel's error |
| Transaction.RollbackMissing | src/srctransaction.rs:158-163 | rolling back a journal that does not exist succeeds and changes nothing |
| Transaction.RollbackRefusesCommitted | src/srctransaction.rs:175-182 | a journal whose last line is `ISLEM TAMAMLANDI` is refused with AlreadyCommitted and stays as it was |
| Transaction.RollbackClears | src/srctransaction.rs:197-217 | an uncommitted journal is emptied when the truncating open succeeds |
| Transaction.EntryEndsLine | src/srctransaction.rs:94-127 | after a successful entry the journal text ends with a newline |
| Transaction.EntryIsLastLine | src/srctransaction.rs:94-175 | a successful entry of a line without line breaks adds exactly that line to what `lines()` reads back |
| Transaction.BeginCommitBlocksRollback | src/srctransaction.rs:134-178 | begin then commit, both written in full, makes a rollback fail and leave the journal unchanged |
| Transaction.CommitEntryCommits | src/srctransaction.rs:147-178 | a commit entry written in full after a complete line leaves the journal committed |
| Transaction.BeginStepRollbackEmpties | src/srctransaction.rs:134-217 | begin then one step other than the commit line, then rollback, leaves an empty journal |
| Transaction.StepEntryLeavesOpen | src/srctransaction.rs:141-178 | a step entry other than the commit line leaves the journal uncommitted |
| LockFile.KilitYoneticisi.constructor | src/srclockfile.rs:60-64 | an opened manager names its resource, does not hold the lock, has its handle open and has issued no command |
| LockFile.KilitYoneticisi.Yeni | src/srclockfile.rs:41-65 | a refused open is reported as KilitYoneticisiHatasi with the kernel's error and the id; otherwise the fresh manager does not hold the lock |
| LockFile.KilitYoneticisi.KilitAl | src/srclockfile.rs:69-106 | one exclusive-lock command is issued; the result and held flag are what `Lock` gives |
| LockFile.KilitYoneticisi.KilidiSerbestBirak | src/srclockfile.rs:110-136 | an unlock command is issued only when the lock is held; the result and held flag are what `Release` gives |
| LockFile.KilitYoneticisi.Drop | src/srclockfile.rs:141-172 | `drop` issues an unlock only when the lock is held, closes the handle in both cases, and leaves the flag as it was |
| LockFile.LockHeldIffGranted | src/srclockfile.rs:75-103 | locking succeeds iff the lock command succeeds, and then the lock is held; a failure keeps the flag, is a KilitYoneticisiHatasi, and a busy resource gets its own message |
| LockFile.ReleaseNotHeld | src/srclockfile.rs:130-135 | releasing an unheld lock succeeds, stays unheld, and sends no command whatever the kernel would answer |
| LockFile.ReleaseOutcome | src/srclockfile.rs:114-128 | a successful release clears the flag; a release fails iff the lock is held and unlock is refused, and then the lock stays held |
| LockFile.ReleaseIdempotent | src/srclockfile.rs:110-136 | after a successful release a second release returns the same outcome and sends no command |
| LockFile.LockReleaseRoundTrip | src/srclockfile.rs:69-136 | lock then release, both granted, returns to an unheld lock with Ok |
| Features.NamedCompression | src/srcfeatures.rs:79-83 | each compression algorithm's name denotes that algorithm |
| Features.NamedNetwork | src/srcfeatures.rs:84-92 | each network protocol's name denotes that protocol |
| Features.NamedSecurity | src/srcfeatures.rs:93-100 | each security feature's name denotes that feature |
| Features.NamedLogging | src/srcfeatures.rs:101-109 | each logging framework's name denotes that framework |
| Features.LowerCompression | src/srcfeatures.rs:79-83 | every compression name is already lower case |
| Features.LowerNetwork | src/srcfeatures.rs:84-92 | every network name is already lower case |
| Features.LowerSecurity | src/srcfeatures.rs:93-100 | every security name is already lower case |
| Features.LowerLogging | src/srcfeatures.rs:101-109 | every logging name is already lower case |
| Features.NamedName | src/srcfeatures.rs:78-109 | every feature's name is lower case and denotes that feature |
| Features.NameOfNamedCompression | src/srcfeatures.rs:79-83 | a text that denotes a compression algorithm is that algorithm's name |
| Features.NameOfNamedNetwork | src/srcfeatures.rs:84-92 | a text that denotes a network protocol is that protocol's name |
| Features.NameOfNamedSecurity | src/srcfeatures.rs:93-100 | a text that denotes a security feature is that feature's name |
| Features.NameOfNamedLogging | src/srcfeatures.rs:101-109 | a text that denotes a logging framework is that framework's name |
| Features.NamedIffName | src/srcfeatures.rs:78-112 | a lower-case text denotes a feature iff it is that feature's name |
| Features.NameInjective | src/srcfeatures.rs:79-109 | the 28 accepted names are pairwise different, so distinct features have distinct names |
| Features.ToLowerIdempotent | src/srcfeatures.rs:78 | lower-casing twice is lower-casing once |
| Features.FromStrName | src/srcfeatures.rs:76-114 | parsing a feature's name gives that feature |
| Features.FromStrSpec | src/srcfeatures.rs:76-114 | `from_str` succeeds iff the lower-cased text is some feature's name, and then yields that feature; otherwise the error is "Bilinmeyen özellik: " followed by the text as given |
| Features.FromStrCaseInsensitive | src/srcfeatures.rs:78 | a text parses exactly as its lower-case form does |
| Features.MixedCaseBzip2 | src/srcfeatures.rs:180 | "Bzip2" parses to Bzip2 compression |
| Features.UpperCaseHttp | src/srcfeatures.rs:182 | "HTTP" parses to the Http protocol |
| Features.ParseEachSpec | src/srcfeatures.rs:147-155 | the fold over the names fails iff some name fails, with the error of the first failing name; otherwise the set holds exactly the parsed values |
| Features.ParseEachFails | src/srcfeatures.rs:147-155 | the failing half: the error of the first name that does not parse |
| Features.ParseEachMembers | src/srcfeatures.rs:147-155 | the succeeding half: exactly the values of the names |
| Features.ParseEachErrorSticks | src/srcfeatures.rs:150-152 | once a prefix fails, the whole list fails with the same error (the `?` stops the loop) |
| Features.ParseAllSpec | src/srcfeatures.rs:147-155 | `from_strs` fails iff some name is unknown, with "Bilinmeyen özellik: " and the first unknown name; otherwise exactly the named features are enabled |
| Features.FeatureSet.constructor | src/srcfeatures.rs:123-127 | a new set has nothing enabled |
| Features.FeatureSet.Enable | src/srcfeatures.rs:130-132 | `enable(f)` adds `f` and nothing else |
| Features.FeatureSet.Disable | src/srcfeatures.rs:135-137 | `disable(f)` removes `f` and nothing else |
| Features.FeatureSet.EnabledFeatures | src/srcfeatures.rs:158-160 | the list holds exactly the enabled features, without duplicates, so its length is the number enabled |
| Features.FeatureSet.FromStrs | src/srcfeatures.rs:147-155 | the loop fails iff the fold fails, with its error; otherwise the fresh set's features are the fold's set |
| RepositoryIndex.PackageIndex.constructor | src/srcrepositoryindex.rs:115-119 | a new index has no packages |
| RepositoryIndex.PackageIndex.AddPackage | src/srcrepositoryindex.rs:123-128 | the version goes to the end of the name's list, which is created empty if absent; nothing else changes |
| RepositoryIndex.IndexedSpec | src/srcrepositoryindex.rs:115-139 | after any sequence of additions, `has_package(n)` holds iff `n` was added at least once, and `get_versions(n)` is the versions added under `n` in insertion order, duplicates kept |
| RepositoryIndex.AddedKeepsOthers | src/srcrepositoryindex.rs:123-128 | adding under one name leaves every other name's presence and list unchanged |
| RepositoryIndex.AddedThenFound | src/srcrepositoryindex.rs:123-139 | after `add_package(n, v)` the name is present and its list is the old list followed by `v` |
| RepositoryIndex.IndexResourceIdSpec | src/srcrepositoryindex.rs:231-234 | the index id starts with the repository id and ends with "/index.bin", so distinct repositories get distinct ids |
| RepositoryIndex.GetOrCreateSpec | src/srcrepositoryindex.rs:240-260 | `get_or_create_index` returns the loaded index; a not-found resource error gives a new empty index; every other error is passed on unchanged |
| RepositoryIndex.MissingIndexIsEmpty | src/srcrepositoryindex.rs:201-253 | an index resource that does not exist yields a new empty index |
| RepositoryIndex.CorruptIndexFails | src/srcrepositoryindex.rs:218-258 | a postcard decode failure is returned as DeserializationError, never turned into an empty index |
| RepositoryIndex.SaveSpec | src/srcrepositoryindex.rs:144-196 | saving succeeds iff encoding, acquiring and every write succeed; a zero-byte write is Sahne64ResourceError(InvalidOperation) |
| Trust.NamesOfSpec | src/srctrust.rs:188-193 | a name is trusted after loading iff it is non-empty and is the trimmed form of some line of the resource |
| Trust.NamesOfSound | src/srctrust.rs:188-193 | every loaded name is the non-empty trimmed form of some line |
| Trust.NamesOfComplete | src/srctrust.rs:188-193 | the non-empty trimmed form of every line is loaded |
| Trust.CollectNames | src/srctrust.rs:188-193 | the line loop collects exactly the non-empty trimmed lines of the decoded text |
| Trust.LoadList | src/srctrust.rs:177-207 | the set is cleared first; a read failure other than not-found, or invalid UTF-8 (reported as a parsing error with the `UTF-8 hatası: ` prefix), is an error and leaves the set empty; otherwise the set is the non-empty trimmed lines |
| Trust.MissingListIsEmpty | src/srctrust.rs:197-201 | a list resource that does not exist loads as the empty set without error |
| Trust.WriteHelpersComplete | src/srctrust.rs:98-127 | the truncating and the appending write helper succeed exactly when the resource is acquired and every character is written; then the resource holds the content (overwrite) or the old text followed by the content (append); an append never loses the old text |
| Trust.ZeroWriteIsError | src/srctrust.rs:109-127 | a write call that reports zero bytes for non-empty content makes both helpers fail with `InvalidOperation` |
| Trust.AppendLine | src/srctrust.rs:276-313 | appending one name line to the list resource ends as the append helper's specification says |
| Trust.OverwriteList | src/srctrust.rs:98-127 | rewriting the list resource ends as the truncating helper's specification says |
| Trust.ListContent | src/srctrust.rs:343-349 | the persisted text is one line per trusted name, each name exactly once, in some iteration order of the set |
| Trust.PersistThenLoad | src/srctrust.rs:177-349 | persisting a set of loadable names and loading the result gives back the same set |
| Trust.NamesOfLoadable | src/srctrust.rs:188-193 | lines that are all loadable names, each name once, load as exactly those names |
| Trust.LoadablePlain | src/srctrust.rs:189 | a loadable name is a line trimming leaves as it is |
| Trust.LoadedNamesLoadable | src/srctrust.rs:188-193 | loading only ever produces non-empty, trimmed, single-line names |
| Trust.TrimmedLineLoadable | src/srctrust.rs:189 | the non-empty trimmed form of a line is a loadable name |
| Trust.TrustManager.constructor | src/srctrust.rs:152-174 | `new` loads the publishers and, only if that succeeded, the packages; a load error is swallowed and leaves the failing set (and, after a publishers error, the packages set) empty; a list that loads holds the names of the resource's text |
| Trust.TrustManager.AddTrustedPublisher | src/srctrust.rs:248-270 | the name is inserted first; only a new name is appended as one line; a failed append is returned as a trust error with the name left in the set; the packages side is unchanged |
| Trust.TrustManager.AddTrustedPackage | src/srctrust.rs:362-382 | as for publishers, on the packages set and resource |
| Trust.TrustManager.RemoveTrustedPublisher | src/srctrust.rs:320-338 | the name leaves the set; an absent name returns `false` and writes nothing; a present one rewrites the whole list and returns `true`, or the write error with the name already gone |
| Trust.TrustManager.RemoveTrustedPackage | src/srctrust.rs:389-406 | as for publishers, on the packages set and resource |
| Trust.AddSpec | src/srctrust.rs:248-270 | after an add the name is trusted whatever the write did; an existing name changes nothing; a new one succeeds iff the whole line was written, and is then the list's new last line |
| Trust.RemoveThenReload | src/srctrust.rs:320-349 | after a successful removal the resource loads back as exactly the remaining names |
| Trust.AddThenReload | src/srctrust.rs:168-270 | a loadable name added successfully to a newline-terminated list is found again when the list is reloaded |
| Cache.Yeni | src/srccache.rs:71-89 | the cache is created iff the base resource can be acquired with MODE_CREATE, keeps that base id, and otherwise reports the kernel error as a Sahne API error |
| Cache.ItemResourceIdShape | src/srccache.rs:93-101 | an item's id is the base, then a '/' only when the base does not already end in one, then the key |
| Cache.ItemResourceIdInjective | src/srccache.rs:93-101 | two different keys never map to the same item resource |
| Cache.ParentToCreate | src/srccache.rs:26-59 | the parent created before a save is the prefix up to the last '/', and none when there is no '/' or that prefix is empty or "/" |
| Cache.ItemParentIsBase | src/srccache.rs:26-101 | for a key without '/', the parent created before a save is the cache's base itself (without its trailing '/') |
| Cache.PaketVerisiniAl | src/srccache.rs:104-151 | a read follows the fetch specification: a missing item is `None`, a readable one is all its bytes, any other acquire or read failure is an error |
| Cache.FetchedNoneIffMissing | src/srccache.rs:141-144 | `Ok(None)` is returned exactly when acquiring the item reports `ResourceNotFound` |
| Cache.Kaydet | src/srccache.rs:153-192 | a save succeeds iff the parent can be created, the item opened and the write call returns a count; the item then holds the bytes that call accepted, the count itself never being checked |
| Cache.FetchStored | src/srccache.rs:104-151 | fetching from a kernel that holds the item gives back exactly what it holds |
| Cache.SaveThenFetch | src/srccache.rs:104-195 | after a successful save, fetching the same key returns a prefix of the saved bytes, and all of them when the write call accepted every byte |
| Cache.ShortWriteSucceeds | src/srccache.rs:171-186 | a write call that accepts fewer bytes than offered still makes the save return `Ok(())`, and only that prefix is stored |
| Cache.SaveKeepsOthers | src/srccache.rs:154-195 | a save changes no other resource and creates at most the item and its parent |
| Cache.SaveFailureKeepsNoData | src/srccache.rs:165-194 | a failed save never leaves the new data in the item's resource |
| Cache.OnbellegiTemizle | src/srccache.rs:244-256 | clearing the cache always fails with `NotSupported` |
| Cache.FromZipCache | src/srccache.rs:314-329 | a zip I/O error becomes a cache error with the "Zip IO Hatası: " prefix; every other zip error is kept as a zip error |
| Cli.ArgumentsSkipProgramName | src/srccli.rs:297-332 | the arguments are argv without the program name, in order; a null argv gives no arguments |
| Cli.ParseRender | src/srccli.rs:336-415 | each command is recognised from exactly the argument list it is written as (`listele`, or `ekle`/`kaldir`/`ara`/`kur` with one name, or nothing), and every accepted list is one of those |
| Cli.ParseErrors | src/srccli.rs:344-406 | an extra argument, a missing package name and an unknown command are each refused with their own `GecersizParametre` message |
| Cli.ListPackages | src/srccli.rs:33-91 | listing follows its specification: a missing list is success, a read failure is the converted kernel error, contents that are not UTF-8 are an invalid-parameter error |
| Cli.ListedMissing | src/srccli.rs:80-89 | a missing installed-packages list is not an error, any other refusal is |
| Cli.ScriptIds | src/srccli.rs:101-155 | install and uninstall script ids lie under the script base, differ from each other, and determine the package name |
| Cli.RunScript | src/srccli.rs:110-194 | running a script succeeds iff it is acquired and its task spawned (or, for removal, it does not exist), and a task is started only in the first case |
| Cli.RemoveWithoutScript | src/srccli.rs:179-189 | removing a package that has no uninstall script succeeds without starting anything |
| Cli.InstallAsWrittenRunsScriptTwice | src/srccli.rs:258-269 | as written, a successful installation starts the install script twice |
| Cli.InstallAsWrittenResult | src/srccli.rs:213-274 | `install_package` as written fails where the single-start installation fails; otherwise it returns what the second `add_package` at line 269 returns, with the kernel answering that call afresh; it starts nothing but the install script |
| Cli.InstallAsWrittenSameResult | src/srccli.rs:258-269 | when the kernel answers the second acquire and spawn of the install script as it answered the first, `install_package` as written returns the single-start installation's result |
| Cli.InstallAsWrittenSecondRefused | src/srccli.rs:258-269 | when the single-start installation succeeds but the second acquire of the install script is refused, `install_package` as written fails with that refusal after starting the script once |
| Cli.InstallPackageSpec | src/srccli.rs:213-274 | an installation succeeds iff the download's checksum verifies, the archive extracts and the install script starts, and then the script is started once; a failed checksum is the installation error "Checksum doğrulaması başarısız" |
| Cli.Execute | src/srccli.rs:338-416 | the command dispatch of `main`, `kur` running `install_package` as written: listing, searching and the usage text start no script, searching and the usage text succeed, `kur` fails where the single-start installation fails and otherwise returns the second start's result, and on success has started its install script twice, and every other started script is the package's own |
| Cli.ExitStatus | src/srccli.rs:306-425 | `main` returns 0 or -1, and 0 exactly when the arguments form a command that succeeds |
| Cli.ExitStatusCodes | src/srccli.rs:408-416 | no arguments at all print the usage and exit with 0 |
| Cli.ExitStatusIgnoresSecondStart | src/srccli.rs:390-425 | when every second acquire and spawn of a script is answered as the first was, routing `kur` through the installation that starts the script once would give every argument list the same exit code |
| Cli.ExitStatusSecondStartRefused | src/srccli.rs:390-425 | `kur` exits with -1 when the second start of the install script is refused, where the single-start installation would exit with 0 |
| Interactive.GetInput | src/srcinteractive.rs:34-78 | reading a line follows its specification: chunks are collected until an empty read, the end of input or a chunk holding a newline; a read error is returned converted; the bytes are decoded and trimmed |
| Interactive.ReadLineStopsAtNewline | src/srcinteractive.rs:48-67 | the line read is every chunk up to and including the first one that holds a newline; later chunks are never read |
| Interactive.InputTrimmed | src/srcinteractive.rs:71-77 | the line handed on has no surrounding white space, and bytes that are not UTF-8 give the parse error "Geçersiz UTF-8 girdi" |
| Interactive.Spawn | src/srcinteractive.rs:106-245 | a program command succeeds iff its resource is acquired and its task spawned, and otherwise fails with the converted error of the step that was refused |
| Interactive.HelpNew | src/srcinteractive.rs:285-291 | the help table has exactly the registered names, each with its handler's description |
| Interactive.HelpLines | src/srcinteractive.rs:294-300 | `help` prints the heading and then exactly one "- name: description" line per table entry, in some order |
| Interactive.HelpLinesCover | src/srcinteractive.rs:296-298 | a walk that visited every name once has printed every entry's line and nothing else |
| Interactive.HandleCommandIdle | src/srcinteractive.rs:320-323 | a line is ignored iff it is white space only |
| Interactive.HandleCommandSpec | src/srcinteractive.rs:313-342 | the first word picks the handler, which runs with the remaining words as its arguments; an unknown first word fails with "Bilinmeyen komut: " and the word |
| Interactive.EchoRoundTrip | src/srcinteractive.rs:161-164 | `echo` prints its arguments joined by spaces, so splitting the printed text gives them back |
| Interactive.DefaultTable | src/srcinteractive.rs:408-418 | `main` registers hello, date, exit, ls and echo, then help over those five; `clear` is never registered |
| Interactive.DefaultCommands | src/srcinteractive.rs:405-418 | building the table as `main` does yields that table |
| Interactive.OneWord | src/srcinteractive.rs:313-342 | a one-word line runs the command of that name with no arguments, or is refused as unknown |
| Interactive.ClearUnregistered | src/srcinteractive.rs:408-418 | typing `clear` is refused as an unknown command, although a handler for it exists |
| Interactive.HelpOmitsItself | src/srcinteractive.rs:414-418 | `help` lists the table built before it was inserted |
| Interactive.HelpListsRegistered | src/srcinteractive.rs:408-418 | that table is exactly hello, date, exit, ls and echo, without help itself |
| Interactive.StartInteractiveLoop | src/srcinteractive.rs:352-380 | the loop reads and handles lines in order and stops at the first failed read or failed command, returning its error, or when `exit` ends the process |
| Interactive.LoopStopsAtFirstError | src/srcinteractive.rs:357-377 | the loop ends with the first failing input or command, after the replies of the lines before it, and never looks at later lines |
| Interactive.LoopExits | src/srcinteractive.rs:144-377 | `exit` ends the loop at once, after the replies of the lines before it |
| Interactive.Shell | src/srcinteractive.rs:391-440 | the process's exit code is 0 iff `exit` ended it and -1 iff a read or a command failed |
| Progress.Clamp | src/srcprogress.rs:86-100 | the count left behind is never above the total and never above the value asked for, and is one of the two |
| Progress.Draw | src/srcprogress.rs:112-184 | drawing succeeds iff the clock answers and the console write is accepted; a clock failure is a Sahne API error, a refused write the converted kernel error; a failed flush does not matter |
| Progress.ProgressBar.constructor | src/srcprogress.rs:41-51 | a bar starts at zero with an empty message and the given total, width, start time, characters and switches |
| Progress.ProgressBar.New | src/srcprogress.rs:34-52 | `new` fails exactly when the clock does, with a Sahne API error; otherwise the bar starts at zero, draws '#' on ' ', shows the percentage and not the time |
| Progress.ProgressBar.WithConfig | src/srcprogress.rs:55-80 | `with_config` fails exactly when the clock does; otherwise the bar starts at zero with the caller's characters and switches |
| Progress.ProgressBar.Update | src/srcprogress.rs:83-92 | the count never goes back: it advances by the increment but stops at the total, even when the redraw that follows fails; nothing else changes |
| Progress.ProgressBar.SetCurrent | src/srcprogress.rs:95-104 | the count becomes the value, stopping at the total, and the bar is redrawn; nothing else changes |
| Progress.ProgressBar.SetMessage | src/srcprogress.rs:106-108 | only the message changes |
| Progress.ProgressBar.Finish | src/srcprogress.rs:187-208 | finishing writes a newline; it succeeds iff that write is accepted and changes nothing |
| Progress.UpdateAdvances | src/srcprogress.rs:83-92 | from a valid count an update never goes back and never passes the total, and leaves the count unchanged only for a zero increment or a full bar |
| Progress.UpdateTwice | src/srcprogress.rs:83-92 | two updates in a row land where one update by their sum lands |
| Progress.SetCurrentOverwrites | src/srcprogress.rs:95-104 | setting a count that is already clamped changes nothing, and a valid value is kept as given |
| Ui.Next | src/srcui.rs:156-181 | every key keeps the selection on one of the four entries, and a digit 1-4 selects that entry |
| Ui.UpDownInverse | src/srcui.rs:156-161 | Up and Down undo each other on every entry, wrapping between 1 and 4 |
| Ui.FullCircle | src/srcui.rs:156-161 | four presses of Up, or of Down, come back to the starting entry |
| Ui.QuitKeys | src/srcui.rs:162-184 | the loop ends exactly on q, Q, Esc, or Enter on entry 4; Enter on entries 1-3 opens that entry's screen, and no other key opens one |
| Ui.OtherKeysKeepSelection | src/srcui.rs:172-184 | keys other than the arrows and the digits 1-4 leave the selection alone |
| Ui.MenuMarking | src/srcui.rs:213-227 | the screen lists the four entries only while entry 1 is selected, marking it alone with "> "; otherwise it shows just the title, the rule and the key help |
| Ui.DrawResult | src/srcui.rs:236-257 | a redraw succeeds iff every byte is written; a write that accepts nothing is `InvalidOperation`, a refused write its own kernel error |
| Ui.Session | src/srcui.rs:135-196 | every selection the loop passes through is a menu entry, and only entries 1-3 ever open a screen |
| Ui.SessionStopsAtQuit | src/srcui.rs:135-196 | while every redraw succeeds, the loop ends at the first quitting key with the selection that key leaves, whatever keys follow |
| Ui.SessionStep | src/srcui.rs:135-196 | one turn of the loop: redraw, then end on a failed redraw or a quitting key, otherwise open the screen Enter asks for and go on with the next key |
| Ui.PackageManagerUI.New | src/srcui.rs:83-119 | creating the UI acquires the console output, then the input; it fails with the first refusal as a resource error, and otherwise starts on entry 1 |
| Ui.PackageManagerUI.HandleKey | src/srcui.rs:153-185 | one key moves the selection as the menu rules say and yields the action it asks for |
| Ui.PackageManagerUI.Run | src/srcui.rs:124-200 | `run` leaves the selection, the screens opened and the way it ended exactly as the loop's specification gives them; a failed redraw returns its error converted to the package-manager error |
| Repository.ListId | src/srcrepository.rs:92-129 | the list resource is the base followed by "/paketler.bin" |
| Repository.ReadVec | src/srcrepository.rs:31-60 | every read failure is converted to a Sahne API error |
| Repository.ReadResourceToVec | src/srcrepository.rs:31-60 | the read loop collects the resource's bytes as the read specification says |
| Repository.WriteBack | src/srcrepository.rs:124-153 | after a remote fetch the cache holds the list; a failed encoding is a serialization error, while a refused acquire or write only loses the local copy |
| Repository.CacheHit | src/srcrepository.rs:86-89 | a filled cache answers alone, with no resource read or written |
| Repository.LocalHit | src/srcrepository.rs:92-100 | a readable, decodable local copy fills the cache and is returned without consulting the remote |
| Repository.LocalMissFallsThrough | src/srcrepository.rs:101-113 | a missing, unreadable or undecodable local copy is only logged, and the remote tier decides |
| Repository.CacheAfterFetch | src/srcrepository.rs:84-160 | a successful fetch leaves the returned list in the cache; only a remote read or decoding failure leaves the cache empty, and then the result is that error |
| Repository.SecondFetchFromCache | src/srcrepository.rs:84-160 | whatever a fetch left in the cache answers the next call, even when that fetch failed to encode the write-back |
| Repository.WriteBackRestores | src/srcrepository.rs:124-153 | every write-back goes to the local list resource and holds bytes that decode to the returned list, when the codec round-trips |
| Repository.Find | src/srcrepository.rs:196-201 | the search finds the first package with that name, and nothing exactly when no package has it |
| Repository.Update | src/srcrepository.rs:163-193 | updating the local copy succeeds iff encoding, acquiring and writing all succeed, and only then writes the encoded list to the local list resource |
| Repository.DepoYoneticisi.constructor | src/srcrepository.rs:74-80 | a new manager keeps both bases and starts with an empty cache |
| Repository.DepoYoneticisi.PaketListesiniAl | src/srcrepository.rs:84-160 | the result, the new cache and the writes are exactly those of the three tiers in order |
| Repository.DepoYoneticisi.YerelDepoyuGuncelle | src/srcrepository.rs:163-193 | a failed fetch returns its error; otherwise the list obtained is written to the local copy as the update specification says, with the kernel answering the update's acquire and write afresh |
| Repository.DepoYoneticisi.PaketAra | src/srcrepository.rs:196-201 | the search returns the fetch's error, or the first package with the name in the fetched list |
| Repo.WriteBackRepo | src/srcrepo.rs:142-183 | after a remote fetch the cache holds the list; a failed encoding is an error through `From<PostcardError>`, a refused acquire of the local copy is an error, a refused write is only logged |
| Repo.VariantsAgree | src/srcrepo.rs:95-191 | this variant and the one in src/srcrepository.rs leave the same cache and writes, and their results differ exactly when the remote list was fetched and the local acquire was refused |
| Repo.CacheAfterFetchRepo | src/srcrepo.rs:95-191 | a successful fetch leaves the returned list in the cache, a filled cache answers alone, and only a remote read or decoding failure leaves the cache empty |
| Repo.DepoYoneticisi.constructor | src/srcrepo.rs:83-89 | a new manager keeps both bases and starts with an empty cache |
| Repo.DepoYoneticisi.PaketListesiniAl | src/srcrepo.rs:95-191 | the result, the new cache and the writes are exactly those of the three tiers with this variant's write-back |
| Repo.DepoYoneticisi.YerelDepoyuGuncelle | src/srcrepo.rs:195-227 | a failed fetch returns its error; otherwise the list obtained is written to the local copy as the update specification says, with the kernel answering the update's acquire and write afresh |
| Repo.DepoYoneticisi.PaketAra | src/srcrepo.rs:232-242 | the search returns the fetch's error, or the first package with the name in the fetched list |
| Errors.FromSahne | src/srcerror.rs:92-104 | every kernel error becomes a Sahne API error that keeps the kernel error unchanged |
| Errors.FromPostcard | src/srcerror.rs:106-114 | a postcard error becomes a serialization error exactly when it is a serialize error and a deserialization error otherwise, keeping the postcard error |
| Errors.FromZip | src/srcerror.rs:117-124 | a zip error is wrapped as a zip error unchanged |
| Errors.FromSahneLocal | src/srcconflict.rs:327-349 | the locally declared conversion wraps every kernel error, whatever its kind, as a Sahne API error keeping it |
| Errors.FromTui | src/srcui.rs:558-562 | a terminal UI error is wrapped as a TUI error unchanged |
| Errors.ConversionsInjective | src/srcerror.rs:92-114 | the kernel and postcard conversions lose no information: different inputs give different errors |
| Errors.Display | src/srcerror.rs:68-88 | the text starts with the variant's fixed label; the checksum error prints its fixed sentence and nothing more; the text-carrying variants print label then detail |
| Errors.SignatureOfLabel | src/srcerror.rs:71-85 | characters 0, 1 and 6 of each declared variant's label form that variant's signature |
| Errors.SignatureDeterminesVariant | src/srcerror.rs:71-85 | two declared variants with the same signature have the same label: no two labels coincide in those characters |
| Errors.DisplaySameLabel | src/srcerror.rs:71-85 | when two labels both start the same text they are the same label |
| Errors.DisplayDeterminesError | src/srcerror.rs:68-88 | two errors that display the same text are the same variant, and equal outright for text-carrying and Sahne API errors |
| LineReader.CompleteLinesRebuild | src/srcresolver.rs:66-75 | splitting at newlines loses and invents no byte: the complete lines, each with its newline, then the pending bytes, are the input, and no line holds a newline |
| LineReader.AppendByte | src/srcresolver.rs:67-74 | a newline byte completes the pending line and empties the buffer; any other byte is appended to the pending line |
| LineReader.FoldErrorSticks | src/srcresolver.rs:69 | once a line step has failed, the lines after it change nothing (the `?` returns at once) |
| LineReader.FoldSplit | src/srcresolver.rs:66-75 | folding the first lines and then the rest is folding them all |
| LineReader.FoldEach | src/srcconflict.rs:102-151 | the `for line in ...lines()` loop with `?` on each line step computes the left fold of the steps that stops at the first error |
| LineReader.LineErrorSticks | src/srcresolver.rs:69 | once a complete line has failed, no further byte changes the outcome |
| LineReader.ReadTerminatedLines | src/srcresolver.rs:56-83 | a resource whose bytes are newline-terminated lines is read as exactly those lines, in order |
| LineReader.ReceivedOne | src/srcresolver.rs:57-65 | a single non-empty chunk is received whole and without error |
| LineReader.ReadAllReceived | src/srcresolver.rs:56-83 | when every byte arrives and ends in a newline, the reading is the fold of the complete lines |
| LineReader.TerminatedSplits | src/srcresolver.rs:66-75 | lines without newlines, each written with a newline, split back into the same lines with nothing pending |
| LineReader.PendingOfLine | src/srcresolver.rs:66-75 | after a newline, newline-free bytes become the pending line and complete nothing |
| LineReader.ByteStep | src/srcresolver.rs:67-74 | one byte of the inner loop keeps the loop state equal to the fold of the complete lines and the buffer equal to the pending line |
| LineReader.FeedSplits | src/srcresolver.rs:66-75 | feeding a chunk byte by byte agrees with splitting everything read so far into lines |
| LineReader.FeedChunk | src/srcresolver.rs:66-75 | the inner byte loop computes the chunk's feed: the state and buffer after it, or the first line step error |
| LineReader.ReadFromSplits | src/srcresolver.rs:56-83 | the outer read loop from any chunk on agrees with splitting all bytes received into lines |
| LineReader.ReadLines | src/srcresolver.rs:56-83 | the read loop computes the specification: complete lines of the bytes before the first empty read go through the step; then a read error is reported converted, or a non-empty unterminated last line goes through the step |
| Tokens.ParseEachFrom | src/srcconflict.rs:124-138 | on success one value per remaining token, each the parse of its token in order; on failure the error of the first token that does not parse |
| Tokens.ParseEach | src/srcconflict.rs:123-138 | the loop that pushes each parsed token and returns at the first failure computes `ParseEachFrom` from the first token |
| Tokens.PrependTwice | src/srcconflict.rs:129 | pushing values one after another onto the collected list is pushing them together |
| Tokens.ParseEachAllOk | src/srcconflict.rs:124-138 | when every token parses, the list is exactly the parsed values in token order |
| Tokens.ParseEachError | src/srcconflict.rs:124-138 | the loop fails exactly when some token fails, and then with the error of the first token that fails |
| Package.Yeni | src/srcpackage.rs:49-62 | a new package carries the given name, version and dependency names, with no description and no archive file name |
| Package.BareInjective | src/srcpackage.rs:13-16 | packages built from a name and version alone are equal exactly when name and version are (the derived equality) |
| Resource.DebugNameInjective | src/srcerror.rs:16-71 | different kernel errors have different `Debug` names, so a Sahne API error's text names its kernel error |
| Resource.DrainAllData | src/srcrepository.rs:41-53 | reads that all return bytes collect the concatenation of every chunk, in order |
| Resource.DrainErrorFirst | src/srcrepository.rs:46-50 | a read error before the end of the resource is the result, whatever would have come after it |
| Resource.ReadAll | src/srcrepository.rs:31-60 | the read loop fails with the acquire error or the first read error, and otherwise returns every byte before the first empty read |
| Resource.WriteFrom | src/srctrust.rs:109-127 | a stalled or failed write loop stops with fewer bytes written than the buffer holds, and never fewer than it had already written |
| Resource.WriteCompletes | src/srctrust.rs:109-127 | when every write accepts at least one byte, the loop writes the whole buffer |
| Resource.WriteZeroStalls | src/srctrust.rs:112-117 | a first write that reports zero bytes stops the loop with nothing written |
| Resource.WriteAll | src/srctrust.rs:109-127 | the write loop computes the write specification, and unless it wrote everything it delivered fewer bytes than the buffer |
| Ui.PackageManagerUI.constructor | src/srcui.rs:113-117 | a new interface starts with menu entry 1 selected |

## Left out

- Kernel I/O is not performed. Its outcomes are parameters, and the bytes a resource holds are a sequence or a map.
- Postcard serialisation, zip decoding and UTF-8 decoding come from crates. Each is a parameter function or an error outcome, so round trips through them are not claimed.
- Log and console output (`println!`, `eprintln!`, `log` macros) is not modelled, except where it is the operation's result: the interactive shell's replies and the drawn menu lines.
- Text that Rust's `Debug` formatting produces for postcard and zip errors is a parameter of `Errors.Display`.
- Releasing handles is recorded only where the source's error paths differ in whether they release (archive, lock file). Elsewhere a failing `release` is only logged, so the model drops it.
- The write count of the local write-back in src/srcrepository.rs and src/srcrepo.rs is not modelled. The source only logs it.
- The order in which a `HashSet` or `HashMap` is iterated is not modelled. The trust list rewrite, the conflict set and `help`'s listing may come out in any order, and the model chooses one nondeterministically.
- The draft read loop in srcarchive.rs:170-181 is not modelled: it reads into an undeclared buffer. The no-op loop over path parts in srcarchive.rs:75-90 is not modelled either.
- `zip_icerik_listele` (srcarchive.rs:349-387) is not modelled. It only lists entry names through the zip crate.
- Per-entry zip handles are not modelled: the archive's entries are given as a sequence.
- `paket_verisini_sil` (src/srccache.rs) is not modelled. Its body discards the result of the delete and then returns `NotSupported`, so its outcome does not depend on the delete.
- The download step of `install_package` in src/srccli.rs is a placeholder in the source. The model takes the checksum and unzip results as parameters.
- `resource::delete` at src/srccli.rs:236 and 253 is not part of the kernel API the rest of the code uses. The model does not call it.
- `search_package` in src/srccli.rs only prints, so its command always succeeds.
- `Package.Yeni` records name, version, dependency names, description and archive file name. The checksum map, file list and script fields of `Paket` are left out because no modelled operation reads them; so equality of two modelled packages compares only those five fields, where the derived `PartialEq` and `Hash` of src/srcpackage.rs:16 compare every field.
- The screens behind the menu entries of src/srcui.rs are placeholders. The model records only that a screen was opened.
- Raw terminal mode, `sleep`, screen clearing and cursor control are not modelled.
- `input_event` in src/srcui.rs:150 always returns `None`. The model takes the keys as a parameter instead.
- Progress.ProgressBar.Update: does not model the wrap-around of `current + i` in `usize`. The integers are unbounded, so the clamp to `total` is what the contract states.
- The floating-point percentage, elapsed time and drawn text of src/srcprogress.rs:112-184 are not modelled. Only the clamped integer `current` is.
- The `this.draw(...)` line inside `finish` at src/srcprogress.rs:189 is not modelled: `this` names nothing in Rust, so the line is draft code that cannot compile. `Progress.ProgressBar.Finish` writes only the newline.
- The draft `loop { ... resource::write(handle, &buffer[written..]) ... }` at src/srcprogress.rs:167 is not modelled: its body is elided, so it cannot compile. `Progress.Draw` makes the one `resource::write` of line 164 and checks only its error, not its count.
- Dependency.ResolveOrder: the draft lines at src/srcdependency.rs:87-91 and 117 are not modelled. They pop the stack a second time, use an undeclared `visited` and push the name before processing it, and line 117 has an elided body, so they cannot compile. The model runs the loop around them: pop, skip a visited name, mark it, look it up, check and push its dependencies, record the name, and reverse the record at the end.
- Transaction.IslemYoneticisi.LogEntry, Transaction.AppendOnly, Trust.WriteHelpersComplete, Trust.AppendLine and Trust.OverwriteList: write counts are counted in characters of the text, not in bytes of its UTF-8 encoding as at src/srctransaction.rs:94-127 and src/srctrust.rs:109-127. After a partial write of a non-ASCII message the source can leave a cut UTF-8 sequence; the model leaves a whole-character prefix.
- What other processes do with the lock resource is the kernel's concern. `LockFile` models only the held flag and the commands issued on the handle.
- The files src/srcgui.rs, src/srcnetwork.rs, src/srcrepositoryremote.rs, src/srcrepositorylocal.rs, src/srcinstaller.rs, src/srcscript.rs, src/srctui.rs and src/srclogging.rs are not part of this model. They are I/O plumbing with no logic beyond formatting.
- src/srcchecksum.rs, src/srcsigning.rs, src/srcsecurity.rs, src/srcsearch.rs, src/srci18n.rs, src/srcconfig.rs, src/srcfeature_flags.rs, src/srcplugins.rs and src/srcplugin_api.rs are not part of this model either. Their behaviour lives in crates or in the loader.

## Findings

| source | as written | input that shows it | evidently intended | confidence | as-written member | corrected member |
|---|---|---|---|---|---|---|
| srcarchive.rs:205-218 | when the base does not end in '/' and the sanitised name starts with '/', the leading '/' is dropped and no separator is put back | base `pkg`, entry `//bin`: the name sanitises to `/bin` and the target is `pkgbin`, a sibling of `pkg` that still passes the prefix check at 223-231 | keep exactly one '/' between base and name, so every target lies inside `pkg/` | not executed | Archive.ZipAcAsWrittenEscapes | Archive.ZipAcConfined |
| src/srccli.rs:258-269 | `install_package` calls `add_package` at 260 and again at 269, so a successful installation starts the install script twice, and a kernel that refuses the second start makes the installation fail after the script is already running | any package whose checksum verifies and whose archive extracts | start the install script once | not executed | Cli.InstallAsWrittenRunsScriptTwice | Cli.InstallPackageSpec |
