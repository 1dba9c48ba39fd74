# home-ops trapper-keeper and archiver, modelled in Dafny

This project models the core of the home-ops repository: the secrets store
"trapper-keeper", the archiver shared by the Python libraries, the Ansible
inventory de-duplication and playbook lookup, the environment filter, and the
upload server that receives a bootstrap database. Everything is modelled as
pure functions over immutable values. A file system is a value `FS`. It holds
a map from paths to file contents, a set of directories and a map of recorded
mode bits. Every operation returns the new file system together with the
Python or Java exception it raises, if any.

| module (file) | what it models |
|---|---|
| `Wrappers` (wrappers.dfy) | `Option`, `Result`, and the exceptions the source raises |
| `Strings` (strings.dfy) | prefixes, suffixes, `indexOf`/`lastIndexOf`, splitting on a literal separator, decimal text of numbers and Python's `repr` of a string |
| `FileSystem` (filesystem.dfy) | paths, `mkdir(parents=True)`, writes that need the file's directory, exclusive creation, reads and `chmod` |
| `FileUtils` (fileutils.dfy) | `ensure_path`, `get_file_bytes` and `delete_files` of `utils/file.py` and `core.py` |
| `Archive` (archive.dfy) | `pack`/`unpack`: tar + Zstandard, with member names as `tarfile` writes them |
| `EnvFilter` (envfilter.dfy) | `filter_env_vars` |
| `PyKeePass` (pykeepass.dfy) | the part of the KeePass library the store uses: groups, entries, binaries, save and load through a seal/unseal oracle |
| `KeepassStore` (keepassstore.dfy) | bootstrap group and entry creation, `create_kp_db`, the `KeepassStore` constructor, and `copy_group`/`copy_bootstrap_entries` |
| `KeyGen` (keygen.dfy) | `gen_utf8`, `_unicode_letters_generator` and `gen_passphrase` |
| `Tk` (tk.py → tk.dfy) | `get_store` and its two helpers, including keyword binding to the `KeepassStore` constructor |
| `BoltKv` (bolt.dfy) | the BoltDB context manager: one transaction, committed on exit unless read-only |
| `DictStore` (dictstore.dfy) | `PersistentDict`: load/dump through three formats, and `sync` |
| `Conf` (conf.dfy) | the settings' post-create hook that provisions key, token and database |
| `Upload` (upload.dfy) | the two HTTP handlers of `UploadFileApp.java`, with the multipart body as text |
| `Inventory` (inventory.dfy) | host name normalisation and first-wins de-duplication of `ActiveInventory` |
| `AnsibleResources` (playbooks.dfy) | `find_yaml_files`, `find_playbook` and `find_host` |
| `TkCli` (pyappscli.dfy) | `gen_key`, `passphrase` and `pack` of the pyapps command line |
| `ScriptsCli` (scriptscli.dfy) | `gen_key`, `passphrase`, `save_credential`, `unpack`, `pack` and `_sync_to_bootstrap` of the scripts command line |

Everything the code takes from outside is a parameter:
- randomness is a stream of draws;
- the Unicode category table is a function from code points to category names;
- `str.isprintable` is a predicate on characters;
- DNS is a resolver;
- KeePass encryption is a seal/unseal pair;
- the tar encoding and the Zstandard frame body are a codec;
- Java's `String.split` of a pattern with metacharacters is a splitter that may reject the pattern as an invalid expression;
- directory walks are given as the sequence of directories they visit.

Properties that need such an oracle to behave state it as a `Lawful` predicate. Examples: unsealing undoes sealing, and decoding undoes encoding.

Where the code and its documentation disagree, the model follows the code. The
"## Findings" table lists each such place. For each one, both the behaviour
as written and the evidently intended behaviour are modelled, and the rest of
the model uses the intended one. The archivers treat ZIP unevenly, which is
not a finding: `pack` raises NotImplementedError for it, while neither
`unpack` has a ZIP case, so both raise TypeError for it (`core.py`:84-85,
`utils/file.py`:99-100). As written, `unpack` of `utils/file.py` never gets
that far: it raises ValueError at line 82, like its `pack` at line 56.

## Model

Paths in the source column are relative to the repository root.

| member | source | states |
|---|---|---|
| FileUtils.Missing | pylibs/resources/resources/core.py:103 | exactly the listed paths that do not exist, in the order listed; for one path, the path itself iff it is missing |
| FileUtils.MissingConcat | pylibs/resources/resources/core.py:103 | the missing paths of two lists joined are the missing paths of the first followed by those of the second, so the order of the list is kept |
| FileUtils.MakeParents | pylibs/utils/utils/file.py:135-136 | fails with FileExistsError naming a parent iff some parent is a regular file; on success adds exactly the parents as directories; never touches files; changes nothing when every parent is already a directory |
| FileUtils.EnsurePath | pylibs/resources/resources/core.py:100-108 | raises FileExistsError iff a missing path's parent is a regular file; otherwise answers true iff every path existed before and creates exactly the parents of the missing ones; never creates a file |
| FileUtils.EnsureLoop | pylibs/utils/utils/file.py:135-140 | the loop never changes file contents; an empty list changes nothing; a first path whose parent is a regular file raises FileExistsError with nothing changed; a missing first path gets its parent created and then raises FileNotFoundError |
| FileUtils.EnsureLoopErrors | pylibs/utils/utils/file.py:135-140 | the loop raises nothing but FileExistsError and FileNotFoundError |
| FileUtils.UtilsEnsurePath | pylibs/utils/utils/file.py:122-141 | when every path exists the file system is unchanged and the answer is true; a false answer means some path was missing; the only errors are FileExistsError and FileNotFoundError; files never change |
| FileUtils.UtilsEnsurePathRaises | pylibs/utils/utils/file.py:135-138 | as written, the first missing path raises: FileExistsError with nothing changed when its parent is a regular file, otherwise FileNotFoundError from `chmod` on the path itself once its parent is created |
| FileUtils.GetFileBytes | pylibs/utils/utils/file.py:144-156 | bytes are returned iff the path is a regular file, and they are that file's contents |
| FileUtils.GetFileBytesAfterWrite | pylibs/utils/utils/file.py:144-156 | reading a file just written returns the written bytes |
| FileUtils.DeleteFiles | pylibs/utils/utils/file.py:181-188 | the files afterwards are the files before minus the listed paths; every other file keeps its bytes; directories untouched |
| FileUtils.DeleteFilesIdempotent | pylibs/utils/utils/file.py:181-188 | deleting the same paths twice equals deleting them once |
| FileUtils.GetFileBytesAfterDelete | pylibs/utils/utils/file.py:181-188 | a deleted path reads back as absent |
| FileUtils.CoreDeleteFiles | pylibs/resources/resources/core.py:114-117 | succeeds iff no listed path is a directory, and then equals the reference deletion; never adds or alters a file |
| EnvFilter.FilterEnvVars | pylibs/homeops-utils/homeops_utils/env.py:11-19 | a sub-map of the environment with printable values only; with paths (not strings) as filter, a variable is kept iff its value is printable, empty values included |
| EnvFilter.PrintableOnly | pylibs/homeops-utils/homeops_utils/env.py:18 | reference: a variable is kept iff its value is printable |
| EnvFilter.PathsNeverFilter | pylibs/homeops-utils/homeops_utils/env.py:17-18 | as written, a list of paths removes nothing: the filter equals the printable-only reference |
| EnvFilter.FilterEnvVarsByPath | pylibs/homeops-utils/homeops_utils/env.py:12-15 | the documented filter: a variable is kept iff its value is printable and is not one of the paths |
| EnvFilter.AsStrings | pylibs/homeops-utils/homeops_utils/env.py:17 | the paths turned into the string values the membership test can match, one per path |
| EnvFilter.ByPathIsStringMembership | pylibs/homeops-utils/homeops_utils/env.py:18 | the documented filter equals the written comprehension applied to the paths as strings |
| EnvFilter.HomeNotFiltered | pylibs/homeops-utils/homeops_utils/env.py:18 | `HOME=/root` filtered by the path `/root` is kept as written and removed by the documented filter |
| KeepassStore.SrcDbGuardAsWritten | pyapps/trapper-keeper/trapper_keeper/stores/keepass_store.py:45-47 | as written, the working-directory guard never raises, because a string never equals a path |
| KeepassStore.SrcDbGuard | pyapps/trapper-keeper/trapper_keeper/stores/keepass_store.py:45-47 | the guard compared as paths raises ValueError iff the source database is the working directory |
| KeepassStore.SrcDbGuardMissesCwd | pyapps/trapper-keeper/trapper_keeper/stores/keepass_store.py:46 | the working directory passes the written guard and is refused by the corrected one |
| KeepassStore.Present | pyapps/trapper-keeper/trapper_keeper/stores/keepass_store.py:63-64 | the positions whose source is a regular file, increasing |
| KeepassStore.PresentExact | pyapps/trapper-keeper/trapper_keeper/stores/keepass_store.py:63-64 | each position is listed iff its source is a regular file, once and in order |
| KeepassStore.AttachSources | pyapps/trapper-keeper/trapper_keeper/stores/keepass_store.py:61-66 | corrected, see the keepass_store.py:61-64 and file.py:138 findings: the loop taken path by path: on success the files are unchanged, the attachments grow by one (index, file name) per present source and the binary pool by its bytes in the same order; a failure is TypeError (a directory source) or FileExistsError (a regular file in place of a missing source's parent) |
| KeepassStore.AttachSourcesAsWritten | pyapps/trapper-keeper/trapper_keeper/stores/keepass_store.py:61-64 | as written, the loop gets the whole list as its one item and raises AttributeError for every list of sources |
| KeepassStore.AttachAsWrittenFails | pyapps/trapper-keeper/trapper_keeper/stores/keepass_store.py:61-64 | for sources that all exist, the loop as written fails while the path-by-path loop attaches every source |
| KeepassStore.EnsureOne | pyapps/trapper-keeper/trapper_keeper/stores/keepass_store.py:64 | corrected, see the file.py:138 finding: `ensure_path` on one path fails with FileExistsError iff the path is missing and its parent is a regular file; otherwise it creates only the parent of a missing path |
| KeepassStore.AttachSucceeds | pyapps/trapper-keeper/trapper_keeper/stores/keepass_store.py:63-66 | the loop runs to the end when no source is a directory and no missing source has a regular file for a parent |
| KeepassStore.AttachFailsOnDirectory | pyapps/trapper-keeper/trapper_keeper/stores/keepass_store.py:63-66 | a source that is a directory makes the loop fail |
| KeepassStore.AttachmentsAligned | pylibs/resources/resources/configs/tk_conf.py:65-66 | when every source exists, attachment i is (i, name of source i) and binary i holds that file's bytes |
| KeepassStore.MissingSourceShiftsIds | pyapps/trapper-keeper/trapper_keeper/stores/keepass_store.py:63-66 | when the first of two sources is missing, the attachment id 1 refers to pool slot 0, not slot 1 |
| KeepassStore.CustomFrom | pyapps/trapper-keeper/trapper_keeper/stores/keepass_store.py:68-69 | the custom properties are exactly the variables with a non-empty, printable value |
| KeepassStore.CustomDropsOnlyEmpty | pyapps/trapper-keeper/trapper_keeper/stores/keepass_store.py:68 | compared with the environment filter given paths, the custom properties drop exactly the empty values |
| KeepassStore.CreateBootstrapGroup | pyapps/trapper-keeper/trapper_keeper/stores/keepass_store.py:26-33 | adds one group below the root named after the bootstrap setting; nothing else changes |
| KeepassStore.PopulateBootstrap | pyapps/trapper-keeper/trapper_keeper/stores/keepass_store.py:35-71 | ValueError for the working-directory source and for a missing group; on success the bootstrap group gains one entry carrying the attachments of the path-by-path loop and the custom properties, and the binary pool grows by the attached bytes; other groups are unchanged |
| KeepassStore.Bootstrap | pyapps/trapper-keeper/trapper_keeper/stores/keepass_store.py:96-148 | only the database file changes, and it holds the populated store sealed with the given credentials |
| KeepassStore.PopulateNewGroup | pyapps/trapper-keeper/trapper_keeper/stores/keepass_store.py:35-71 | in a store without the group, creating then populating never fails on the group |
| KeepassStore.BootstrapAddsGroup | pyapps/trapper-keeper/trapper_keeper/stores/keepass_store.py:121-127 | bootstrapping a store without the group adds exactly one group with exactly one entry |
| KeepassStore.Open | pyapps/trapper-keeper/trapper_keeper/stores/keepass_store.py:132-148 | an existing bootstrap group leaves the store as loaded; a missing one is created with one entry and saved |
| KeepassStore.NewGroupFound | pyapps/trapper-keeper/trapper_keeper/stores/keepass_store.py:49-52 | the group just added is the one the lookup finds |
| KeepassStore.WriteCredentials | pyapps/trapper-keeper/trapper_keeper/stores/keepass_store.py:108-116 | only the token and key paths can be added; every existing file is kept; on success an existing token or key file is kept and a missing one holds the generated text |
| KeepassStore.CreateKpDb | pyapps/trapper-keeper/trapper_keeper/stores/keepass_store.py:96-127 | the database is sealed with the token file's contents and the key file; existing credentials are reused; the new store has one bootstrap group with one entry |
| KeepassStore.CreatedDatabaseOpensUnchanged | pyapps/trapper-keeper/trapper_keeper/stores/keepass_store.py:96-148 | a database just created opens with its token and key without further changes |
| KeepassStore.WriteIfNotFile | pyapps/trapper-keeper/trapper_keeper/stores/keepass_store.py:108-116 | an absent path or a regular file changes nothing; otherwise it succeeds iff the parent is not a regular file and the path is not a directory, and then only the path is written |
| KeepassStore.CopyOf | pyapps/trapper-keeper/trapper_keeper/stores/keepass_store.py:188-198 | a copy keeps the nine fields passed to `add_entry` and has no attachments or custom properties |
| KeepassStore.Copies | pyapps/trapper-keeper/trapper_keeper/stores/keepass_store.py:187-198 | one copy per source entry, in order |
| KeepassStore.CopyLoop | pyapps/trapper-keeper/trapper_keeper/stores/keepass_store.py:187-198 | the destination group's entries become its old entries followed by the copies; other groups untouched |
| KeepassStore.CopiesFirst | pyapps/trapper-keeper/trapper_keeper/stores/keepass_store.py:187-198 | copying a run equals copying its first entry, then the rest |
| KeepassStore.CopyGroup | pyapps/trapper-keeper/trapper_keeper/stores/keepass_store.py:180-200 | AttributeError iff the destination group is missing and there is something to copy; otherwise the copies are appended to the destination group |
| KeepassStore.CopyBootstrapEntries | pyapps/trapper-keeper/trapper_keeper/stores/keepass_store.py:202-221 | fails (AttributeError) iff the destination lacks the bootstrap group and the source has entries to copy; on success the entry count grows by the number copied |
| KeepassStore.CopyBootstrapAppends | pyapps/trapper-keeper/trapper_keeper/stores/keepass_store.py:208-221 | with the group present on both sides, the destination group ends with the copies of the source group's entries |
| KeepassStore.ViewKpDb | pyapps/trapper-keeper/trapper_keeper/stores/keepass_store.py:73-85 | opens iff the token and database files exist, the key file exists when a key is given, and the database unseals with the token's bytes and the key's (none without a key); a missing database raises FileNotFoundError; the store is what unsealing gives |
| KeepassStore.ViewSaved | pyapps/trapper-keeper/trapper_keeper/stores/keepass_store.py:73-85 | a database saved with a token file's and a key file's bytes is viewed as the saved store |
| KeyGen.DigitsAreDecimal | pyapps/trapper-keeper/trapper_keeper/keegen.py:21-34 | the delimiter set is exactly the ten decimal digits |
| KeyGen.Choice | pyapps/trapper-keeper/trapper_keeper/keegen.py:34-60 | a choice is always an element of the pool |
| KeyGen.LettersBelow | pyapps/trapper-keeper/trapper_keeper/keegen.py:67-78 | exactly the letters below the bound, strictly increasing |
| KeyGen.UnicodeLetters | pyapps/trapper-keeper/trapper_keeper/keegen.py:67-78 | a code point is listed iff it is a letter below 0x1FFFF (with the supplementary plane) or below 0xFFFF (without) |
| KeyGen.SlicePrefix | pyapps/trapper-keeper/trapper_keeper/keegen.py:63 | Python's `s[0:n]` is a prefix of `s`, of length `n` when `0 <= n <= len(s)` |
| KeyGen.Picks | pyapps/trapper-keeper/trapper_keeper/keegen.py:60 | `n` draws, each an element of the pool |
| KeyGen.Prefixed | pyapps/trapper-keeper/trapper_keeper/keegen.py:62-63 | the result is a prefix of start + separator + random text, cut to the requested length, with the random letters after the prefix |
| KeyGen.GenUtf8 | pyapps/trapper-keeper/trapper_keeper/keegen.py:43-64 | IndexError iff letters are requested and none exist; the text has the requested length; without a start it consists of letters only; with a start it begins with start + separator |
| KeyGen.Wordlist | pyapps/trapper-keeper/trapper_keeper/keegen.py:30-31 | exactly the words of the word file with 4 to 190 characters |
| KeyGen.MainWords | pyapps/trapper-keeper/trapper_keeper/keegen.py:39 | `length` words, each a lower-cased word-list entry |
| KeyGen.MainDelimiters | pyapps/trapper-keeper/trapper_keeper/keegen.py:21-39 | one delimiter fewer than the words, each a decimal digit |
| KeyGen.GenPassphrase | pyapps/trapper-keeper/trapper_keeper/keegen.py:24-40 | IndexError iff the word list is empty; otherwise exactly the main part followed by the tail: a digit, an upper-cased word and a final punctuation character |
| KeyGen.AppendedTail | pyapps/trapper-keeper/trapper_keeper/keegen.py:32-40 | a text with a tail appended ends with that tail |
| KeyGen.PassphraseStartsWithMain | pyapps/trapper-keeper/trapper_keeper/keegen.py:39-40 | a passphrase begins with its main part |
| KeyGen.SplitAtDigits | pyapps/trapper-keeper/trapper_keeper/keegen.py:21-39 | cutting at digits always yields at least one piece |
| KeyGen.RenderSplitsBack | pyapps/trapper-keeper/trapper_keeper/keegen.py:21-39 | digit-free words joined by single digits split back into exactly those words |
| KeyGen.MainPartIsDelimitedWords | pyapps/trapper-keeper/trapper_keeper/keegen.py:21-39 | the main part of a passphrase is exactly `length` lower-cased word-list words separated by single digits |
| Archive.Compress | pylibs/utils/utils/file.py:62-64 | a compressed archive starts with the Zstandard magic number (section 3.1.1 of RFC 8878) and is never empty |
| Archive.DecompressCompress | pylibs/utils/utils/file.py:62-64 | decompression undoes compression |
| Archive.PathifyGen | pylibs/utils/utils/file.py:28-37 | `pathify` yields a single item, the whole list |
| Archive.StringifyGen | pylibs/utils/utils/file.py:16-25 | `stringify_path` yields a single item, the whole list |
| Archive.PathifyList | pylibs/resources/resources/core.py:17-18 | `_pathify` returns the paths themselves, one per argument |
| Archive.UnpackTwo | pylibs/utils/utils/file.py:56 | unpacking into two names succeeds iff there are exactly two items |
| Archive.PathifyUnpacking | pylibs/utils/utils/file.py:56 | unpacking the `pathify` generator into two names always fails; unpacking `_pathify`'s list succeeds |
| Archive.ArcName | pylibs/utils/utils/file.py:60 | `tarfile` strips every leading separator from a member name and changes nothing else; the name never starts with a separator |
| Archive.Tar | pylibs/utils/utils/file.py:59-61 | the members are exactly the files at or below the source, each under its member name with its bytes |
| Archive.ArcNameInjective | pylibs/utils/utils/file.py:60 | two files below the same directory never share a member name |
| Archive.ArcNameBelow | pylibs/utils/utils/file.py:60 | below a source with a name in it, a member's name is the source's member name followed by the rest of the path |
| Archive.Target | pylibs/resources/resources/core.py:83 | a member's target is the output directory, a separator, then the member name |
| Archive.Extract | pylibs/resources/resources/core.py:83 | every member is written below the output directory with its bytes; files outside it are unchanged |
| Archive.Pack | pylibs/resources/resources/core.py:39-53 | FileExistsError when the tar file exists; a missing directory of the source fails with nothing changed; succeeds iff the source exists, the type is Zstandard, and the output is new, differs from the tar and has its directory; on success the output holds the compressed tar of the source, the tar file is gone and nothing else changes; on a later failure the tar file remains; ZIP raises NotImplementedError, other types TypeError |
| Archive.UtilsPack | pylibs/utils/utils/file.py:47-70 | as written, every call raises ValueError and changes nothing |
| Archive.CorePack | pylibs/resources/resources/core.py:27-53 | `pack` of `core.py` is the reference pack applied to its two arguments |
| Archive.Select | pylibs/resources/resources/core.py:82 | the selected members are all of them, exactly those named on an allow-list, or exactly those below a directory's member name, each with its bytes |
| Archive.Unpack | pylibs/resources/resources/core.py:56-85 | TypeError for anything but Zstandard; an error and no change when the input is missing or not a tar; succeeds iff the payload is a tar and the output is not a regular file or nothing is selected; a regular file at the output with members to write raises NotADirectoryError; on success exactly the selected members appear below the output directory and nothing outside it changes |
| Archive.UtilsUnpack | pylibs/utils/utils/file.py:73-100 | as written, every call raises ValueError and changes nothing |
| Archive.CoreUnpack | pylibs/resources/resources/core.py:56-85 | `unpack` of `core.py` is the reference unpack with the home directory as the only allowed member name |
| Archive.PackUnpackRoundTrip | pylibs/utils/tests/test_file.py:32-39 | packing a directory and unpacking the archive recreates every file below it, with the same bytes, under the output directory |
| Archive.TarNamesRelative | pylibs/utils/utils/file.py:60 | member names never start with a separator |
| Archive.AllowListSelectsNothing | pylibs/resources/resources/core.py:15 | an absolute home directory matches no relative member name, so nothing is selected |
| Archive.ExtractNothing | pylibs/resources/resources/core.py:83 | extracting no members changes nothing |
| Archive.UnpackPacked | pylibs/resources/resources/core.py:81-83 | unpacking what `pack` made succeeds iff the output is not a regular file or nothing is selected, and then extracts exactly the selected members of the packed tree |
| Archive.CoreUnpackExtractsNothing | pylibs/resources/resources/core.py:82 | as written, `core.py` unpacks an archive made by `pack` without extracting a single file |
| Archive.ArcNameUnder | pylibs/utils/utils/file.py:60 | a path below a directory keeps that relation after the leading separator is dropped |
| Archive.CoreUnpackHomeRestores | pylibs/resources/resources/core.py:15 | packing a directory inside the home directory and unpacking it with the members below the home directory selected restores every file |
| Archive.UnderTrans | pylibs/resources/resources/core.py:15 | lying below a directory is transitive |
| Tk.Lookup | pyapps/trapper-keeper/trapper_keeper/tk.py:48 | a keyword value is found iff some argument carries that name, and it is that argument's value |
| Tk.BindKeepass | pyapps/trapper-keeper/trapper_keeper/stores/keepass_store.py:132 | keyword arguments bind iff every name is a parameter and the two required ones are given; otherwise TypeError |
| Tk.KwargsOf | pyapps/trapper-keeper/trapper_keeper/stores/keepass_store.py:132 | the keywords of a handle use only the constructor's parameter names |
| Tk.BindKwargsOf | pyapps/trapper-keeper/trapper_keeper/stores/keepass_store.py:132 | binding the keywords of a handle gives the handle back |
| Tk.TkStoreAsWritten | pyapps/trapper-keeper/trapper_keeper/tk.py:46-48 | as written, opening the KeePass store always raises TypeError |
| Tk.TkStore | pyapps/trapper-keeper/trapper_keeper/tk.py:46-48 | the corrected call opens the database, token and key named in the settings |
| Tk.ChezmoiStore | pyapps/trapper-keeper/trapper_keeper/tk.py:51-53 | a bolt store on the chezmoi database with the requested read-only flag |
| Tk.GetStore | pyapps/trapper-keeper/trapper_keeper/tk.py:56-73 | succeeds iff the type is bolt or kp; bolt gives the read-only chezmoi store, kp the settings' KeePass store; otherwise ValueError naming the type |
| Tk.BoltStoresReadOnly | pyapps/trapper-keeper/trapper_keeper/tk.py:69-70 | every bolt store `get_store` hands out is read-only |
| Tk.SqliteUnsupported | pyapps/trapper-keeper/trapper_keeper/tk.py:24-34 | the declared SQLITE type is refused with ValueError |
| BoltKv.Init | pyapps/trapper-keeper/trapper_keeper/stores/bolt_kvstore.py:18-24 | the transaction is writable iff the store is not read-only, and sees the file as it is |
| BoltKv.Dispatch | pyapps/trapper-keeper/trapper_keeper/stores/bolt_kvstore.py:26-36 | database methods win over transaction methods; a name neither has is unresolved |
| BoltKv.InvokeMissing | pyapps/trapper-keeper/trapper_keeper/stores/bolt_kvstore.py:33-35 | calling an unresolved name raises AttributeError |
| BoltKv.Step | pyapps/trapper-keeper/trapper_keeper/stores/bolt_kvstore.py:26-36 | reads never change the view; writes fail in a read-only or closed transaction; a put lands in its bucket; a get answers the bucket's value |
| BoltKv.Run | pyapps/trapper-keeper/trapper_keeper/stores/bolt_kvstore.py:26-36 | the operations run in order up to the first exception; a read-only run leaves the transaction as it was |
| BoltKv.Exit | pyapps/trapper-keeper/trapper_keeper/stores/bolt_kvstore.py:38-43 | the transaction is closed; the view is committed iff the store is not read-only |
| BoltKv.Block | pyapps/trapper-keeper/trapper_keeper/stores/bolt_kvstore.py:38-43 | a read-only block leaves the file unchanged |
| BoltKv.ReadonlyNeverCommits | pyapps/trapper-keeper/trapper_keeper/stores/bolt_kvstore.py:38-43 | any read-only block keeps the file, and one containing a write ends in an exception |
| BoltKv.ReadOnlyRunStopsAt | pyapps/trapper-keeper/trapper_keeper/stores/bolt_kvstore.py:18-24 | a write anywhere in a read-only run stops it with an exception |
| BoltKv.RunFirst | pyapps/trapper-keeper/trapper_keeper/stores/bolt_kvstore.py:26-36 | a run is its first step followed by the rest |
| BoltKv.CommitsDespiteException | pyapps/trapper-keeper/trapper_keeper/stores/bolt_kvstore.py:38-43 | a writable block commits the work done before an exception |
| BoltKv.WriteThenRead | pyapps/trapper-keeper/tests/test_trapper_keeper.py:57-84 | a value put in a writable block is read back by a later read-only block |
| DictStore.FirstDecode | scripts/python/trapper-keeper/trapper_keeper/stores/dict_store.py:81-89 | succeeds iff some loader accepts the bytes, and answers the first that does; otherwise ValueError |
| DictStore.Loaders | scripts/python/trapper-keeper/trapper_keeper/stores/dict_store.py:35-89 | a binary file can be read by pickle then json, a text file by json then csv |
| DictStore.Load | scripts/python/trapper-keeper/trapper_keeper/stores/dict_store.py:81-89 | the first accepting loader of the open mode wins; none gives ValueError |
| DictStore.Dump | scripts/python/trapper-keeper/trapper_keeper/stores/dict_store.py:70-79 | succeeds iff the format is csv, json or pickle, writing that format's encoding; otherwise NotImplementedError with the text `Unknown format: ` and the format's `repr`, which for a plain name such as `xml` is `Unknown format: 'xml'` |
| DictStore.DictInit | scripts/python/trapper-keeper/trapper_keeper/stores/dict_store.py:26-38 | `dict.__init__` with more than one positional argument raises TypeError; otherwise the keys are those loaded, the positional mapping's and the keywords', a keyword wins over the positional mapping and both over the loaded value |
| DictStore.Init | scripts/python/trapper-keeper/trapper_keeper/stores/dict_store.py:25-38 | a new or missing file starts from the positional mapping and the keyword arguments; an existing file is loaded and both are added over it; a second positional argument raises TypeError; a directory raises |
| DictStore.InitAsWritten | scripts/python/trapper-keeper/trapper_keeper/stores/dict_store.py:11-38 | as written, no instance is ever made: loading fails with ValueError and `dict.__init__` with TypeError |
| DictStore.TempName | scripts/python/trapper-keeper/trapper_keeper/stores/dict_store.py:45 | the temporary file is never the target itself |
| DictStore.Exit | scripts/python/trapper-keeper/trapper_keeper/stores/dict_store.py:58-68 | leaving the context of a read-only dict changes nothing; otherwise, when the file's directory exists, the file holds the dump; an unknown format fails |
| DictStore.Move | scripts/python/trapper-keeper/trapper_keeper/stores/dict_store.py:52 | moving over a non-directory whose directory exists replaces it with the source's bytes and removes the source; a missing directory raises FileNotFoundError |
| DictStore.Sync | scripts/python/trapper-keeper/trapper_keeper/stores/dict_store.py:40-56 | read-only does nothing; a missing directory of the target raises with nothing changed; a failed dump removes the temporary file and leaves the target; otherwise the target holds the dump and the mode is applied if given |
| DictStore.LoadDump | scripts/python/trapper-keeper/trapper_keeper/stores/dict_store.py:70-89 | loading what a lawful format dumped gives the data back |
| DictStore.ExitPersists | scripts/python/trapper-keeper/trapper_keeper/stores/dict_store.py:58-68 | leaving the context with the file's directory in place writes the data, and opening the file again reads the same data |
| DictStore.FailedSyncKeepsTarget | scripts/python/trapper-keeper/trapper_keeper/stores/dict_store.py:44-53 | an unknown format raises NotImplementedError with the text `Unknown format: ` and the format's `repr` (`'xml'` for `xml`), leaves the target as it was and removes the temporary file |
| Strings.PyRepr | scripts/python/trapper-keeper/trapper_keeper/stores/dict_store.py:79 | `repr` of a string is quoted with the same character at both ends and is at least two longer; a string without quotes, backslashes, tabs or line breaks is that string in single quotes |
| Conf.WriteIfBlank | pyapps/trapper-keeper/trapper_keeper/conf.py:43-50 | a non-empty file is kept; a missing or empty one is written when its directory exists, and fails otherwise |
| Conf.MakeConfDirs | pyapps/trapper-keeper/trapper_keeper/conf.py:33-36 | fails with FileExistsError naming a parent iff some parent of the four paths is a regular file; on success exactly those parents are added; files never change |
| Conf.WriteBlanks | pyapps/trapper-keeper/trapper_keeper/conf.py:43-50 | key then token are written when blank; succeeds when neither is a directory and both directories exist |
| Conf.CreateDb | pyapps/trapper-keeper/trapper_keeper/conf.py:52-55 | succeeds iff token and key exist and the database path is not a directory; the database is an empty store sealed with the token's contents and the key |
| Conf.PostCreate | pyapps/trapper-keeper/trapper_keeper/conf.py:31-57 | a regular file in place of a parent stops the hook with FileExistsError and no file changes; on success all four parents exist; an existing database is left alone and only the blank credentials are written; a missing one is created from the provisioned credentials |
| Conf.Provision | pyapps/trapper-keeper/trapper_keeper/conf.py:43-57 | once the directories exist: an existing database leaves only the blank credentials written; a missing one is created sealed with them; writable credentials always succeed |
| Conf.BlanksAfterDirs | pyapps/trapper-keeper/trapper_keeper/conf.py:33-50 | creating the directories does not change which credentials are blank |
| Conf.PostCreateIdempotent | pyapps/trapper-keeper/tests/test_trapper_keeper.py:103-112 | running the hook a second time changes nothing |
| Conf.ProvisionedFiles | pyapps/trapper-keeper/trapper_keeper/conf.py:43-57 | after a successful run the key and token are non-empty and the database exists |
| Conf.CreatedDatabaseOpens | pyapps/trapper-keeper/trapper_keeper/conf.py:52-55 | the created database opens with the stored token and key |
| Upload.HandleRoot | scripts/jbang-catalog/UploadFileApp.java:61-78 | a GET, and only a GET, gets 200 and a form posting to /upload |
| Upload.FileContent | scripts/jbang-catalog/UploadFileApp.java:96-100 | the content lies between the first blank line and the last line break; a part without a line break raises; the exception is the bounds exception, whose text starts with `begin ` |
| Upload.FileContentWithoutBreak | scripts/jbang-catalog/UploadFileApp.java:96 | a part with no line break fails with exactly Java's text `begin 3, end -1, length N`, N the part's length |
| Upload.FailedPartMessage | scripts/jbang-catalog/UploadFileApp.java:96-100 | the message of a failing part is the `substring` bounds: the blank line's index plus 4, the last line break's index, and the part's length |
| Upload.HeaderEndAt | scripts/jbang-catalog/UploadFileApp.java:96 | the first blank line of an encoded part is the one ending its headers |
| Upload.ExtractEncoded | scripts/jbang-catalog/UploadFileApp.java:96-100 | extracting the content of an encoded field gives back that content |
| Upload.LastContentCons | scripts/jbang-catalog/UploadFileApp.java:94-104 | the last stored content of a field is found by scanning the parts in order |
| Upload.StorePartStored | scripts/jbang-catalog/UploadFileApp.java:94-104 | one part that does not fail is stored as the reference says |
| Upload.StorePartsFails | scripts/jbang-catalog/UploadFileApp.java:94-128 | the loop fails iff some field part has no extractable content |
| Upload.StorePartsLastWins | scripts/jbang-catalog/UploadFileApp.java:94-102 | without failure each destination holds the content of the last part for its field |
| Upload.StorePartsKeepsEarlier | scripts/jbang-catalog/UploadFileApp.java:94-128 | when a part fails, the writes of the parts before it are kept |
| Upload.StorePart | scripts/jbang-catalog/UploadFileApp.java:94-104 | one part fails iff it is a field without extractable content, with that exception; a database part leaves the token, a token part the database; other parts change nothing |
| Upload.StoreParts | scripts/jbang-catalog/UploadFileApp.java:94-104 | no parts, or no field parts, change nothing and fail nothing; any failure is the bounds exception |
| Strings.ParseNatToString | scripts/jbang-catalog/UploadFileApp.java:123 | the decimal text of a number in an exception message reads back as that number |
| Upload.HandleUpload | scripts/jbang-catalog/UploadFileApp.java:80-132 | only a POST gets an answer, always 200, 400 or 500; a missing or non-multipart content type gets 400; a multipart type without a boundary gets 500 with `Index 1 out of bounds for length 1` and nothing is stored; 200 only for a multipart POST, with the success text |
| Upload.RegexSplit | scripts/jbang-catalog/UploadFileApp.java:92 | `String.split` of a pattern without metacharacters is the literal split and never fails; it fails, with a PatternSyntaxException, exactly when the pattern has a metacharacter and the expression compiler rejects it |
| Upload.InvalidBoundaryStoresNothing | scripts/jbang-catalog/UploadFileApp.java:92-127 | a boundary the expression compiler rejects leaves both destinations unchanged and answers 500 with `Error processing upload: ` and the exception's message |
| Upload.InvalidFormBoundary | scripts/jbang-catalog/UploadFileApp.java:88-127 | the same for any form content type whose boundary holds a metacharacter the compiler rejects |
| Upload.UnclosedGroupBoundary | scripts/jbang-catalog/UploadFileApp.java:92-127 | the boundary `abc(`, allowed by RFC 2046, stores nothing and answers 500 whatever the body |
| Upload.NoBoundaryMessage | scripts/jbang-catalog/UploadFileApp.java:88 | the message for a content type without a boundary is Java's `Index 1 out of bounds for length 1` |
| Upload.UploadFailure | scripts/jbang-catalog/UploadFileApp.java:94-128 | when a part fails, the contents stored before it are kept and the reply is 500 with the prefix and that part's `substring` bounds |
| Upload.ContentTypeSplits | scripts/jbang-catalog/UploadFileApp.java:88 | a form's content type splits into the media type and the boundary |
| Upload.BodySplits | scripts/jbang-catalog/UploadFileApp.java:92 | a form body splits at its boundary into preamble, the two fields and the closing part |
| Upload.StoresDbPart | scripts/jbang-catalog/UploadFileApp.java:95-98 | a database field stores its content in the database destination |
| Upload.StoresTokenPart | scripts/jbang-catalog/UploadFileApp.java:99-102 | a token field stores its content in the token destination |
| Upload.NamesToken | scripts/jbang-catalog/UploadFileApp.java:99 | an encoded token field carries the token field name |
| Upload.StoreFormParts | scripts/jbang-catalog/UploadFileApp.java:94-104 | the four parts of a form store both contents without failure |
| Upload.UploadRoundTrip | scripts/jbang-catalog/UploadFileApp.java:80-132 | a well-formed multipart form (section 5.1.1 of RFC 2046) gets 200 and both contents are stored |
| Inventory.FirstLabel | scripts/python/ansible-commands/ansible_commands/cli.py:113 | the text before the first dot, a dot-free prefix |
| Inventory.Simplify | scripts/python/ansible-commands/ansible_commands/cli.py:111-116 | wildcard names are dropped; other names become their lower-cased first label |
| Inventory.Normalize | scripts/python/ansible-commands/ansible_commands/cli.py:94-116 | an address whose PTR name ends in a dot becomes that name without the dot, simplified; a PTR name without the dot leaves the original text to be simplified; an address without a PTR record (NXDOMAIN) is returned as the canonical address text; any other DNS failure raises; a plain name is simplified |
| Inventory.AsciiLowerIdempotent | scripts/python/ansible-commands/ansible_commands/cli.py:115 | lower-casing a lower-case name changes nothing |
| Inventory.NormalizeIdempotent | scripts/python/ansible-commands/ansible_commands/cli.py:94-116 | normalising a normalised name gives the same name |
| Inventory.MergeVars | scripts/python/ansible-commands/ansible_commands/cli.py:131-133 | existing variables keep their values; only missing ones are added |
| Inventory.FilterDuplicates | scripts/python/ansible-commands/ansible_commands/cli.py:119-133 | non-hosts and names that normalise to nothing leave the inventory unchanged; it fails iff normalising the host fails; the inventory grows by at most one host and keeps its names distinct |
| Inventory.Preprocess | scripts/python/ansible-commands/ansible_commands/cli.py:139-145 | no items give an empty inventory; a successful run has distinct names and no more hosts than items; a host whose name fails to normalise makes the run fail |
| Inventory.Find | scripts/python/ansible-commands/ansible_commands/cli.py:129 | the first host with the name, or none when no host has it |
| Inventory.Insert | scripts/python/ansible-commands/ansible_commands/cli.py:129-133 | a new name is appended; a known name has its variables merged in place; other hosts unchanged |
| Inventory.FirstWith | scripts/python/ansible-commands/ansible_commands/cli.py:131-133 | the first host with the name that defines the variable |
| Inventory.PreprocessIsDedupOfAccepted | scripts/python/ansible-commands/ansible_commands/cli.py:118-145 | the loop succeeds iff every name normalises, and equals merging the accepted hosts one after another |
| Inventory.InsertUnique | scripts/python/ansible-commands/ansible_commands/cli.py:129-133 | inserting keeps host names distinct |
| Inventory.InsertSameNames | scripts/python/ansible-commands/ansible_commands/cli.py:129-133 | inserting a host adds exactly its name |
| Inventory.InsertVars | scripts/python/ansible-commands/ansible_commands/cli.py:131-133 | after inserting, each variable still comes from the first host that defines it |
| Inventory.DedupNames | scripts/python/ansible-commands/ansible_commands/cli.py:139-145 | merging yields distinct names, exactly the accepted ones |
| Inventory.DedupVars | scripts/python/ansible-commands/ansible_commands/cli.py:139-145 | each merged variable comes from the first accepted host of that name defining it |
| Inventory.PreprocessFirstWins | scripts/python/ansible-commands/ansible_commands/cli.py:118-145 | a successful run yields distinct names, exactly the accepted ones, with first-wins variables |
| Inventory.MergedInventory | pylibs/homeops-inventory/homeops_inventory/sources.py:214-217 | the merged list is the proxmox hosts, then the LDAP hosts, then the static hosts, each in its own order |
| Inventory.AcceptedAppend | scripts/python/ansible-commands/ansible_commands/cli.py:139-145 | the accepted hosts of a prefix are a prefix of the accepted hosts of the whole |
| Inventory.FirstWithPrefix | scripts/python/ansible-commands/ansible_commands/cli.py:131-133 | a match inside a prefix is the first match of the whole |
| Inventory.ProxmoxVarsWin | pylibs/homeops-inventory/homeops_inventory/sources.py:214-217 | a variable set by an accepted proxmox host wins over LDAP and static hosts of the same name |
| AnsibleResources.PathJoin | pylibs/resources/resources/ansible.py:26 | a join ends with its last component; an absolute component replaces the root |
| AnsibleResources.YamlNames | pylibs/resources/resources/ansible.py:24-26 | exactly the files ending in .yaml or .yml |
| AnsibleResources.FindYamlFilesExact | pylibs/resources/resources/ansible.py:16-28 | the found paths are exactly the walked YAML files joined to their directories |
| AnsibleResources.FindYamlFilesAppend | pylibs/resources/resources/ansible.py:23-27 | a longer walk extends the results of its beginning |
| AnsibleResources.FirstStartingWith | pylibs/resources/resources/ansible.py:44-46 | the first path with the prefix, and none before it |
| AnsibleResources.FindPlaybook | pylibs/resources/resources/ansible.py:31-48 | the first playbook whose whole path starts with the name; none when no path does; a walk failure other than FileNotFoundError propagates |
| AnsibleResources.FindHost | pylibs/resources/resources/ansible.py:65-82 | the first host file whose whole path starts with the name; FileNotFoundError when none does |
| AnsibleResources.JoinAbsolute | pylibs/resources/resources/ansible.py:26 | joining onto an absolute root gives an absolute path |
| AnsibleResources.AbsoluteRootsNeverMatch | pylibs/resources/resources/ansible.py:45 | with absolute roots, a relative application name never matches |
| AnsibleResources.FirstNamed | pylibs/resources/resources/ansible.py:40-41 | the first path whose file name has the prefix, and none before it |
| AnsibleResources.FindPlaybookByName | pylibs/resources/resources/ansible.py:40-41 | the documented lookup: the first playbook whose file name starts with the name |
| AnsibleResources.OnePlaybookFound | pylibs/resources/resources/ansible.py:16-28 | walking a root with one playbook finds exactly it |
| AnsibleResources.PlaybookByNameMissed | pylibs/resources/resources/ansible.py:45 | as written, `jellyfin.yml` in `/pb` is not found for `jellyfin` |
| AnsibleResources.PlaybookByNameFound | pylibs/resources/resources/ansible.py:40-41 | the documented lookup finds `/pb/jellyfin.yml` for `jellyfin` |
| AnsibleResources.PlaybookNamed | pylibs/resources/resources/ansible.py:40-41 | the file name of that playbook starts with the application name |
| TkCli.ImportFrom | pyapps/trapper-keeper/trapper_keeper/cli.py:17 | the import succeeds iff the module defines every name; otherwise ImportError names the first missing one |
| TkCli.ImportAsWrittenFails | pyapps/trapper-keeper/trapper_keeper/cli.py:17 | as written, the import stops at `file_hash`, which the package's `conf.py` does not define |
| TkCli.ImportFromSharedConf | pyapps/trapper-keeper/trapper_keeper/cli.py:17 | the same names imported from the shared `tk_conf.py` all bind |
| TkCli.WriteCredential | pyapps/trapper-keeper/trapper_keeper/cli.py:100-108 | a regular file in place of the parent raises FileExistsError and changes nothing; otherwise the parent is created with mode 0o700, a non-empty file is kept, anything else is written with mode 0o600, and a directory raises |
| TkCli.WriteCredentialKeeps | pyapps/trapper-keeper/trapper_keeper/cli.py:103-104 | once written with non-empty text, writing again changes nothing |
| TkCli.GenKey | pyapps/trapper-keeper/trapper_keeper/cli.py:97-110 | no letters means IndexError and no change; no path changes nothing; a regular file in place of the directory raises FileExistsError and changes nothing; otherwise a blank key path receives a key of the requested length |
| TkCli.Passphrase | pyapps/trapper-keeper/trapper_keeper/cli.py:113-126 | an empty word list raises IndexError; a regular file in place of the directory raises FileExistsError and changes nothing; otherwise a blank token path receives a passphrase ending in punctuation |
| TkCli.Layout | pyapps/trapper-keeper/trapper_keeper/cli.py:81-90 | the pack files are distinct, directly below the temporary directory, with the names the command line uses |
| TkCli.Credentials | pyapps/trapper-keeper/trapper_keeper/cli.py:77-86 | in a fresh directory whose own directory exists, the directory is created and the key and token are written |
| TkCli.PackAsWritten | pyapps/trapper-keeper/trapper_keeper/cli.py:87 | as written, `pack` raises TypeError after writing the credentials and before any database or archive exists |
| TkCli.Provision | pyapps/trapper-keeper/trapper_keeper/cli.py:85-87 | the credentials are in place and the database is the new store sealed with them; the store has one bootstrap group |
| TkCli.Pack | pyapps/trapper-keeper/trapper_keeper/cli.py:74-90 | a failure while provisioning is passed on; success leaves the compressed archive of the directory and no tar file |
| TkCli.PackRestores | pyapps/trapper-keeper/trapper_keeper/cli.py:74-90 | unpacking the archive restores key, token, and a database that opens with them to the created store |
| ScriptsCli.SaveCredential | scripts/python/trapper-keeper/trapper_keeper/cli.py:218-237 | without a path it raises TypeError; with a path it behaves like the other command line: a regular file in place of the directory raises FileExistsError, a non-empty file is kept, anything else is written |
| ScriptsCli.SaveCredentialWithoutPath | scripts/python/trapper-keeper/trapper_keeper/cli.py:225 | with no path the other command line prints and succeeds, while this one fails; the file system is the same either way |
| ScriptsCli.GenKey | scripts/python/trapper-keeper/trapper_keeper/cli.py:20-28 | no letters raises IndexError; a regular file in place of the directory raises FileExistsError; otherwise the directory is added and a blank key path receives a key of the requested length |
| ScriptsCli.Passphrase | scripts/python/trapper-keeper/trapper_keeper/cli.py:207-215 | an empty word list raises IndexError; a regular file in place of the directory raises FileExistsError; otherwise a blank token path receives a seven-word passphrase ending in punctuation |
| ScriptsCli.Unpack | scripts/python/trapper-keeper/trapper_keeper/cli.py:78-108 | an extraction failure is passed on; an existing destination raises and nothing is installed; otherwise it succeeds iff the three extracted files exist and the destinations can be written, then installs their bytes at the database, token and key paths; a missing extracted database raises FileNotFoundError |
| ScriptsCli.Install | scripts/python/trapper-keeper/trapper_keeper/cli.py:106-108 | the three writes succeed iff no destination is a directory and each one's directory exists; a write that fails keeps the earlier writes and never writes the later ones; no other file changes |
| ScriptsCli.UnpackCommand | scripts/python/trapper-keeper/trapper_keeper/cli.py:78-114 | after a successful install the command succeeds iff the installed database unseals with the installed token and key; the files are those the install left |
| ScriptsCli.UnpackCommandOpens | scripts/python/trapper-keeper/trapper_keeper/cli.py:95-114 | an archive holding a database sealed with its own token and key is installed and opens |
| ScriptsCli.UnpackNeverOverwrites | scripts/python/trapper-keeper/trapper_keeper/cli.py:92-93 | a file at a destination outside the extraction directory keeps its bytes |
| ScriptsCli.UnpackInstalls | scripts/python/trapper-keeper/trapper_keeper/cli.py:95-108 | an archive whose members carry the three destination names, unpacked where the destinations' directories exist, installs each member's bytes at its destination |
| ScriptsCli.InstalledValues | scripts/python/trapper-keeper/trapper_keeper/cli.py:95-108 | writing database, token and key to distinct paths leaves each with its own bytes |
| ScriptsCli.ExtractedSources | scripts/python/trapper-keeper/trapper_keeper/cli.py:95-108 | the three files read after extraction are the archive's members |
| ScriptsCli.ExtractedMembers | scripts/python/trapper-keeper/trapper_keeper/cli.py:88-89 | extracting an archive puts every member below the directory |
| ScriptsCli.NameHasNoSeparator | scripts/python/trapper-keeper/trapper_keeper/cli.py:95-99 | a path's name never contains a separator |
| ScriptsCli.TarMembersNested | scripts/python/trapper-keeper/trapper_keeper/cli.py:159-160 | every member of a tar made from a named directory contains a separator |
| ScriptsCli.UnpackNestedFails | scripts/python/trapper-keeper/trapper_keeper/cli.py:95-102 | when every member lies in a subdirectory, extraction succeeds but opening the extracted database raises FileNotFoundError and nothing is installed |
| ScriptsCli.UnpackOwnArchiveFails | scripts/python/trapper-keeper/trapper_keeper/cli.py:95-102 | as written, `unpack` of the archive `pack` makes of a named temporary directory raises FileNotFoundError for the database |
| ScriptsCli.PackWith | scripts/python/trapper-keeper/trapper_keeper/cli.py:116-165 | in a fresh directory the copy result is the bootstrap copy; a failed copy is the error and no archive exists; after a successful copy the key and token hold the generated texts and the archive exists; with nothing saved at the database path the view raises FileNotFoundError; otherwise the database keeps the opened bytes and the command succeeds iff they unseal with the token and key |
| ScriptsCli.ArchivedCredentials | scripts/python/trapper-keeper/trapper_keeper/cli.py:159-160 | archiving keeps the credentials and the database file, if any, and adds the archive |
| ScriptsCli.CopyAndArchive | scripts/python/trapper-keeper/trapper_keeper/cli.py:143-160 | a failed copy stops before the archive; otherwise the directory is archived and only the archive is added |
| ScriptsCli.ArchiveDir | scripts/python/trapper-keeper/trapper_keeper/cli.py:159-160 | the archive is the compressed tar of the pack directory, and only it is added |
| ScriptsCli.Credentials | scripts/python/trapper-keeper/trapper_keeper/cli.py:126-142 | in a fresh directory the directory is created and the key and token are written |
| ScriptsCli.FreshVacant | scripts/python/trapper-keeper/trapper_keeper/cli.py:126 | a fresh directory has free credential paths |
| ScriptsCli.FreshPackFacts | scripts/python/trapper-keeper/trapper_keeper/cli.py:126-142 | writing the credentials leaves the directory ready to archive |
| ScriptsCli.PackAsWritten | scripts/python/trapper-keeper/trapper_keeper/cli.py:138-141 | as written, a successful copy leaves the archive and a key of seven letters |
| ScriptsCli.Pack | scripts/python/trapper-keeper/trapper_keeper/cli.py:116-165 | with the corrected length, a successful copy leaves the archive and a key of 128 letters |
| ScriptsCli.PackKeyLength | scripts/python/trapper-keeper/trapper_keeper/cli.py:138-141 | the key written as written is seven letters long, the corrected one 128 |
| ScriptsCli.PackWithoutDatabaseRaises | scripts/python/trapper-keeper/trapper_keeper/cli.py:157-165 | when opening the target store saves nothing, `pack` raises FileNotFoundError after the archive is written, and no database exists |
| ScriptsCli.SyncAsWritten | scripts/python/trapper-keeper/trapper_keeper/cli.py:189-195 | as written, syncing always raises AttributeError |
| ScriptsCli.SyncToBootstrap | scripts/python/trapper-keeper/trapper_keeper/cli.py:181-203 | the sync succeeds whenever the bootstrap database has the group, and appends copies of the packed store's bootstrap entries to it |
| ScriptsCli.CopyKeepsGroup | pyapps/trapper-keeper/trapper_keeper/stores/keepass_store.py:180-200 | copying into a store keeps its bootstrap group where it was |
| ScriptsCli.CopiesAppend | pyapps/trapper-keeper/trapper_keeper/stores/keepass_store.py:188-198 | copying a concatenation is concatenating the copies |
| ScriptsCli.CopiesTwice | pyapps/trapper-keeper/trapper_keeper/stores/keepass_store.py:188-198 | copying copies equals copying once |
| ScriptsCli.PackLeavesDatabaseFile | scripts/python/trapper-keeper/trapper_keeper/cli.py:143-174 | leaving the `with` block saves nothing, so after `pack` the database file that `_sync_to_bootstrap` reopens holds exactly what opening the target store left there, whatever the copy did: the entries `pack` copied never reach the sync |
| ScriptsCli.CopyThereAndBack | pyapps/trapper-keeper/trapper_keeper/stores/keepass_store.py:202-221 | two in-memory copies, the canonical bootstrap entries into a store and that store's bootstrap entries back, leave the canonical group with its old entries, then copies of the other store's own entries, then a second, stripped copy of its old entries |

## Left out

- Printing, the `keepassxc-cli` subprocesses and the interactive helpers (`export_attachment_from_origin`, `add_export_entry`, `export_bootstrap_kpdb`, `refresh_config`) are console and process I/O and are not modelled. `view_kp_db` is modelled up to opening the database; what it prints is not.
- Saving and setting the TOML settings (`set(..., autosave=True)`, `config.save()`) is not modelled; the paths they would hold are parameters.
- `homeops_utils.file` and the scripts package's own `get_store` and `stores/keepass_store.py` are not part of this model. The scripts command line uses `Archive.Pack`/`Archive.Unpack` with no allow-list. Its `pathify` is taken to return the converted paths. It receives its two KeePass stores already open; what opening the target store leaves at the database path is a parameter. Its `view_kp_db` is taken to be the pyapps one.
- What opening a store does on disk (creating directories, locks, BoltDB's page format) is not modelled; a bolt file is a map of buckets.
- Mode bits are recorded but permissions are never enforced.
- Text encoding is an oracle (`encode`): no UTF-8 is modelled.
- Tar metadata, directory members and the Zstandard frame body are abstract; compression level and thread count are dropped.
- `pyapps/trapper-keeper/trapper_keeper/cli.py`:17 imports `file_hash` and `TgtSettings` from the package's `conf.py`, which defines only `TkSettings`, so importing the command line raises ImportError (see "## Findings"). Every other `TkCli` member models the command line as if the import had succeeded, with the names taken from the shared `tk_conf.py`.
- `zip_files` and `get_file_io` only build in-memory archives that no modelled caller uses.
- `backup` and the pyapps `unpack` have empty bodies.
- The Java server setup, the listening port, the temporary files and the moves to the XDG destinations are not modelled; a destination is the content written to it.
- Randomness, the Unicode category table, `str.isprintable` and DNS are oracles, so no claim is made about the distribution of keys or the actual letters.
- `find_playbooks` and `find_hosts` are taken as the walk of their roots; the root path constants are inputs.
- KeePass groups are modelled one level below the root.
- Only a path's immediate directory is consulted: a write or `mkdir(parents=True)` checks whether the parent is a directory or a regular file, and the ancestors above it are not tracked, so a regular file further up (NotADirectoryError in Python) is not modelled.
- Archive.Extract: the intermediate directories `tarfile` creates for nested members are not recorded, and a member whose target is an existing directory does not fail.
- `tempfile.mkdtemp` is a new directory whose own directory exists; its random name is a parameter.
- ScriptsCli.SyncToBootstrap: the `invert=True` argument at `scripts/python/trapper-keeper/trapper_keeper/cli.py`:203 is dropped. The scripts package's store class is not part of this model, and the pyapps `copy_bootstrap_entries` takes no such parameter, so the corrected sync is the plain copy from the packed store into the canonical one.
- ScriptsCli.PackWith: no longer promises that `pack` succeeds: after the archive it opens the target database again to view it, which raises FileNotFoundError when opening the store saved nothing (ScriptsCli.PackWithoutDatabaseRaises).
- DictStore.Init: the positional argument of `dict.__init__` is taken as a mapping. An iterable of key/value pairs is represented by the mapping it builds, and the errors of a malformed iterable are not modelled.
- DictStore.Dump: Python's `repr` also writes other non-printable characters as `\x`, `\u` or `\U` escapes; the model escapes only backslash, the quote in use, tab, line feed and carriage return, so the error text differs for formats holding other control characters.
- Inventory.Simplify: `str.lower()` lowers every Unicode cased letter, while the model lowers only ASCII `A`-`Z`; names with other upper-case letters are not modelled faithfully.
- Upload.HandleUpload: the request body is taken as already decoded text, so the byte-to-String conversion and the UTF-8 encoding of the token are not modelled.
- ScriptsCli.Passphrase: modelled at the seven words every caller in the file passes, not for an arbitrary `length`.
- KeepassStore.MissingSourceShiftsIds: states the mismatch between attachment ids and binary slots when a source is missing, but it is not claimed as a defect because nothing in the repository reads attachments back by id.
- The `tk_conf.py` key file `secrets.keyx` and the `secrets.key` name the command lines use are not reconciled; the model follows each command line.

## Findings

| source | as written | input that shows it | evidently intended | confidence | as-written member | corrected member |
|---|---|---|---|---|---|---|
| pyapps/trapper-keeper/trapper_keeper/stores/keepass_store.py:46 | a `str` setting is compared with `Path.cwd()`, which is never equal | `src_db` set to the working directory's own path | refuse a source database equal to the working directory | not executed | KeepassStore.SrcDbGuardAsWritten | KeepassStore.SrcDbGuard |
| pyapps/trapper-keeper/trapper_keeper/tk.py:48 | `KeepassStore` is called with `kp_fp`, `kp_key`, `kp_token`, which are not its parameters | any settings: `get_store(settings, DbTypes.KP)` | pass `fp_kp_db`, `fp_token`, `fp_key` | not executed | Tk.TkStoreAsWritten | Tk.TkStore |
| pyapps/trapper-keeper/trapper_keeper/cli.py:87 | `create_kp_db` is called with `kp_fp`, `kp_token`, `kp_key` | any fresh temporary directory: `pack()` | the database is created and the directory archived | not executed | TkCli.PackAsWritten | TkCli.PackRestores |
| scripts/python/trapper-keeper/trapper_keeper/cli.py:138-141 | the key length is the passphrase length setting | `pack()` with the default settings writes a 7-letter key | `key_length`, 128 letters | not executed | ScriptsCli.PackKeyLength | ScriptsCli.Pack |
| scripts/python/trapper-keeper/trapper_keeper/cli.py:192-194 | `self.fp_kp_db` and friends are not attributes | a direct call `_sync_to_bootstrap(db, token, key)` with any three paths | use the method's parameters | not executed | ScriptsCli.SyncAsWritten | ScriptsCli.SyncToBootstrap |
| pylibs/utils/utils/file.py:56-82 | `pathify` returns a generator of one list, which cannot be unpacked into two names | `pack(src_dir, out_file)` with any two paths | unpack the two converted paths, as `core.py` does | not executed | Archive.PathifyUnpacking | Archive.CorePack |
| pylibs/utils/utils/file.py:138 | `chmod` is applied to the missing path itself | `ensure_path(Path("/tmp/x/new.txt"))` with no such file | create only the parents and answer false | not executed | FileUtils.UtilsEnsurePathRaises | FileUtils.EnsurePath |
| scripts/python/trapper-keeper/trapper_keeper/stores/dict_store.py:11-38 | the class does not derive from `dict`, so `self.update` and `dict.__init__(self)` fail | `PersistentDict("data.pkl")` | a persistent `dict` that loads, updates and syncs | not executed | DictStore.InitAsWritten | DictStore.ExitPersists |
| pylibs/resources/resources/core.py:82 | members are kept only if their name equals `str(Path.home())`, but `tarfile` stores relative names | unpacking an archive `pack` made from `/home/u/data` | extract the members below the home directory | not executed | Archive.CoreUnpackExtractsNothing | Archive.CoreUnpackHomeRestores |
| pylibs/resources/resources/ansible.py:45 | the whole path is tested with `startswith(app_name)` | `jellyfin` against `/pb/jellyfin.yml` | test the file name, as the docstring says | not executed | AnsibleResources.PlaybookByNameMissed | AnsibleResources.PlaybookByNameFound |
| pylibs/homeops-utils/homeops_utils/env.py:18 | the string values are compared with a list of `Path`s, so nothing matches; this takes `homeops_utils.file.pathify`, which is not part of this model, to yield the given paths as `Path`s; the `pathify` of `utils/file.py` would instead receive the tuple `paths` as its one argument and raise TypeError on `Path(paths)` when the membership test first runs it | `HOME=/root` filtered by `Path("/root")` | drop variables whose value is one of the paths | not executed | EnvFilter.HomeNotFiltered | EnvFilter.ByPathIsStringMembership |
| pyapps/trapper-keeper/trapper_keeper/stores/keepass_store.py:61-64 | `file.pathify` of `utils/file.py` is a generator whose one item is the whole list, so `ensure_path` is asked about a list and raises AttributeError | `_create_kp_db_bootstrap_entries` with any `src_files` setting | attach each source file in turn | not executed | KeepassStore.AttachAsWrittenFails | KeepassStore.AttachSources |
| scripts/python/trapper-keeper/trapper_keeper/cli.py:95-102 | `unpack` opens the three files directly in the extraction directory, but `pack` archives the temporary directory under its own path, so the members are named `tmp/<dir>/secrets.kdbx` and so on; this takes `homeops_utils.file.pack`, which is not part of this model, to name members after the source's own path as the `pack` of `utils/file.py` and `core.py` do | `unpack` of the `trapper_keeper.zst` that `pack` wrote in `/tmp/abc` | find the files where the archive puts them, or pack them under their own names | not executed | ScriptsCli.UnpackOwnArchiveFails | ScriptsCli.UnpackInstalls |
| pyapps/trapper-keeper/trapper_keeper/cli.py:17 | `file_hash` and `TgtSettings` are imported from the package's `conf.py`, which defines only `TkSettings` | `import trapper_keeper.cli` | import them from the shared `resources/configs/tk_conf.py`, as the scripts command line does | not executed | TkCli.ImportAsWrittenFails | TkCli.ImportFromSharedConf |
