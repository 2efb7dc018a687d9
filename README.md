# think-filesystem, modelled in Dafny

This project models the core of `yzh52521/think-filesystem`. It is a
filesystem layer for the ThinkPHP framework, built on Flysystem, and the model
covers three parts of it:

- **Disk driver.** `src/Driver.php` is modelled as the `Driver` class of
  `driver.dfy`. The backend is a store of files (contents and visibility) and
  a set of directories, and the operations update it in place. The driver's
  error policy sits on top of the store. Every guarded operation catches one
  or two Flysystem exception classes. The disk's `throw` setting decides
  whether a caught exception is re-raised or turned into `false` or `null`.
- **URL derivation.** The base driver's `url` chain is in `urls.dfy`. The
  Qiniu override, which prefers a configured base `url`, is in `qiniu.dfy`.
- **Disk manager.** `src/Filesystem.php` is modelled in `registry.dfy`. It
  covers configuration lookups, the registry of custom creators that `extend`
  fills, and the order in which `createDriver` picks a disk's constructor.

Shared PHP semantics live in `php.dfy`: values, the `(bool)` cast, `isset`,
`trim`, `explode` and `implode`. The exception classes and the `throw_if`
policy live in `errors.dfy`. Listing filters and `sortByPath` live in
`listing.dfy`.

Backend failures are inputs. Each call takes an oracle argument (`fault`)
naming the Flysystem exception the backend raises, if any. `delete` takes a map
from path to fault. Some calls fail on their own when their target is absent:

- reading and `readStream` raise `UnableToReadFile`;
- metadata and `getVisibility` raise `UnableToRetrieveMetadata`;
- `setVisibility` raises `UnableToSetVisibility`;
- copying or moving a missing source raises `UnableToCopyFile` or
  `UnableToMoveFile`.

Deleting an absent file or directory succeeds. These implied faults follow
Flysystem's documented behaviour. Flysystem itself is not part of this model.

The model assumes the following about framework code it calls but does not
include:

- **`think\Config::get`.** A name without '.' yields its section, and `[]`
  when the section is not set. A dotted name walks segments that must be
  `isset`, and falls back to the default.
- **`think\helper\Arr::get`.** A present key yields its value, even `null`. A
  dotted key walks by presence.
- **`think\Manager::driver`.** It uses `name ?: default`. With no name and no
  default it raises an `InvalidArgumentException`.
- **`Manager::resolveClass`.** A type containing '\' names its class directly.
  Any other type is studly-cased inside `\yzh52521\filesystem\driver\`. An
  unknown class raises "Driver [type] not supported.".

Four behaviours of the code that a caller might not expect:

- `putFileAs` closes the stream it opened only when `put` returns. When `put`
  raises, the stream stays open (`PutFileAs`: `open` keeps the handle).
- `putFileAs` trims only the outer '/'s of `path/name`. A '//' inside is kept
  (`StorePathKeepsInnerSlashes`).
- `put` ignores the `false` that `writeStream` returns for a stream. So
  `putFileAs` reports the stored path even when the write failed and `throw`
  is off (`PutFileAsReportsPathDespiteFailure`).
- A creator registered with `extend` is keyed by disk name, not by type. As
  written it is never reached for a string type (see Findings).

## Model

| member | source | states |
|---|---|---|
| Php.RTrim | src/Driver.php:119 | `rtrim($s,'/')` is a prefix of the input, only '/'s were cut, and it does not end in '/' |
| Php.LTrim | src/Driver.php:119 | `ltrim($s,'/')` is a suffix of the input, only '/'s were cut, and it does not start with '/' |
| Php.Trim | src/Driver.php:573 | `trim` yields an infix of the input, with only the trimmed character before and after it and at neither end of it |
| Errors.ThrowsExceptions | src/Driver.php:721-724 | the policy is on exactly when the disk's `throw` setting is truthy; an absent setting means off |
| Errors.Guard | src/Driver.php:197-200 | a backend exception is swallowed, giving the soft answer, exactly when it is of a caught class and `throw` is off; otherwise the same exception reaches the caller |
| Errors.Attempt | src/Driver.php:289-300 | a guarded boolean operation answers `true` exactly when the backend did not fail, `false` exactly for a caught class with `throw` off, and otherwise raises the backend's exception |
| Errors.BackendFault | src/Driver.php:194-196 | a backend call fails exactly when the oracle names a fault or the target is absent; an absent target implies the operation's own class |
| Errors.ThrowOnReraisesOriginal | src/Driver.php:721-724 | with `throw` on, every guard re-raises the original exception |
| Errors.VisibilityName | src/Driver.php:273-280 | `getVisibility` answers `public` exactly for the public marker and `private` for every other marker |
| Errors.NormaliseOptions | src/Driver.php:586-588 | a string option is a visibility, null is `[]`, an array is kept, and another scalar is wrapped |
| Listing.LexLe | src/Driver.php:630 | the `sortByPath` order puts a prefix of a path no later than the path, and a path first only if its first character is no larger |
| Listing.LexLeIsLexicographic | src/Driver.php:630 | a path comes first exactly when it is a prefix of the other or holds the smaller character where the two first differ |
| Listing.LexLeTotal | src/Driver.php:630 | any two paths are comparable in the `sortByPath` order |
| Listing.LexLeTransitive | src/Driver.php:630 | the `sortByPath` order is transitive |
| Listing.LexLeAntisymmetric | src/Driver.php:630 | paths ordered both ways are equal |
| Listing.InsertPath | src/Driver.php:630 | inserting into a sorted list keeps it sorted and adds exactly that path |
| Listing.SortPaths | src/Driver.php:630 | the sort result is sorted and is a permutation of its input |
| Listing.SortedUnique | src/Driver.php:630 | two sorted permutations of one multiset are equal, so the sorted file listing is independent of backend order and of sort stability |
| Listing.FilePaths | src/Driver.php:627-633 | exactly the paths of the file entries are kept |
| Listing.DirectoryPaths | src/Driver.php:658-663 | exactly the paths of the directory entries are kept |
| Listing.DirectoryPathsConcat | src/Driver.php:655-665 | the directory filter commutes with concatenation, so listing order is preserved |
| Listing.ListingPartition | src/Driver.php:624-665 | every listed entry is counted by exactly one of the file and directory filters |
| Listing.SortedFilePaths | src/Driver.php:624-635 | `files` is sorted, is a permutation of the file entries' paths, and contains exactly those paths |
| Listing.DirectoriesKeepBackendOrder | src/Driver.php:655-665 | directory paths are not sorted: `[b, c(file), a]` gives `[b, a]` |
| Listing.FilesAreSortedByPath | src/Driver.php:624-635 | file paths are sorted: `[b, c(dir), a]` gives `[a, b]` |
| Urls.ConcatPathToUrl | src/Driver.php:117-120 | the URL minus its trailing '/'s, exactly one '/', then the path minus its leading '/'s |
| Urls.ConcatIgnoresExtraSlashes | src/Driver.php:117-120 | extra '/'s at the end of the base or the start of the path do not change the joined URL |
| Urls.ConfiguredUrl | src/Driver.php:472-474 | a string base URL is joined with the path; a non-string base raises a `TypeError` in `rtrim` |
| Urls.LocalUrl | src/Driver.php:471-477 | with `url` set, the joined URL; otherwise the bare path |
| Urls.FtpUrl | src/Driver.php:504-509 | `getFtpUrl` computes what `getLocalUrl` computes |
| Urls.Url | src/Driver.php:480-495 | the adapter's `getUrl` wins, then the Flysystem object's, then FTP/SFTP, then local; a `RuntimeException` is raised exactly when none applies |
| Urls.UrlIgnoresThrow | src/Driver.php:480-495 | the URL chain does not depend on the `throw` setting |
| Urls.LocalWithoutBaseUrlIsBarePath | src/Driver.php:489-490 | a local disk without `url` answers the bare path |
| Qiniu.QiniuUrl | src/driver/Qiniu.php:22-28 | a configured string `url` is joined with the path; a configured non-string `url` raises a `TypeError` in `rtrim`; without one, the base driver's chain decides |
| Qiniu.ConfiguredUrlWins | src/driver/Qiniu.php:24-26 | with `url` set, the adapter's capabilities are ignored |
| Qiniu.QiniuDiffersOnlyByBaseUrl | src/driver/Qiniu.php:22-28 | without any `getUrl` capability, Qiniu agrees with the base chain when no `url` is configured, and for local, FTP and SFTP adapters, whose base URLs come from `url` anyway |
| Drivers.VisibilityFor | src/Driver.php:98-104 | a write names the string `visibility` option, else the disk's configured `visibility`, else no visibility at all |
| Drivers.StringOptionNamesVisibility | src/Driver.php:586-588 | a string options argument to `put` is the visibility the write names, whatever the disk configures |
| Drivers.StorePath | src/Driver.php:573 | the stored path is `path/name` with only its outer runs of '/' cut off, so it starts and ends without '/' and keeps every inner '/' |
| Drivers.StorePathKeepsInnerSlashes | src/Driver.php:573 | `trim` leaves inner '//': `/a//` and `b` give `a///b` |
| Drivers.AfterWrite | src/Driver.php:600-604 | a successful write adds or replaces exactly the written path, with the named visibility, or else the existing file's, or else the backend's default for new files; a failed write changes nothing |
| Drivers.StreamAnswerStores | src/Driver.php:575-581 | `putFileAs` answers the path whenever `put` returned for a stream |
| Drivers.DeleteAll | src/Driver.php:343-360 | deletion only removes files, never alters one, and answers `true` only while no path has failed |
| Drivers.DeleteAllSoft | src/Driver.php:343-360 | with `throw` off and only caught faults, every path is attempted, each unfaulted path is removed, and the answer is `true` exactly when none failed |
| Drivers.DeleteAllThrows | src/Driver.php:343-360 | with `throw` on, the first faulted path's exception is raised after the paths before it were deleted |
| Drivers.DeleteAllClean | src/Driver.php:343-360 | without faults, every listed path is removed and the answer is `true` |
| Drivers.EverythingWithinRoot | src/Driver.php:703-714 | the root, written `""` or `"/"`, contains every path |
| Drivers.TrailingSlashNamesSameDirectory | src/Driver.php:703-714 | `a/` contains `a` and `a/b` but not `ab` |
| Drivers.Driver.constructor | src/Driver.php:65-79 | a driver over the given store, with no open streams |
| Drivers.Driver.Exists | src/Driver.php:128-131 | `exists` holds exactly when a file or a directory exists at the path |
| Drivers.Driver.FileExists | src/Driver.php:150-153 | `fileExists` holds exactly where a faultless `get` reads contents |
| Drivers.Driver.DirectoryExists | src/Driver.php:172-175 | `directoryExists` holds exactly when the store holds a directory at the path |
| Drivers.Driver.Missing | src/Driver.php:139-142 | `missing` holds exactly when neither a file nor a directory is at the path |
| Drivers.Driver.FileMissing | src/Driver.php:161-164 | `fileMissing` holds exactly when no file is at the path |
| Drivers.Driver.DirectoryMissing | src/Driver.php:183-186 | `directoryMissing` holds exactly when no directory is at the path |
| Drivers.Driver.Get | src/Driver.php:194-201 | the contents exactly when the read succeeds; `null` exactly for a caught read failure with `throw` off; otherwise the backend's exception |
| Drivers.Driver.Size | src/Driver.php:409-412 | the contents' length exactly when the call succeeds; every failure raises, whatever `throw` says |
| Drivers.Driver.LastModified | src/Driver.php:437-440 | the backend's timestamp exactly when the call succeeds; every failure raises |
| Drivers.Driver.MimeType | src/Driver.php:420-429 | the detected type on success; `false` exactly for a caught metadata failure with `throw` off; otherwise raises |
| Drivers.Driver.GetVisibility | src/Driver.php:273-280 | `public` or `private` by the stored marker on success; every failure raises |
| Drivers.Driver.ReadStream | src/Driver.php:446-453 | on success, a freshly opened handle over the contents; `null` for a caught failure with `throw` off; the store is unchanged |
| Drivers.Driver.WriteStream | src/Driver.php:458-469 | on success, the stream's data stored with the chosen visibility; `false` for a caught write or visibility failure with `throw` off; otherwise nothing changes |
| Drivers.Driver.SetVisibility | src/Driver.php:289-300 | on success, only the file's marker changes; `false` for a caught failure with `throw` off |
| Drivers.Driver.Copy | src/Driver.php:369-380 | on success, the target holds the source's file; `false` for a caught failure with `throw` off |
| Drivers.Driver.Move | src/Driver.php:389-400 | on success, the file leaves the source for the target; `false` for a caught failure with `throw` off |
| Drivers.Driver.Delete | src/Driver.php:343-360 | the loop's answer and new store are those of `DeleteAll` over all paths from the old store |
| Drivers.Driver.Prepend | src/Driver.php:310-317 | an existing file becomes data, separator and old contents (a swallowed read counts as ""); an absent one becomes data; a raised read leaves the store unchanged; the answer is `put`'s: `true`, `false` for a caught write failure with `throw` off, otherwise the write's exception |
| Drivers.Driver.Append | src/Driver.php:327-334 | an existing file becomes old contents, separator and data; an absent one becomes data; a raised read leaves the store unchanged; the answer is `put`'s: `true`, `false` for a caught write failure with `throw` off, otherwise the write's exception |
| Drivers.Driver.Put | src/Driver.php:584-615 | a string is written, and `false` comes back for a caught failure with `throw` off; a stream is written, and `true` comes back even for a swallowed failure; a file goes to `putFile` with the options as its naming rule |
| Drivers.Driver.PutFile | src/Driver.php:556-560 | the file is stored at `trim(path/hashName(rule))` with the outcome of `putFileAs` |
| Drivers.Driver.PutFileAs | src/Driver.php:570-582 | the file's data is stored at the trimmed path; the answer is that path whenever `put` returned; the opened stream is closed on return and left open when `put` raises |
| Drivers.Driver.StoreOpened | src/Driver.php:571-581 | the open, `put`, close sequence of `putFileAs` for a known target path |
| Drivers.Driver.MakeDirectory | src/Driver.php:684-695 | on success, the directory is added; `false` for a caught creation or visibility failure with `throw` off |
| Drivers.Driver.DeleteDirectory | src/Driver.php:703-714 | on success, the directory and the directories beneath it are removed, and exactly the files `Beneath` it (everything for the root); a file stored under the directory's own path stays, and the rest are kept unchanged; `false` for a caught failure with `throw` off; otherwise the exception, with nothing removed |
| Drivers.Driver.Files | src/Driver.php:624-635 | the listed file paths, sorted and complete |
| Drivers.Driver.AllFiles | src/Driver.php:643-646 | the recursive listing's file paths, sorted and complete |
| Drivers.Driver.Directories | src/Driver.php:655-665 | exactly the listed directory paths; together with the file paths they account for every entry |
| Drivers.Driver.AllDirectories | src/Driver.php:673-676 | exactly the recursive listing's directory paths |
| Drivers.AppendThenGet | src/Driver.php:327-334 | reading after an append gives old contents, a newline and the data |
| Drivers.DirectoryA | src/Driver.php:703-714 | the directory `a` is `Within` itself but not `Beneath` itself, and `a/b` lies beneath it |
| Drivers.DeleteDirectoryKeepsFileOfSameName | src/Driver.php:703-714 | deleting directory `a` removes it and the file `a/b`, and keeps a file stored at `a` |
| Drivers.AppendKeepsVisibility | src/Driver.php:327-334 | on a disk configuring no visibility, appending to a private file leaves it private |
| Drivers.PutPrivateText | src/Driver.php:584-615 | a string options argument is the visibility the file is stored with, and the contents read back |
| Drivers.PutFileAsReportsPathDespiteFailure | src/Driver.php:570-582 | with `throw` off and a failing write, `putFileAs` still answers the path and nothing is stored |
| Registry.Setting | src/Filesystem.php:95 | one `isset` level of a configuration lookup |
| Registry.Walk | src/Filesystem.php:95 | the configuration walk: no segments give the value itself, an unset first segment the default, one segment one `isset` lookup, and a non-empty walk never answers null except as the default |
| Registry.ConfigGet | src/Filesystem.php:95-98 | a plain name is its section (`[]` when unset); a dotted name whose first segment is unset gives the default; a dotted name never answers null except as the default |
| Registry.SettingLookup | src/Filesystem.php:92-99 | reading `filesystem.<name>` for a plain name is two `isset` lookups |
| Registry.DiskLookup | src/Filesystem.php:110 | reading `filesystem.disks.<disk>` for a plain disk is three `isset` lookups |
| Registry.ArrGet | src/Filesystem.php:111 | a non-array gives the default, a null key the array, a present key its value, and a missing plain key the default |
| Registry.ArrWalk | src/Filesystem.php:111 | `Arr::get`'s walk: an absent first segment gives the default, and the answer is the configuration walk's, except that a present null at the last segment is kept |
| Registry.ArrGetKeepsNull | src/Filesystem.php:111 | `Arr::get` follows a dotted key into a present null value |
| Registry.Filesystem.constructor | src/Filesystem.php:19 | a manager with no custom creators |
| Registry.Filesystem.GetConfig | src/Filesystem.php:92-99 | without a name, the whole section; with a plain name, that setting, or the default when it is not set |
| Registry.Filesystem.GetDefaultDriver | src/Filesystem.php:121-124 | the `filesystem.default` setting, or null |
| Registry.Filesystem.DiskEntry | src/Filesystem.php:110 | a disk's configuration is the `filesystem.disks.<disk>` setting, or null |
| Registry.Filesystem.GetDiskConfig | src/Filesystem.php:108-115 | refused with "Disk [d] not found." exactly when the disk's entry is falsy; otherwise `Arr::get` of it |
| Registry.Filesystem.ResolveType | src/Filesystem.php:52-55 | the disk's `type`, or `local` when it has none; unknown disks are refused |
| Registry.Filesystem.ResolveClass | src/Filesystem.php:80 | the class chosen is the type itself when it contains '\', otherwise the studly-cased type in the driver namespace; it is used exactly when it exists, and a missing class is refused with "Driver [type] not supported." |
| Registry.Filesystem.CreateDriver | src/Filesystem.php:62-83 | unknown disks are refused first; then the disk's registered creator wins; then, for a string type, the `create<Type>Driver` method when it exists, else the driver class; a non-string type raises a `TypeError` |
| Registry.Filesystem.CallCustomCreatorWithType | src/Filesystem.php:47-50 | with a non-array argument the call raises a `TypeError`; with an array the call succeeds exactly when its `driver` entry is a string naming a registered creator, and uses that creator; any other array fails with a PHP error |
| Registry.Filesystem.CreateDriverAsWritten | src/Filesystem.php:62-83 | as written, a registered creator receives the resolved type; without a creator it agrees with `CreateDriver` |
| Registry.CustomCreatorNeverCalledAsWritten | src/Filesystem.php:67-69 | for a string type, the as-written path raises a `TypeError` where the intended one calls the registered creator |
| Registry.Filesystem.Extend | src/Filesystem.php:131-136 | registers or replaces the creator under the name and returns the manager; with the corrected `CreateDriver`, that disk's construction becomes the creator (as written, a string type raises a `TypeError` instead), and no other disk changes |
| Registry.Filesystem.Driver | src/Filesystem.php:27-30 | a truthy name is built by the corrected `CreateDriver`; otherwise the default disk is; no default at all is refused, and a non-string default raises a `TypeError` |
| Registry.Filesystem.Disk | src/Filesystem.php:27-30 | `disk` resolves the named disk or the default one, as `Driver` does, through the corrected `CreateDriver` |
| Registry.Filesystem.Cloud | src/Filesystem.php:36-39 | `cloud` resolves exactly as `disk` does |
| Registry.EmptyDiskIsUnknown | src/Filesystem.php:110-114 | a disk configured as `[]` is refused as not found |
| Registry.TypeDefaultsToLocal | src/Filesystem.php:54 | a configured disk without a `type` is a local disk |

## Left out

- The path prefixer (`path`) is left out. The constructor's reading of `root`, `prefix` and `directory_separator` is left out too, because it only builds the prefixer.
- `createAdapter`, `createFilesystem` and the `read-only` wrapper are left out. Building backend adapters is foreign code; the model's backend is an abstract store.
- `response`, `download`, `fallbackName` and `replaceBaseUrl` are left out. They build HTTP responses and URIs outside the storage core.
- `getDriver`, `getAdapter`, both `__call` forwarders and the facade are left out. They are dynamic passthroughs to foreign objects.
- Drivers.Driver.PutFile: a string `$file` is converted with `new File`, and that step is left out; the file is given already opened as a `LocalFile`.
- Drivers.Driver.PutFileAs: a failing `fopen` is left out; the file is always readable.
- Drivers.Driver.Put: contents that are neither strings, streams nor files (ints, objects) are not representable. In the source they reach `write(string $contents)` through `__call`, and `strict_types=1` makes that call raise a `TypeError`.
- `write` (reached through `__call`) is modelled only as `put`'s string branch.
- Listing.LexLe: PHP's `<=>` compares numeric strings as numbers. The model orders every path character by character.
- Drivers.VisibilityFor: a visibility string other than public or private is recorded as given. The model does not raise for it as Flysystem would. A `visibility` option that is not a string (null, an int) is skipped, so the disk's configured visibility applies; Flysystem's option merge would let that value override the configured one.
- Directory parents are not created implicitly on write or `makeDirectory`.
- Store keys are compared as given. Flysystem's path normalisation (outer '/'s stripped, '//' collapsed, '.' and '..' resolved) is not modelled, except that `Beneath` and `Within` read the directory without its outer '/'s. So `putFileAs` stores `/a//` and `b` under `a///b`, where Flysystem would store `a/b`.
- The backend's default visibility for a new file is a constant of the driver (`newFileVisibility`). A cloud backend that resets the visibility of a file it overwrites is not captured: the model keeps the existing file's visibility.
- Drivers.Driver.Exists, Drivers.Driver.FileExists, Drivers.Driver.DirectoryExists, Drivers.Driver.Missing, Drivers.Driver.FileMissing and Drivers.Driver.DirectoryMissing are total: Flysystem's existence checks can raise `UnableToCheckExistence`, unguarded by the driver, and the model's checks never fail. The same holds for the `fileExists` check inside Drivers.Driver.Prepend and Drivers.Driver.Append.
- `PHP_EOL`, the separator of `prepend` and `append`, is fixed to "\n".
- Drivers.Driver.Size counts characters, where PHP's `filesize` counts bytes.
- A write whose bytes were stored but whose `setVisibility` then failed leaves the store unchanged in the model; Flysystem would keep the written bytes.
- Drivers.StorePathKeepsInnerSlashes is a single example; the general fact is the contract of `StorePath`, whose result is the joined path with only its outer runs of '/' cut off.
- Timestamps and MIME detection are parameters (`stamp`, `detected`). File sizes are the contents' length.
- The Manager's per-name driver cache is left out. So is `invokeClass`, which instantiates the chosen class; `Construction` names what would be built.
- `Str::studly` is a parameter of the manager (`studly`).
- `resolveParams` is left out. Its disk lookup repeats the one `resolveType` already made.
- Registry.ConfigGet does not lowercase the first segment of a name, as `think\Config` does. It also does not evaluate closures given as a default (`value($default)`).
- Registry.ArrGet: a dotted key that is not present is walked segment by segment, but numeric array keys are not modelled. Keys are strings.
- Drivers.Driver.Delete: the failure oracle is keyed by path, so a path listed twice fails both times or succeeds both times.
- Concurrency and real I/O are left out. Backend failures are the oracle arguments.

## Findings

| source | as written | input that shows it | evidently intended | confidence | as-written member | corrected member |
|---|---|---|---|---|---|---|
| src/Filesystem.php:67-69 | the creator registered under the disk's name is called through `callCustomCreator($type)`, whose parameter is declared `array`, with the resolved type string | a disk `s3` configured with `type => 's3'` after `extend('s3', fn)`: resolving `s3` raises a `TypeError` before `fn` runs | the creator registered under the disk's name builds the disk's driver | high (not executed) | Registry.Filesystem.CreateDriverAsWritten | Registry.Filesystem.CreateDriver |
