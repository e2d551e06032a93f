# Daemon configuration package — Dafny model

This project models the decision logic of the daemon's `config` package:

- the package-level store that publishes the active `Configuration` together with the
  JWT signing key built from its authentication token (`Set`, `Get`, `GetJwtAlgorithm`,
  `SetDebugViaFlag`);
- persistence of a configuration (`WriteToDisk`), which serialises a shallow copy
  with `Debug` cleared when debug mode came from the command-line flag, and refuses
  to write without a path;
- provisioning of the system user (`EnsurePterodactylUser`, `setSystemUser`): look the
  user up, create it with release-specific commands when it is unknown, look it up
  again, and record its name and ids in the configuration before persisting it;
- ownership reconciliation of the data directory (`EnsureFilePermissions`): select
  the entries that are directories named like a lower-case version-4 UUID
  (section 3 of RFC 4122) and change their owner to the system user's ids.

Files:

- `base.dfy` (module `Base`): `Option`, `Result`, `Outcome`, the package's errors
  and the `User` an account lookup returns.
- `uuid_pattern.dfy` (module `UuidPattern`): the directory-name regular expression
  as a list of fixed-count bracket expressions, an anchored matcher, and the proof
  that it accepts exactly the names described position by position.
- `accounts.dfy` (module `Accounts`): `strings.Split` and `strings.Join` on one
  separator and their round trips, the account-creation commands, and the
  provisioning decision procedure.
- `config.dfy` (module `Config`): the configuration record and the
  `Configuration` class, persistence, provisioning, the reconciler, and the
  package-level `Store` class.

Operating-system and library calls are not performed. Their results are inputs
to the model:

- `user.Lookup`: a `Result<User>`. The first lookup and the second, made after
  creation, are separate inputs.
- `osrelease.Read`: a `Result<string>` holding the release ID.
- `exec.Command(...).Output()`: a function from `Command` to `Outcome`.
- `ioutil.ReadDir`: a `Result<seq<FileInfo>>`.
- `os.Chown`: a function from `Chown` to `Outcome`.
- `yaml.Marshal` and `ioutil.WriteFile`: two `Outcome`s.
- `jwt.NewHS256`: the store's `derive` function, which stays uninterpreted.

The package-level variables `_config`, `_jwtAlgo` and `_debugViaFlag` are the
fields of one `Store` object. `Store.WriteToDisk` persists a configuration with the
flag the store holds. The `Configuration` methods receive that flag as a parameter.

The model follows the code in these places:

- `Get` before any `Set` returns nil (here `null`).
- `EnsureFilePermissions` does not use the ids recorded in the configuration. It
  looks the user up again by name and chowns with the ids of that lookup. If the
  lookup fails, including for an unknown user, the call fails.
- Each ownership change is a single, non-recursive `os.Chown` of the directory.
- `WriteToDisk` writes the file directly with `ioutil.WriteFile`, and its errors
  are returned as they are.
- When persisting fails after the user was found, `EnsurePterodactylUser`
  returns the user together with the persistence error.

## Model

| member | source | states |
|---|---|---|
| `Config.Store.constructor` | config/config.go:151-155 | before the first `Set` there is neither a configuration nor a key, the debug flag is off, and no key has been built |
| `Config.Store.Set` | config/config.go:160-169 | publishes `c`. The key is rebuilt from `c`'s token (counted in `derivations`) exactly when there was no configuration or the published object's current token differs from `c`'s; otherwise the previous key is kept as it is, in any store state. The store invariant (key present iff configuration present, and equal to the key of its token) is kept when it held before |
| `Config.SetAfterInPlaceTokenChange` | config/config.go:160-169 | publishing a configuration, changing its token in place and publishing it again leaves the key of the old token, because the comparison sees equal tokens |
| `Config.Store.SetDebugViaFlag` | config/config.go:171-173 | sets the debug-via-flag override and changes neither the configuration nor the key |
| `Config.Store.Get` | config/config.go:177-182 | the configuration returned is null exactly when there is no key, and otherwise the key is the one built from its token |
| `Config.Store.GetJwtAlgorithm` | config/config.go:185-190 | a key returned belongs to the published configuration's token |
| `Config.Store.WriteToDisk` | config/config.go:315-341 | persists with the store's own debug flag: under the flag the serialised copy has `Debug` false, without it the copy is the configuration itself; an empty path fails with `NoPathDefined`, and otherwise the error is the encoder's or the file write's |
| `Config.SetTwiceWithSameToken` | config/config.go:160-169 | two `Set`s with equal tokens build the key at most once, and the key stays that of the token |
| `Config.PersistedCopy` | config/config.go:316-321 | the copy equals the configuration in every field except `Debug`, which is false under the flag override and unchanged otherwise |
| `Config.Configuration.WriteToDisk` | config/config.go:315-341 | an empty path fails with `NoPathDefined` and nothing is serialised. Otherwise the serialised value is the persisted copy, which differs from the object only in `Debug`, and the error is the encoder's or the file write's. The object itself is not modified (no `modifies`) |
| `Config.Configuration.SetSystemUser` | config/config.go:246-258 | only `System.Username`, `System.User.Uid` and `System.User.Gid` change, to the user's name and ids; then the new state is persisted as by `WriteToDisk` |
| `Config.Configuration.EnsurePterodactylUser` | config/config.go:202-242 | runs exactly the commands `Provision` decides. On an error the configuration is unchanged and that error is returned. On success the user is returned and recorded as by `SetSystemUser`, and what is serialised is the configuration with the user already recorded (nothing on an error or an empty path), with the persistence outcome returned |
| `Config.Configuration.EnsureFilePermissions` | config/config.go:262-310 | with the feature off it succeeds and changes nothing. It fails only when listing the data directory or looking up the user fails, with that error and no change. Otherwise it succeeds and requests one chown per selected directory, in listing order, with the data directory and the looked-up ids. The names chowned are exactly the selected names. Failed chowns are only reported |
| `Config.ServerDirectoryTest` | config/config.go:294 | `IsServerDirectory`, the test each entry goes through, holds iff the entry is a directory whose name satisfies `IsUuidV4Name` |
| `Config.ServerDirectories` | config/config.go:283-296 | an entry is selected iff it is a listed directory whose name satisfies `IsUuidV4Name` |
| `Config.ServerDirectoriesExample` | config/config.go:294-296 | from a UUID-named directory, a file and a directory named `plain-folder`, only the first is selected |
| `Config.ChownServerDirectories` | config/config.go:283-305 | the loop over the listing requests exactly `ChownAll` of the selected directories, in listing order, and reports as failed exactly the requests whose chown failed |
| `Config.ChownAll` | config/config.go:298-301 | one request per selected entry, in order, each with the data directory, the entry's name and the user's ids |
| `Config.ChownAllNames` | config/config.go:283-305 | the set of names in the requests is exactly the set of listed directory names that match the pattern |
| `Config.SelectionStep` | config/config.go:283-296 | one more listed entry adds a request exactly when that entry is a server directory |
| `UuidPattern.UuidV4PatternAcceptsExactly` | config/config.go:269 | the anchored pattern accepts a string iff it has 36 characters, `-` at 8, 13, 18 and 23, `[a-f0-9]` elsewhere, `4` at 14 and one of `8 9 a b` at 19 |
| `UuidPattern.AcceptedNamesAreExact` | config/config.go:269 | an accepted name has exactly 36 characters and no upper-case letter; adding any text before or after it makes it rejected |
| `UuidPattern.MatchString` | config/config.go:294 | an anchored match consumes the whole name: a matched string has exactly the pattern's width (its position-wise meaning is `MatchStringPositionwise`) |
| `UuidPattern.MatchStringPositionwise` | config/config.go:269 | a pattern of fixed-count terms matches a string iff the lengths agree and every character lies in the class of its position |
| `UuidPattern.ExpandUuidV4Pattern` | config/config.go:269 | the constant `UuidV4Pattern`, the expression's bracket terms with their counts, has 36 positions with classes `-` at 8, 13, 18, 23, `4` at 14, `[89ab]` at 19 and `[a-f0-9]` elsewhere |
| `UuidPattern.ClassMembership` | config/config.go:269 | `[a-f0-9]` holds exactly the lower-case hex digits, `[89ab]` exactly those four characters, and a literal only itself |
| `Accounts.Split` | config/config.go:232 | `strings.Split` on a space gives at least one piece, and no piece contains the separator |
| `Accounts.JoinSplit` | config/config.go:232 | joining the split pieces with the separator gives back the string |
| `Accounts.SplitJoin` | config/config.go:232 | splitting a join of separator-free words gives back the words |
| `Accounts.CommandFromLine` | config/config.go:232-233 | the line is split at every space: neither the program name nor any argument contains a space, and joined again by spaces they give back the line, so by `SplitJoin` they are exactly the pieces of `strings.Split` |
| `Accounts.CreationCommands` | config/config.go:218-230 | an ID starting with `alpine` gives two commands, `addgroup -S name` first and then the split adduser line; any other ID gives the split useradd line alone (exact argument vectors in `CreationCommandsArguments`) |
| `Accounts.CreationCommandsArguments` | config/config.go:218-233 | for a user name without spaces, a release ID starting with `alpine` gives `addgroup -S name` then `adduser -S -D -H -G name -s /bin/false name`. Any other ID gives `useradd --system --no-create-home --shell /bin/false name` |
| `Accounts.UseraddWords` | config/config.go:218 | the useradd command line is its argument words joined by spaces |
| `Accounts.AdduserWords` | config/config.go:223 | the adduser command line is its argument words joined by spaces |
| `Accounts.RunInOrder` | config/config.go:227-235 | commands run in order and stop at the first failure, whose error is returned. Success means every command ran and passed |
| `Accounts.Provision` | config/config.go:202-241 | a found user is used with no command run. A lookup error other than an unknown user is returned as is. Commands run iff the user is unknown and the release ID was read, and they are a prefix of that release's creation commands. Success means the first lookup found the user, or every creation command passed and the second lookup found it. Every error is the lookup's, the release read's, the failing command's or the second lookup's. For an unknown user a failed release read is returned with nothing run; otherwise the creation commands run as `RunInOrder` runs them, the first failure's error is returned, and when all pass the second lookup's result is returned |

## Left out

- `ReadConfiguration`: reading the file, `os.ExpandEnv`, `defaults.Set` and YAML
  decoding are library behaviour. The `Configuration` constructor takes the
  resulting field values instead.
- YAML encoding and file contents: the serialised value is the copied record, not
  bytes. Unexported fields are not dropped from it. The file mode 0644 is not modelled.
- Locks (`Mutex`, the embedded `RWMutex`, `writeLock`), goroutines and the
  `WaitGroup`: the model runs sequentially. The reconciler is a loop over the
  listing in order, which selects the same set of directories as the fan-out.
- `strconv.Atoi` of uid and gid with ignored errors: ids are taken as given integers.
- `path.Join`: a chown request records the directory and the entry name. The
  joined and cleaned path is not computed.
- `zap` logging of failed chowns: the failed requests are returned instead.
- `jwt.NewHS256`: the key is `derive(token)` for an uninterpreted `derive`. That
  different tokens give different keys is therefore not stated.
- `GetPath` and `getSystemName` are folded into their callers: the path field is
  read directly, and the release ID is an input.
- `SftpConfiguration` defaults and the `Docker` section: `DockerConfiguration` and the
  full `SystemConfiguration` are declared in files that are not part of this model.
  The system section keeps only the fields this package reads or writes.
- `Config.Store.Get`: `Get` and `GetJwtAlgorithm` state their results only while
  the store invariant holds. After the published configuration's token is changed
  in place through another reference, Go keeps the stale key (stated by `Set` and
  `SetAfterInPlaceTokenChange`), and nothing is said about the pair `Get` returns.
