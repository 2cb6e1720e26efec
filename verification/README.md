# repo-sync: event classification and settings, in Dafny

repo-sync watches a git working directory and is meant to push local changes
and pull remote ones. What the program actually implements, and what this
project models, is:

- **Event classification** (`src/main.rs`): the watcher's events are mapped
  to the application's `CustomEvent` (`Modif`, `Pull`, `Push`). Creations,
  modifications and removals become `Modif`. Every other kind is dropped.
  The watcher callback forwards each produced message to the application's
  channel in arrival order. This is modelled as a filter-map over the
  delivered event sequence.
- **Settings** (`src/settings.rs`): the `SettingsFile` record and its
  defaults. The per-key serde defaults fill in missing keys of a settings file.
  `merge_arg` merges the command-line `SettingsArg` over the record and exits
  unless the repository path is a directory. `init_settings_file` chooses
  between the file's contents and the defaults.

Files:

- `wrappers.dfy`: `Option`.
- `notify.dfy`: the watcher's `Event` and `EventKind`, as data. The nested
  sub-kinds are flattened to one constructor each, because the classifier
  ignores them.
- `repo_sync.dfy`: `CustomEvent`, the classifier and the forwarding rule.
  `SelectsSome` characterises the forwarded messages independently of their
  recursive definition. They are what `f` returns at exactly the positions
  where it returns something, in increasing order. `SentMessagesSelectsSome`
  and `SelectsSomeUnique` together show that this characterisation and
  `SentMessages` agree.
- `settings.dfy`: the settings record, `Override` (the field overrides of
  `merge_arg`) with the method `MergeArg` proved against it, serde's default
  filling (`FromTable`), `Deserialize` and `InitSettingsFile`.

Modelling choices:

- An `f32` is kept as its 32-bit IEEE 754 pattern (`bv32`). `1.0f32` is
  `0x3F80_0000`. The settings code only copies these values.
- `merge_arg` takes `&mut self`. It is modelled as a method that takes the
  record's value and returns a `MergeOutcome`. That outcome is either
  `Continue` with the new record or `Exit(1)`, and `Exit(1)` stands for the
  process ending.
- Filesystem results are fields of `FsEnv`: whether each path exists, and
  whether each creation, write and read succeeds. TOML parsing and the
  is-directory test are function parameters.

## Model

| member | source | states |
|---|---|---|
| `RepoSync.MapNotifyEvent` | src/main.rs:54-61 | a message is produced iff the kind is create, modify or remove; the only message ever produced is `Modif` (never `Pull` or `Push`) |
| `RepoSync.CreateIsModif` | src/main.rs:56-58 | every `Create` sub-kind, with any paths and attributes, yields `Some(Modif)` |
| `RepoSync.ModifyIsModif` | src/main.rs:57-58 | every `Modify` sub-kind yields `Some(Modif)` |
| `RepoSync.RemoveIsModif` | src/main.rs:58 | every `Remove` sub-kind yields `Some(Modif)` |
| `RepoSync.OtherKindsIgnored` | src/main.rs:59 | `Any`, `Access` and `Other` events yield `None` |
| `RepoSync.ClassificationDependsOnlyOnKind` | src/main.rs:55 | two events with the same kind classify alike, whatever their paths and attributes |
| `RepoSync.SentMessages` | src/main.rs:71-76 | the callback sends at most one message per delivered event |
| `RepoSync.SentMessagesAppend` | src/main.rs:71-76 | the messages for two consecutive batches of events are the first batch's followed by the second's |
| `RepoSync.SentMessagesSelectsSome` | src/main.rs:72-75 | the sent messages are `f`'s results at exactly the positions where `f` returns `Some`, in the events' order |
| `RepoSync.SelectsSomeUnique` | src/main.rs:72-75 | that characterisation determines the message sequence: two sequences that satisfy it are equal |
| `RepoSync.SentMessagesCharacterised` | src/main.rs:72-75 | a message sequence satisfies that characterisation iff it is exactly what the callback sends |
| `RepoSync.NothingSentIffAllDropped` | src/main.rs:72-75 | nothing is sent iff `f` returns `None` for every event |
| `RepoSync.AllSentIffAllKept` | src/main.rs:72-75 | one message is sent per event iff `f` returns `Some` for every event |
| `RepoSync.WatcherSendsOnlyModif` | src/main.rs:28 | the application's watcher, built with `map_notify_event`, sends only `Modif` messages |
| `RepoSync.WatcherSendsOnePerChange` | src/main.rs:28 | the application's watcher sends one message per event iff every event is a create, modify or remove |
| `Settings.Empty` | src/settings.rs:138-140 | the serde default of a missing `repo_path` key is the empty path |
| `Settings.One` | src/settings.rs:142-144 | the serde default of a missing `tpush`/`tpull` key is `1.0f32` (`0x3F80_0000`) |
| `Settings.Default` | src/settings.rs:127-135 | the default settings are the empty path and `1.0f32` (`0x3F80_0000`) for both periods |
| `Settings.DefaultsAgree` | src/settings.rs:117-145 | the defaults are the empty path and `1.0` for both periods, and the per-key serde defaults are the same values |
| `Settings.Override` | src/settings.rs:65-73 | each field given on the command line replaces the stored one; each absent field keeps the stored value |
| `Settings.MergeArg` | src/settings.rs:64-81 | after the overrides the caller continues with the merged record iff its `repo_path` is a directory, and otherwise the process exits with status 1 |
| `Settings.OverrideNothingIsIdentity` | src/settings.rs:65-73 | an argument record with every field absent leaves the settings unchanged |
| `Settings.OverrideIdempotent` | src/settings.rs:65-73 | merging the same arguments twice equals merging them once |
| `Settings.OverrideChangesOnlyGivenFields` | src/settings.rs:65-73 | a field that changed was given on the command line, with the new value |
| `Settings.OverrideAllGivenIgnoresStored` | src/settings.rs:65-73 | with all three fields given, the result is those values whatever was stored |
| `Settings.FromTable` | src/settings.rs:114-125 | keys present in the settings file are taken as given; missing keys take the `empty`/`one` default helpers' values |
| `Settings.EmptyTableIsDefault` | src/settings.rs:117-145 | a settings file with no keys reads as `SettingsFile::default()` |
| `Settings.Deserialize` | src/settings.rs:83-97 | succeeds iff the file can be read and parsed, and then yields the parsed table with its defaults filled in |
| `Settings.InitSettingsFile` | src/settings.rs:33-61 | the defaults when the directory or the file cannot be created or the file was just created; a panic when writing the new file fails; the file's settings when it existed and deserialised, and the defaults when it did not |
| `Settings.InitIsDefaultUnlessLoaded` | src/settings.rs:33-61 | it panics exactly when a newly created file cannot be written; the result differs from the defaults only if the file already existed and deserialised |

## Left out

- The body of `main` (src/main.rs:11-45): the channel, the pull-ticker thread sleeping `tpull` seconds, and the receive loop. These are concurrency and I/O, and the loop only prints each event. The push/pull scheduler planned in its comments is not implemented in the program, so there is nothing to model.
- `git::is_repo` (src/main.rs:16): `src/git.rs` is not part of this model.
- The watcher's construction and the panic on a watcher error (`res.unwrap()`, src/main.rs:70-78). The model starts from the delivered events. A failing `blocking_send` is also not modelled.
- The `notify` crate's nested sub-kind details (data change, metadata kind, rename mode, access mode). They are flattened, because the classifier never inspects them.
- `get_global_config_path` / `get_global_settings_file` (src/settings.rs:19-28). The `ProjectDirs` lookup and its `unwrap` panic are OS calls. The model receives their outcomes through `FsEnv`.
- TOML parsing and serialisation (`toml::from_str`, `toml::to_string`): a foreign library. Parsing is a parameter. The panic on a failed `to_string` of the defaults is not modelled.
- `InitSettingsFile`: does not model the default content being written to the new file. Only the outcome of that write is modelled.
- The help text printed before exiting in `merge_arg`, and `clap` argument parsing (src/settings.rs:76-78, src/main.rs:13): library calls.
- The `eprintln!` diagnostics printed on each fallback path (src/settings.rs:37, 46, 88, 93): output only, with no effect on the result.
- A `PathBuf` is an OS string that may hold bytes that are not valid UTF-8. The model uses a character sequence, because the settings code only copies paths and the is-directory test is a parameter.
- Floating-point semantics of `tpush`/`tpull`. The settings code only copies these values.
