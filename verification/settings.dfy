/**
 * The application's settings: the record read from the settings file, the
 * command-line overrides merged into it, the defaults, and the decision
 * made at start-up between the file's contents and the defaults.
 *
 * Filesystem operations are not performed here: their outcomes arrive as
 * the fields of an `FsEnv`, TOML parsing as a function parameter, and the
 * is-directory test as a predicate parameter.
 */
module Settings {
  import opened Wrappers

  type PathBuf = seq<char>

  /**
   * An `f32` as its IEEE 754 single-precision bit pattern. The settings
   * code only stores and copies these values, so no arithmetic is modelled.
   */
  type F32 = bv32

  /** The bit pattern of `1.0f32`. */
  const ONE_F32: F32 := 0x3F80_0000

  /** The record used along the application (`SettingsFile`). */
  datatype SettingsFile = SettingsFile(repoPath: PathBuf, tpush: F32, tpull: F32)

  /** The command-line record (`SettingsArg`): every field is optional. */
  datatype SettingsArg = SettingsArg(repoPath: Option<PathBuf>, tpush: Option<F32>, tpull: Option<F32>)

  /** The serde default of a missing `repo_path` key: the empty path. */
  function Empty(): (p: PathBuf)
    ensures |p| == 0
  {
    []
  }

  /** The serde default of a missing `tpush` or `tpull` key: one second. */
  function One(): (t: F32)
    ensures t == ONE_F32
  {
    ONE_F32
  }

  /** `impl Default for SettingsFile`. */
  function Default(): (d: SettingsFile)
    ensures d.repoPath == Empty()
    ensures d.tpush == ONE_F32 && d.tpull == ONE_F32
  {
    SettingsFile([], ONE_F32, ONE_F32)
  }

  /** The default settings and the per-key serde defaults agree. */
  lemma DefaultsAgree()
    ensures Default().repoPath == Empty() == []
    ensures Default().tpush == One() == ONE_F32
    ensures Default().tpull == One() == ONE_F32
  {
  }

  // ---------------------------------------------------------------------
  // merge_arg

  /**
   * The record after the field overrides of `merge_arg`: each field given on
   * the command line replaces the stored one, each absent field keeps it.
   */
  function Override(s: SettingsFile, arg: SettingsArg): (r: SettingsFile)
    ensures arg.repoPath.Some? ==> r.repoPath == arg.repoPath.value
    ensures arg.repoPath.None? ==> r.repoPath == s.repoPath
    ensures arg.tpush.Some? ==> r.tpush == arg.tpush.value
    ensures arg.tpush.None? ==> r.tpush == s.tpush
    ensures arg.tpull.Some? ==> r.tpull == arg.tpull.value
    ensures arg.tpull.None? ==> r.tpull == s.tpull
  {
    SettingsFile(arg.repoPath.UnwrapOr(s.repoPath), arg.tpush.UnwrapOr(s.tpush), arg.tpull.UnwrapOr(s.tpull))
  }

  /** How `merge_arg` ends: the caller goes on with the merged record, or the process exits. */
  datatype MergeOutcome = Continue(settings: SettingsFile) | Exit(code: int)

  /**
   * `merge_arg`: apply the overrides one field at a time, then exit with
   * status 1 (after printing the help text) unless the resulting
   * `repo_path` is a directory.
   */
  method MergeArg(s: SettingsFile, arg: SettingsArg, isDir: PathBuf -> bool) returns (outcome: MergeOutcome)
    ensures outcome.Continue? <==> isDir(Override(s, arg).repoPath)
    ensures outcome.Continue? ==> outcome.settings == Override(s, arg)
    ensures outcome.Exit? ==> outcome.code == 1
  {
    var merged := s;
    if arg.repoPath.Some? {
      merged := merged.(repoPath := arg.repoPath.value);
    }
    if arg.tpush.Some? {
      merged := merged.(tpush := arg.tpush.value);
    }
    if arg.tpull.Some? {
      merged := merged.(tpull := arg.tpull.value);
    }
    if !isDir(merged.repoPath) {
      return Exit(1);
    }
    return Continue(merged);
  }

  /** An argument record with every field absent changes nothing. */
  lemma OverrideNothingIsIdentity(s: SettingsFile)
    ensures Override(s, SettingsArg(None, None, None)) == s
  {
  }

  /** Merging the same arguments twice is the same as merging them once. */
  lemma OverrideIdempotent(s: SettingsFile, arg: SettingsArg)
    ensures Override(Override(s, arg), arg) == Override(s, arg)
  {
  }

  /** A field changes only when the argument record gives it a value. */
  lemma OverrideChangesOnlyGivenFields(s: SettingsFile, arg: SettingsArg)
    ensures Override(s, arg).repoPath != s.repoPath ==> arg.repoPath == Some(Override(s, arg).repoPath)
    ensures Override(s, arg).tpush != s.tpush ==> arg.tpush == Some(Override(s, arg).tpush)
    ensures Override(s, arg).tpull != s.tpull ==> arg.tpull == Some(Override(s, arg).tpull)
  {
  }

  /** With every field given, the stored record no longer matters. */
  lemma OverrideAllGivenIgnoresStored(s: SettingsFile, t: SettingsFile, p: PathBuf, push: F32, pull: F32)
    ensures Override(s, SettingsArg(Some(p), Some(push), Some(pull)))
         == Override(t, SettingsArg(Some(p), Some(push), Some(pull)))
         == SettingsFile(p, push, pull)
  {
  }

  // ---------------------------------------------------------------------
  // deserialize and init_settings_file

  /**
   * A TOML document as serde sees it before defaults are applied: each key
   * may be present or missing. Parsing text into this shape belongs to the
   * `toml` crate and is a parameter of the model.
   */
  datatype TomlTable = TomlTable(repoPath: Option<PathBuf>, tpush: Option<F32>, tpull: Option<F32>)

  /** Serde's construction of a `SettingsFile`: each missing key takes its default helper's value. */
  function FromTable(t: TomlTable): (r: SettingsFile)
    ensures t.repoPath.Some? ==> r.repoPath == t.repoPath.value
    ensures t.repoPath.None? ==> r.repoPath == Empty()
    ensures t.tpush.Some? ==> r.tpush == t.tpush.value
    ensures t.tpush.None? ==> r.tpush == One()
    ensures t.tpull.Some? ==> r.tpull == t.tpull.value
    ensures t.tpull.None? ==> r.tpull == One()
  {
    SettingsFile(t.repoPath.UnwrapOr(Empty()), t.tpush.UnwrapOr(One()), t.tpull.UnwrapOr(One()))
  }

  /** A settings file with no keys at all reads as the default settings. */
  lemma EmptyTableIsDefault()
    ensures FromTable(TomlTable(None, None, None)) == Default()
  {
  }

  /**
   * `deserialize`: read the settings file (`None` when reading fails) and
   * parse it; a read failure and a parse failure are both an error.
   */
  function Deserialize(content: Option<string>, parse: string -> Option<TomlTable>): (r: Option<SettingsFile>)
    ensures r.Some? <==> content.Some? && parse(content.value).Some?
    ensures r.Some? ==> r.value == FromTable(parse(content.value).value)
  {
    match content
    case None => None
    case Some(text) =>
      match parse(text)
      case None => None
      case Some(table) => Some(FromTable(table))
  }

  /** The outcomes of the filesystem operations `init_settings_file` may perform. */
  datatype FsEnv = FsEnv(
    configDirExists: bool,     // the configuration directory exists
    createDirsOk: bool,        // `create_dir_all` on it would succeed
    settingsFileExists: bool,  // the settings file exists
    createFileOk: bool,        // `File::create` on it would succeed
    writeOk: bool,             // `fs::write` of the default content would succeed
    content: Option<string>)   // `read_to_string` of it: its text, or None on failure

  /** `init_settings_file` either yields settings or panics on a failed `expect`. */
  datatype InitOutcome = Loaded(settings: SettingsFile) | Panic(message: string)

  /**
   * `init_settings_file`: create the configuration directory and the
   * settings file when missing (falling back to the defaults when either
   * creation fails), write the default content into a new file (a failed
   * write panics), and otherwise read the existing file, falling back to
   * the defaults when it cannot be read or parsed.
   */
  function InitSettingsFile(env: FsEnv, parse: string -> Option<TomlTable>): (r: InitOutcome)
    // the directory is missing and cannot be created
    ensures !env.configDirExists && !env.createDirsOk ==> r == Loaded(Default())
    // the directory is there; the file is missing and cannot be created
    ensures (env.configDirExists || env.createDirsOk) && !env.settingsFileExists && !env.createFileOk
            ==> r == Loaded(Default())
    // the file was just created and the default content written
    ensures (env.configDirExists || env.createDirsOk) && !env.settingsFileExists && env.createFileOk
            ==> r == (if env.writeOk then Loaded(Default()) else Panic("can't write default settings content"))
    // the file existed: its content if it deserialises, the defaults otherwise
    ensures (env.configDirExists || env.createDirsOk) && env.settingsFileExists
            ==> r == Loaded(Deserialize(env.content, parse).UnwrapOr(Default()))
  {
    if !env.configDirExists && !env.createDirsOk then
      Loaded(Default())
    else if !env.settingsFileExists then
      if !env.createFileOk then Loaded(Default())
      else if !env.writeOk then Panic("can't write default settings content")
      else Loaded(Default())
    else
      match Deserialize(env.content, parse)
      case Some(settings) => Loaded(settings)
      case None => Loaded(Default())
  }

  /**
   * The settings come from the file only when it already existed and
   * deserialised; in every other case that does not panic they are the
   * defaults.
   */
  lemma InitIsDefaultUnlessLoaded(env: FsEnv, parse: string -> Option<TomlTable>)
    ensures InitSettingsFile(env, parse).Panic? <==>
              (env.configDirExists || env.createDirsOk) && !env.settingsFileExists
              && env.createFileOk && !env.writeOk
    ensures InitSettingsFile(env, parse).Loaded? ==>
              (InitSettingsFile(env, parse).settings == Default()
               || ((env.configDirExists || env.createDirsOk) && env.settingsFileExists
                   && Deserialize(env.content, parse).Some?))
  {
  }
}
