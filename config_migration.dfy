/** The one-off tool that moves a legacy global config (one whose novel
    parameters sit under "other_params") to the per-project layout: it backs
    the config file up, rewrites it with a migration function, checks that
    projects now exist, and can list and restore the backups. */
module ConfigMigration {
  import opened Base
  import opened Text
  import opened Json
  import opened Clock
  import opened Sorting
  import opened FileSystem
  import opened ConfigManager

  // ---------------------------------------------------------------------------
  // backup_config and restore_config_from_backup
  // ---------------------------------------------------------------------------

  const BackupInfix: string := ".backup_"

  /** The backup of `configFile` taken at `now`. */
  function BackupName(configFile: Path, now: Instant): Path
    requires Valid(now)
  {
    configFile + BackupInfix + BackupStamp(now)
  }

  /** backup_config: nothing to back up gives ""; otherwise copy2 onto the
      stamped name, whose errors propagate to the caller. */
  function BackupConfig(fs: Fs, configFile: Path, now: Instant): (r: Io<Result<Path>>)
    requires Valid(now)
    ensures !Exists(fs, configFile) ==> r == Io(Ok(""), fs)
    ensures r.out.Err? ==> r.fs == fs
    ensures Exists(fs, configFile) && r.out.Ok? ==>
      && r.out.value == BackupName(configFile, now)
      && IsFile(fs, configFile)
      && var t := CopyTarget(fs, configFile, r.out.value);
         Resolve(t) != Resolve(configFile)
         && r.fs == fs[Resolve(t) := File(fs[Resolve(configFile)].content, now)]
  {
    if !Exists(fs, configFile) then Io(Ok(""), fs)
    else
      var backup := BackupName(configFile, now);
      match Copy(fs, configFile, backup, now)
      case Ok(fs') => Io(Ok(backup), fs')
      case Err(e) => Io(Err(e), fs)
  }

  /** restore_config_from_backup: a missing backup or a failed copy gives
      false and changes nothing; success puts the backup's content in place. */
  function RestoreConfigFromBackup(fs: Fs, backup: Path, configFile: Path, now: Instant): (r: Io<bool>)
    ensures !Exists(fs, backup) ==> r == Io(false, fs)
    ensures !r.out ==> r.fs == fs
    ensures r.out <==> Copy(fs, backup, configFile, now).Ok?
    ensures r.out ==> (IsFile(fs, backup) &&
      var t := CopyTarget(fs, backup, configFile);
      r.fs == fs[Resolve(t) := File(fs[Resolve(backup)].content, now)])
  {
    if !Exists(fs, backup) then Io(false, fs)
    else match Copy(fs, backup, configFile, now)
      case Ok(fs') => Io(true, fs')
      case Err(_) => Io(false, fs)
  }

  /** A fresh backup of a plain config file can be restored onto the file:
      the config then holds what it held before the backup. */
  lemma BackupRestores(fs: Fs, configFile: Path, now: Instant, later: Instant)
    requires Valid(now) && WellFormed(fs) && IsFile(fs, configFile) && !Exists(fs, BackupName(configFile, now))
    requires BackupConfig(fs, configFile, now).out.Ok?
    ensures var b := BackupConfig(fs, configFile, now);
      var back := RestoreConfigFromBackup(b.fs, b.out.value, configFile, later);
      && back.out
      && HoldsContent(back.fs, configFile, fs[Resolve(configFile)].content)
  {
    var b := BackupConfig(fs, configFile, now);
    var name := BackupName(configFile, now);
    assert CopyTarget(fs, configFile, name) == name;
    assert b.out.value == name;
    assert b.fs == fs[Resolve(name) := File(fs[Resolve(configFile)].content, now)];
    assert IsFile(b.fs, name) && IsFile(b.fs, configFile);
    assert CopyTarget(b.fs, name, configFile) == configFile;
    assert DirAt(fs, Parent(Resolve(configFile)));
    assert Writable(b.fs, configFile);
  }

  // ---------------------------------------------------------------------------
  // migrate_config_to_novel_structure
  // ---------------------------------------------------------------------------

  /** migrate_config_to_novel_structure. `migrate` stands for
      migrate_legacy_config, which may raise; `names` is what os.listdir
      returns for novels/ when the projects are listed. Every exception is
      caught and reported as false. */
  function Migrate(fs: Fs, configFile: Path, names: seq<string>, now: Instant,
                   migrate: Obj -> Result<Obj>): (r: Io<bool>)
    requires Valid(now)
    // a failed backup stops everything
    ensures BackupConfig(fs, configFile, now).out.Err? ==> r == Io(false, fs)
    // an already migrated config is left as it is
    ensures var b := BackupConfig(fs, configFile, now);
      var g := LoadConfig(b.fs, configFile, now);
      b.out.Ok? && !Legacy(g.out) ==> r == Io(true, g.fs)
    // a legacy config is rewritten with the migrated record, or the run fails
    ensures var b := BackupConfig(fs, configFile, now);
      var g := LoadConfig(b.fs, configFile, now);
      b.out.Ok? && Legacy(g.out) && r.out ==>
        && migrate(g.out).Ok?
        && Writable(g.fs, configFile)
        && ReadJson(r.fs, configFile) == Some(migrate(g.out).value)
    // success after a rewrite means some project was listed afterwards
    ensures var b := BackupConfig(fs, configFile, now);
      var g := LoadConfig(b.fs, configFile, now);
      b.out.Ok? && Legacy(g.out) && migrate(g.out).Ok? ==>
        var s := SaveConfig(g.fs, migrate(g.out).value, configFile, now);
        r.out <==> s.out && ProjectListing(s.fs, names).out.Ok? && ProjectListing(s.fs, names).out.value != []
  {
    var b := BackupConfig(fs, configFile, now);
    if b.out.Err? then Io(false, fs)
    else
      var g := LoadConfig(b.fs, configFile, now);
      if !Legacy(g.out) then Io(true, g.fs)
      else match migrate(g.out)
        case Err(_) => Io(false, g.fs)
        case Ok(migrated) =>
          var s := SaveConfig(g.fs, migrated, configFile, now);
          if !s.out then Io(false, s.fs)
          else
            var listing := ProjectListing(s.fs, names);
            match listing.out
            case Err(_) => Io(false, listing.fs)
            case Ok(projects) => Io(projects != [], listing.fs)
  }

  /** With no config file at all, migration writes the defaults and
      reports success: the defaults are not a legacy record. */
  lemma MigrateFreshInstall(fs: Fs, configFile: Path, names: seq<string>, now: Instant,
                            migrate: Obj -> Result<Obj>)
    requires Valid(now) && !Exists(fs, configFile) && Writable(fs, configFile)
    ensures var r := Migrate(fs, configFile, names, now, migrate);
      r.out && ReadJson(r.fs, configFile) == Some(DefaultConfig())
  {
    assert !Legacy(DefaultConfig());
  }

  /** Migration writes only the config file and the novels/ directory:
      every other entry present after the backup is still there, unchanged. */
  lemma MigrateKeepsOthers(fs: Fs, configFile: Path, names: seq<string>, now: Instant,
                           migrate: Obj -> Result<Obj>, k: Key)
    requires Valid(now)
    requires var b := BackupConfig(fs, configFile, now); k in b.fs && k != Resolve(configFile)
    ensures var r := Migrate(fs, configFile, names, now, migrate);
      k in r.fs && r.fs[k] == BackupConfig(fs, configFile, now).fs[k]
  {
    var b := BackupConfig(fs, configFile, now);
    var r := Migrate(fs, configFile, names, now, migrate);
    if b.out.Ok? {
      var g := LoadConfig(b.fs, configFile, now);
      LoadConfigKeeps(b.fs, configFile, now, k);
      if Legacy(g.out) && migrate(g.out).Ok? {
        var s := SaveConfig(g.fs, migrate(g.out).value, configFile, now);
        SaveConfigKeeps(g.fs, migrate(g.out).value, configFile, now, k);
        if s.out && EnsureNovelsDir(s.fs).Ok? {
          MakeDirsKeeps(s.fs, NovelsRoot, k);
          assert r.fs == EnsureNovelsDir(s.fs).value;
        } else {
          assert r.fs == s.fs;
        }
      } else {
        assert r.fs == g.fs;
      }
    } else {
      assert r.fs == fs == b.fs;
    }
  }

  /** Saving a config changes no other entry. */
  lemma SaveConfigKeeps(fs: Fs, config: Obj, path: Path, now: Instant, k: Key)
    requires k in fs && k != Resolve(path)
    ensures var r := SaveConfig(fs, config, path, now); k in r.fs && r.fs[k] == fs[k]
  {
  }

  /** Loading a config, which may create it, changes no other entry. */
  lemma LoadConfigKeeps(fs: Fs, path: Path, now: Instant, k: Key)
    requires k in fs && k != Resolve(path)
    ensures var r := LoadConfig(fs, path, now); k in r.fs && r.fs[k] == fs[k]
  {
    if !Exists(fs, path) {
      SaveConfigKeeps(fs, DefaultConfig(), path, now, k);
    }
  }

  /** Migration leaves a file at the config path it found one at. */
  lemma MigrateKeepsConfigFile(fs: Fs, configFile: Path, names: seq<string>, now: Instant,
                               migrate: Obj -> Result<Obj>)
    requires Valid(now) && IsFile(BackupConfig(fs, configFile, now).fs, configFile)
    ensures IsFile(Migrate(fs, configFile, names, now, migrate).fs, configFile)
  {
    var b := BackupConfig(fs, configFile, now);
    if b.out.Ok? {
      var g := LoadConfig(b.fs, configFile, now);
      if Legacy(g.out) && migrate(g.out).Ok? {
        var s := SaveConfig(g.fs, migrate(g.out).value, configFile, now);
        if s.out && EnsureNovelsDir(s.fs).Ok? {
          MakeDirsKeeps(s.fs, NovelsRoot, Resolve(configFile));
        }
      }
    }
  }

  /** Whatever migration does, the backup it took still holds the config as
      it was before, so restoring it undoes the migration. */
  lemma MigrateKeepsBackup(fs: Fs, configFile: Path, names: seq<string>, now: Instant,
                           migrate: Obj -> Result<Obj>, later: Instant)
    requires Valid(now) && WellFormed(fs) && IsFile(fs, configFile) && !Exists(fs, BackupName(configFile, now))
    requires BackupConfig(fs, configFile, now).out.Ok?
    ensures var r := Migrate(fs, configFile, names, now, migrate);
      var name := BackupName(configFile, now);
      && HoldsContent(r.fs, name, fs[Resolve(configFile)].content)
      && var back := RestoreConfigFromBackup(r.fs, name, configFile, later);
         back.out && HoldsContent(back.fs, configFile, fs[Resolve(configFile)].content)
  {
    var name := BackupName(configFile, now);
    var b := BackupConfig(fs, configFile, now);
    assert CopyTarget(fs, configFile, name) == name;
    assert IsFile(b.fs, name) && IsFile(b.fs, configFile);
    var r := Migrate(fs, configFile, names, now, migrate);
    MigrateKeepsOthers(fs, configFile, names, now, migrate, Resolve(name));
    MigrateKeepsConfigFile(fs, configFile, names, now, migrate);
    var up := Parent(Resolve(configFile));
    assert DirAt(fs, up);
    if up != [] {
      assert up in b.fs && b.fs[up] == Dir;
      MigrateKeepsOthers(fs, configFile, names, now, migrate, up);
    }
    assert IsFile(r.fs, name);
    assert CopyTarget(r.fs, name, configFile) == configFile;
    assert Writable(r.fs, configFile);
  }

  // ---------------------------------------------------------------------------
  // list_backup_files
  // ---------------------------------------------------------------------------

  /** One entry of the backup listing; the size field is not modelled. */
  datatype BackupEntry = BackupEntry(file: Path, created: string)

  function CreatedKey(e: BackupEntry): string {
    e.created
  }

  /** Every file carries a ctime the clock could have produced. */
  predicate ValidTimes(fs: Fs) {
    forall k :: k in fs && fs[k].File? ==> Valid(fs[k].ctime)
  }

  /** The directory that is searched: the config's own, "." for a bare name. */
  function BackupDir(configFile: Path): (r: Path)
    ensures r != ""
  {
    if Dirname(configFile) == "" then "." else Dirname(configFile)
  }

  function BackupPrefix(configFile: Path): string {
    Basename(configFile) + BackupInfix
  }

  /** The entry for directory entry `name`, when it is a backup. */
  function BackupAt(fs: Fs, dir: Path, prefix: string, name: string): (r: Option<BackupEntry>)
    requires ValidTimes(fs)
    ensures r.Some? <==> StartsWith(name, prefix) && IsFile(fs, Join(dir, name))
    ensures r.Some? ==> r.value.file == Join(dir, name)
  {
    var path := Join(dir, name);
    if StartsWith(name, prefix) && IsFile(fs, path) then
      Some(BackupEntry(path, IsoFormat(fs[Resolve(path)].ctime)))
    else None
  }

  /** The backups among `names`, in listing order. */
  function Backups(fs: Fs, dir: Path, prefix: string, names: seq<string>): (r: seq<BackupEntry>)
    requires ValidTimes(fs)
    ensures |r| <= |names|
  {
    if names == [] then []
    else
      var last := names[|names| - 1];
      Backups(fs, dir, prefix, names[..|names| - 1])
        + match BackupAt(fs, dir, prefix, last) case Some(e) => [e] case None => []
  }

  /** Listed backups are exactly the backup entries among the names. */
  lemma BackupsMembers(fs: Fs, dir: Path, prefix: string, names: seq<string>, e: BackupEntry)
    requires ValidTimes(fs)
    ensures e in Backups(fs, dir, prefix, names) <==>
      exists i :: 0 <= i < |names| && BackupAt(fs, dir, prefix, names[i]) == Some(e)
  {
    BackupsSound(fs, dir, prefix, names, e);
    if exists i :: 0 <= i < |names| && BackupAt(fs, dir, prefix, names[i]) == Some(e) {
      var i :| 0 <= i < |names| && BackupAt(fs, dir, prefix, names[i]) == Some(e);
      BackupsComplete(fs, dir, prefix, names, i);
    }
  }

  /** Every listed backup comes from one of the names. */
  lemma {:induction false} BackupsSound(fs: Fs, dir: Path, prefix: string, names: seq<string>, e: BackupEntry)
    requires ValidTimes(fs)
    ensures e in Backups(fs, dir, prefix, names) ==>
      exists i :: 0 <= i < |names| && BackupAt(fs, dir, prefix, names[i]) == Some(e)
  {
    if names != [] && e in Backups(fs, dir, prefix, names) {
      var init := names[..|names| - 1];
      var found := BackupAt(fs, dir, prefix, names[|names| - 1]);
      if found == Some(e) {
        assert BackupAt(fs, dir, prefix, names[|names| - 1]) == Some(e);
      } else {
        assert e in Backups(fs, dir, prefix, init);
        BackupsSound(fs, dir, prefix, init, e);
        var i :| 0 <= i < |init| && BackupAt(fs, dir, prefix, init[i]) == Some(e);
        assert names[i] == init[i];
      }
    }
  }

  /** The backup entry of every name is listed. */
  lemma {:induction false} BackupsComplete(fs: Fs, dir: Path, prefix: string, names: seq<string>, i: nat)
    requires ValidTimes(fs) && i < |names| && BackupAt(fs, dir, prefix, names[i]).Some?
    ensures BackupAt(fs, dir, prefix, names[i]).value in Backups(fs, dir, prefix, names)
  {
    var init := names[..|names| - 1];
    if i < |names| - 1 {
      assert init[i] == names[i];
      BackupsComplete(fs, dir, prefix, init, i);
    }
  }

  /** list_backup_files, given what os.listdir returns for the directory;
      listing a directory that is not there raises. */
  function BackupListing(fs: Fs, configFile: Path, names: seq<string>): (r: Result<seq<BackupEntry>>)
    requires ValidTimes(fs)
    ensures r.Err? <==> !DirAt(fs, Resolve(BackupDir(configFile)))
    ensures r.Ok? ==> SortedDesc(r.value, CreatedKey)
    ensures r.Ok? ==>
      multiset(r.value) == multiset(Backups(fs, BackupDir(configFile), BackupPrefix(configFile), names))
  {
    var dir := BackupDir(configFile);
    if !DirAt(fs, Resolve(dir)) then Err(OsError(dir))
    else Ok(SortDesc(Backups(fs, dir, BackupPrefix(configFile), names), CreatedKey))
  }

  /** list_backup_files as the loop it is: list the directory, collect the
      backups, then sort in place. `names` is what os.listdir handed out. */
  method ListBackupFiles(fs: Fs, configFile: Path) returns (r: Result<seq<BackupEntry>>, ghost names: seq<string>)
    requires WellFormed(fs) && ValidTimes(fs)
    ensures DirAt(fs, Resolve(BackupDir(configFile))) ==> IsListing(fs, Resolve(BackupDir(configFile)), names)
    ensures r == BackupListing(fs, configFile, names)
  {
    var dir := BackupDir(configFile);
    if !DirAt(fs, Resolve(dir)) {
      return Err(OsError(dir)), [];
    }
    var listed := ListDir(fs, Resolve(dir));
    names := listed;
    var found := CollectBackups(fs, dir, BackupPrefix(configFile), listed);
    found := SortDesc(found, CreatedKey);
    r := Ok(found);
  }

  /** The loop of list_backup_files: the backups, in listing order. */
  method CollectBackups(fs: Fs, dir: Path, prefix: string, listed: seq<string>) returns (found: seq<BackupEntry>)
    requires ValidTimes(fs)
    ensures found == Backups(fs, dir, prefix, listed)
  {
    found := [];
    var i := 0;
    while i < |listed|
      invariant 0 <= i <= |listed|
      invariant found == Backups(fs, dir, prefix, listed[..i])
    {
      assert listed[..i + 1][..i] == listed[..i];
      match BackupAt(fs, dir, prefix, listed[i]) {
        case Some(e) => found := found + [e];
        case None =>
      }
      i := i + 1;
    }
    assert listed[..|listed|] == listed;
  }

  /** Every listed backup is a file whose name carries the prefix, and its
      "created" field prints that file's ctime. */
  lemma ListedIsBackup(fs: Fs, configFile: Path, names: seq<string>, e: BackupEntry)
    requires ValidTimes(fs) && BackupListing(fs, configFile, names).Ok?
    requires e in BackupListing(fs, configFile, names).value
    ensures exists n :: (n in names && StartsWith(n, BackupPrefix(configFile))
      && e.file == Join(BackupDir(configFile), n) && IsFile(fs, e.file))
    ensures IsFile(fs, e.file) && e.created == IsoFormat(fs[Resolve(e.file)].ctime)
  {
    var dir := BackupDir(configFile);
    var prefix := BackupPrefix(configFile);
    assert e in multiset(BackupListing(fs, configFile, names).value);
    BackupsMembers(fs, dir, prefix, names, e);
    var x :| 0 <= x < |names| && BackupAt(fs, dir, prefix, names[x]) == Some(e);
    assert names[x] in names;
  }

  /** Newest first: a backup listed before another was not created earlier. */
  lemma ListedNewestFirst(fs: Fs, configFile: Path, names: seq<string>, i: int, j: int)
    requires ValidTimes(fs) && BackupListing(fs, configFile, names).Ok?
    requires 0 <= i < j < |BackupListing(fs, configFile, names).value|
    ensures var l := BackupListing(fs, configFile, names).value;
      && IsFile(fs, l[i].file) && IsFile(fs, l[j].file)
      && !Before(fs[Resolve(l[i].file)].ctime, fs[Resolve(l[j].file)].ctime)
  {
    var l := BackupListing(fs, configFile, names).value;
    ListedIsBackup(fs, configFile, names, l[i]);
    ListedIsBackup(fs, configFile, names, l[j]);
    var a := fs[Resolve(l[i].file)].ctime;
    var b := fs[Resolve(l[j].file)].ctime;
    assert LexLessEq(l[j].created, l[i].created);
    IsoFormatOrderIff(a, b);
    if l[j].created != l[i].created {
      LexLessAsymmetric(l[j].created, l[i].created);
    } else {
      LexLessIrreflexive(l[i].created);
    }
  }

  /** A file named without a directory is its own basename. */
  lemma BareNameBase(configFile: Path)
    requires IsName(configFile)
    ensures Basename(configFile) == configFile
  {
    assert AfterLastSlash(configFile) == 0;
    assert configFile[0..] == configFile;
  }

  /** ... so the backups it looks for are named after it. */
  lemma BarePrefix(configFile: Path)
    requires IsName(configFile)
    ensures BackupPrefix(configFile) == configFile + BackupInfix
  {
    BareNameBase(configFile);
  }

  /** Its backups are searched for in ".". */
  lemma BareNameDir(configFile: Path)
    requires IsName(configFile)
    ensures BackupDir(configFile) == "."
  {
    assert AfterLastSlash(configFile) == 0;
  }

  /** A name followed by a suffix without '/' is a name again, which
      starts with the name and what follows it. */
  lemma Suffixed(base: string, infix: string, stamp: string)
    requires IsName(base) && '/' !in infix && '/' !in stamp
    ensures IsName(base + infix + stamp)
    ensures StartsWith(base + infix + stamp, base + infix)
  {
    var n := base + infix + stamp;
    assert n[..|base + infix|] == base + infix;
    assert n[..|base|] == base;
  }

  /** The backup of such a file is a plain name beside it that carries the prefix. */
  lemma BackupNameShape(configFile: Path, now: Instant)
    requires IsName(configFile) && Valid(now)
    ensures IsName(BackupName(configFile, now))
    ensures StartsWith(BackupName(configFile, now), BackupPrefix(configFile))
  {
    BarePrefix(configFile);
    BackupStampNoSlash(now);
    Suffixed(configFile, BackupInfix, BackupStamp(now));
  }

  /** A plain name resolves to itself, also when reached through ".". */
  lemma ResolveBesideConfig(name: string)
    requires IsName(name)
    ensures Resolve(name) == [name] && Resolve(Join(".", name)) == [name]
  {
    ResolveName(name);
    ResolveJoin(".", name);
    assert Resolve(".") == [];
  }

  /** The listing for a config file in the working directory. */
  lemma BareListing(fs: Fs, configFile: Path, names: seq<string>)
    requires ValidTimes(fs) && IsName(configFile)
    ensures BackupListing(fs, configFile, names) ==
      Ok(SortDesc(Backups(fs, ".", BackupPrefix(configFile), names), CreatedKey))
  {
    BareNameDir(configFile);
    assert Resolve(".") == [];
  }

  /** Where a fresh backup lands and what it holds. */
  lemma BackupWritten(fs: Fs, configFile: Path, now: Instant)
    requires Valid(now) && IsName(configFile) && IsFile(fs, configFile)
    requires !Exists(fs, BackupName(configFile, now))
    requires BackupConfig(fs, configFile, now).out.Ok?
    ensures var name := BackupName(configFile, now);
      var b := BackupConfig(fs, configFile, now);
      && b.out.value == name
      && Resolve(Join(".", name)) == [name]
      && [name] in b.fs && b.fs[[name]] == File(fs[Resolve(configFile)].content, now)
  {
    var name := BackupName(configFile, now);
    BackupNameShape(configFile, now);
    ResolveBesideConfig(name);
    assert CopyTarget(fs, configFile, name) == name;
  }

  /** A backup just taken of a config file in the working directory is
      among the backups listed afterwards, stamped with the time it was taken. */
  lemma BackupIsListed(fs: Fs, configFile: Path, now: Instant, names: seq<string>)
    requires Valid(now) && IsName(configFile) && IsFile(fs, configFile)
    requires !Exists(fs, BackupName(configFile, now))
    requires BackupConfig(fs, configFile, now).out.Ok?
    requires var after := BackupConfig(fs, configFile, now).fs;
      ValidTimes(after) && IsListing(after, [], names)
    ensures var b := BackupConfig(fs, configFile, now);
      var l := BackupListing(b.fs, configFile, names);
      l.Ok? && BackupEntry(Join(".", b.out.value), IsoFormat(now)) in l.value
  {
    var b := BackupConfig(fs, configFile, now);
    var name := BackupName(configFile, now);
    var prefix := BackupPrefix(configFile);
    BackupNameShape(configFile, now);
    BackupWritten(fs, configFile, now);
    BareListing(b.fs, configFile, names);
    assert [] + [name] in b.fs;
    var i :| 0 <= i < |names| && names[i] == name;
    var e := BackupEntry(Join(".", name), IsoFormat(now));
    assert BackupAt(b.fs, ".", prefix, names[i]) == Some(e);
    BackupsMembers(b.fs, ".", prefix, names, e);
    assert e in multiset(Backups(b.fs, ".", prefix, names));
  }

  /** Copying keeps every ctime one the clock produced. */
  lemma CopyValidTimes(fs: Fs, src: Path, dst: Path, now: Instant)
    requires ValidTimes(fs) && Valid(now) && Copy(fs, src, dst, now).Ok?
    ensures ValidTimes(Copy(fs, src, dst, now).value)
  {
  }

  // ---------------------------------------------------------------------------
  // The confirmation loop of interactive_migration
  // ---------------------------------------------------------------------------

  datatype Answer = Proceed | Cancel | Reprompt

  /** How a normalised answer is read. */
  function ClassifyChoice(choice: string): Answer {
    if choice in ["y", "yes", "是"] then Proceed
    else if choice in ["n", "no", "否"] then Cancel
    else Reprompt
  }

  /** How one line typed at the prompt is read. The program lower-cases,
      then strips; stripping first gives the same string (see
      ClassifyAsWritten) and is the form used here. */
  function ClassifyAnswer(line: string): Answer {
    ClassifyChoice(Lower(Strip(line)))
  }

  /** The reading above is the one of `line.lower().strip()`. */
  lemma ClassifyAsWritten(line: string)
    ensures ClassifyAnswer(line) == ClassifyChoice(Strip(Lower(line)))
  {
    StripLowerCommute(line);
  }

  /** Case and surrounding blanks do not matter: an answer and its
      lower-cased, stripped form are read alike. */
  lemma ClassifyNormalised(line: string)
    ensures ClassifyAnswer(Strip(Lower(line))) == ClassifyAnswer(line)
  {
    var t := Strip(Lower(line));
    StripLowerCommute(line);
    StripIdempotent(Lower(line));
    LowerIdempotent(Strip(line));
    assert Lower(Strip(t)) == Lower(Strip(line));
  }

  /** Each line typed, as the prompt reads it. */
  function Classified(answers: seq<string>): (cs: seq<Answer>)
    ensures |cs| == |answers|
  {
    if answers == [] then [] else [ClassifyAnswer(answers[0])] + Classified(answers[1..])
  }

  /** The decision the prompt reaches on a run of readings: the first that
      is not a re-prompt decides; running out of input (EOFError from
      input()) is an error. */
  function Decide(cs: seq<Answer>): (r: Result<bool>)
    ensures r.Err? ==> r.error == EndOfInput
  {
    if cs == [] then Err(EndOfInput)
    else match cs[0]
      case Proceed => Ok(true)
      case Cancel => Ok(false)
      case Reprompt => Decide(cs[1..])
  }

  /** The prompt decides exactly when some reading is a yes or a no, and
      then the first such reading is the one that counts. */
  lemma {:induction false} DecideFirstDecisive(cs: seq<Answer>)
    ensures Decide(cs).Ok? <==> exists i :: 0 <= i < |cs| && cs[i] != Reprompt
    ensures Decide(cs).Ok? ==> exists i :: (0 <= i < |cs|
      && (forall j :: 0 <= j < i ==> cs[j] == Reprompt)
      && cs[i] == (if Decide(cs).value then Proceed else Cancel))
  {
    if cs != [] && cs[0] == Reprompt {
      var rest := cs[1..];
      DecideFirstDecisive(rest);
      if exists i :: 0 <= i < |cs| && cs[i] != Reprompt {
        var i :| 0 <= i < |cs| && cs[i] != Reprompt;
        assert rest[i - 1] == cs[i];
      }
      if Decide(cs).Ok? {
        var i :| 0 <= i < |rest|
          && (forall j :: 0 <= j < i ==> rest[j] == Reprompt)
          && rest[i] == (if Decide(rest).value then Proceed else Cancel);
        assert cs[i + 1] == rest[i];
        assert forall j :: 0 < j < i + 1 ==> cs[j] == rest[j - 1];
      }
    }
  }

  /** The prompt loop: reads one line per round until a line decides. */
  method ConfirmMigration(answers: seq<string>) returns (r: Result<bool>)
    ensures r == Decide(Classified(answers))
  {
    var i := 0;
    assert answers[0..] == answers;
    while i < |answers|
      invariant i <= |answers|
      invariant Decide(Classified(answers[i..])) == Decide(Classified(answers))
    {
      var choice := ClassifyAnswer(answers[i]);
      assert answers[i..][1..] == answers[i + 1..];
      if choice == Proceed {
        return Ok(true);
      } else if choice == Cancel {
        return Ok(false);
      }
      i := i + 1;
    }
    r := Err(EndOfInput);
  }

  datatype Outcome = AlreadyMigrated | Cancelled | Migrated(ok: bool)

  /** The preview of other_params shown before the prompt, as far as it can
      raise: `.get` on a value that is not a dict (AttributeError), and
      `[:100]` on a truthy topic that is neither a str nor a list. */
  function Preview(config: Obj): Result<()>
    requires Legacy(config)
  {
    match config["other_params"]
    case Obj(op) =>
      var topic := GetOr(op, "topic", Null);
      if Truthy(topic) && !topic.Str? && !topic.List? then Err(WrongKind("topic")) else Ok(())
    case _ => Err(WrongKind("other_params"))
  }

  /** interactive_migration on "config.json": nothing to do for a migrated
      config; otherwise show the preview, ask, and migrate only on a yes. */
  method InteractiveMigration(fs: Fs, answers: seq<string>, names: seq<string>, now: Instant,
                              migrate: Obj -> Result<Obj>) returns (r: Result<Outcome>, fs': Fs)
    requires Valid(now)
    ensures var g := LoadConfig(fs, GlobalConfigFile, now);
      !Legacy(g.out) ==> r == Ok(AlreadyMigrated) && fs' == g.fs
    // a preview that raises stops before the prompt, and nothing is migrated
    ensures var g := LoadConfig(fs, GlobalConfigFile, now);
      Legacy(g.out) && Preview(g.out).Err? ==> r == Err(Preview(g.out).error) && fs' == g.fs
    ensures var g := LoadConfig(fs, GlobalConfigFile, now);
      Legacy(g.out) && r == Ok(Cancelled) ==> fs' == g.fs
    ensures var g := LoadConfig(fs, GlobalConfigFile, now);
      r.Ok? && r.value.Migrated? ==>
        Legacy(g.out) && Io(r.value.ok, fs') == Migrate(g.fs, GlobalConfigFile, names, now, migrate)
    ensures var g := LoadConfig(fs, GlobalConfigFile, now);
      Legacy(g.out) && Preview(g.out).Ok? ==> var d := Decide(Classified(answers));
        (r.Err? <==> d.Err?) && (r == Ok(Cancelled) <==> d == Ok(false)) && (r.Ok? && r.value.Migrated? <==> d == Ok(true))
    ensures var g := LoadConfig(fs, GlobalConfigFile, now);
      r.Err? ==> r.error == EndOfInput || (Legacy(g.out) && Preview(g.out) == Err(r.error))
  {
    var g := LoadConfig(fs, GlobalConfigFile, now);
    fs' := g.fs;
    if !Legacy(g.out) {
      return Ok(AlreadyMigrated), fs';
    }
    var shown := Preview(g.out);
    if shown.Err? {
      return Err(shown.error), fs';
    }
    var go := ConfirmMigration(answers);
    if go.Err? {
      return Err(go.error), fs';
    }
    if !go.value {
      return Ok(Cancelled), fs';
    }
    var m := Migrate(fs', GlobalConfigFile, names, now, migrate);
    r := Ok(Migrated(m.out));
    fs' := m.fs;
  }
}
