/** The configuration and project store: the global config.json, and one
    directory per novel under novels/ holding its novel_config.json.
    Paths are taken relative to the working directory, so
    `os.path.join(os.getcwd(), x)` is x. Each call that reads the clock gets
    it as `now`. */
module ConfigManager {
  import opened Base
  import opened Text
  import opened Json
  import opened Clock
  import opened Sorting
  import opened FileSystem

  const NovelsRoot: Path := "novels"
  const GlobalConfigFile: Path := "config.json"
  const NovelConfigName: string := "novel_config.json"
  const DefaultProjectName: string := "默认小说项目"

  /** Where a project keeps its config. */
  function ConfigPath(projectPath: Path): Path {
    Join(projectPath, NovelConfigName)
  }

  // ---------------------------------------------------------------------------
  // The global config
  // ---------------------------------------------------------------------------

  function LlmProfile(baseUrl: string, model: string, maxTokens: int): Value {
    Obj(map[
      "api_key" := Str(""),
      "base_url" := Str(baseUrl),
      "model_name" := Str(model),
      "temperature" := Num("0.7"),
      "max_tokens" := Int(maxTokens),
      "timeout" := Int(600),
      "interface_format" := Str("OpenAI")])
  }

  /** Every profile named in choose_configs is a key of llm_configs, and the
      last embedding format names a key of embedding_configs. */
  predicate ChoicesResolve(config: Obj) {
    && "choose_configs" in config && config["choose_configs"].Obj?
    && "llm_configs" in config && config["llm_configs"].Obj?
    && "embedding_configs" in config && config["embedding_configs"].Obj?
    && "last_embedding_interface_format" in config
    && config["last_embedding_interface_format"].Str?
    && config["last_embedding_interface_format"].s in config["embedding_configs"].fields
    && forall role :: role in config["choose_configs"].fields ==>
         && config["choose_configs"].fields[role].Str?
         && config["choose_configs"].fields[role].s in config["llm_configs"].fields
  }

  /** The record create_config writes. */
  function DefaultConfig(): Obj
  {
    map[
      "last_interface_format" := Str("OpenAI"),
      "last_embedding_interface_format" := Str("OpenAI"),
      "llm_configs" := Obj(map[
        "DeepSeek V3" := LlmProfile("https://api.deepseek.com/v1", "deepseek-chat", 8192),
        "GPT 5" := LlmProfile("https://api.openai.com/v1", "gpt-5", 32768),
        "Gemini 2.5 Pro" := LlmProfile("https://generativelanguage.googleapis.com/v1beta/openai", "gemini-2.5-pro", 32768)]),
      "embedding_configs" := Obj(map[
        "OpenAI" := Obj(map[
          "api_key" := Str(""),
          "base_url" := Str("https://api.openai.com/v1"),
          "model_name" := Str("text-embedding-ada-002"),
          "retrieval_k" := Int(4),
          "interface_format" := Str("OpenAI")])]),
      "default_novel_params" := Obj(map[
        "topic" := Str(""),
        "genre" := Str("玄幻"),
        "num_chapters" := Int(100),
        "word_number" := Int(3000),
        "writing_style" := Str(""),
        "user_guidance" := Str(""),
        "characters_involved" := Str(""),
        "key_items" := Str(""),
        "scene_location" := Str(""),
        "time_constraint" := Str("")]),
      "choose_configs" := Obj(map[
        "prompt_draft_llm" := Str("DeepSeek V3"),
        "chapter_outline_llm" := Str("DeepSeek V3"),
        "architecture_llm" := Str("Gemini 2.5 Pro"),
        "final_chapter_llm" := Str("GPT 5"),
        "consistency_review_llm" := Str("DeepSeek V3")]),
      "proxy_setting" := Obj(map["proxy_url" := Str("127.0.0.1"), "proxy_port" := Str(""), "enabled" := Bool(false)]),
      "webdav_config" := Obj(map["webdav_url" := Str(""), "webdav_username" := Str(""), "webdav_password" := Str("")])]
  }

  /** The defaults are consistent: every role names a shipped LLM profile,
      and the last embedding format names a shipped embedding profile. */
  lemma DefaultChoicesResolve()
    ensures ChoicesResolve(DefaultConfig())
  {
  }

  /** The defaults leave the proxy off, carry novel defaults, and are not
      a legacy record. */
  lemma DefaultConfigShape()
    ensures var r := DefaultConfig();
      && "proxy_setting" in r && r["proxy_setting"] == Obj(map["proxy_url" := Str("127.0.0.1"), "proxy_port" := Str(""), "enabled" := Bool(false)])
      && "default_novel_params" in r && r["default_novel_params"].Obj?
      && "other_params" !in r
  {
  }

  /** A config that still keeps the novel parameters globally. */
  predicate Legacy(config: Obj) {
    "other_params" in config
  }

  /** save_config: never raises; true exactly when the file could be written. */
  function SaveConfig(fs: Fs, config: Obj, path: Path, now: Instant): (r: Io<bool>)
    ensures r.out <==> Writable(fs, path)
    ensures r.out ==> ReadJson(r.fs, path) == Some(config)
    ensures !r.out ==> r.fs == fs
  {
    match WriteFile(fs, path, Doc(config), now)
    case Ok(fs') => Io(true, fs')
    case Err(_) => Io(false, fs)
  }

  /** create_config: writes the default record; a failed write goes unnoticed. */
  function CreateConfig(fs: Fs, path: Path, now: Instant): (r: Fs)
    ensures Writable(fs, path) ==> ReadJson(r, path) == Some(DefaultConfig())
    ensures !Writable(fs, path) ==> r == fs
  {
    SaveConfig(fs, DefaultConfig(), path, now).fs
  }

  /** load_config: a missing file is first created with the defaults; a file
      that cannot be opened or parsed reads as the empty dict. */
  function LoadConfig(fs: Fs, path: Path, now: Instant): (r: Io<Obj>)
    ensures Exists(fs, path) ==> r.fs == fs
    ensures Exists(fs, path) ==> r.out == match ReadJson(fs, path) case Some(c) => c case None => map[]
    ensures !Exists(fs, path) && Writable(fs, path) ==>
      r.out == DefaultConfig() && ReadJson(r.fs, path) == Some(DefaultConfig())
    ensures !Exists(fs, path) && !Writable(fs, path) ==> r.out == map[] && r.fs == fs
  {
    var fs1 := if Exists(fs, path) then fs else CreateConfig(fs, path, now);
    match ReadJson(fs1, path)
    case Some(c) => Io(c, fs1)
    case None => Io(map[], fs1)
  }

  /** Loading twice gives what loading once gave, and the second load writes nothing. */
  lemma LoadConfigIdempotent(fs: Fs, path: Path, now: Instant, later: Instant)
    ensures LoadConfig(LoadConfig(fs, path, now).fs, path, later) == LoadConfig(fs, path, now)
  {
    var first := LoadConfig(fs, path, now);
    if !Exists(fs, path) && Writable(fs, path) {
      assert Exists(first.fs, path);
    }
  }

  // ---------------------------------------------------------------------------
  // Project records
  // ---------------------------------------------------------------------------

  /** `ensure_novels_dir` */
  function EnsureNovelsDir(fs: Fs): (r: Result<Fs>)
    ensures r.Ok? ==> IsDir(r.value, NovelsRoot)
    ensures IsDir(fs, NovelsRoot) ==> r == Ok(fs)
  {
    MakeDirs(fs, NovelsRoot)
  }

  /** `global_config.get("default_novel_params", {}).copy()`, which must
      come out a dict for the "filepath" assignment after it to succeed. */
  function DefaultNovelParams(global: Obj): (r: Result<Obj>)
    ensures "default_novel_params" !in global ==> r == Ok(map[])
    ensures r.Err? <==> "default_novel_params" in global && !global["default_novel_params"].Obj?
  {
    if "default_novel_params" !in global then Ok(map[])
    else match global["default_novel_params"]
      case Obj(m) => Ok(m)
      case _ => Err(WrongKind("default_novel_params"))
  }

  /** The generation_state a new project starts from. */
  function InitialGenerationState(): Obj {
    map[
      "current_chapter" := Int(1),
      "architecture_generated" := Bool(false),
      "blueprint_generated" := Bool(false),
      "last_generation_step" := Str("none")]
  }

  /** The record create_novel_project and load_novel_config synthesise. */
  function NewNovelConfig(title: string, params: Obj, projectPath: Path, now: Instant): Obj
    requires Valid(now)
  {
    map[
      "novel_info" := Obj(map[
        "title" := Str(title),
        "created_at" := Str(IsoFormat(now)),
        "last_modified" := Str(IsoFormat(now))]),
      "novel_params" := Obj(params["filepath" := Str(projectPath)]),
      "generation_state" := Obj(InitialGenerationState())]
  }

  /** A freshly synthesised project record: its title, the default novel
      parameters with filepath set to the project path, chapter 1, nothing
      generated yet. */
  predicate FreshRecord(c: Obj, title: string, params: Obj, projectPath: Path) {
    && "novel_info" in c && c["novel_info"].Obj?
    && "title" in c["novel_info"].fields && c["novel_info"].fields["title"] == Str(title)
    && "novel_params" in c && c["novel_params"] == Obj(params["filepath" := Str(projectPath)])
    && "generation_state" in c && c["generation_state"].Obj?
    && var g := c["generation_state"].fields;
    && "current_chapter" in g && g["current_chapter"] == Int(1)
    && "architecture_generated" in g && g["architecture_generated"] == Bool(false)
    && "blueprint_generated" in g && g["blueprint_generated"] == Bool(false)
    && "last_generation_step" in g && g["last_generation_step"] == Str("none")
  }

  /** `novel_info.last_modified` of a record, when it is a str. */
  function LastModified(c: Obj): Option<string> {
    if "novel_info" in c && c["novel_info"].Obj? && "last_modified" in c["novel_info"].fields
       && c["novel_info"].fields["last_modified"].Str?
    then Some(c["novel_info"].fields["last_modified"].s)
    else None
  }

  /** What save_novel_config does to the caller's dict before writing it:
      creates novel_info when missing and sets its last_modified. A
      novel_info that is not a dict makes the assignment raise. */
  function Stamp(config: Obj, now: Instant): (r: Result<Obj>)
    requires Valid(now)
    ensures r.Ok? <==> "novel_info" !in config || config["novel_info"].Obj?
    ensures r.Ok? ==> LastModified(r.value) == Some(IsoFormat(now))
    ensures r.Ok? ==> r.value.Keys == config.Keys + {"novel_info"}
    ensures r.Ok? ==> forall k :: k in config && k != "novel_info" ==> r.value[k] == config[k]
    ensures r.Ok? && "novel_info" in config ==>
      forall k :: k in config["novel_info"].fields && k != "last_modified" ==>
        k in r.value["novel_info"].fields && r.value["novel_info"].fields[k] == config["novel_info"].fields[k]
  {
    var info := if "novel_info" in config then config["novel_info"] else Obj(map[]);
    match info
    case Obj(m) => Ok(config["novel_info" := Obj(m["last_modified" := Str(IsoFormat(now))])])
    case _ => Err(WrongKind("novel_info"))
  }

  /** Outcome of save_novel_config: whether the write succeeded, the
      caller's dict as the call leaves it, and the disk. */
  datatype Saved = Saved(written: bool, config: Obj, fs: Fs)

  /** save_novel_config: stamps, then writes; a failed write returns false
      and the disk is unchanged. */
  function SaveNovelConfig(fs: Fs, projectPath: Path, config: Obj, now: Instant): (r: Result<Saved>)
    requires Valid(now)
    ensures r.Err? <==> Stamp(config, now).Err?
    ensures r.Ok? ==> r.value.config == Stamp(config, now).value
    ensures r.Ok? ==> (r.value.written <==> Writable(fs, ConfigPath(projectPath)))
    ensures r.Ok? && r.value.written ==> ReadJson(r.value.fs, ConfigPath(projectPath)) == Some(r.value.config)
    ensures r.Ok? && !r.value.written ==> r.value.fs == fs
  {
    match Stamp(config, now)
    case Err(e) => Err(e)
    case Ok(stamped) =>
      match WriteFile(fs, ConfigPath(projectPath), Doc(stamped), now)
      case Ok(fs') => Ok(Saved(true, stamped, fs'))
      case Err(_) => Ok(Saved(false, stamped, fs))
  }

  /** create_novel_project: refuses a path that exists; otherwise creates
      the directory and writes a fresh record into it. */
  function CreateNovelProject(fs: Fs, name: string, global: Obj, now: Instant): (r: Io<Result<Path>>)
    requires Valid(now)
    ensures r.out.Ok? ==> r.out.value == Join(NovelsRoot, name) && IsDir(r.fs, r.out.value)
    ensures IsDir(fs, NovelsRoot) && Exists(fs, Join(NovelsRoot, name)) ==>
      r == Io(Err(ProjectExists(name)), fs)
  {
    match EnsureNovelsDir(fs)
    case Err(e) => Io(Err(e), fs)
    case Ok(fs1) =>
      var path := Join(NovelsRoot, name);
      if Exists(fs1, path) then Io(Err(ProjectExists(name)), fs1)
      else match MakeDirs(fs1, path)
        case Err(e) => Io(Err(e), fs1)
        case Ok(fs2) =>
          match DefaultNovelParams(global)
          case Err(e) => Io(Err(e), fs2)
          case Ok(params) =>
            var saved := SaveNovelConfig(fs2, path, NewNovelConfig(name, params, path, now), now);
            SaveKeepsProjectDir(fs2, path, NewNovelConfig(name, params, path, now), now);
            Io(Ok(path), if saved.Ok? then saved.value.fs else fs2)
  }

  /** Saving the config leaves the project directory in place. */
  lemma SaveKeepsProjectDir(fs: Fs, projectPath: Path, config: Obj, now: Instant)
    requires Valid(now) && IsDir(fs, projectPath)
    ensures SaveNovelConfig(fs, projectPath, config, now).Ok? ==>
      IsDir(SaveNovelConfig(fs, projectPath, config, now).value.fs, projectPath)
  {
    ConfigPathResolves(projectPath);
  }

  lemma NovelsRootResolves()
    ensures Resolve(NovelsRoot) == [NovelsRoot]
  {
    ResolveName(NovelsRoot);
  }

  /** A project path has a config path one level below it. */
  lemma ConfigPathResolves(projectPath: Path)
    ensures Resolve(ConfigPath(projectPath)) == Resolve(projectPath) + [NovelConfigName]
    ensures Parent(Resolve(ConfigPath(projectPath))) == Resolve(projectPath)
  {
    ResolveJoin(projectPath, NovelConfigName);
  }

  /** In a freshly made project directory the config can always be written. */
  lemma FreshDirWritable(fs1: Fs, fs2: Fs, path: Path)
    requires WellFormed(fs1) && !Exists(fs1, path) && Resolve(path) != []
    requires MakeDirs(fs1, path) == Ok(fs2)
    ensures Writable(fs2, ConfigPath(path))
  {
    ConfigPathResolves(path);
    var k := Resolve(path);
    var c := k + [NovelConfigName];
    assert Parent(c) == k;
    AbsentParent(fs1, c);
  }

  /** The synthesised record already carries the stamp save_novel_config
      gives it at the same instant, and satisfies FreshRecord. */
  lemma NewNovelConfigStamped(title: string, params: Obj, projectPath: Path, now: Instant)
    requires Valid(now)
    ensures Stamp(NewNovelConfig(title, params, projectPath, now), now) == Ok(NewNovelConfig(title, params, projectPath, now))
    ensures FreshRecord(NewNovelConfig(title, params, projectPath, now), title, params, projectPath)
  {
    var c := NewNovelConfig(title, params, projectPath, now);
    var info := c["novel_info"].fields;
    assert info["last_modified" := Str(IsoFormat(now))] == info;
    assert c["novel_info" := Obj(info)] == c;
  }

  /** A new project's record is on disk: the project name as title, chapter 1,
      nothing generated, the default parameters with filepath = the project path. */
  lemma CreateNovelProjectRecord(fs: Fs, name: string, global: Obj, now: Instant)
    requires Valid(now) && WellFormed(fs)
    requires CreateNovelProject(fs, name, global, now).out.Ok?
    ensures var r := CreateNovelProject(fs, name, global, now);
      && DefaultNovelParams(global).Ok?
      && ReadJson(r.fs, ConfigPath(r.out.value)) ==
           Some(NewNovelConfig(name, DefaultNovelParams(global).value, r.out.value, now))
      && WellFormed(r.fs)
  {
    var r := CreateNovelProject(fs, name, global, now);
    assert EnsureNovelsDir(fs).Ok?;
    var fs1 := EnsureNovelsDir(fs).value;
    MakeDirsWellFormed(fs, NovelsRoot);
    var path := Join(NovelsRoot, name);
    assert !Exists(fs1, path);
    assert MakeDirs(fs1, path).Ok?;
    var fs2 := MakeDirs(fs1, path).value;
    MakeDirsWellFormed(fs1, path);
    FreshDirWritable(fs1, fs2, path);
    var params := DefaultNovelParams(global).value;
    var c := NewNovelConfig(name, params, path, now);
    NewNovelConfigStamped(name, params, path, now);
    var saved := SaveNovelConfig(fs2, path, c, now);
    assert saved.Ok? && saved.value.written && saved.value.config == c;
    assert r.fs == saved.value.fs;
    WriteFileWellFormed(fs2, ConfigPath(path), Doc(c), now);
  }

  /** load_novel_config: an existing config is read as it is, and one that
      cannot be read raises rather than falling back to defaults; a missing
      config is synthesised from the global defaults, saved and returned. */
  function LoadNovelConfig(fs: Fs, projectPath: Path, now: Instant): (r: Io<Result<Obj>>)
    requires Valid(now)
    ensures Exists(fs, ConfigPath(projectPath)) ==> r.fs == fs
    ensures Exists(fs, ConfigPath(projectPath)) ==>
      r.out == match ReadJson(fs, ConfigPath(projectPath))
               case Some(c) => Ok(c)
               case None => Err(ProjectConfigUnreadable(projectPath))
    ensures !Exists(fs, ConfigPath(projectPath)) && r.out.Ok? ==>
      exists params :: r.out.value == NewNovelConfig(Basename(projectPath), params, projectPath, now)
  {
    var cfg := ConfigPath(projectPath);
    if Exists(fs, cfg) then
      match ReadJson(fs, cfg)
      case Some(c) => Io(Ok(c), fs)
      case None => Io(Err(ProjectConfigUnreadable(projectPath)), fs)
    else
      match EnsureNovelsDir(fs)
      case Err(e) => Io(Err(e), fs)
      case Ok(fs1) =>
        var global := LoadConfig(fs1, GlobalConfigFile, now);
        match DefaultNovelParams(global.out)
        case Err(e) => Io(Err(e), global.fs)
        case Ok(params) =>
          var c := NewNovelConfig(Basename(projectPath), params, projectPath, now);
          NewNovelConfigStamped(Basename(projectPath), params, projectPath, now);
          var saved := SaveNovelConfig(global.fs, projectPath, c, now);
          Io(Ok(c), saved.value.fs)
  }

  // ---------------------------------------------------------------------------
  // Listing
  // ---------------------------------------------------------------------------

  /** One entry of list_novel_projects. The novel_info fields are carried
      as the JSON values they are. */
  datatype ProjectEntry = ProjectEntry(name: string, path: Path, title: Value,
                                       createdAt: Value, lastModified: Value)

  /** The sort key, for entries whose last_modified is a str. */
  function LastModifiedKey(e: ProjectEntry): string {
    if e.lastModified.Str? then e.lastModified.s else ""
  }

  /** `list.sort` compares keys only when there are two or more entries; a
      str key compared with a key of another kind raises TypeError. */
  predicate Sortable(ps: seq<ProjectEntry>) {
    |ps| <= 1 || forall e :: e in ps ==> e.lastModified.Str?
  }

  /** The entry for directory entry `name` of novels/, or None when it is
      skipped: not a directory, no config, a config that does not parse, or
      a novel_info that is not a dict. Missing fields take their defaults;
      present ones are taken whatever their kind. */
  function ReadEntry(fs: Fs, name: string): (r: Option<ProjectEntry>)
    ensures r.Some? ==> r.value.name == name && r.value.path == Join(NovelsRoot, name)
    ensures r.Some? <==> IsDir(fs, Join(NovelsRoot, name))
                         && ReadJson(fs, ConfigPath(Join(NovelsRoot, name))).Some?
                         && InfoReadable(ReadJson(fs, ConfigPath(Join(NovelsRoot, name))).value)
  {
    var path := Join(NovelsRoot, name);
    if !IsDir(fs, path) then None
    else match ReadJson(fs, ConfigPath(path))
      case None => None
      case Some(c) =>
        if !InfoReadable(c) then None
        else
          var info := if "novel_info" in c then c["novel_info"].fields else map[];
          Some(ProjectEntry(name, path, GetOr(info, "title", Str(name)),
                            GetOr(info, "created_at", Str("")), GetOr(info, "last_modified", Str(""))))
  }

  /** `config.get("novel_info", {}).get(...)` does not raise. */
  predicate InfoReadable(c: Obj) {
    "novel_info" !in c || c["novel_info"].Obj?
  }

  /** The entries in listing order, before the sort. */
  function Entries(fs: Fs, names: seq<string>): (r: seq<ProjectEntry>)
    ensures |r| <= |names|
  {
    if names == [] then []
    else
      var last := names[|names| - 1];
      Entries(fs, names[..|names| - 1]) + match ReadEntry(fs, last) case Some(e) => [e] case None => []
  }

  /** The listed entries are exactly the readable projects among the names. */
  lemma {:induction false} EntriesMembers(fs: Fs, names: seq<string>, e: ProjectEntry)
    ensures e in Entries(fs, names) <==> exists i :: 0 <= i < |names| && ReadEntry(fs, names[i]) == Some(e)
  {
    if names != [] {
      var init := names[..|names| - 1];
      var read := ReadEntry(fs, names[|names| - 1]);
      EntriesMembers(fs, init, e);
      assert Entries(fs, names) == Entries(fs, init) + match read case Some(x) => [x] case None => [];
      if e in Entries(fs, names) && e !in Entries(fs, init) {
        assert read == Some(e);
      }
      if exists i :: 0 <= i < |names| && ReadEntry(fs, names[i]) == Some(e) {
        var i :| 0 <= i < |names| && ReadEntry(fs, names[i]) == Some(e);
        if i < |names| - 1 {
          assert init[i] == names[i];
        }
      }
    }
  }

  /** list_novel_projects after the directory exists: newest last_modified first. */
  function NovelProjects(fs: Fs, names: seq<string>): (r: seq<ProjectEntry>)
    ensures SortedDesc(r, LastModifiedKey)
    ensures multiset(r) == multiset(Entries(fs, names))
  {
    SortDesc(Entries(fs, names), LastModifiedKey)
  }

  /** The TypeError the sort raises on keys that do not compare. */
  const UnorderableKeys: Error := WrongKind("last_modified")

  /** list_novel_projects, given what os.listdir returns for novels/ once it
      exists: the sorted entries, or the sort's TypeError. */
  function ProjectListing(fs: Fs, names: seq<string>): (r: Io<Result<seq<ProjectEntry>>>)
  {
    match EnsureNovelsDir(fs)
    case Err(e) => Io(Err(e), fs)
    case Ok(fs1) =>
      if Sortable(Entries(fs1, names)) then Io(Ok(NovelProjects(fs1, names)), fs1)
      else Io(Err(UnorderableKeys), fs1)
  }

  /** Once novels/ exists, the listing fails exactly when the sort raises,
      and otherwise returns the sorted entries. */
  lemma ListingOutcome(fs: Fs, names: seq<string>)
    requires EnsureNovelsDir(fs).Ok?
    ensures var r := ProjectListing(fs, names);
      && r.fs == EnsureNovelsDir(fs).value
      && (r.out.Ok? <==> Sortable(Entries(r.fs, names)))
      && (r.out.Ok? ==> r.out.value == NovelProjects(r.fs, names))
      && (r.out.Err? ==> r.out.error == UnorderableKeys)
  {
  }

  /** `os.listdir(novels_dir)` returns `names` on the disk ensure_novels_dir leaves. */
  predicate ListsNovels(fs: Fs, names: seq<string>) {
    EnsureNovelsDir(fs).Ok? ==> IsListing(EnsureNovelsDir(fs).value, [NovelsRoot], names)
  }

  /** list_novel_projects as the loop it is: list novels/, collect the
      readable projects, then sort in place. `names` is what os.listdir
      handed out. */
  method ListNovelProjects(fs: Fs) returns (r: Result<seq<ProjectEntry>>, fs': Fs, ghost names: seq<string>)
    requires WellFormed(fs)
    ensures ListsNovels(fs, names)
    ensures Io(r, fs') == ProjectListing(fs, names)
    ensures WellFormed(fs')
  {
    var ensured := EnsureNovelsDir(fs);
    if ensured.Err? {
      return Err(ensured.error), fs, [];
    }
    fs' := ensured.value;
    MakeDirsWellFormed(fs, NovelsRoot);
    NovelsRootResolves();
    var listed := ListDir(fs', [NovelsRoot]);
    names := listed;
    var projects := CollectEntries(fs', listed);
    if !Sortable(projects) {
      return Err(UnorderableKeys), fs', names;
    }
    projects := SortDesc(projects, LastModifiedKey);
    r := Ok(projects);
  }

  /** The loop of list_novel_projects: the readable projects, in listing order. */
  method CollectEntries(fs: Fs, listed: seq<string>) returns (projects: seq<ProjectEntry>)
    ensures projects == Entries(fs, listed)
  {
    projects := [];
    var i := 0;
    while i < |listed|
      invariant 0 <= i <= |listed|
      invariant projects == Entries(fs, listed[..i])
    {
      EntriesExtend(fs, listed, i);
      match ReadEntry(fs, listed[i]) {
        case Some(e) => projects := projects + [e];
        case None =>
      }
      i := i + 1;
    }
    assert listed[..|listed|] == listed;
  }

  /** One more name examined: its entry, if readable, joins the end. */
  lemma EntriesExtend(fs: Fs, names: seq<string>, i: nat)
    requires i < |names|
    ensures Entries(fs, names[..i + 1]) ==
      Entries(fs, names[..i]) + match ReadEntry(fs, names[i]) case Some(e) => [e] case None => []
  {
    assert names[..i + 1][..i] == names[..i];
  }

  /** A name is listed exactly when its directory holds a readable config,
      and it is listed with the entry read from that config. */
  lemma ListedIffReadable(fs: Fs, names: seq<string>, n: string)
    requires n in names
    ensures (exists e :: e in NovelProjects(fs, names) && e.name == n) <==> ReadEntry(fs, n).Some?
    ensures forall e :: e in NovelProjects(fs, names) && e.name == n ==> e == ReadEntry(fs, n).value
  {
    forall e | e in NovelProjects(fs, names)
      ensures e in Entries(fs, names)
      ensures exists i :: 0 <= i < |names| && ReadEntry(fs, names[i]) == Some(e)
    {
      assert e in multiset(NovelProjects(fs, names));
      EntriesMembers(fs, names, e);
    }
    if ReadEntry(fs, n).Some? {
      var e := ReadEntry(fs, n).value;
      var i :| 0 <= i < |names| && names[i] == n;
      EntriesMembers(fs, names, e);
      assert e in multiset(Entries(fs, names));
      assert e in NovelProjects(fs, names);
    }
  }

  /** The first listed project has the largest last_modified of all. */
  lemma FirstListedIsNewest(fs: Fs, names: seq<string>, e: ProjectEntry)
    requires e in NovelProjects(fs, names)
    ensures LexLessEq(LastModifiedKey(e), LastModifiedKey(NovelProjects(fs, names)[0]))
  {
    var ps := NovelProjects(fs, names);
    var i :| 0 <= i < |ps| && ps[i] == e;
    FirstIsLargest(ps, LastModifiedKey, i);
  }

  /** Every listed project loads: its config is read back as it is on disk,
      and nothing is written. */
  lemma ListedLoads(fs: Fs, names: seq<string>, e: ProjectEntry, now: Instant)
    requires Valid(now) && e in NovelProjects(fs, names)
    ensures var c := ReadJson(fs, ConfigPath(e.path));
      && c.Some?
      && LoadNovelConfig(fs, e.path, now) == Io(Ok(c.value), fs)
  {
    assert e in multiset(NovelProjects(fs, names));
    EntriesMembers(fs, names, e);
  }

  /** load_config writes nothing, or only the file it was asked to load. */
  lemma LoadConfigFootprint(fs: Fs, path: Path, now: Instant)
    ensures var r := LoadConfig(fs, path, now).fs;
      r == fs || (Writable(fs, path) && r == fs[Resolve(path) := File(Doc(DefaultConfig()), now)])
  {
  }

  /** ensure_novels_dir neither creates the config of a project nor removes its directory. */
  lemma EnsureKeepsProject(fs: Fs, projectPath: Path)
    requires !Exists(fs, ConfigPath(projectPath)) && IsDir(fs, projectPath)
    requires EnsureNovelsDir(fs).Ok?
    ensures Resolve(ConfigPath(projectPath)) !in EnsureNovelsDir(fs).value
    ensures DirAt(EnsureNovelsDir(fs).value, Resolve(projectPath))
  {
    ConfigPathResolves(projectPath);
    NovelsRootResolves();
    var k := Resolve(ConfigPath(projectPath));
    var p := Resolve(projectPath);
    var fs1 := EnsureNovelsDir(fs).value;
    assert fs1 == MakeDirsAt(fs, [NovelsRoot]).value;
    assert k[|k| - 1] == NovelConfigName;

  }

  /** Loading the global config writes no file other than config.json. */
  lemma GlobalLoadKeepsSpot(fs1: Fs, k: Key, now: Instant)
    requires k != [] && k !in fs1 && DirAt(fs1, Parent(k)) && k[|k| - 1] != GlobalConfigFile
    ensures var g := LoadConfig(fs1, GlobalConfigFile, now).fs;
      k !in g && DirAt(g, Parent(k))
  {
    LoadConfigFootprint(fs1, GlobalConfigFile, now);
    GlobalWriteKeepsSpot(fs1, LoadConfig(fs1, GlobalConfigFile, now).fs, k, Doc(DefaultConfig()), now);
  }

  /** Writing config.json leaves every other missing entry missing, and its directory in place. */
  lemma GlobalWriteKeepsSpot(fs1: Fs, g: Fs, k: Key, c: Content, now: Instant)
    requires k != [] && k !in fs1 && DirAt(fs1, Parent(k)) && k[|k| - 1] != GlobalConfigFile
    requires g == fs1 || (Writable(fs1, GlobalConfigFile) && g == fs1[Resolve(GlobalConfigFile) := File(c, now)])
    ensures k !in g && DirAt(g, Parent(k))
  {
    ResolveName(GlobalConfigFile);
    if g != fs1 {
      assert Parent(k) != [GlobalConfigFile];
    }
  }

  /** The config of an existing project directory can still be written
      once the novels directory and the global config have been seen to. */
  lemma SynthesisWritable(fs: Fs, projectPath: Path, now: Instant)
    requires !Exists(fs, ConfigPath(projectPath)) && IsDir(fs, projectPath)
    requires EnsureNovelsDir(fs).Ok?
    ensures Writable(LoadConfig(EnsureNovelsDir(fs).value, GlobalConfigFile, now).fs, ConfigPath(projectPath))
  {
    var k := Resolve(ConfigPath(projectPath));
    EnsureKeepsProject(fs, projectPath);
    ConfigPathResolves(projectPath);
    assert k[|k| - 1] == NovelConfigName;
    GlobalLoadKeepsSpot(EnsureNovelsDir(fs).value, k, now);
  }

  /** A missing project config is synthesised with the directory's basename
      as title and, when the project directory exists, persisted. */
  lemma LoadNovelConfigSynthesised(fs: Fs, projectPath: Path, now: Instant)
    requires Valid(now)
    requires !Exists(fs, ConfigPath(projectPath)) && IsDir(fs, projectPath)
    requires LoadNovelConfig(fs, projectPath, now).out.Ok?
    ensures var r := LoadNovelConfig(fs, projectPath, now);
      && ReadJson(r.fs, ConfigPath(projectPath)) == Some(r.out.value)
      && exists params :: FreshRecord(r.out.value, Basename(projectPath), params, projectPath)
  {
    var r := LoadNovelConfig(fs, projectPath, now);
    assert EnsureNovelsDir(fs).Ok?;
    var fs1 := EnsureNovelsDir(fs).value;
    var global := LoadConfig(fs1, GlobalConfigFile, now);
    SynthesisWritable(fs, projectPath, now);
    var params := DefaultNovelParams(global.out).value;
    var c := NewNovelConfig(Basename(projectPath), params, projectPath, now);
    NewNovelConfigStamped(Basename(projectPath), params, projectPath, now);
    var saved := SaveNovelConfig(global.fs, projectPath, c, now);
    assert saved.value.written && saved.value.config == c;
    assert r == Io(Ok(c), saved.value.fs);
  }

  // ---------------------------------------------------------------------------
  // Deletion and the current project
  // ---------------------------------------------------------------------------

  /** delete_novel_project: false when there is nothing to delete or rmtree
      raises, true once the directory and everything below it is gone. */
  function DeleteNovelProject(fs: Fs, name: string): (r: Io<Result<bool>>)
    ensures IsDir(fs, NovelsRoot) && !Exists(fs, Join(NovelsRoot, name)) ==> r == Io(Ok(false), fs)
    ensures IsDir(fs, NovelsRoot) && IsFile(fs, Join(NovelsRoot, name)) ==> r == Io(Ok(false), fs)
    ensures IsDir(fs, NovelsRoot) && IsDir(fs, Join(NovelsRoot, name)) && Rmdirable(Join(NovelsRoot, name)) ==>
      && r.out == Ok(true)
      && !Exists(r.fs, Join(NovelsRoot, name))
      && (forall k :: k in fs && !(Resolve(Join(NovelsRoot, name)) <= k) ==> k in r.fs && r.fs[k] == fs[k])
      && (forall k :: k in r.fs ==> k in fs)
    ensures IsDir(fs, NovelsRoot) && IsDir(fs, Join(NovelsRoot, name)) && !Rmdirable(Join(NovelsRoot, name)) ==>
      && r.out == Ok(false)
      && (forall k :: k in r.fs ==> k in fs && !(Resolve(Join(NovelsRoot, name)) < k))
      && (forall k :: k in fs && !(Resolve(Join(NovelsRoot, name)) < k) ==> k in r.fs && r.fs[k] == fs[k])
  {
    match EnsureNovelsDir(fs)
    case Err(e) => Io(Err(e), fs)
    case Ok(fs1) =>
      var path := Join(NovelsRoot, name);
      if !Exists(fs1, path) then Io(Ok(false), fs1)
      else
        var removed := RemoveTree(fs1, path);
        Io(Ok(removed.out.Ok?), removed.fs)
  }

  /** A listed project is deleted outright. */
  lemma DeleteListed(fs: Fs, names: seq<string>, e: ProjectEntry)
    requires IsDir(fs, NovelsRoot) && ListsNovels(fs, names) && e in NovelProjects(fs, names)
    ensures DeleteNovelProject(fs, e.name).out == Ok(true)
    ensures !Exists(DeleteNovelProject(fs, e.name).fs, e.path)
  {
    assert e in multiset(NovelProjects(fs, names));
    EntriesMembers(fs, names, e);
    var i :| 0 <= i < |names| && ReadEntry(fs, names[i]) == Some(e);
    assert IsName(e.name);
    ResolveJoin(NovelsRoot, e.name);
    LastComponentJoin(NovelsRoot, e.name);
  }

  /** "novels/.." is the working directory: it already exists. */
  lemma DotDotProjectPath()
    ensures Resolve(Join(NovelsRoot, "..")) == []
    ensures LastComponent(Join(NovelsRoot, "..")) == ".."
  {
    assert Join(NovelsRoot, "..") == NovelsRoot + "/" + "..";
    ResolveSlash(NovelsRoot, "..");
    NovelsRootResolves();
    WalkName("..", "", [NovelsRoot]);
    assert "" + ".." == "..";
    assert RStripChar(Join(NovelsRoot, ".."), '/') == Join(NovelsRoot, "..");
    AfterLastSlashName(NovelsRoot + "/", "..");
    assert Join(NovelsRoot, "..")[|NovelsRoot + "/"|..] == "..";
  }

  /** Creating a project named ".." is refused: its path already exists. */
  lemma CreateDotDotExists(fs: Fs, global: Obj, now: Instant)
    requires Valid(now) && IsDir(fs, NovelsRoot)
    ensures CreateNovelProject(fs, "..", global, now) == Io(Err(ProjectExists("..")), fs)
  {
    DotDotProjectPath();
  }

  /** Deleting a project named ".." empties the working directory and,
      since os.rmdir then fails, returns false. */
  lemma DeleteDotDotEmpties(fs: Fs)
    requires WellFormed(fs) && IsDir(fs, NovelsRoot)
    ensures DeleteNovelProject(fs, "..") == Io(Ok(false), map[])
  {
    DotDotProjectPath();
    var r := DeleteNovelProject(fs, "..");
    assert forall k :: k in r.fs ==> k in fs && !([] < k);
    assert r.fs == map[];
  }

  /** The last resort of get_current_novel_config: the default project,
      created first when its directory does not exist. */
  function LoadDefaultProject(fs: Fs, now: Instant): (r: Io<Result<Obj>>)
    requires Valid(now)
  {
    var global := LoadConfig(fs, GlobalConfigFile, now);
    var defaultPath := Join(NovelsRoot, DefaultProjectName);
    if Exists(global.fs, defaultPath) then LoadNovelConfig(global.fs, defaultPath, now)
    else match CreateNovelProject(global.fs, DefaultProjectName, global.out, now)
      case Io(Err(e), fs1) => Io(Err(e), fs1)
      case Io(Ok(p), fs1) => LoadNovelConfig(fs1, p, now)
  }

  /** get_current_novel_config: the given path when it exists, else the
      newest listed project, else the default project, created if needed. */
  function GetCurrentNovelConfig(fs: Fs, projectPath: Path, names: seq<string>, now: Instant): (r: Io<Result<Obj>>)
    requires Valid(now)
    ensures projectPath != "" && Exists(fs, projectPath) ==> r == LoadNovelConfig(fs, projectPath, now)
    ensures !(projectPath != "" && Exists(fs, projectPath)) && IsDir(fs, NovelsRoot) ==>
      r == if !Sortable(Entries(fs, names)) then Io(Err(UnorderableKeys), fs)
           else if NovelProjects(fs, names) != [] then LoadNovelConfig(fs, NovelProjects(fs, names)[0].path, now)
           else LoadDefaultProject(fs, now)
  {
    if projectPath != "" && Exists(fs, projectPath) then LoadNovelConfig(fs, projectPath, now)
    else match ProjectListing(fs, names)
      case Io(Err(e), fs1) => Io(Err(e), fs1)
      case Io(Ok(projects), fs1) =>
        if projects != [] then LoadNovelConfig(fs1, projects[0].path, now)
        else LoadDefaultProject(fs1, now)
  }

  /** Without a usable path and with projects on disk, the newest project's
      config is returned as stored, and nothing is written. */
  lemma CurrentIsNewest(fs: Fs, projectPath: Path, names: seq<string>, now: Instant)
    requires Valid(now) && IsDir(fs, NovelsRoot)
    requires !(projectPath != "" && Exists(fs, projectPath))
    requires Sortable(Entries(fs, names)) && NovelProjects(fs, names) != []
    ensures var newest := NovelProjects(fs, names)[0];
      && ReadJson(fs, ConfigPath(newest.path)).Some?
      && GetCurrentNovelConfig(fs, projectPath, names, now) == Io(Ok(ReadJson(fs, ConfigPath(newest.path)).value), fs)
      && forall e :: e in NovelProjects(fs, names) ==> LexLessEq(LastModifiedKey(e), LastModifiedKey(newest))
  {
    var ps := NovelProjects(fs, names);
    ListedLoads(fs, names, ps[0], now);
    forall e | e in ps ensures LexLessEq(LastModifiedKey(e), LastModifiedKey(ps[0])) {
      FirstListedIsNewest(fs, names, e);
    }
  }

  /** Loading the global config before creating the default project
      touches neither novels/ nor the default project. */
  lemma GlobalLoadKeepsProjects(fs: Fs, now: Instant)
    requires IsDir(fs, NovelsRoot)
    ensures var g := LoadConfig(fs, GlobalConfigFile, now).fs;
      && IsDir(g, NovelsRoot)
      && (Exists(g, Join(NovelsRoot, DefaultProjectName)) <==> Exists(fs, Join(NovelsRoot, DefaultProjectName)))
  {
    ResolveName(GlobalConfigFile);
    NovelsRootResolves();
    GlobalLoadKeepsPath(fs, NovelsRoot, now);
    ResolveJoin(NovelsRoot, DefaultProjectName);
    GlobalLoadKeepsPath(fs, Join(NovelsRoot, DefaultProjectName), now);
  }

  /** Loading the global config changes nothing at any other path. */
  lemma GlobalLoadKeepsPath(fs: Fs, q: Path, now: Instant)
    requires Resolve(q) != Resolve(GlobalConfigFile)
    ensures var g := LoadConfig(fs, GlobalConfigFile, now).fs;
      && (Exists(g, q) <==> Exists(fs, q))
      && (IsDir(g, q) <==> IsDir(fs, q))
  {
    LoadConfigFootprint(fs, GlobalConfigFile, now);
    if LoadConfig(fs, GlobalConfigFile, now).fs != fs {
      WriteKeepsOthers(fs, GlobalConfigFile, Doc(DefaultConfig()), now, q);
    }
  }

  /** A project just created loads as the record written into it. */
  lemma CreatedLoads(fs: Fs, name: string, global: Obj, now: Instant)
    requires Valid(now) && WellFormed(fs)
    requires CreateNovelProject(fs, name, global, now).out.Ok?
    ensures var r := CreateNovelProject(fs, name, global, now);
      && DefaultNovelParams(global).Ok?
      && var c := NewNovelConfig(name, DefaultNovelParams(global).value, r.out.value, now);
      && LoadNovelConfig(r.fs, r.out.value, now) == Io(Ok(c), r.fs)
      && FreshRecord(c, name, DefaultNovelParams(global).value, r.out.value)
  {
    var r := CreateNovelProject(fs, name, global, now);
    CreateNovelProjectRecord(fs, name, global, now);
    NewNovelConfigStamped(name, DefaultNovelParams(global).value, r.out.value, now);
  }

  /** When the default project does not exist yet it is created, and the
      config returned is the one written into it. */
  lemma DefaultProjectCreated(fs: Fs, now: Instant)
    requires Valid(now) && WellFormed(fs) && IsDir(fs, NovelsRoot)
    requires !Exists(fs, Join(NovelsRoot, DefaultProjectName))
    requires LoadDefaultProject(fs, now).out.Ok?
    ensures var r := LoadDefaultProject(fs, now);
      var global := LoadConfig(fs, GlobalConfigFile, now);
      && DefaultNovelParams(global.out).Ok?
      && IsDir(r.fs, Join(NovelsRoot, DefaultProjectName))
      && FreshRecord(r.out.value, DefaultProjectName, DefaultNovelParams(global.out).value, Join(NovelsRoot, DefaultProjectName))
  {
    var global := LoadConfig(fs, GlobalConfigFile, now);
    LoadConfigWellFormed(fs, GlobalConfigFile, now);
    GlobalLoadKeepsProjects(fs, now);
    var created := CreateNovelProject(global.fs, DefaultProjectName, global.out, now);
    assert created.out.Ok?;
    CreatedLoads(global.fs, DefaultProjectName, global.out, now);
  }

  // ---------------------------------------------------------------------------
  // Every store operation leaves a well-formed tree
  // ---------------------------------------------------------------------------

  lemma EnsureNovelsDirWellFormed(fs: Fs)
    requires WellFormed(fs)
    ensures EnsureNovelsDir(fs).Ok? ==> WellFormed(EnsureNovelsDir(fs).value)
  {
    if EnsureNovelsDir(fs).Ok? {
      MakeDirsWellFormed(fs, NovelsRoot);
    }
  }

  lemma LoadConfigWellFormed(fs: Fs, path: Path, now: Instant)
    requires WellFormed(fs)
    ensures WellFormed(LoadConfig(fs, path, now).fs)
  {
    LoadConfigFootprint(fs, path, now);
    if LoadConfig(fs, path, now).fs != fs {
      WriteFileWellFormed(fs, path, Doc(DefaultConfig()), now);
    }
  }

  lemma SaveNovelConfigWellFormed(fs: Fs, projectPath: Path, config: Obj, now: Instant)
    requires Valid(now) && WellFormed(fs) && SaveNovelConfig(fs, projectPath, config, now).Ok?
    ensures WellFormed(SaveNovelConfig(fs, projectPath, config, now).value.fs)
  {
    var cfg := ConfigPath(projectPath);
    if Writable(fs, cfg) {
      WriteFileWellFormed(fs, cfg, Doc(Stamp(config, now).value), now);
    }
  }

  lemma LoadNovelConfigWellFormed(fs: Fs, projectPath: Path, now: Instant)
    requires Valid(now) && WellFormed(fs)
    ensures WellFormed(LoadNovelConfig(fs, projectPath, now).fs)
  {
    if !Exists(fs, ConfigPath(projectPath)) && EnsureNovelsDir(fs).Ok? {
      var fs1 := EnsureNovelsDir(fs).value;
      EnsureNovelsDirWellFormed(fs);
      var global := LoadConfig(fs1, GlobalConfigFile, now);
      LoadConfigWellFormed(fs1, GlobalConfigFile, now);
      if DefaultNovelParams(global.out).Ok? {
        var c := NewNovelConfig(Basename(projectPath), DefaultNovelParams(global.out).value, projectPath, now);
        NewNovelConfigStamped(Basename(projectPath), DefaultNovelParams(global.out).value, projectPath, now);
        SaveNovelConfigWellFormed(global.fs, projectPath, c, now);
      }
    }
  }

  lemma CreateNovelProjectWellFormed(fs: Fs, name: string, global: Obj, now: Instant)
    requires Valid(now) && WellFormed(fs)
    ensures WellFormed(CreateNovelProject(fs, name, global, now).fs)
  {
    if EnsureNovelsDir(fs).Ok? {
      var fs1 := EnsureNovelsDir(fs).value;
      EnsureNovelsDirWellFormed(fs);
      var path := Join(NovelsRoot, name);
      if !Exists(fs1, path) && MakeDirs(fs1, path).Ok? {
        var fs2 := MakeDirs(fs1, path).value;
        MakeDirsWellFormed(fs1, path);
        if DefaultNovelParams(global).Ok? {
          var c := NewNovelConfig(name, DefaultNovelParams(global).value, path, now);
          NewNovelConfigStamped(name, DefaultNovelParams(global).value, path, now);
          SaveNovelConfigWellFormed(fs2, path, c, now);
        }
      }
    }
  }

  lemma DeleteNovelProjectWellFormed(fs: Fs, name: string)
    requires WellFormed(fs)
    ensures WellFormed(DeleteNovelProject(fs, name).fs)
  {
    if EnsureNovelsDir(fs).Ok? {
      var fs1 := EnsureNovelsDir(fs).value;
      EnsureNovelsDirWellFormed(fs);
      if Exists(fs1, Join(NovelsRoot, name)) {
        RemoveTreeWellFormed(fs1, Join(NovelsRoot, name));
      }
    }
  }
}
