/** The project handle of the main window (NovelGeneratorGUI): which novel
    project is open, its configuration as the window holds it in memory,
    the edit fields the user types into and the lines of the project list.
    The window's methods change these fields in place and hand back the
    disk they leave. What the user picks in a dialog becomes a parameter:
    the selected line of the project list (an index, or none) and the
    answer to "delete?". */
module MainWindow {
  import opened Base
  import opened Text
  import opened Json
  import opened Clock
  import opened FileSystem
  import opened ConfigManager

  // ---------------------------------------------------------------------------
  // Start-up: the embedding profile and the proxy
  // ---------------------------------------------------------------------------

  /** The profile __init__ falls back to when the configured one is not found. */
  function DefaultEmbeddingProfile(): Obj {
    map[
      "api_key" := Str(""),
      "base_url" := Str("https://api.openai.com/v1"),
      "model_name" := Str("text-embedding-ada-002"),
      "retrieval_k" := Int(4)]
  }

  /** last_embedding: the configured format tag; "OpenAI" for an empty config. */
  function LastEmbedding(config: Obj): Value {
    if config != map[] then GetOr(config, "last_embedding_interface_format", Str("OpenAI")) else Str("OpenAI")
  }

  /** Python's `a in t` on two strs. */
  predicate Substring(a: string, t: string) {
    exists i :: 0 <= i <= |t| && a <= t[i..]
  }

  /** A JSON value Python compares and indexes as an int: an int or a bool. */
  predicate IntLike(v: Value) {
    v.Int? || v.Bool?
  }

  function IntOf(v: Value): int
    requires IntLike(v)
  {
    if v.Int? then v.i else if v.b then 1 else 0
  }

  /** Python's `==` on two JSON values, at the top level: True and False
      are the ints 1 and 0. */
  predicate PyEq(a: Value, b: Value) {
    if IntLike(a) && IntLike(b) then IntOf(a) == IntOf(b) else a == b
  }

  /** Python's `key in container` on a JSON value; TypeError when the value
      cannot be searched for that key. */
  function Contains(container: Value, key: Value): Result<bool> {
    match container
    case Obj(m) =>
      (match key
       case Str(s) => Ok(s in m)
       case List(_) => Err(WrongKind("unhashable key"))
       case Obj(_) => Err(WrongKind("unhashable key"))
       case _ => Ok(false))
    case List(items) => Ok(exists x :: x in items && PyEq(x, key))
    case Str(t) => if key.Str? then Ok(Substring(key.s, t)) else Err(WrongKind("str membership"))
    case _ => Err(WrongKind("embedding_configs"))
  }

  /** An index `items[i]` accepts on a list of n items. */
  predicate InRange(i: int, n: nat) {
    -(n as int) <= i < n
  }

  /** The position `items[i]` reads for an index in range: a negative one
      counts from the end. */
  function PyIndex(i: int, n: nat): (r: nat)
    requires InRange(i, n)
    ensures r < n
  {
    if i < 0 then i + n else i
  }

  /** The profile `.get` is called on: a dict, or AttributeError. */
  function AsProfile(v: Value): Result<Obj> {
    if v.Obj? then Ok(v.fields) else Err(WrongKind("embedding profile"))
  }

  /** The profile is the one embedding_configs holds under the last-used
      tag: the dict's entry for a str tag, or the list's element at an int
      or bool tag. */
  predicate ConfiguredProfile(config: Obj, profile: Obj) {
    && "embedding_configs" in config
    && var tag := LastEmbedding(config);
    match config["embedding_configs"]
    case Obj(profiles) => tag.Str? && tag.s in profiles && profiles[tag.s] == Obj(profile)
    case List(items) =>
      IntLike(tag) && InRange(IntOf(tag), |items|) && items[PyIndex(IntOf(tag), |items|)] == Obj(profile)
    case _ => false
  }

  /** emb_conf in __init__: embedding_configs[last_embedding] when the
      config holds that tag, else the default profile. Err where Python
      raises: a container that cannot be searched for the tag, a list
      indexed by something other than an int or past its end, a str
      indexed at all, or a profile that is not a dict (its `.get` fails). */
  function EmbeddingProfile(config: Obj): (r: Result<Obj>)
    ensures "embedding_configs" !in config ==> r == Ok(DefaultEmbeddingProfile())
    ensures config != map[] && "embedding_configs" in config && config["embedding_configs"].Obj?
            && LastEmbedding(config).Str? ==>
      var profiles := config["embedding_configs"].fields;
      var tag := LastEmbedding(config).s;
      && (tag !in profiles ==> r == Ok(DefaultEmbeddingProfile()))
      && (tag in profiles ==> (r.Ok? <==> profiles[tag].Obj?))
    ensures config != map[] && "embedding_configs" in config && config["embedding_configs"].List? ==>
      var items := config["embedding_configs"].items;
      var tag := LastEmbedding(config);
      && (!(exists x :: x in items && PyEq(x, tag)) ==> r == Ok(DefaultEmbeddingProfile()))
      && ((exists x :: x in items && PyEq(x, tag)) ==>
            (r.Ok? <==> IntLike(tag) && InRange(IntOf(tag), |items|) && items[PyIndex(IntOf(tag), |items|)].Obj?))
    ensures r.Ok? ==> r.value == DefaultEmbeddingProfile() || ConfiguredProfile(config, r.value)
  {
    if config == map[] || "embedding_configs" !in config then Ok(DefaultEmbeddingProfile())
    else
      var last := LastEmbedding(config);
      match Contains(config["embedding_configs"], last)
      case Err(e) => Err(e)
      case Ok(found) =>
        if !found then Ok(DefaultEmbeddingProfile())
        else match config["embedding_configs"]
          case Obj(profiles) => AsProfile(profiles[last.s])
          case List(items) =>
            if !IntLike(last) then Err(WrongKind("list index"))
            else if !InRange(IntOf(last), |items|) then Err(IndexOutOfRange(IntOf(last)))
            else AsProfile(items[PyIndex(IntOf(last), |items|)])
          case _ => Err(WrongKind("embedding_configs"))
  }

  /** A list of profiles that holds the tag 0 is indexed by it: its first
      element is the profile. */
  lemma ListProfileIndexed(p: Obj)
    ensures var config := map["last_embedding_interface_format" := Int(0),
                               "embedding_configs" := List([Obj(p), Int(0)])];
      EmbeddingProfile(config) == Ok(p)
  {
    var config := map["last_embedding_interface_format" := Int(0),
                      "embedding_configs" := List([Obj(p), Int(0)])];
    assert LastEmbedding(config) == Int(0);
    assert Int(0) in [Obj(p), Int(0)];
  }

  const HttpProxy: string := "HTTP_PROXY"
  const HttpsProxy: string := "HTTPS_PROXY"

  /** proxy_setting is a dict holding the three keys __init__ reads. */
  predicate ProxyConfigured(config: Obj) {
    && "proxy_setting" in config && config["proxy_setting"].Obj?
    && var s := config["proxy_setting"].fields;
    "proxy_url" in s && "proxy_port" in s && "enabled" in s
  }

  /** The address __init__ formats: http://url:port. */
  function ProxyAddress(setting: Obj): string
    requires "proxy_url" in setting && "proxy_port" in setting
  {
    "http://" + PyStr(setting["proxy_url"]) + ":" + PyStr(setting["proxy_port"])
  }

  /** What __init__ does to os.environ: with the proxy enabled both proxy
      variables name the configured proxy, otherwise both are gone; no other
      variable changes. Err for the KeyError or TypeError a missing or
      malformed proxy_setting raises. */
  function ProxyEnvironment(config: Obj, env: map<string, string>): (r: Result<map<string, string>>)
    ensures r.Ok? <==> ProxyConfigured(config)
    ensures r.Ok? ==> forall k :: k != HttpProxy && k != HttpsProxy ==>
      (k in r.value <==> k in env) && (k in env ==> r.value[k] == env[k])
    ensures r.Ok? && Truthy(config["proxy_setting"].fields["enabled"]) ==>
      && HttpProxy in r.value && r.value[HttpProxy] == ProxyAddress(config["proxy_setting"].fields)
      && HttpsProxy in r.value && r.value[HttpsProxy] == ProxyAddress(config["proxy_setting"].fields)
    ensures r.Ok? && !Truthy(config["proxy_setting"].fields["enabled"]) ==>
      HttpProxy !in r.value && HttpsProxy !in r.value
  {
    if "proxy_setting" !in config then Err(MissingKey("proxy_setting"))
    else match config["proxy_setting"]
      case Obj(s) =>
        if "proxy_url" !in s then Err(MissingKey("proxy_url"))
        else if "proxy_port" !in s then Err(MissingKey("proxy_port"))
        else if "enabled" !in s then Err(MissingKey("enabled"))
        else if Truthy(s["enabled"]) then
          var address := ProxyAddress(s);
          Ok(env[HttpProxy := address][HttpsProxy := address])
        else Ok(env - {HttpProxy, HttpsProxy})
      case _ => Err(WrongKind("proxy_setting"))
  }

  /** Starting a second window with the same config leaves os.environ as the first left it. */
  lemma ProxyIdempotent(config: Obj, env: map<string, string>)
    requires ProxyConfigured(config)
    ensures ProxyEnvironment(config, ProxyEnvironment(config, env).value) == ProxyEnvironment(config, env)
  {
    var s := config["proxy_setting"].fields;
    var once := ProxyEnvironment(config, env).value;
    if Truthy(s["enabled"]) {
      var address := ProxyAddress(s);
      assert once == env[HttpProxy := address][HttpsProxy := address];
      assert once[HttpProxy := address][HttpsProxy := address] == once;
    } else {
      assert once == env - {HttpProxy, HttpsProxy};
      assert once - {HttpProxy, HttpsProxy} == once;
    }
  }

  /** What the rest of __init__ needs of the config: llm_configs a dict
      whose first profile is a dict, and choose_configs a dict when present.
      A map keeps no key order, so the key the file lists first is given
      as `first`. */
  predicate LlmConfigured(config: Obj, first: string) {
    && "llm_configs" in config && config["llm_configs"].Obj?
    && first in config["llm_configs"].fields && config["llm_configs"].fields[first].Obj?
    && ("choose_configs" !in config || config["choose_configs"].Obj?)
  }

  /** os.environ */
  class Environment {
    var vars: map<string, string>
  }

  // ---------------------------------------------------------------------------
  // The window's state
  // ---------------------------------------------------------------------------

  /** The Tk string variables of the window that the modelled code reads or sets. */
  datatype Var =
    | Genre | NumChapters | WordNumber | Filepath | ChapterNum
    | CharactersInvolved | KeyItems | SceneLocation | TimeConstraint | WritingStyle
    | EmbeddingInterfaceFormat | EmbeddingApiKey | EmbeddingUrl | EmbeddingModelName | EmbeddingRetrievalK

  /** `var.get()`. Every variable is set from __init__ on; an unset one would read as "". */
  function Get(vars: map<Var, string>, v: Var): string {
    if v in vars then vars[v] else ""
  }

  /** The part of the window the modelled methods read and change. */
  datatype Window = Window(
    project: Option<Path>,        // current_novel_project
    config: Option<Obj>,          // current_novel_config
    vars: map<Var, string>,
    topicDefault: Value,          // topic_default, as read from novel_params
    userGuidanceDefault: Value,   // user_guidance_default, likewise
    topicText: string,            // what the topic text box holds
    userGuideText: string,        // ... the user guidance text box
    charInvText: string,          // ... the characters text box
    listbox: seq<string>)         // the lines of the project list

  /** The variables as __init__ creates them: the novel fields at their
      defaults (no project is loaded yet), the embedding fields from the
      last-used profile. */
  function StartVars(config: Obj, profile: Obj): map<Var, string> {
    map[
      Genre := "玄幻", NumChapters := "10", WordNumber := "3000", Filepath := "", ChapterNum := "1",
      CharactersInvolved := "", KeyItems := "", SceneLocation := "", TimeConstraint := "", WritingStyle := "",
      EmbeddingInterfaceFormat := InitialText(LastEmbedding(config)),
      EmbeddingApiKey := InitialText(GetOr(profile, "api_key", Str(""))),
      EmbeddingUrl := InitialText(GetOr(profile, "base_url", Str("https://api.openai.com/v1"))),
      EmbeddingModelName := InitialText(GetOr(profile, "model_name", Str("text-embedding-ada-002"))),
      EmbeddingRetrievalK := PyStr(GetOr(profile, "retrieval_k", Int(4)))]
  }

  /** What a Tk variable or text box holds once v is handed to Tk as it
      is: a bool becomes Tcl's 1 or 0, anything else its str(). */
  function TkText(v: Value): (r: string)
    ensures v.Str? ==> r == v.s
    ensures v.Bool? ==> r == (if v.b then "1" else "0")
  {
    if v.Bool? then (if v.b then "1" else "0") else PyStr(v)
  }

  /** What `StringVar(value=v).get()` reads when v is passed as it is:
      None initialises nothing, so the variable reads "". */
  function InitialText(v: Value): string {
    if v.Null? then "" else TkText(v)
  }

  /** A null tag, key, URL or model leaves its variable reading "";
      retrieval_k goes through str() first, so a null one reads "None". */
  lemma StartVarsNullFields(config: Obj, profile: Obj)
    ensures var vars := StartVars(config, profile);
      && (LastEmbedding(config) == Null ==> Get(vars, EmbeddingInterfaceFormat) == "")
      && (GetOr(profile, "api_key", Str("")) == Null ==> Get(vars, EmbeddingApiKey) == "")
      && (GetOr(profile, "base_url", Str("")) == Null ==> Get(vars, EmbeddingUrl) == "")
      && (GetOr(profile, "model_name", Str("")) == Null ==> Get(vars, EmbeddingModelName) == "")
      && (GetOr(profile, "retrieval_k", Int(4)) == Null ==> Get(vars, EmbeddingRetrievalK) == "None")
  {
  }

  /** A variable reset to str(d) reads back as d. */
  lemma ResetReadsBack(vars: map<Var, string>, v: Var, d: int)
    ensures ParseInt(Strip(Get(vars[v := IntToString(d)], v))) == Ok(d)
  {
    IntToStringStripped(d);
    ParseIntOfIntToString(d);
  }

  /** The window after __init__. */
  function Started(config: Obj, profile: Obj): Window {
    Window(None, None, StartVars(config, profile), Str(""), Str(""), "", "", "", [])
  }

  /** A window state together with the disk. */
  datatype Step = Step(w: Window, fs: Fs)

  /** A method's state part-way, and whether it goes on to its last step. */
  datatype Pending = Pending(w: Window, fs: Fs, ok: bool)

  // ---------------------------------------------------------------------------
  // Specification of the window's methods
  // ---------------------------------------------------------------------------

  /** Tk's Text.get("0.0", "end"): the content and the newline a text widget always ends with. */
  function TextGet(content: string): string {
    content + "\n"
  }

  /** `int(s or d)` */
  function IntOr(s: string, d: int): Result<int> {
    if s == "" then Ok(d) else ParseInt(s)
  }

  /** The novel_params keys save_current_novel_config writes. */
  const EditedKeys: set<string> := {
    "topic", "genre", "num_chapters", "word_number", "filepath", "writing_style",
    "user_guidance", "characters_involved", "key_items", "scene_location", "time_constraint"}

  /** The dict save_current_novel_config hands to novel_params.update, or
      the ValueError int() raises on a count that is not a number. */
  function EditedParams(w: Window): (r: Result<Obj>)
    ensures r.Err? <==> IntOr(Get(w.vars, NumChapters), 0).Err? || IntOr(Get(w.vars, WordNumber), 0).Err?
  {
    match IntOr(Get(w.vars, NumChapters), 0)
    case Err(e) => Err(e)
    case Ok(chapters) =>
      match IntOr(Get(w.vars, WordNumber), 0)
      case Err(e) => Err(e)
      case Ok(words) =>
        Ok(map[
          "topic" := Str(Strip(TextGet(w.topicText))),
          "genre" := Str(Get(w.vars, Genre)),
          "num_chapters" := Int(chapters),
          "word_number" := Int(words),
          "filepath" := Str(Get(w.vars, Filepath)),
          "writing_style" := Str(Get(w.vars, WritingStyle)),
          "user_guidance" := Str(Strip(TextGet(w.userGuideText))),
          "characters_involved" := Str(Strip(TextGet(w.charInvText))),
          "key_items" := Str(Get(w.vars, KeyItems)),
          "scene_location" := Str(Get(w.vars, SceneLocation)),
          "time_constraint" := Str(Get(w.vars, TimeConstraint))])
  }

  /** A project is open: both the config and the path are truthy. */
  predicate Active(w: Window) {
    w.config.Some? && w.config.value != map[] && w.project.Some? && w.project.value != ""
  }

  /** The open config holds novel_params as a dict. */
  predicate HasParams(w: Window) {
    w.config.Some? && "novel_params" in w.config.value && w.config.value["novel_params"].Obj?
  }

  /** The first half of save_current_novel_config: the edits merged into
      novel_params, and the defaults and the characters variable synced
      with the stripped text boxes. */
  function Edit(w: Window, edits: Obj): (r: Window)
    requires HasParams(w)
  {
    var c := w.config.value;
    w.(config := Some(c["novel_params" := Obj(c["novel_params"].fields + edits)]),
       topicDefault := Str(Strip(TextGet(w.topicText))),
       userGuidanceDefault := Str(Strip(TextGet(w.userGuideText))),
       vars := w.vars[CharactersInvolved := Strip(TextGet(w.charInvText))])
  }

  /** The second half: generation_state.current_chapter from the chapter
      field, then save_novel_config, which stamps the dict in place. A
      chapter that is not a number, or a generation_state that is missing or
      not a dict, stops before the save. */
  function SaveChapter(w: Window, fs: Fs, now: Instant): (r: Step)
    requires Valid(now) && w.project.Some? && w.config.Some?
  {
    var c := w.config.value;
    match IntOr(Get(w.vars, ChapterNum), 1)
    case Err(_) => Step(w, fs)
    case Ok(chapter) =>
      if "generation_state" !in c || !c["generation_state"].Obj? then Step(w, fs)
      else
        var c1 := c["generation_state" := Obj(c["generation_state"].fields["current_chapter" := Int(chapter)])];
        match SaveNovelConfig(fs, w.project.value, c1, now)
        case Err(_) => Step(w.(config := Some(c1)), fs)
        case Ok(saved) => Step(w.(config := Some(saved.config)), saved.fs)
  }

  /** save_current_novel_config. The steps that raise are caught, so the
      window keeps what the steps before them changed: a novel_params that
      is missing or not a dict, or a count that is not a number, changes
      nothing; a chapter that is not a number or a generation_state that is
      not a dict leaves the edits in memory, unsaved. */
  function Save(w: Window, fs: Fs, now: Instant): (r: Step)
    requires Valid(now)
  {
    if !Active(w) || !HasParams(w) then Step(w, fs)
    else match EditedParams(w)
      case Err(_) => Step(w, fs)
      case Ok(edits) => SaveChapter(Edit(w, edits), fs, now)
  }

  /** clear_ui_controls on the modelled fields. */
  function Cleared(w: Window): Window {
    w.(vars := w.vars[Genre := ""][NumChapters := ""][WordNumber := ""][Filepath := ""][ChapterNum := ""]
                     [CharactersInvolved := ""][KeyItems := ""][SceneLocation := ""][TimeConstraint := ""]
                     [WritingStyle := ""],
       topicText := "", userGuideText := "", charInvText := "")
  }

  /** The fields update_ui_from_novel_config fills from novel_params before
      it reads generation_state: the topic is kept as it is stored, the
      other values are handed to their variables (the counts through str()). */
  function ShowParams(w: Window, op: Obj): Window {
    w.(topicDefault := GetOr(op, "topic", Str("")),
       vars := w.vars[Genre := TkText(GetOr(op, "genre", Str("玄幻")))]
                     [NumChapters := PyStr(GetOr(op, "num_chapters", Int(10)))]
                     [WordNumber := PyStr(GetOr(op, "word_number", Int(3000)))]
                     [Filepath := TkText(GetOr(op, "filepath", Str("")))])
  }

  /** The fields update_ui_from_novel_config fills after reading generation_state. */
  function ShowState(w: Window, op: Obj, gs: Obj): Window {
    w.(vars := w.vars[ChapterNum := PyStr(GetOr(gs, "current_chapter", Int(1)))]
                     [CharactersInvolved := TkText(GetOr(op, "characters_involved", Str("")))]
                     [KeyItems := TkText(GetOr(op, "key_items", Str("")))]
                     [SceneLocation := TkText(GetOr(op, "scene_location", Str("")))]
                     [TimeConstraint := TkText(GetOr(op, "time_constraint", Str("")))]
                     [WritingStyle := TkText(GetOr(op, "writing_style", Str("")))],
       userGuidanceDefault := GetOr(op, "user_guidance", Str("")))
  }

  /** update_text_widgets: the topic, the guidance and the characters are
      inserted at the start of their boxes, in that order. Tk is never
      handed a None (`_tkinter` cuts the call's arguments at the first
      None, so `insert` raises for want of its text), and the raise is
      caught: a null default leaves its box and the boxes after it as they
      were. */
  function TextWidgets(w: Window): (r: Window)
    ensures r.(topicText := w.topicText, userGuideText := w.userGuideText, charInvText := w.charInvText) == w
  {
    if w.topicDefault.Null? then w
    else
      var topicShown := w.(topicText := TkText(w.topicDefault) + w.topicText);
      if w.userGuidanceDefault.Null? then topicShown
      else topicShown.(userGuideText := TkText(w.userGuidanceDefault) + w.userGuideText,
                       charInvText := Get(w.vars, CharactersInvolved) + w.charInvText)
  }

  /** update_ui_from_novel_config: clears the fields, then fills them from
      the open config. A novel_params or generation_state that is not a dict
      makes the filling raise part-way (caught): the fields from there on
      stay cleared. */
  function ShowConfig(w: Window): (r: Window)
    ensures r.project == w.project && r.config == w.config && r.listbox == w.listbox
  {
    if w.config.None? || w.config.value == map[] then w
    else ShowRecord(w, w.config.value)
  }

  /** The filling from a non-empty config c. */
  function ShowRecord(w: Window, c: Obj): Window {
    match GetOr(c, "novel_params", Obj(map[]))
    case Obj(op) => ShowStateSection(ShowParams(Cleared(w), op), op, c)
    case _ => Cleared(w)
  }

  /** The filling once novel_params has been shown. */
  function ShowStateSection(w: Window, op: Obj, c: Obj): Window {
    match GetOr(c, "generation_state", Obj(map[]))
    case Obj(gs) => TextWidgets(ShowState(w, op, gs))
    case _ => w
  }

  /** `self.current_novel_project = path` then
      `self.current_novel_config = load_novel_config(path)`: when the load
      raises, the path has already changed and the old config stays. */
  function Open(w: Window, path: Path, fs: Fs, now: Instant): Pending
    requires Valid(now)
  {
    Opened(w.(project := Some(path)), LoadNovelConfig(fs, path, now))
  }

  /** The window once the load has returned or raised. */
  function Opened(w: Window, loaded: Io<Result<Obj>>): Pending {
    match loaded.out
    case Ok(c) => Pending(w.(config := Some(c)), loaded.fs, true)
    case Err(_) => Pending(w, loaded.fs, false)
  }

  /** load_novel_config as the window calls it. */
  method LoadNovel(fs: Fs, path: Path, now: Instant) returns (out: Result<Obj>, fs': Fs)
    requires Valid(now) && WellFormed(fs)
    ensures Io(out, fs') == LoadNovelConfig(fs, path, now) && WellFormed(fs')
  {
    var loaded := LoadNovelConfig(fs, path, now);
    LoadNovelConfigWellFormed(fs, path, now);
    out, fs' := loaded.out, loaded.fs;
  }

  /** init_current_novel_project: the first listed (newest) project, or the
      default project created for the purpose when none is listed. */
  function Init(w: Window, global: Obj, fs: Fs, names: seq<string>, now: Instant): Step
    requires Valid(now)
  {
    InitListed(w, global, ProjectListing(fs, names), now)
  }

  /** init_current_novel_project once the projects are listed. */
  function InitListed(w: Window, global: Obj, listing: Io<Result<seq<ProjectEntry>>>, now: Instant): Step
    requires Valid(now)
  {
    match listing.out
    case Err(_) => Step(w, listing.fs)
    case Ok(projects) =>
      if projects != [] then
        var next := Open(w, projects[0].path, listing.fs, now);
        Step(next.w, next.fs)
      else InitDefault(w, global, listing.fs, now)
  }

  /** With no project listed: create the default one and open it. */
  function InitDefault(w: Window, global: Obj, fs: Fs, now: Instant): Step
    requires Valid(now)
  {
    match CreateNovelProject(fs, DefaultProjectName, global, now)
    case Io(Err(_), fs1) => Step(w, fs1)
    case Io(Ok(path), fs1) =>
      var next := Open(w, path, fs1, now);
      Step(next.w, next.fs)
  }

  /** One line of the project list: "title (name)", starred when it is the open project. */
  function Label(e: ProjectEntry, current: Option<Path>): string {
    var text := PyStr(e.title) + " (" + e.name + ")";
    if current == Some(e.path) then "★ " + text else text
  }

  function Labels(projects: seq<ProjectEntry>, current: Option<Path>): seq<string> {
    seq(|projects|, i requires 0 <= i < |projects| => Label(projects[i], current))
  }

  /** The loop of refresh_projects_list: one display line per project. */
  method DisplayLines(projects: seq<ProjectEntry>, current: Option<Path>) returns (lines: seq<string>)
    ensures lines == Labels(projects, current)
  {
    lines := [];
    var i := 0;
    while i < |projects|
      invariant 0 <= i <= |projects|
      invariant |lines| == i
      invariant forall j :: 0 <= j < i ==> lines[j] == Label(projects[j], current)
    {
      var text := PyStr(projects[i].title) + " (" + projects[i].name + ")";
      if Some(projects[i].path) == current {
        text := "★ " + text;
      }
      lines := lines + [text];
      i := i + 1;
    }
  }

  /** refresh_projects_list: the list is emptied first, so a listing that
      raises leaves it empty. */
  function Refresh(w: Window, fs: Fs, names: seq<string>): Step {
    Relist(w, ProjectListing(fs, names))
  }

  /** The list redrawn from what list_novel_projects returned or raised. */
  function Relist(w: Window, listing: Io<Result<seq<ProjectEntry>>>): Step {
    Step(w.(listbox := ListedLines(listing.out, w.project)), listing.fs)
  }

  /** The listbox lines: none when the listing raised. */
  function ListedLines(out: Result<seq<ProjectEntry>>, current: Option<Path>): seq<string> {
    match out
    case Err(_) => []
    case Ok(projects) => Labels(projects, current)
  }

  /** The listing and the lines drawn from it, outside the window. */
  method ListingLines(fs: Fs, current: Option<Path>) returns (lines: seq<string>, fs': Fs, ghost names: seq<string>)
    requires WellFormed(fs)
    ensures ListsNovels(fs, names) && WellFormed(fs')
    ensures fs' == ProjectListing(fs, names).fs
    ensures lines == ListedLines(ProjectListing(fs, names).out, current)
  {
    var listing;
    listing, fs', names := ListNovelProjects(fs);
    lines := [];
    if listing.Ok? {
      lines := DisplayLines(listing.value, current);
    }
  }

  /** The refresh that ends switch_project and delete_project, when they get that far. */
  function Finish(p: Pending, names: seq<string>): Step {
    if p.ok then Refresh(p.w, p.fs, names) else Step(p.w, p.fs)
  }

  /** switch_project up to the refresh of the list: nothing without a
      selection or with one past the end of the listing; otherwise the open
      project is saved, then the selected one is opened and shown. */
  function SwitchTo(w: Window, fs: Fs, selection: Option<nat>, names: seq<string>, now: Instant): Pending
    requires Valid(now)
  {
    if selection.None? then Pending(w, fs, false)
    else SwitchListed(w, ProjectListing(fs, names), selection.value, now)
  }

  /** switch_project once the listing is taken: the selection must fall inside it. */
  function SwitchListed(w: Window, listing: Io<Result<seq<ProjectEntry>>>, i: nat, now: Instant): Pending
    requires Valid(now)
  {
    match listing.out
    case Err(_) => Pending(w, listing.fs, false)
    case Ok(projects) =>
      if i >= |projects| then Pending(w, listing.fs, false)
      else Switch(w, projects[i].path, listing.fs, now)
  }

  /** The body of switch_project once a listed project is selected: save
      the open project, open the selected one, show it. */
  function Switch(w: Window, path: Path, fs: Fs, now: Instant): Pending
    requires Valid(now)
  {
    var saved := Save(w, fs, now);
    var next := Open(saved.w, path, saved.fs, now);
    if next.ok then Pending(ShowConfig(next.w), next.fs, true) else next
  }

  /** `[p for p in projects if p["path"] != path]` */
  function Remaining(projects: seq<ProjectEntry>, path: Path): (r: seq<ProjectEntry>)
    ensures forall e :: e in r <==> e in projects && e.path != path
  {
    if projects == [] then []
    else (if projects[0].path != path then [projects[0]] else []) + Remaining(projects[1..], path)
  }

  /** Before the open project is deleted, the first other listed project is
      opened in its place, or none when there is no other; a load that
      raises stops delete_project there. */
  function HandOver(w: Window, projects: seq<ProjectEntry>, doomed: ProjectEntry, fs: Fs, now: Instant): Pending
    requires Valid(now)
  {
    if w.project != Some(doomed.path) then Pending(w, fs, true)
    else Successor(w, Remaining(projects, doomed.path), fs, now)
  }

  /** The open project handed over to the first of `remaining`, or to none. */
  function Successor(w: Window, remaining: seq<ProjectEntry>, fs: Fs, now: Instant): Pending
    requires Valid(now)
  {
    if remaining != [] then OpenShown(w, remaining[0].path, fs, now)
    else Pending(w.(project := None, config := None), fs, true)
  }

  /** Open a project and show its config when the load succeeded. */
  function OpenShown(w: Window, path: Path, fs: Fs, now: Instant): Pending
    requires Valid(now)
  {
    var next := Open(w, path, fs, now);
    if next.ok then Pending(ShowConfig(next.w), next.fs, true) else next
  }

  /** delete_project up to the refresh of the list, which follows only a
      deletion that succeeded. */
  function DeleteSelected(w: Window, fs: Fs, selection: Option<nat>, confirmed: bool,
                          names: seq<string>, now: Instant): Pending
    requires Valid(now)
  {
    if selection.None? then Pending(w, fs, false)
    else DeleteChosen(w, ProjectListing(fs, names), selection.value, confirmed, now)
  }

  /** delete_project once the listing is taken: a selection inside it and a
      confirmed dialog lead to the hand-over and the deletion. */
  function DeleteChosen(w: Window, listing: Io<Result<seq<ProjectEntry>>>, i: nat, confirmed: bool,
                        now: Instant): Pending
    requires Valid(now)
  {
    match listing.out
    case Err(_) => Pending(w, listing.fs, false)
    case Ok(projects) =>
      if i >= |projects| || !confirmed then Pending(w, listing.fs, false)
      else Doom(w, projects, projects[i], listing.fs, now)
  }

  /** The hand-over, then the deletion of doomed's directory when the hand-over got through. */
  function Doom(w: Window, projects: seq<ProjectEntry>, doomed: ProjectEntry, fs: Fs, now: Instant): Pending
    requires Valid(now)
  {
    var handed := HandOver(w, projects, doomed, fs, now);
    if !handed.ok then handed else Remove(handed.w, handed.fs, doomed.name)
  }

  /** delete_novel_project(name); only a True result goes on to the refresh. */
  function Remove(w: Window, fs: Fs, name: string): Pending {
    match DeleteNovelProject(fs, name)
    case Io(Ok(true), fs1) => Pending(w, fs1, true)
    case Io(_, fs1) => Pending(w, fs1, false)
  }

  // ---------------------------------------------------------------------------
  // Legacy configs at start-up
  // ---------------------------------------------------------------------------

  /** What loaded_config holds once __init__ has offered a legacy config to
      migrate_legacy_config: its result, or the config as it was when that
      raised or when the config was not legacy. */
  function MigratedConfig(config: Obj, migrate: Obj -> Result<Obj>): (r: Obj)
    ensures !Legacy(config) ==> r == config
    ensures r == config || migrate(config) == Ok(r)
  {
    if Legacy(config) && migrate(config).Ok? then migrate(config).value else config
  }

  /** The window's migrate_legacy_config, as __init__ calls it for a legacy
      config: the migrated config is saved to config.json; a raise is
      caught, and then nothing is written. */
  function LegacyMigration(config: Obj, migrate: Obj -> Result<Obj>, fs: Fs, now: Instant): (r: Io<Obj>)
    ensures r.out == MigratedConfig(config, migrate)
    ensures !(Legacy(config) && migrate(config).Ok?) ==> r.fs == fs
    ensures Legacy(config) && migrate(config).Ok? ==>
      r.fs == SaveConfig(fs, migrate(config).value, GlobalConfigFile, now).fs
  {
    if Legacy(config) && migrate(config).Ok? then
      var migrated := migrate(config).value;
      Io(migrated, SaveConfig(fs, migrated, GlobalConfigFile, now).fs)
    else Io(config, fs)
  }

  /** A legacy config that migrates is what config.json reads back as,
      when it can be written; a current one is kept and nothing is written. */
  lemma LegacyMigrationSaved(config: Obj, migrate: Obj -> Result<Obj>, fs: Fs, now: Instant)
    ensures var r := LegacyMigration(config, migrate, fs, now);
      && (!Legacy(config) ==> r == Io(config, fs))
      && (Legacy(config) && migrate(config).Ok? && Writable(fs, GlobalConfigFile) ==>
            r.out == migrate(config).value && ReadJson(r.fs, GlobalConfigFile) == Some(r.out))
      && (Legacy(config) && migrate(config).Err? ==> r == Io(config, fs))
  {
  }

  lemma LegacyMigrationWellFormed(config: Obj, migrate: Obj -> Result<Obj>, fs: Fs, now: Instant)
    requires WellFormed(fs)
    ensures WellFormed(LegacyMigration(config, migrate, fs, now).fs)
  {
    if Legacy(config) && migrate(config).Ok? && Writable(fs, GlobalConfigFile) {
      WriteFileWellFormed(fs, GlobalConfigFile, Doc(migrate(config).value), now);
    }
  }

  /** NovelGeneratorGUI(master) from load_config up to the opening of the
      current project: the window is built, and a legacy config is
      migrated and saved. InitCurrentNovelProject on the disk returned is
      what __init__ does next. */
  method Launch(config: Obj, first: string, env: Environment, migrate: Obj -> Result<Obj>, fs: Fs, now: Instant)
    returns (gui: NovelGeneratorGUI, fs': Fs)
    requires Valid(now) && WellFormed(fs)
    requires LlmConfigured(config, first) && ProxyConfigured(config) && EmbeddingProfile(config).Ok?
    modifies env
    ensures fresh(gui)
    ensures Io(gui.loadedConfig, fs') == LegacyMigration(config, migrate, fs, now)
    ensures gui.View() == Started(config, EmbeddingProfile(config).value)
    ensures env.vars == ProxyEnvironment(config, old(env.vars)).value
    ensures WellFormed(fs')
  {
    gui := new NovelGeneratorGUI(config, first, env, migrate);
    var migrated := LegacyMigration(config, migrate, fs, now);
    LegacyMigrationWellFormed(config, migrate, fs, now);
    fs' := migrated.fs;
  }

  // ---------------------------------------------------------------------------
  // The window
  // ---------------------------------------------------------------------------

  class NovelGeneratorGUI {
    /** The global config read at start-up, migrated when it was legacy;
        nothing replaces it afterwards. */
    const loadedConfig: Obj
    var currentNovelProject: Option<Path>
    var currentNovelConfig: Option<Obj>
    var vars: map<Var, string>
    var topicDefault: Value
    var userGuidanceDefault: Value
    var topicText: string
    var userGuideText: string
    var charInvText: string
    var projectsListbox: seq<string>

    function View(): Window
      reads this
    {
      Window(currentNovelProject, currentNovelConfig, vars, topicDefault, userGuidanceDefault,
             topicText, userGuideText, charInvText, projectsListbox)
    }

    /** __init__ given what load_config returned: no project is open yet, the
        novel fields hold their defaults, the embedding fields the last-used
        profile, os.environ follows the proxy setting, and loaded_config is
        what migrating a legacy config left. The config must have what
        __init__ indexes without a guard. */
    constructor (config: Obj, first: string, env: Environment, migrate: Obj -> Result<Obj>)
      requires LlmConfigured(config, first) && ProxyConfigured(config) && EmbeddingProfile(config).Ok?
      modifies env
      ensures loadedConfig == MigratedConfig(config, migrate)
      ensures View() == Started(config, EmbeddingProfile(config).value)
      ensures env.vars == ProxyEnvironment(config, old(env.vars)).value
    {
      loadedConfig := MigratedConfig(config, migrate);
      currentNovelProject := None;
      currentNovelConfig := None;
      var profile := EmbeddingProfile(config).value;
      vars := StartVars(config, profile);
      topicDefault := Str("");
      userGuidanceDefault := Str("");
      topicText := "";
      userGuideText := "";
      charInvText := "";
      projectsListbox := [];
      new;
      var setting := config["proxy_setting"].fields;
      if Truthy(setting["enabled"]) {
        var address := ProxyAddress(setting);
        env.vars := env.vars[HttpProxy := address][HttpsProxy := address];
      } else {
        env.vars := env.vars - {HttpProxy, HttpsProxy};
      }
    }

    /** safe_get_int: the variable's stripped text as an int; when it does
        not parse, the variable is reset to str(default) and default is
        returned. Either way the variable then reads as the number returned. */
    method SafeGetInt(v: Var, default: int) returns (n: int)
      modifies this
      ensures var parsed := ParseInt(Strip(Get(old(vars), v)));
        && (parsed.Ok? ==> n == parsed.value && vars == old(vars))
        && (parsed.Err? ==> n == default && vars == old(vars)[v := IntToString(default)])
      ensures ParseInt(Strip(Get(vars, v))) == Ok(n)
      ensures View() == old(View()).(vars := vars)
    {
      var parsed := ParseInt(Strip(Get(vars, v)));
      if parsed.Ok? {
        n := parsed.value;
      } else {
        vars := vars[v := IntToString(default)];
        n := default;
        ResetReadsBack(old(vars), v, default);
      }
    }

    /** The two lines that open a project; ok tells whether the load succeeded. */
    method OpenProject(path: Path, fs: Fs, now: Instant) returns (fs': Fs, ok: bool)
      requires Valid(now) && WellFormed(fs)
      modifies this
      ensures Pending(View(), fs', ok) == Open(old(View()), path, fs, now)
      ensures WellFormed(fs')
    {
      currentNovelProject := Some(path);
      var out;
      out, fs' := LoadNovel(fs, path, now);
      ok := TakeLoaded(out, fs');
    }

    /** The window's side of a load that has returned or raised. */
    method TakeLoaded(out: Result<Obj>, fs: Fs) returns (ok: bool)
      modifies this
      ensures Pending(View(), fs, ok) == Opened(old(View()), Io(out, fs))
    {
      ok := out.Ok?;
      match out {
        case Ok(c) => currentNovelConfig := Some(c);
        case Err(_) =>
      }
    }

    method InitCurrentNovelProject(fs: Fs, now: Instant) returns (fs': Fs, ghost names: seq<string>)
      requires Valid(now) && WellFormed(fs)
      modifies this
      ensures ListsNovels(fs, names)
      ensures Step(View(), fs') == Init(old(View()), loadedConfig, fs, names, now)
      ensures WellFormed(fs')
    {
      var listing;
      listing, fs', names := ListNovelProjects(fs);
      fs' := InitFromListing(listing, fs', now);
    }

    method InitFromListing(listing: Result<seq<ProjectEntry>>, fs: Fs, now: Instant) returns (fs': Fs)
      requires Valid(now) && WellFormed(fs)
      modifies this
      ensures Step(View(), fs') == InitListed(old(View()), loadedConfig, Io(listing, fs), now)
      ensures WellFormed(fs')
    {
      fs' := fs;
      if listing.Err? {
        return;
      }
      if listing.value != [] {
        var ok;
        fs', ok := OpenProject(listing.value[0].path, fs, now);
      } else {
        fs' := OpenDefaultProject(fs, now);
      }
    }

    method OpenDefaultProject(fs: Fs, now: Instant) returns (fs': Fs)
      requires Valid(now) && WellFormed(fs)
      modifies this
      ensures Step(View(), fs') == InitDefault(old(View()), loadedConfig, fs, now)
      ensures WellFormed(fs')
    {
      var created := CreateNovelProject(fs, DefaultProjectName, loadedConfig, now);
      CreateNovelProjectWellFormed(fs, DefaultProjectName, loadedConfig, now);
      fs' := created.fs;
      if created.out.Ok? {
        var ok;
        fs', ok := OpenProject(created.out.value, fs', now);
      }
    }

    method RefreshProjectsList(fs: Fs) returns (fs': Fs, ghost names: seq<string>)
      requires WellFormed(fs)
      modifies this
      ensures ListsNovels(fs, names)
      ensures Step(View(), fs') == Refresh(old(View()), fs, names)
      ensures WellFormed(fs')
    {
      var lines;
      lines, fs', names := ListingLines(fs, currentNovelProject);
      projectsListbox := lines;
    }

    method SaveCurrentNovelConfig(fs: Fs, now: Instant) returns (fs': Fs)
      requires Valid(now) && WellFormed(fs)
      modifies this
      ensures Step(View(), fs') == Save(old(View()), fs, now)
      ensures WellFormed(fs')
    {
      fs' := fs;
      if !Active(View()) || !HasParams(View()) {
        return;
      }
      var edits := EditedParams(View());
      if edits.Err? {
        return;
      }
      ApplyEdits(edits.value);
      fs' := StoreChapter(fs, now);
    }

    /** novel_params.update(edits) and the syncing of the defaults. */
    method ApplyEdits(edits: Obj)
      requires HasParams(View())
      modifies this
      ensures View() == Edit(old(View()), edits)
    {
      var topic := Strip(TextGet(topicText));
      var guidance := Strip(TextGet(userGuideText));
      var chars := Strip(TextGet(charInvText));
      var c := currentNovelConfig.value;
      currentNovelConfig := Some(c["novel_params" := Obj(c["novel_params"].fields + edits)]);
      topicDefault := Str(topic);
      userGuidanceDefault := Str(guidance);
      vars := vars[CharactersInvolved := chars];
    }

    /** The chapter number into generation_state, then the save. */
    method StoreChapter(fs: Fs, now: Instant) returns (fs': Fs)
      requires Valid(now) && WellFormed(fs) && currentNovelProject.Some? && currentNovelConfig.Some?
      modifies this
      ensures Step(View(), fs') == SaveChapter(old(View()), fs, now)
      ensures WellFormed(fs')
    {
      fs' := fs;
      var c := currentNovelConfig.value;
      var chapter := IntOr(Get(vars, ChapterNum), 1);
      if chapter.Err? || "generation_state" !in c || !c["generation_state"].Obj? {
        return;
      }
      c := c["generation_state" := Obj(c["generation_state"].fields["current_chapter" := Int(chapter.value)])];
      currentNovelConfig := Some(c);
      var saved := SaveNovelConfig(fs, currentNovelProject.value, c, now);
      if saved.Ok? {
        currentNovelConfig := Some(saved.value.config);
        fs' := saved.value.fs;
        SaveNovelConfigWellFormed(fs, currentNovelProject.value, c, now);
      }
    }

    /** clear_ui_controls, on the fields of the model. */
    method ClearUiControls()
      modifies this
      ensures View() == Cleared(old(View()))
    {
      vars := vars[Genre := ""][NumChapters := ""][WordNumber := ""][Filepath := ""][ChapterNum := ""]
                  [CharactersInvolved := ""][KeyItems := ""][SceneLocation := ""][TimeConstraint := ""]
                  [WritingStyle := ""];
      topicText := "";
      userGuideText := "";
      charInvText := "";
    }

    /** The novel_params half of update_ui_from_novel_config. */
    method ShowNovelParams(op: Obj)
      modifies this
      ensures View() == ShowParams(old(View()), op)
    {
      topicDefault := GetOr(op, "topic", Str(""));
      vars := vars[Genre := TkText(GetOr(op, "genre", Str("玄幻")))];
      vars := vars[NumChapters := PyStr(GetOr(op, "num_chapters", Int(10)))];
      vars := vars[WordNumber := PyStr(GetOr(op, "word_number", Int(3000)))];
      vars := vars[Filepath := TkText(GetOr(op, "filepath", Str("")))];
    }

    /** The generation_state half of update_ui_from_novel_config. */
    method ShowGenerationState(op: Obj, gs: Obj)
      modifies this
      ensures View() == ShowState(old(View()), op, gs)
    {
      vars := vars[ChapterNum := PyStr(GetOr(gs, "current_chapter", Int(1)))];
      vars := vars[CharactersInvolved := TkText(GetOr(op, "characters_involved", Str("")))];
      vars := vars[KeyItems := TkText(GetOr(op, "key_items", Str("")))];
      vars := vars[SceneLocation := TkText(GetOr(op, "scene_location", Str("")))];
      vars := vars[TimeConstraint := TkText(GetOr(op, "time_constraint", Str("")))];
      vars := vars[WritingStyle := TkText(GetOr(op, "writing_style", Str("")))];
      userGuidanceDefault := GetOr(op, "user_guidance", Str(""));
    }

    /** update_text_widgets: the inserts in order, the first with a None
        default raising and ending the method. */
    method UpdateTextWidgets()
      modifies this
      ensures View() == TextWidgets(old(View()))
    {
      if topicDefault.Null? {
        return;
      }
      topicText := TkText(topicDefault) + topicText;
      if userGuidanceDefault.Null? {
        return;
      }
      userGuideText := TkText(userGuidanceDefault) + userGuideText;
      charInvText := Get(vars, CharactersInvolved) + charInvText;
    }

    method UpdateUiFromNovelConfig()
      modifies this
      ensures View() == ShowConfig(old(View()))
    {
      if currentNovelConfig.None? || currentNovelConfig.value == map[] {
        return;
      }
      ShowNovelConfig(currentNovelConfig.value);
    }

    method ShowNovelConfig(c: Obj)
      modifies this
      ensures View() == ShowRecord(old(View()), c)
    {
      ClearUiControls();
      var params := GetOr(c, "novel_params", Obj(map[]));
      if !params.Obj? {
        return;
      }
      ShowNovelParams(params.fields);
      ShowStateOf(params.fields, c);
    }

    method ShowStateOf(op: Obj, c: Obj)
      modifies this
      ensures View() == ShowStateSection(old(View()), op, c)
    {
      var state := GetOr(c, "generation_state", Obj(map[]));
      if !state.Obj? {
        return;
      }
      ShowGenerationState(op, state.fields);
      UpdateTextWidgets();
    }

    method SwitchProject(fs: Fs, selection: Option<nat>, now: Instant)
      returns (fs': Fs, ghost names: seq<string>, ghost relisted: seq<string>)
      requires Valid(now) && WellFormed(fs)
      modifies this
      ensures selection.Some? ==> ListsNovels(fs, names)
      ensures var p := SwitchTo(old(View()), fs, selection, names, now);
        && (p.ok ==> ListsNovels(p.fs, relisted))
        && Step(View(), fs') == Finish(p, relisted)
      ensures WellFormed(fs')
    {
      fs', names, relisted := fs, [], [];
      if selection.Some? {
        fs', names, relisted := SwitchSelectedProject(fs, selection.value, now);
        assert SwitchTo(old(View()), fs, selection, names, now)
          == SwitchListed(old(View()), ProjectListing(fs, names), selection.value, now);
      }
    }

    /** switch_project with a line of the list selected. */
    method SwitchSelectedProject(fs: Fs, i: nat, now: Instant)
      returns (fs': Fs, ghost names: seq<string>, ghost relisted: seq<string>)
      requires Valid(now) && WellFormed(fs)
      modifies this
      ensures ListsNovels(fs, names)
      ensures var p := SwitchListed(old(View()), ProjectListing(fs, names), i, now);
        && (p.ok ==> ListsNovels(p.fs, relisted))
        && Step(View(), fs') == Finish(p, relisted)
      ensures WellFormed(fs')
    {
      var listing;
      listing, fs', names := ListNovelProjects(fs);
      fs', relisted := SwitchAndRelist(listing, i, fs', now);
    }

    /** switch_project from the listing on, the refresh included. */
    method SwitchAndRelist(listing: Result<seq<ProjectEntry>>, i: nat, fs: Fs, now: Instant)
      returns (fs': Fs, ghost relisted: seq<string>)
      requires Valid(now) && WellFormed(fs)
      modifies this
      ensures var p := SwitchListed(old(View()), Io(listing, fs), i, now);
        && (p.ok ==> ListsNovels(p.fs, relisted))
        && Step(View(), fs') == Finish(p, relisted)
      ensures WellFormed(fs')
    {
      var ok;
      fs', ok := SwitchListedProject(listing, i, fs, now);
      fs', relisted := FinishPending(fs', ok);
    }

    /** The refresh of the list that follows a step which got that far. */
    method FinishPending(fs: Fs, ok: bool) returns (fs': Fs, ghost relisted: seq<string>)
      requires WellFormed(fs)
      modifies this
      ensures ok ==> ListsNovels(fs, relisted)
      ensures Step(View(), fs') == Finish(Pending(old(View()), fs, ok), relisted)
      ensures WellFormed(fs')
    {
      fs', relisted := fs, [];
      if ok {
        fs', relisted := RefreshProjectsList(fs);
      }
    }

    /** switch_project from the listing on, up to the refresh. */
    method SwitchListedProject(listing: Result<seq<ProjectEntry>>, i: nat, fs: Fs, now: Instant)
      returns (fs': Fs, ok: bool)
      requires Valid(now) && WellFormed(fs)
      modifies this
      ensures Pending(View(), fs', ok) == SwitchListed(old(View()), Io(listing, fs), i, now)
      ensures WellFormed(fs')
    {
      if listing.Err? || i >= |listing.value| {
        fs', ok := fs, false;
        assert View() == old(View());
        return;
      }
      fs', ok := SwitchToProject(listing.value[i].path, fs, now);
      assert SwitchListed(old(View()), Io(listing, fs), i, now)
        == Switch(old(View()), listing.value[i].path, fs, now);
    }

    /** Save the open project, then open and show the one at path. */
    method SwitchToProject(path: Path, fs: Fs, now: Instant) returns (fs': Fs, ok: bool)
      requires Valid(now) && WellFormed(fs)
      modifies this
      ensures Pending(View(), fs', ok) == Switch(old(View()), path, fs, now)
      ensures WellFormed(fs')
    {
      fs' := SaveCurrentNovelConfig(fs, now);
      fs', ok := OpenProject(path, fs', now);
      if ok {
        UpdateUiFromNovelConfig();
      }
    }

    /** The part of delete_project that moves off the project about to go. */
    method HandOverCurrent(projects: seq<ProjectEntry>, doomed: ProjectEntry, fs: Fs, now: Instant)
      returns (fs': Fs, ok: bool)
      requires Valid(now) && WellFormed(fs)
      modifies this
      ensures Pending(View(), fs', ok) == HandOver(old(View()), projects, doomed, fs, now)
      ensures WellFormed(fs')
    {
      fs', ok := fs, true;
      if Some(doomed.path) == currentNovelProject {
        fs', ok := MoveToSuccessor(Remaining(projects, doomed.path), fs, now);
      }
    }

    method MoveToSuccessor(remaining: seq<ProjectEntry>, fs: Fs, now: Instant) returns (fs': Fs, ok: bool)
      requires Valid(now) && WellFormed(fs)
      modifies this
      ensures Pending(View(), fs', ok) == Successor(old(View()), remaining, fs, now)
      ensures WellFormed(fs')
    {
      if remaining != [] {
        fs', ok := OpenAndShow(remaining[0].path, fs, now);
        assert Successor(old(View()), remaining, fs, now) == OpenShown(old(View()), remaining[0].path, fs, now);
      } else {
        fs', ok := fs, true;
        currentNovelProject := None;
        currentNovelConfig := None;
        assert View() == old(View()).(project := None, config := None);
      }
    }

    /** Open a project and, when its config loaded, show it. */
    method OpenAndShow(path: Path, fs: Fs, now: Instant) returns (fs': Fs, ok: bool)
      requires Valid(now) && WellFormed(fs)
      modifies this
      ensures Pending(View(), fs', ok) == OpenShown(old(View()), path, fs, now)
      ensures WellFormed(fs')
    {
      fs', ok := OpenProject(path, fs, now);
      if ok {
        UpdateUiFromNovelConfig();
      }
    }

    method DeleteProject(fs: Fs, selection: Option<nat>, confirmed: bool, now: Instant)
      returns (fs': Fs, ghost names: seq<string>, ghost relisted: seq<string>)
      requires Valid(now) && WellFormed(fs)
      modifies this
      ensures selection.Some? ==> ListsNovels(fs, names)
      ensures var p := DeleteSelected(old(View()), fs, selection, confirmed, names, now);
        && (p.ok ==> ListsNovels(p.fs, relisted))
        && Step(View(), fs') == Finish(p, relisted)
      ensures WellFormed(fs')
    {
      fs', names, relisted := fs, [], [];
      if selection.Some? {
        fs', names, relisted := DeleteSelectedProject(fs, selection.value, confirmed, now);
      }
    }

    /** delete_project with a line of the list selected. */
    method DeleteSelectedProject(fs: Fs, i: nat, confirmed: bool, now: Instant)
      returns (fs': Fs, ghost names: seq<string>, ghost relisted: seq<string>)
      requires Valid(now) && WellFormed(fs)
      modifies this
      ensures ListsNovels(fs, names)
      ensures var p := DeleteChosen(old(View()), ProjectListing(fs, names), i, confirmed, now);
        && (p.ok ==> ListsNovels(p.fs, relisted))
        && Step(View(), fs') == Finish(p, relisted)
      ensures WellFormed(fs')
    {
      var listing, listed;
      listing, listed, names := ListNovelProjects(fs);
      fs', relisted := DeleteChosenProject(listing, i, confirmed, listed, now);
      assert DeleteChosen(old(View()), ProjectListing(fs, names), i, confirmed, now)
        == DeleteChosen(old(View()), Io(listing, listed), i, confirmed, now);
    }

    /** delete_project from the listing on, the refresh included. */
    method DeleteChosenProject(listing: Result<seq<ProjectEntry>>, i: nat, confirmed: bool, fs: Fs, now: Instant)
      returns (fs': Fs, ghost relisted: seq<string>)
      requires Valid(now) && WellFormed(fs)
      modifies this
      ensures var p := DeleteChosen(old(View()), Io(listing, fs), i, confirmed, now);
        && (p.ok ==> ListsNovels(p.fs, relisted))
        && Step(View(), fs') == Finish(p, relisted)
      ensures WellFormed(fs')
    {
      if listing.Err? || i >= |listing.value| || !confirmed {
        fs', relisted := fs, [];
        assert View() == old(View());
        return;
      }
      fs', relisted := DoomProject(listing.value, listing.value[i], fs, now);
      assert DeleteChosen(old(View()), Io(listing, fs), i, confirmed, now)
        == Doom(old(View()), listing.value, listing.value[i], fs, now);
    }

    /** delete_project once the project to delete is known and confirmed. */
    method DoomProject(projects: seq<ProjectEntry>, doomed: ProjectEntry, fs: Fs, now: Instant)
      returns (fs': Fs, ghost relisted: seq<string>)
      requires Valid(now) && WellFormed(fs)
      modifies this
      ensures var p := Doom(old(View()), projects, doomed, fs, now);
        && (p.ok ==> ListsNovels(p.fs, relisted))
        && Step(View(), fs') == Finish(p, relisted)
      ensures WellFormed(fs')
    {
      var ok;
      fs', ok := HandOverCurrent(projects, doomed, fs, now);
      relisted := [];
      if ok {
        fs', relisted := RemoveProject(doomed.name, fs');
      }
    }

    /** The deletion at the end of delete_project, and the refresh after a success. */
    method RemoveProject(name: string, fs: Fs) returns (fs': Fs, ghost relisted: seq<string>)
      requires WellFormed(fs)
      modifies this
      ensures var p := Remove(old(View()), fs, name);
        && (p.ok ==> ListsNovels(p.fs, relisted))
        && Step(View(), fs') == Finish(p, relisted)
      ensures WellFormed(fs')
    {
      var deleted := DeleteNovelProject(fs, name);
      DeleteNovelProjectWellFormed(fs, name);
      fs', relisted := FinishPending(deleted.fs, deleted.out == Ok(true));
    }
  }
}
