/** What the window's operations promise taken together: showing a project
    and saving it straight away changes nothing in its parameters, showing
    is idempotent, start-up opens the newest project (or creates the
    default one), a switch always lands on the selected project, and a
    deletion never leaves the window on the project it removes. */
module MainWindowLemmas {
  import opened Base
  import opened Text
  import opened Json
  import opened Clock
  import opened FileSystem
  import opened ConfigManager
  import opened MainWindow

  // ---------------------------------------------------------------------------
  // Showing and saving
  // ---------------------------------------------------------------------------

  /** A text-box field reads back as shown: a str without surrounding whitespace. */
  predicate BoxField(op: Obj, key: string) {
    key in op && op[key].Str? &&
    (op[key].s == [] || (!IsSpace(op[key].s[0]) && !IsSpace(op[key].s[|op[key].s| - 1])))
  }

  /** An entry-field value reads back as shown: a str. */
  predicate EntryField(op: Obj, key: string) {
    key in op && op[key].Str?
  }

  /** A count reads back as shown: an int. */
  predicate CountField(op: Obj, key: string) {
    key in op && op[key].Int?
  }

  /** novel_params whose edited fields all come back unchanged through the widgets. */
  predicate Displayable(op: Obj) {
    && BoxField(op, "topic") && BoxField(op, "user_guidance") && BoxField(op, "characters_involved")
    && EntryField(op, "genre") && EntryField(op, "filepath") && EntryField(op, "writing_style")
    && EntryField(op, "key_items") && EntryField(op, "scene_location") && EntryField(op, "time_constraint")
    && CountField(op, "num_chapters") && CountField(op, "word_number")
  }

  /** A config the window shows in full: novel_params and generation_state are dicts. */
  predicate ShowsInFull(c: Obj) {
    && "novel_params" in c && c["novel_params"].Obj?
    && "generation_state" in c && c["generation_state"].Obj?
  }

  /** A config shown in full goes through every step of update_ui_from_novel_config. */
  lemma ShownInFull(w: Window)
    requires w.config.Some? && ShowsInFull(w.config.value)
    ensures var c := w.config.value;
      ShowConfig(w) == TextWidgets(ShowState(ShowParams(Cleared(w), c["novel_params"].fields), c["novel_params"].fields,
                                             c["generation_state"].fields))
  {
    var c := w.config.value;
    var op := c["novel_params"].fields;
    assert "novel_params" in c;
    assert ShowConfig(w) == ShowRecord(w, c);
    assert ShowRecord(w, c) == ShowStateSection(ShowParams(Cleared(w), op), op, c);
  }

  /** The fields filled from novel_params before generation_state is read. */
  lemma ParamsShown(x: Window, op: Obj)
    requires Displayable(op)
    ensures var r := ShowParams(x, op);
      && r.topicDefault == op["topic"]
      && Get(r.vars, Genre) == op["genre"].s
      && Get(r.vars, NumChapters) == IntToString(op["num_chapters"].i)
      && Get(r.vars, WordNumber) == IntToString(op["word_number"].i)
      && Get(r.vars, Filepath) == op["filepath"].s
      && r.topicText == x.topicText && r.userGuideText == x.userGuideText && r.charInvText == x.charInvText
  {
  }

  /** The fields filled after generation_state is read, and the text boxes. */
  lemma StateShown(x: Window, op: Obj, gs: Obj)
    requires Displayable(op)
    ensures var r := TextWidgets(ShowState(x, op, gs));
      && (x.topicDefault.Str? ==>
            && r.topicText == x.topicDefault.s + x.topicText
            && r.userGuideText == op["user_guidance"].s + x.userGuideText
            && r.charInvText == op["characters_involved"].s + x.charInvText)
      && Get(r.vars, Genre) == Get(x.vars, Genre)
      && Get(r.vars, NumChapters) == Get(x.vars, NumChapters)
      && Get(r.vars, WordNumber) == Get(x.vars, WordNumber)
      && Get(r.vars, Filepath) == Get(x.vars, Filepath)
      && Get(r.vars, KeyItems) == op["key_items"].s
      && Get(r.vars, SceneLocation) == op["scene_location"].s
      && Get(r.vars, TimeConstraint) == op["time_constraint"].s
      && Get(r.vars, WritingStyle) == op["writing_style"].s
  {
  }

  /** The edit fields once a config is shown in full hold novel_params' values as text. */
  lemma ShownFields(w: Window)
    requires w.config.Some? && ShowsInFull(w.config.value)
    requires Displayable(w.config.value["novel_params"].fields)
    ensures var op := w.config.value["novel_params"].fields;
      var s := ShowConfig(w);
      && s.topicText == op["topic"].s
      && s.userGuideText == op["user_guidance"].s
      && s.charInvText == op["characters_involved"].s
      && Get(s.vars, Genre) == op["genre"].s
      && Get(s.vars, NumChapters) == IntToString(op["num_chapters"].i)
      && Get(s.vars, WordNumber) == IntToString(op["word_number"].i)
      && Get(s.vars, Filepath) == op["filepath"].s
      && Get(s.vars, WritingStyle) == op["writing_style"].s
      && Get(s.vars, KeyItems) == op["key_items"].s
      && Get(s.vars, SceneLocation) == op["scene_location"].s
      && Get(s.vars, TimeConstraint) == op["time_constraint"].s
  {
    var c := w.config.value;
    var op := c["novel_params"].fields;
    var x := ShowParams(Cleared(w), op);
    ShownInFull(w);
    ParamsShown(Cleared(w), op);
    StateShown(x, op, c["generation_state"].fields);
  }

  /** The edit fields of s hold the edited keys of op as text. */
  predicate ShowsFields(s: Window, op: Obj)
    requires Displayable(op)
  {
    && s.topicText == op["topic"].s
    && s.userGuideText == op["user_guidance"].s
    && s.charInvText == op["characters_involved"].s
    && Get(s.vars, Genre) == op["genre"].s
    && Get(s.vars, NumChapters) == IntToString(op["num_chapters"].i)
    && Get(s.vars, WordNumber) == IntToString(op["word_number"].i)
    && Get(s.vars, Filepath) == op["filepath"].s
    && Get(s.vars, WritingStyle) == op["writing_style"].s
    && Get(s.vars, KeyItems) == op["key_items"].s
    && Get(s.vars, SceneLocation) == op["scene_location"].s
    && Get(s.vars, TimeConstraint) == op["time_constraint"].s
  }

  /** The edited keys of op, as they stand. */
  function EditedOf(op: Obj): (r: Obj)
    requires Displayable(op)
    ensures r.Keys == EditedKeys
  {
    map[
      "topic" := op["topic"], "genre" := op["genre"], "num_chapters" := op["num_chapters"],
      "word_number" := op["word_number"], "filepath" := op["filepath"], "writing_style" := op["writing_style"],
      "user_guidance" := op["user_guidance"], "characters_involved" := op["characters_involved"],
      "key_items" := op["key_items"], "scene_location" := op["scene_location"], "time_constraint" := op["time_constraint"]]
  }

  /** Merging op's own edited keys back into op changes nothing. */
  lemma MergeEditedOf(op: Obj)
    requires Displayable(op)
    ensures op + EditedOf(op) == op
  {
  }

  /** The edits save_current_novel_config collects from fields showing op
      are op's own values. */
  lemma {:induction false} EditsReadBack(s: Window, op: Obj)
    requires Displayable(op) && ShowsFields(s, op)
    ensures EditedParams(s) == Ok(EditedOf(op))
  {
    StripAppendedNewline(op["topic"].s);
    StripAppendedNewline(op["user_guidance"].s);
    StripAppendedNewline(op["characters_involved"].s);
    ParseIntOfIntToString(op["num_chapters"].i);
    ParseIntOfIntToString(op["word_number"].i);
  }

  /** Merging the edits read back from fields that show a config's own
      novel_params leaves the config as it was. */
  lemma EditKeepsConfig(s: Window, c: Obj, op: Obj)
    requires s.config == Some(c) && "novel_params" in c && c["novel_params"] == Obj(op)
    requires Displayable(op) && ShowsFields(s, op)
    ensures HasParams(s) && EditedParams(s) == Ok(EditedOf(op))
    ensures Edit(s, EditedOf(op)).config == Some(c)
  {
    EditsReadBack(s, op);
    MergeEditedOf(op);
    assert c["novel_params" := Obj(op)] == c;
  }

  /** Round trip: saving straight after a project is shown writes back the
      novel_params it was shown from, unchanged. */
  lemma ShowThenEditKeepsParams(w: Window)
    requires w.config.Some? && ShowsInFull(w.config.value)
    requires Displayable(w.config.value["novel_params"].fields)
    ensures var s := ShowConfig(w);
      && HasParams(s)
      && EditedParams(s).Ok?
      && Edit(s, EditedParams(s).value).config == w.config
  {
    var c := w.config.value;
    ShownFields(w);
    EditKeepsConfig(ShowConfig(w), c, c["novel_params"].fields);
  }

  /** A null topic: update_text_widgets raises at its first insert, so the
      three boxes stay as clear_ui_controls left them, and a save straight
      after writes all three back as empty strings. */
  lemma NullTopicLeavesBoxesEmpty(w: Window)
    requires w.config.Some? && ShowsInFull(w.config.value)
    requires GetOr(w.config.value["novel_params"].fields, "topic", Str("")) == Null
    ensures var s := ShowConfig(w);
      && s.topicText == "" && s.userGuideText == "" && s.charInvText == ""
      && (EditedParams(s).Ok? ==>
            && EditedParams(s).value["topic"] == Str("")
            && EditedParams(s).value["user_guidance"] == Str("")
            && EditedParams(s).value["characters_involved"] == Str(""))
  {
    var c := w.config.value;
    var op := c["novel_params"].fields;
    var x := ShowState(ShowParams(Cleared(w), op), op, c["generation_state"].fields);
    ShownInFull(w);
    assert x.topicDefault == Null;
    assert ShowConfig(w) == x;
    EmptyBoxesReadEmpty(x);
  }

  /** Empty text boxes are read back by a save as empty strings. */
  lemma EmptyBoxesReadEmpty(s: Window)
    requires s.topicText == "" && s.userGuideText == "" && s.charInvText == ""
    ensures EditedParams(s).Ok? ==>
      && EditedParams(s).value["topic"] == Str("")
      && EditedParams(s).value["user_guidance"] == Str("")
      && EditedParams(s).value["characters_involved"] == Str("")
  {
    StripAppendedNewline("");
    assert TextGet("") == "" + "\n";
  }

  /** A null user_guidance under a str topic: the topic is shown, while the
      guidance box and the characters box stay empty, though the characters
      variable holds its value. */
  lemma NullGuidanceShowsTopicOnly(w: Window)
    requires w.config.Some? && ShowsInFull(w.config.value)
    requires GetOr(w.config.value["novel_params"].fields, "topic", Str("")).Str?
    requires GetOr(w.config.value["novel_params"].fields, "user_guidance", Str("")) == Null
    ensures var s := ShowConfig(w);
      var op := w.config.value["novel_params"].fields;
      && s.topicText == GetOr(op, "topic", Str("")).s
      && s.userGuideText == "" && s.charInvText == ""
      && Get(s.vars, CharactersInvolved) == TkText(GetOr(op, "characters_involved", Str("")))
  {
    ShownInFull(w);
  }

  /** Showing a config twice shows the same as showing it once. */
  lemma ShowConfigIdempotent(w: Window)
    ensures ShowConfig(ShowConfig(w)) == ShowConfig(w)
  {
    if w.config.Some? && w.config.value != map[] {
      var c := w.config.value;
      var np := GetOr(c, "novel_params", Obj(map[]));
      var gs := GetOr(c, "generation_state", Obj(map[]));
      if !np.Obj? {
        ShowClearedTwice(w, c);
      } else if !gs.Obj? {
        ShowParamsTwice(w, c, np.fields);
      } else {
        ShowFullTwice(w, c, np.fields, gs.fields);
      }
    }
  }

  lemma ShowClearedTwice(w: Window, c: Obj)
    requires w.config == Some(c) && c != map[] && !GetOr(c, "novel_params", Obj(map[])).Obj?
    ensures ShowConfig(ShowConfig(w)) == ShowConfig(w)
  {
    var s := ShowConfig(w);
    assert s == Cleared(w);
    assert ShowConfig(s) == Cleared(s);
    assert Cleared(s).vars == s.vars;
  }

  lemma ShowParamsTwice(w: Window, c: Obj, op: Obj)
    requires w.config == Some(c) && c != map[] && GetOr(c, "novel_params", Obj(map[])) == Obj(op)
    requires !GetOr(c, "generation_state", Obj(map[])).Obj?
    ensures ShowConfig(ShowConfig(w)) == ShowConfig(w)
  {
    var s := ShowConfig(w);
    assert s == ShowParams(Cleared(w), op);
    assert ShowConfig(s) == ShowParams(Cleared(s), op);
    ParamsFilled(w, op);
    ParamsFilled(s, op);
    FillTwice(w.vars, ParamsValues(op), ParamsValues(op));
    assert ShowConfig(s).vars == s.vars;
  }

  lemma ShowFullTwice(w: Window, c: Obj, op: Obj, gs: Obj)
    requires w.config == Some(c) && c != map[] && GetOr(c, "novel_params", Obj(map[])) == Obj(op)
    requires GetOr(c, "generation_state", Obj(map[])) == Obj(gs)
    ensures ShowConfig(ShowConfig(w)) == ShowConfig(w)
  {
    var s := ShowConfig(w);
    assert s == TextWidgets(ShowState(ShowParams(Cleared(w), op), op, gs));
    assert ShowConfig(s) == TextWidgets(ShowState(ShowParams(Cleared(s), op), op, gs));
    var vals := ShownValues(op, gs);
    FilledInFull(w, op, gs);
    FilledInFull(s, op, gs);
    var x := Fill(Fill(w.vars, Blank), vals);
    assert s.vars == x;
    FillTwice(x, Blank, vals);
    FillTwice(Fill(w.vars, Blank), vals, vals);
    assert ShowConfig(s).vars == s.vars;
  }

  /** The ten novel variables update_ui_from_novel_config clears and refills, in its order. */
  datatype NovelFields = NovelFields(genre: string, numChapters: string, wordNumber: string, filepath: string,
                                     chapterNum: string, charactersInvolved: string, keyItems: string,
                                     sceneLocation: string, timeConstraint: string, writingStyle: string)

  const Blank := NovelFields("", "", "", "", "", "", "", "", "", "")

  function Fill(vars: map<Var, string>, f: NovelFields): map<Var, string> {
    vars[Genre := f.genre][NumChapters := f.numChapters][WordNumber := f.wordNumber][Filepath := f.filepath]
        [ChapterNum := f.chapterNum][CharactersInvolved := f.charactersInvolved][KeyItems := f.keyItems]
        [SceneLocation := f.sceneLocation][TimeConstraint := f.timeConstraint][WritingStyle := f.writingStyle]
  }

  /** What a config shown in full puts in the ten variables. */
  function ShownValues(op: Obj, gs: Obj): NovelFields {
    NovelFields(TkText(GetOr(op, "genre", Str("玄幻"))), PyStr(GetOr(op, "num_chapters", Int(10))),
                PyStr(GetOr(op, "word_number", Int(3000))), TkText(GetOr(op, "filepath", Str(""))),
                PyStr(GetOr(gs, "current_chapter", Int(1))), TkText(GetOr(op, "characters_involved", Str(""))),
                TkText(GetOr(op, "key_items", Str(""))), TkText(GetOr(op, "scene_location", Str(""))),
                TkText(GetOr(op, "time_constraint", Str(""))), TkText(GetOr(op, "writing_style", Str(""))))
  }

  /** What a config whose generation_state is not a dict puts in the ten
      variables: the four filled from novel_params, the rest cleared. */
  function ParamsValues(op: Obj): NovelFields {
    NovelFields(TkText(GetOr(op, "genre", Str("玄幻"))), PyStr(GetOr(op, "num_chapters", Int(10))),
                PyStr(GetOr(op, "word_number", Int(3000))), TkText(GetOr(op, "filepath", Str(""))),
                "", "", "", "", "", "")
  }

  lemma ParamsFilled(x: Window, op: Obj)
    ensures ShowParams(Cleared(x), op).vars == Fill(x.vars, ParamsValues(op))
  {
  }

  lemma FilledInFull(x: Window, op: Obj, gs: Obj)
    ensures TextWidgets(ShowState(ShowParams(Cleared(x), op), op, gs)).vars == Fill(Fill(x.vars, Blank), ShownValues(op, gs))
  {
  }

  /** Filling the ten variables twice leaves what the second filling put there. */
  lemma FillTwice(vars: map<Var, string>, a: NovelFields, b: NovelFields)
    ensures Fill(Fill(vars, a), b) == Fill(vars, b)
  {
  }

  /** The dict handed to novel_params.update holds exactly the edited keys. */
  lemma EditedKeysExact(w: Window)
    requires EditedParams(w).Ok?
    ensures EditedParams(w).value.Keys == EditedKeys
  {
  }

  /** save_current_novel_config on an open project whose record has the
      expected shape: novel_params becomes the old one with the edits
      merged in, every other key of it kept; current_chapter takes the
      chapter field; last_modified is stamped; and the project's config
      file holds the record afterwards, or, when it cannot be written, the
      disk is unchanged. */
  lemma SaveWritesEdits(w: Window, fs: Fs, now: Instant)
    requires Valid(now) && Active(w) && HasParams(w)
    requires EditedParams(w).Ok? && IntOr(Get(w.vars, ChapterNum), 1).Ok?
    requires "generation_state" in w.config.value && w.config.value["generation_state"].Obj?
    requires "novel_info" !in w.config.value || w.config.value["novel_info"].Obj?
    ensures var r := Save(w, fs, now);
      var op := w.config.value["novel_params"].fields;
      var path := ConfigPath(w.project.value);
      && r.w.project == w.project
      && r.w.config.Some?
      && "novel_params" in r.w.config.value
      && r.w.config.value["novel_params"] == Obj(op + EditedParams(w).value)
      && (forall k :: k in op && k !in EditedKeys ==>
            k in r.w.config.value["novel_params"].fields && r.w.config.value["novel_params"].fields[k] == op[k])
      && "generation_state" in r.w.config.value && r.w.config.value["generation_state"].Obj?
      && "current_chapter" in r.w.config.value["generation_state"].fields
      && r.w.config.value["generation_state"].fields["current_chapter"] == Int(IntOr(Get(w.vars, ChapterNum), 1).value)
      && LastModified(r.w.config.value) == Some(IsoFormat(now))
      && (Writable(fs, path) ==> ReadJson(r.fs, path) == Some(r.w.config.value))
      && (!Writable(fs, path) ==> r.fs == fs)
  {
    var edits := EditedParams(w).value;
    EditedKeysExact(w);
    var e := Edit(w, edits);
    assert Save(w, fs, now) == SaveChapter(e, fs, now);
    ChapterSaved(e, fs, now);
  }

  /** The second half of the save: the chapter set, the record stamped and written. */
  lemma ChapterSaved(e: Window, fs: Fs, now: Instant)
    requires Valid(now) && e.project.Some? && e.config.Some?
    requires IntOr(Get(e.vars, ChapterNum), 1).Ok?
    requires "generation_state" in e.config.value && e.config.value["generation_state"].Obj?
    requires "novel_info" !in e.config.value || e.config.value["novel_info"].Obj?
    ensures var c := e.config.value;
      var c1 := c["generation_state" := Obj(c["generation_state"].fields["current_chapter" := Int(IntOr(Get(e.vars, ChapterNum), 1).value)])];
      var r := SaveChapter(e, fs, now);
      var path := ConfigPath(e.project.value);
      && Stamp(c1, now).Ok?
      && r.w == e.(config := Some(Stamp(c1, now).value))
      && (Writable(fs, path) ==> ReadJson(r.fs, path) == Some(Stamp(c1, now).value))
      && (!Writable(fs, path) ==> r.fs == fs)
  {
    var c := e.config.value;
    var c1 := c["generation_state" := Obj(c["generation_state"].fields["current_chapter" := Int(IntOr(Get(e.vars, ChapterNum), 1).value)])];
    assert SaveNovelConfig(fs, e.project.value, c1, now).Ok?;
  }

  /** The steps of save_current_novel_config that raise: without an open
      project, a novel_params dict or numeric counts nothing changes; with
      a chapter field that is not a number the edits stay in memory and
      nothing is written. */
  lemma SaveStopsEarly(w: Window, fs: Fs, now: Instant)
    requires Valid(now)
    ensures !Active(w) || !HasParams(w) || EditedParams(w).Err? ==> Save(w, fs, now) == Step(w, fs)
    ensures Active(w) && HasParams(w) && EditedParams(w).Ok? && IntOr(Get(w.vars, ChapterNum), 1).Err? ==>
      Save(w, fs, now) == Step(Edit(w, EditedParams(w).value), fs)
  {
  }

  // ---------------------------------------------------------------------------
  // Start-up
  // ---------------------------------------------------------------------------

  /** With projects on disk, start-up opens the newest one with its config
      as stored, writes nothing beyond novels/, and changes nothing else in
      the window. */
  lemma InitOpensNewest(w: Window, global: Obj, fs: Fs, names: seq<string>, now: Instant)
    requires Valid(now) && EnsureNovelsDir(fs).Ok?
    requires Sortable(Entries(EnsureNovelsDir(fs).value, names))
    requires NovelProjects(EnsureNovelsDir(fs).value, names) != []
    ensures var fs1 := EnsureNovelsDir(fs).value;
      var newest := NovelProjects(fs1, names)[0];
      && ReadJson(fs1, ConfigPath(newest.path)).Some?
      && Init(w, global, fs, names, now) ==
         Step(w.(project := Some(newest.path), config := Some(ReadJson(fs1, ConfigPath(newest.path)).value)), fs1)
      && forall e :: e in NovelProjects(fs1, names) ==> LexLessEq(LastModifiedKey(e), LastModifiedKey(newest))
  {
    var fs1 := EnsureNovelsDir(fs).value;
    var ps := NovelProjects(fs1, names);
    ListedLoads(fs1, names, ps[0], now);
    forall e | e in ps ensures LexLessEq(LastModifiedKey(e), LastModifiedKey(ps[0])) {
      FirstListedIsNewest(fs1, names, e);
    }
  }

  /** Start-up opens the newest project without showing it: the widgets
      keep what they held, and the first save merges them into the
      project's novel_params: every edited key takes the value of the
      widget it is read from, whatever the project stored. */
  lemma StartUpSaveOverwrites(w: Window, global: Obj, fs: Fs, names: seq<string>, c: Obj, now: Instant)
    requires Valid(now) && EnsureNovelsDir(fs).Ok?
    requires Sortable(Entries(EnsureNovelsDir(fs).value, names))
    requires NovelProjects(EnsureNovelsDir(fs).value, names) != []
    requires ReadJson(EnsureNovelsDir(fs).value,
                      ConfigPath(NovelProjects(EnsureNovelsDir(fs).value, names)[0].path)) == Some(c)
    requires c != map[] && ShowsInFull(c) && InfoReadable(c)
    requires EditedParams(w).Ok? && IntOr(Get(w.vars, ChapterNum), 1).Ok?
    ensures var i := Init(w, global, fs, names, now);
      var r := Save(i.w, i.fs, now);
      && r.w.config.Some? && "novel_params" in r.w.config.value
      && r.w.config.value["novel_params"] == Obj(c["novel_params"].fields + EditedParams(w).value)
      && forall k :: k in EditedKeys ==>
           k in r.w.config.value["novel_params"].fields
           && r.w.config.value["novel_params"].fields[k] == EditedParams(w).value[k]
  {
    var fs1 := EnsureNovelsDir(fs).value;
    var path := NovelProjects(fs1, names)[0].path;
    InitOpensNewest(w, global, fs, names, now);
    assert Init(w, global, fs, names, now) == Step(w.(project := Some(path), config := Some(c)), fs1);
    ListedPathNonEmpty(fs1, names, NovelProjects(fs1, names)[0]);
    SaveOpenedMerges(w, path, c, fs1, now);
  }

  /** The first save in a window whose widgets were not filled from the
      config just opened. */
  lemma SaveOpenedMerges(w: Window, path: Path, c: Obj, fs: Fs, now: Instant)
    requires Valid(now) && path != "" && c != map[] && ShowsInFull(c) && InfoReadable(c)
    requires EditedParams(w).Ok? && IntOr(Get(w.vars, ChapterNum), 1).Ok?
    ensures var r := Save(w.(project := Some(path), config := Some(c)), fs, now);
      && r.w.config.Some? && "novel_params" in r.w.config.value
      && r.w.config.value["novel_params"] == Obj(c["novel_params"].fields + EditedParams(w).value)
      && forall k :: k in EditedKeys ==>
           k in r.w.config.value["novel_params"].fields
           && r.w.config.value["novel_params"].fields[k] == EditedParams(w).value[k]
  {
    var o := w.(project := Some(path), config := Some(c));
    assert EditedParams(o) == EditedParams(w);
    SaveWritesEdits(o, fs, now);
    EditedKeysExact(w);
  }

  /** A listed project's path is never empty: it is `novels/<name>`. */
  lemma ListedPathNonEmpty(fs: Fs, names: seq<string>, e: ProjectEntry)
    requires e in NovelProjects(fs, names)
    ensures e.path != ""
  {
    assert e in multiset(NovelProjects(fs, names));
    EntriesMembers(fs, names, e);
    assert e.path == Join(NovelsRoot, e.name);
  }

  /** init_current_novel_project as evidently intended: the opened config
      is shown in the widgets, as switching to a project does. */
  function InitShown(w: Window, global: Obj, fs: Fs, names: seq<string>, now: Instant): Step
    requires Valid(now)
  {
    var i := Init(w, global, fs, names, now);
    Step(ShowConfig(i.w), i.fs)
  }

  /** Once the opened config is shown, the first save writes the
      project's novel_params back as they were. */
  lemma InitShownSaveKeepsParams(w: Window, global: Obj, fs: Fs, names: seq<string>, c: Obj, now: Instant)
    requires Valid(now) && EnsureNovelsDir(fs).Ok?
    requires Sortable(Entries(EnsureNovelsDir(fs).value, names))
    requires NovelProjects(EnsureNovelsDir(fs).value, names) != []
    requires ReadJson(EnsureNovelsDir(fs).value,
                      ConfigPath(NovelProjects(EnsureNovelsDir(fs).value, names)[0].path)) == Some(c)
    requires c != map[] && ShowsInFull(c) && InfoReadable(c)
    requires Displayable(c["novel_params"].fields)
    requires IntOr(Get(InitShown(w, global, fs, names, now).w.vars, ChapterNum), 1).Ok?
    ensures var i := InitShown(w, global, fs, names, now);
      var r := Save(i.w, i.fs, now);
      && r.w.config.Some? && "novel_params" in r.w.config.value
      && r.w.config.value["novel_params"] == c["novel_params"]
  {
    var fs1 := EnsureNovelsDir(fs).value;
    var path := NovelProjects(fs1, names)[0].path;
    InitOpensNewest(w, global, fs, names, now);
    ListedPathNonEmpty(fs1, names, NovelProjects(fs1, names)[0]);
    var o := w.(project := Some(path), config := Some(c));
    assert Init(w, global, fs, names, now) == Step(o, fs1);
    assert InitShown(w, global, fs, names, now) == Step(ShowConfig(o), fs1);
    ShownSaveKeepsParams(o, c, fs1, now);
  }

  /** The first save after showing the open config keeps its novel_params. */
  lemma ShownSaveKeepsParams(o: Window, c: Obj, fs: Fs, now: Instant)
    requires Valid(now) && o.config == Some(c) && o.project.Some? && o.project.value != ""
    requires c != map[] && ShowsInFull(c) && InfoReadable(c)
    requires Displayable(c["novel_params"].fields)
    requires IntOr(Get(ShowConfig(o).vars, ChapterNum), 1).Ok?
    ensures var r := Save(ShowConfig(o), fs, now);
      && r.w.config.Some? && "novel_params" in r.w.config.value
      && r.w.config.value["novel_params"] == c["novel_params"]
  {
    var s := ShowConfig(o);
    ShowThenEditKeepsParams(o);
    SaveWritesEdits(s, fs, now);
    var e := EditedParams(s).value;
    assert Edit(s, e).config.value["novel_params"] == c["novel_params"];
  }

  /** When the sort raises, start-up opens nothing: the exception is caught
      and the window is as it was. */
  lemma InitUnsortable(w: Window, global: Obj, fs: Fs, names: seq<string>, now: Instant)
    requires Valid(now) && EnsureNovelsDir(fs).Ok?
    requires !Sortable(Entries(EnsureNovelsDir(fs).value, names))
    ensures Init(w, global, fs, names, now) == Step(w, EnsureNovelsDir(fs).value)
  {
  }

  /** With no project on disk, start-up creates the default project and
      opens it with the fresh record written into it. */
  lemma InitCreatesDefault(w: Window, global: Obj, fs: Fs, names: seq<string>, now: Instant)
    requires Valid(now) && WellFormed(fs) && EnsureNovelsDir(fs).Ok?
    requires Entries(EnsureNovelsDir(fs).value, names) == []
    requires CreateNovelProject(EnsureNovelsDir(fs).value, DefaultProjectName, global, now).out.Ok?
    ensures var path := Join(NovelsRoot, DefaultProjectName);
      var r := Init(w, global, fs, names, now);
      && DefaultNovelParams(global).Ok?
      && IsDir(r.fs, path)
      && r.w.project == Some(path)
      && r.w.config.Some?
      && FreshRecord(r.w.config.value, DefaultProjectName, DefaultNovelParams(global).value, path)
      && r.w == w.(project := r.w.project, config := r.w.config)
  {
    var fs1 := EnsureNovelsDir(fs).value;
    EnsureNovelsDirWellFormed(fs);
    assert Init(w, global, fs, names, now) == InitDefault(w, global, fs1, now);
    DefaultOpened(w, global, fs1, now);
  }

  /** The default project created and opened, once novels/ exists. */
  lemma DefaultOpened(w: Window, global: Obj, fs: Fs, now: Instant)
    requires Valid(now) && WellFormed(fs)
    requires CreateNovelProject(fs, DefaultProjectName, global, now).out.Ok?
    ensures var path := Join(NovelsRoot, DefaultProjectName);
      var r := InitDefault(w, global, fs, now);
      && DefaultNovelParams(global).Ok?
      && IsDir(r.fs, path)
      && r.w.project == Some(path)
      && r.w.config.Some?
      && FreshRecord(r.w.config.value, DefaultProjectName, DefaultNovelParams(global).value, path)
      && r.w == w.(project := r.w.project, config := r.w.config)
  {
    CreatedLoads(fs, DefaultProjectName, global, now);
  }

  // ---------------------------------------------------------------------------
  // The project list
  // ---------------------------------------------------------------------------

  /** A line is starred exactly when its project is the open one. */
  lemma LabelStarred(e: ProjectEntry, current: Option<Path>)
    ensures Label(e, current) == "★ " + Label(e, None) <==> current == Some(e.path)
  {
    if current != Some(e.path) {
      assert |Label(e, current)| < |"★ " + Label(e, None)|;
    }
  }

  /** refresh_projects_list on a disk where novels/ exists: one line per
      listed project, in listing order, and nothing else changes. */
  lemma RefreshListsProjects(w: Window, fs: Fs, names: seq<string>)
    requires IsDir(fs, NovelsRoot) && Sortable(Entries(fs, names))
    ensures var r := Refresh(w, fs, names);
      var ps := NovelProjects(fs, names);
      && r.fs == fs
      && |r.w.listbox| == |ps|
      && (forall i :: 0 <= i < |ps| ==> r.w.listbox[i] == Label(ps[i], w.project))
      && r.w == w.(listbox := r.w.listbox)
  {
  }

  /** When the sort raises, the list is left empty and nothing else changes. */
  lemma RefreshUnsortable(w: Window, fs: Fs, names: seq<string>)
    requires IsDir(fs, NovelsRoot) && !Sortable(Entries(fs, names))
    ensures Refresh(w, fs, names) == Step(w.(listbox := []), fs)
  {
  }

  // ---------------------------------------------------------------------------
  // Switching
  // ---------------------------------------------------------------------------

  /** switch_project on a listed project: the open project is saved, and
      the selected one becomes the current project even when its config
      fails to load; then the window still holds the saved config of the
      previous project. When it loads, the window shows it. */
  lemma SwitchLandsOnSelected(w: Window, listing: Io<Result<seq<ProjectEntry>>>, i: nat, now: Instant)
    requires Valid(now) && listing.out.Ok? && i < |listing.out.value|
    ensures var r := SwitchListed(w, listing, i, now);
      && r.w.project == Some(listing.out.value[i].path)
      && (r.ok ==> r.w.config.Some? && ShowConfig(r.w) == r.w)
      && (!r.ok ==> r.w.config == Save(w, listing.fs, now).w.config)
  {
    var saved := Save(w, listing.fs, now);
    var next := Open(saved.w, listing.out.value[i].path, saved.fs, now);
    ShowConfigIdempotent(next.w);
  }

  /** Without a selection inside the listing, switch_project changes nothing in the window. */
  lemma SwitchNeedsSelection(w: Window, fs: Fs, selection: Option<nat>, names: seq<string>, now: Instant)
    requires Valid(now)
    requires selection.None? || ProjectListing(fs, names).out.Err? ||
             selection.value >= |ProjectListing(fs, names).out.value|
    ensures var r := SwitchTo(w, fs, selection, names, now);
      r.w == w && !r.ok
  {
  }

  // ---------------------------------------------------------------------------
  // Deleting
  // ---------------------------------------------------------------------------

  /** delete_project never leaves the window on the project it deletes:
      when that project is open, the first other listed project takes its
      place, or no project is open when it was the only one; any other open
      project stays as it is. */
  lemma DeleteMovesOff(w: Window, listing: Io<Result<seq<ProjectEntry>>>, i: nat, now: Instant)
    requires Valid(now) && listing.out.Ok? && i < |listing.out.value|
    ensures var ps := listing.out.value;
      var doomed := ps[i];
      var rest := Remaining(ps, doomed.path);
      var r := DeleteChosen(w, listing, i, true, now);
      && r.w.project != Some(doomed.path)
      && (w.project != Some(doomed.path) ==> r.w == w)
      && (w.project == Some(doomed.path) && rest == [] ==> r.w.project == None && r.w.config == None)
      && (w.project == Some(doomed.path) && rest != [] ==> r.w.project == Some(rest[0].path))
  {
    var ps := listing.out.value;
    var rest := Remaining(ps, ps[i].path);
    if rest != [] {
      assert rest[0] in rest;
    }
  }

  /** Deleting a listed project other than the open one removes its
      directory, leaves the window as it is and goes on to the refresh. */
  lemma DeleteOtherProject(w: Window, fs: Fs, names: seq<string>, i: nat, now: Instant)
    requires Valid(now) && IsDir(fs, NovelsRoot) && ListsNovels(fs, names) && Sortable(Entries(fs, names))
    requires i < |NovelProjects(fs, names)| && w.project != Some(NovelProjects(fs, names)[i].path)
    ensures var r := DeleteSelected(w, fs, Some(i), true, names, now);
      && r.ok && r.w == w
      && !Exists(r.fs, NovelProjects(fs, names)[i].path)
  {
    var ps := NovelProjects(fs, names);
    DeleteListed(fs, names, ps[i]);
    RemoveOther(w, fs, ps, i, now);
  }

  /** The deletion of a project that is not the open one, once listed. */
  lemma RemoveOther(w: Window, fs: Fs, ps: seq<ProjectEntry>, i: nat, now: Instant)
    requires Valid(now) && i < |ps| && w.project != Some(ps[i].path)
    requires DeleteNovelProject(fs, ps[i].name).out == Ok(true)
    ensures DeleteChosen(w, Io(Ok(ps), fs), i, true, now) == Pending(w, DeleteNovelProject(fs, ps[i].name).fs, true)
  {
  }

  /** Without a selection inside the listing or a confirmation, delete_project deletes nothing. */
  lemma DeleteNeedsConfirmation(w: Window, fs: Fs, selection: Option<nat>, confirmed: bool,
                                names: seq<string>, now: Instant)
    requires Valid(now)
    requires selection.None? || !confirmed || ProjectListing(fs, names).out.Err? ||
             selection.value >= |ProjectListing(fs, names).out.value|
    ensures var r := DeleteSelected(w, fs, selection, confirmed, names, now);
      && r.w == w && !r.ok
      && r.fs == (if selection.None? then fs else ProjectListing(fs, names).fs)
  {
  }
}
