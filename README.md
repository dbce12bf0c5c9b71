# AI_NovelGenerator: the project and configuration store, in Dafny

AI_NovelGenerator is a desktop tool that writes novels with large language
models. Each novel is a *project*: a directory under `novels/` holding a
`novel_config.json` with three sections:

- `novel_info`: title and timestamps;
- `novel_params`: topic, genre, counts and the other fields the user edits;
- `generation_state`: the current chapter and progress flags.

A global `config.json` holds the model profiles, the proxy setting and the
defaults for new projects.

This project models the logic that sits on top of that store.

- **The store** (`config_manager.dfy`, module `ConfigManager`):
  - loading and creating the global config;
  - listing projects (only readable ones, newest first);
  - creating, loading, stamping, saving and deleting a project;
  - resolving "the current project".
- **The main window's project handle** (`main_window.dfy`, module
  `MainWindow`):
  - a class `NovelGeneratorGUI` with the open project's path and config, the
    edit fields and the lines of the project list;
  - methods for start-up, refresh, switch, delete and save, each proved
    equal to a specification function on a `Window` value;
  - the proxy rule that `__init__` applies to `os.environ`, the embedding
    profile it falls back to, and `safe_get_int`.
  - The lemmas about those specification functions are in
    `main_window_lemmas.dfy` (module `MainWindowLemmas`).
- **The embedding adapter factory** (`embedding_adapters.dfy`): the
  normalised format tag, the seven variants, and the two hand-written REST
  adapters (ML Studio, DashScope): endpoint, headers, `_embed_single`,
  `embed_query`, `embed_documents`.
- **Backup and migration** (`config_migration.dfy`): backup naming and
  copying, restore, the backup listing, the migration's decision sequence,
  and the yes/no loop of the interactive migration.

Supporting modules stand for the Python built-ins the core relies on:

- `base.dfy`: `Option`, `Result`, the error kinds.
- `text.dfy`: `str.strip`, `str.lower`, `str(int)`, `int(str)`, string order.
- `json.dfy`: JSON values, `dict.get`, `str()` of a value.
- `clock.dfy`: `datetime.isoformat` and the `%Y%m%d_%H%M%S` stamp, both
  proved to preserve time order.
- `sorting.dfy`: the stable descending sort by a string key.
- `file_system.dfy`: the disk as a value. It maps a resolved path to a
  directory or a file. A file holds a JSON object, or bytes that do not
  parse as one (`Corrupt`). `os` and `shutil` calls become functions from
  one disk to the next.

Nothing the program does to the outside world is performed; it is passed
in and handed back instead:

- the disk is a value given to each operation and returned by it;
- `datetime.now()` is an `Instant` parameter, one per operation (see "## Left out");
- `os.listdir` order is a parameter (`names`) tied to the directory by
  `IsListing`;
- `os.environ` is a map in an `Environment` object;
- `requests.post` is a function parameter from request to response;
- `input()` answers are a sequence of lines;
- the answer to the delete dialog and the list selection are parameters;
- `migrate_legacy_config`, which the source imports but no longer
  defines, is a function parameter that may fail.

## Model

| member | source | states |
|---|---|---|
| ConfigManager.DefaultChoicesResolve | config_manager.py:27-99 | In the built-in default config, every profile named in `choose_configs` is a key of `llm_configs`, and `last_embedding_interface_format` names a key of `embedding_configs` |
| ConfigManager.DefaultConfigShape | config_manager.py:89-93 | The default proxy is disabled with url 127.0.0.1 and an empty port; the default config has `default_novel_params` and no `other_params`, so a fresh config never counts as legacy |
| ConfigManager.SaveConfig | config_manager.py:104-111 | Returns True exactly when the file is writable, and the file then reads back as the config; on False the disk is unchanged (never raises) |
| ConfigManager.CreateConfig | config_manager.py:27-100 | A writable path ends up holding the default config; otherwise nothing changes |
| ConfigManager.LoadConfig | config_manager.py:12-23 | Absent and writable: the defaults are written and returned. Present: the parsed object, or `{}` when it does not parse, with the disk unchanged. Absent and not writable: `{}` |
| ConfigManager.LoadConfigIdempotent | config_manager.py:12-23 | Loading again after a load (at any later time) returns the same config and leaves the same disk |
| ConfigManager.LoadConfigFootprint | config_manager.py:16-17 | A load changes at most the config file itself, and only by writing the defaults there |
| ConfigManager.GlobalLoadKeepsProjects | config_manager.py:250-252 | Loading the global config keeps `novels/` a directory and does not create or remove the default project |
| ConfigManager.EnsureNovelsDir | config_manager.py:174-178 | On success `novels/` is a directory; an existing `novels/` directory is left as it is |
| ConfigManager.DefaultNovelParams | config_manager.py:228 | `global_config.get("default_novel_params", {}).copy()`: `{}` when the key is missing, an error exactly when the value is not a dict |
| ConfigManager.Stamp | config_manager.py:285-288 | Succeeds exactly when `novel_info` is missing or a dict; then `last_modified` is now's isoformat, `novel_info` is created when missing, and every other key and every other `novel_info` field is kept |
| ConfigManager.SaveNovelConfig | config_manager.py:281-295 | Fails exactly when the stamp fails, and saves the stamped record; the write happens exactly when the project's config file is writable, and the file then reads back as that record; an unwritten save changes no file |
| ConfigManager.SaveKeepsProjectDir | config_manager.py:281-295 | Saving a project's config leaves its directory a directory |
| ConfigManager.CreateNovelProject | config_manager.py:210-241 | An existing `novels/<name>` raises "already exists" and changes nothing; success returns `novels/<name>`, which is then a directory |
| ConfigManager.CreateDotDotExists | config_manager.py:212-216 | A project named ".." is refused as existing: `novels/..` is the working directory |
| ConfigManager.NewNovelConfigStamped | config_manager.py:222-240 | The synthesised record has title = name, `novel_params` = the defaults with `filepath` = the project path, chapter 1, both flags False, step "none"; stamping it at the same instant changes nothing |
| ConfigManager.CreateNovelProjectRecord | config_manager.py:210-241 | After a successful create, the project's config file holds exactly the synthesised record |
| ConfigManager.CreatedLoads | config_manager.py:240-276 | Loading a project right after creating it returns the synthesised record and leaves the disk as the create left it |
| ConfigManager.LoadNovelConfig | config_manager.py:244-278 | An existing but unparseable config file raises and never yields defaults; an existing parseable one is returned with the disk unchanged; a missing one yields a synthesised record titled with the directory's basename |
| ConfigManager.LoadNovelConfigSynthesised | config_manager.py:248-272 | For a project directory without a config file, the synthesised record is persisted: the file then reads back as the returned record, which is a fresh record titled with the basename |
| ConfigManager.ReadEntry | config_manager.py:186-203 | An entry is kept exactly when it is a directory whose config file parses (with a dict or no `novel_info`); its name and path are the listing name and `novels/<name>`; `title`, `created_at` and `last_modified` are the stored values of any kind, or the name, "" and "" when missing |
| ConfigManager.Entries | config_manager.py:184-203 | The collected entries are never more than the listed names |
| ConfigManager.EntriesMembers | config_manager.py:184-203 | An entry is collected exactly when some listed name reads as that entry |
| ConfigManager.EntriesExtend | config_manager.py:186-203 | One loop step appends the entry for the next name, or nothing when it is skipped |
| ConfigManager.CollectEntries | config_manager.py:184-203 | The loop collects exactly the readable entries, in listing order |
| ConfigManager.NovelProjects | config_manager.py:205-206 | The listing is sorted by `last_modified` descending and is a permutation of the collected entries |
| ConfigManager.ListingOutcome | config_manager.py:181-207 | Once `novels/` exists the listing succeeds exactly when the sort can compare the keys (at most one entry, or every `last_modified` a str), and then returns the sorted entries; otherwise it raises TypeError |
| ConfigManager.ListNovelProjects | config_manager.py:181-207 | The method's result and disk are those of the listing function for the names `os.listdir` returned, the sort's TypeError included |
| ConfigManager.ListedIffReadable | config_manager.py:186-203 | A listed name appears in the result exactly when its project is readable, and then as the entry read from it |
| ConfigManager.FirstListedIsNewest | config_manager.py:205-206 | No listed project has a later `last_modified` than the first |
| ConfigManager.ListedLoads | config_manager.py:274-276 | Loading a listed project returns its stored config and changes nothing |
| ConfigManager.DeleteNovelProject | config_manager.py:298-310 | A missing project, or a plain file by that name, returns False and changes nothing; a project directory is removed with all it holds and True is returned; nothing outside it changes. A directory `os.rmdir` refuses (a path ending in "." or "..") is emptied and False is returned |
| ConfigManager.DeleteDotDotEmpties | config_manager.py:298-310 | Deleting a project named ".." empties the working directory and returns False |
| ConfigManager.DeleteListed | config_manager.py:298-310 | Deleting a listed project returns True and the project no longer exists |
| ConfigManager.GetCurrentNovelConfig | config_manager.py:316-334 | An existing given path is loaded; otherwise the listing's TypeError propagates, or the newest listed project is loaded, or else the default project |
| ConfigManager.CurrentIsNewest | config_manager.py:318-322 | Without a usable path, the result is the stored config of the newest project, and no project is newer |
| ConfigManager.DefaultProjectCreated | config_manager.py:324-332 | With no project listed and no default project, "默认小说项目" is created and its fresh record returned |
| MainWindow.EmbeddingProfile | ui/main_window.py:91-99 | The profile is `embedding_configs[last_embedding]` when the container holds the tag: a dict's entry for a str tag, or a list's element at an int or bool tag found in the list, counted from the end when negative. An entry that is not a dict, a list indexed past its end or by another kind, and a str indexed at all are errors. A missing section or a tag not held gives the fixed default with `retrieval_k` 4 |
| MainWindow.ListProfileIndexed | ui/main_window.py:91-92 | A list of profiles holding the tag 0 yields its first element as the profile |
| MainWindow.ProxyEnvironment | ui/main_window.py:102-109 | Enabled: both proxy variables are `http://url:port`. Disabled: both are removed. No other variable changes; a missing or malformed `proxy_setting` is an error |
| MainWindow.ProxyIdempotent | ui/main_window.py:102-109 | Applying the proxy rule twice gives the environment applying it once gives |
| MainWindow.NovelGeneratorGUI.constructor | ui/main_window.py:58-203 | No project is open; the novel fields hold their defaults and the embedding fields the chosen profile; `os.environ` follows the proxy rule; `loaded_config` is the migrated config when it was legacy and migration returned |
| MainWindow.StartVarsNullFields | ui/main_window.py:127-131 | A null tag, key, URL or model leaves its variable reading "" (`StringVar(value=None)` sets nothing); `retrieval_k` goes through `str()`, so a null one reads "None" |
| MainWindow.MigratedConfig | ui/main_window.py:201-203 | A current config is kept; otherwise the result is the config or what `migrate_legacy_config` returned for it |
| MainWindow.LegacyMigration | ui/main_window.py:438-447 | `loaded_config` becomes the migrated config, which is saved to config.json; a raise writes nothing |
| MainWindow.LegacyMigrationSaved | ui/main_window.py:201-203 | A current config writes nothing; a migrated one reads back from a writable config.json; a raising migration keeps the config and the disk |
| MainWindow.Launch | ui/main_window.py:48-203 | Building the window yields a fresh object in the start-up state, with `loaded_config` and the disk as the legacy migration leaves them |
| MainWindow.ResetReadsBack | ui/main_window.py:213-219 | A variable reset to `str(default)` parses back as `default` |
| MainWindow.NovelGeneratorGUI.SafeGetInt | ui/main_window.py:213-219 | Returns the parse of the stripped variable; when that fails, resets the variable to `str(default)` and returns `default`; either way the variable then parses as the result |
| MainWindow.EditedParams | ui/main_window.py:623-653 | The update dict fails exactly when a non-empty chapter or word count is not an integer |
| MainWindow.ShowConfig | ui/main_window.py:672-705 | Refreshing the widgets never changes the open project, its config or the project list |
| MainWindow.LoadNovel | ui/main_window.py:563 | The window's load is `load_novel_config` on the project path |
| MainWindow.NovelGeneratorGUI.OpenProject | ui/main_window.py:562-563 | The path is set first; the config is replaced only when the load succeeds |
| MainWindow.NovelGeneratorGUI.TakeLoaded | ui/main_window.py:563 | A successful load replaces the config; a raising load leaves it |
| MainWindow.NovelGeneratorGUI.InitCurrentNovelProject | ui/main_window.py:449-465 | The window after start-up is the specification `Init` of the window before, for the listing `os.listdir` gave |
| MainWindow.NovelGeneratorGUI.InitFromListing | ui/main_window.py:452-462 | The start-up step once the listing is taken |
| MainWindow.NovelGeneratorGUI.OpenDefaultProject | ui/main_window.py:459-461 | Create "默认小说项目" with the global config, then open it |
| MainWindow.NovelGeneratorGUI.RefreshProjectsList | ui/main_window.py:519-531 | The list shows one line per listed project, or none when the listing raises |
| MainWindow.DisplayLines | ui/main_window.py:524-528 | The loop produces one label per project, in order |
| MainWindow.ListingLines | ui/main_window.py:521-528 | The lines are the labels of the listing, or none when it raised |
| MainWindow.NovelGeneratorGUI.SaveCurrentNovelConfig | ui/main_window.py:617-670 | The window and disk after the save are the specification `Save` of the window before |
| MainWindow.NovelGeneratorGUI.ApplyEdits | ui/main_window.py:641-657 | The edits are merged into `novel_params`, and the defaults and the characters variable follow the text boxes |
| MainWindow.NovelGeneratorGUI.StoreChapter | ui/main_window.py:659-666 | Set `current_chapter` from the chapter field (`int(s or 1)`), then save and stamp |
| MainWindow.NovelGeneratorGUI.ClearUiControls | ui/main_window.py:707-745 | The ten novel variables and the three text boxes become empty |
| MainWindow.NovelGeneratorGUI.ShowNovelParams | ui/main_window.py:684-688 | The topic default is the stored value itself, a null one included; genre and filepath are handed to their variables as they are and the counts through `str()`, each with the source's default |
| MainWindow.NovelGeneratorGUI.ShowGenerationState | ui/main_window.py:689-695 | The chapter field through `str()`, the other entry fields as handed to their variables, and the guidance default as stored, a null one included |
| MainWindow.NovelGeneratorGUI.UpdateTextWidgets | ui/main_window.py:747-767 | The topic, the guidance and the characters are inserted in that order at the start of their boxes; the first null default makes `insert` raise (caught), leaving its box and the boxes after it as they were |
| MainWindow.NovelGeneratorGUI.UpdateUiFromNovelConfig | ui/main_window.py:672-705 | The window after the refresh is `ShowConfig` of the window before: cleared, filled up to the first section that is not a dict, with the text boxes filled up to the first null default |
| MainWindow.NovelGeneratorGUI.ShowNovelConfig | ui/main_window.py:677-698 | Clear, then fill from a non-empty config; a `novel_params` that is not a dict stops after the clear |
| MainWindow.NovelGeneratorGUI.ShowStateOf | ui/main_window.py:689-698 | A `generation_state` that is not a dict stops the filling after the four `novel_params` fields |
| MainWindow.NovelGeneratorGUI.SwitchProject | ui/main_window.py:548-575 | The window and disk after the switch are those of the specification `SwitchTo`, followed by the refresh only when the switch got through |
| MainWindow.NovelGeneratorGUI.SwitchSelectedProject | ui/main_window.py:555-569 | The switch with a line selected: listing, switch and refresh |
| MainWindow.NovelGeneratorGUI.SwitchAndRelist | ui/main_window.py:556-569 | The switch once the listing is taken, then the refresh |
| MainWindow.NovelGeneratorGUI.FinishPending | ui/main_window.py:568-569 | The refresh runs exactly when the steps before it did not raise |
| MainWindow.NovelGeneratorGUI.SwitchListedProject | ui/main_window.py:556-566 | An index past the listing does nothing; otherwise the selected project is switched to |
| MainWindow.NovelGeneratorGUI.SwitchToProject | ui/main_window.py:559-566 | Save the open project, then open and show the selected one |
| MainWindow.Remaining | ui/main_window.py:596 | The remaining projects are exactly the listed ones whose path is not the deleted one's |
| MainWindow.NovelGeneratorGUI.HandOverCurrent | ui/main_window.py:594-603 | Only deleting the open project moves the window; it moves to the first remaining project or to none |
| MainWindow.NovelGeneratorGUI.MoveToSuccessor | ui/main_window.py:596-603 | Open and show the first remaining project, or set project and config to None |
| MainWindow.NovelGeneratorGUI.OpenAndShow | ui/main_window.py:598-600 | Open a project and show its config when the load succeeded |
| MainWindow.NovelGeneratorGUI.DeleteProject | ui/main_window.py:577-615 | The window and disk after the delete are those of the specification `DeleteSelected`, followed by the refresh only when the deletion returned True |
| MainWindow.NovelGeneratorGUI.DeleteSelectedProject | ui/main_window.py:584-611 | The delete with a line selected: the listing, then the hand-over, the deletion and the refresh as `DeleteChosen` gives them |
| MainWindow.NovelGeneratorGUI.DeleteChosenProject | ui/main_window.py:584-611 | Nothing without a line inside the listing and a confirmed dialog; otherwise the hand-over, then the deletion |
| MainWindow.NovelGeneratorGUI.DoomProject | ui/main_window.py:594-611 | The hand-over, then `delete_novel_project` only when the hand-over did not raise |
| MainWindow.NovelGeneratorGUI.RemoveProject | ui/main_window.py:605-611 | Delete the project directory; refresh the list only on True |
| MainWindowLemmas.ShownInFull | ui/main_window.py:672-705 | A config whose two sections are dicts goes through clear, params, state and text boxes |
| MainWindowLemmas.ParamsShown | ui/main_window.py:684-688 | The topic default is the stored topic and each of the next four fields shows its stored value (counts as `str(n)`); the text boxes are not touched |
| MainWindowLemmas.StateShown | ui/main_window.py:689-698 | The remaining fields show their stored values, and under a str topic default each text box gets its field inserted |
| MainWindowLemmas.ShownFields | ui/main_window.py:672-705 | After showing a config, all eleven edited fields display their stored values |
| MainWindowLemmas.EditedOf | ui/main_window.py:641-653 | The edit dict a displayed config produces has exactly the eleven edited keys |
| MainWindowLemmas.MergeEditedOf | ui/main_window.py:641-653 | Merging those values back into `novel_params` leaves it unchanged |
| MainWindowLemmas.EditsReadBack | ui/main_window.py:623-653 | Reading the widgets back (text boxes stripped, counts parsed) gives exactly the displayed values |
| MainWindowLemmas.EditKeepsConfig | ui/main_window.py:641-653 | Applying the read-back edits leaves the config as it was |
| MainWindowLemmas.ShowThenEditKeepsParams | ui/main_window.py:617-705 | Round trip: show a config, read the fields back and merge them, and the config is unchanged |
| MainWindowLemmas.NullTopicLeavesBoxesEmpty | ui/main_window.py:747-767 | A stored null topic leaves all three text boxes empty after the refresh, and a save straight after reads them back as empty strings |
| MainWindowLemmas.NullGuidanceShowsTopicOnly | ui/main_window.py:747-767 | A null `user_guidance` under a str topic: the topic is shown, the guidance and characters boxes stay empty while the characters variable holds its value |
| MainWindowLemmas.EmptyBoxesReadEmpty | ui/main_window.py:627-653 | Empty text boxes are saved as empty `topic`, `user_guidance` and `characters_involved` strings |
| MainWindowLemmas.ShowConfigIdempotent | ui/main_window.py:672-705 | Refreshing the widgets twice is the same as refreshing once |
| MainWindowLemmas.ShowClearedTwice | ui/main_window.py:677-681 | Idempotence when `novel_params` is not a dict |
| MainWindowLemmas.ShowParamsTwice | ui/main_window.py:684-688 | Idempotence when `generation_state` is not a dict |
| MainWindowLemmas.ShowFullTwice | ui/main_window.py:677-698 | Idempotence when both sections are dicts |
| MainWindowLemmas.EditedKeysExact | ui/main_window.py:641-653 | The update dict has exactly the eleven listed keys |
| MainWindowLemmas.SaveWritesEdits | ui/main_window.py:617-670 | Only the eleven keys of `novel_params` change and all others are kept; `current_chapter` is `int(s or 1)`; `last_modified` is stamped; a writable file then holds the new record, and an unwritable one leaves the disk as it was |
| MainWindowLemmas.ChapterSaved | ui/main_window.py:659-663 | Setting the chapter and saving gives the stamped record in memory and on a writable disk |
| MainWindowLemmas.SaveStopsEarly | ui/main_window.py:619-621 | With no project open, or a count that is not a number, the save changes nothing; a chapter that is not a number keeps the edits in memory, unsaved |
| MainWindowLemmas.InitOpensNewest | ui/main_window.py:452-456 | With projects listed, start-up opens the first (newest) with its stored config, and no project is newer |
| MainWindowLemmas.StartUpSaveOverwrites | ui/main_window.py:449-465 | As written: after start-up opens the newest project, the first save merges the untouched widgets into its `novel_params`; every edited key takes the widget's value, whatever the project stored |
| MainWindowLemmas.SaveOpenedMerges | ui/main_window.py:617-653 | Saving a just-opened config whose widgets were not refreshed merges the widgets' edits into its `novel_params` |
| MainWindowLemmas.InitShownSaveKeepsParams | ui/main_window.py:449-465 | Corrected: when start-up also shows the opened config, as a switch does, the first save writes its `novel_params` back unchanged |
| MainWindowLemmas.ShownSaveKeepsParams | ui/main_window.py:617-705 | Saving right after showing the open config keeps its `novel_params` |
| MainWindowLemmas.ListedPathNonEmpty | config_manager.py:187 | A listed project's path is never empty |
| MainWindowLemmas.InitUnsortable | ui/main_window.py:451-465 | When the listing raises TypeError, start-up opens nothing and the window is as it was |
| MainWindowLemmas.InitCreatesDefault | ui/main_window.py:457-461 | With none listed, start-up creates "默认小说项目" and opens it with its fresh record; nothing else in the window changes |
| MainWindowLemmas.DefaultOpened | ui/main_window.py:459-461 | Creating and opening the default project gives its fresh record |
| MainWindowLemmas.LabelStarred | ui/main_window.py:525-527 | A line is "★ " + "title (name)" exactly when its path is the open project |
| MainWindowLemmas.RefreshListsProjects | ui/main_window.py:519-531 | The refreshed list has one line per listed project, labelled in order, and nothing else changes |
| MainWindowLemmas.RefreshUnsortable | ui/main_window.py:519-531 | When the listing raises TypeError, the list is left empty and nothing else changes |
| MainWindowLemmas.SwitchLandsOnSelected | ui/main_window.py:555-566 | After a switch the selected project is the open one; on success its config is loaded and shown, and on a raising load the saved outgoing config stays |
| MainWindowLemmas.SwitchNeedsSelection | ui/main_window.py:550-557 | Without a selection, or with one past the listing, the switch leaves the window unchanged and does not refresh |
| MainWindowLemmas.DeleteMovesOff | ui/main_window.py:594-603 | After a confirmed delete the doomed project is never the open one. A non-open project leaves the window unchanged; the open one moves to the first remaining project, or to None/None |
| MainWindowLemmas.DeleteOtherProject | ui/main_window.py:594-611 | Deleting a listed project that is not open keeps the window, removes the project and refreshes |
| MainWindowLemmas.RemoveOther | ui/main_window.py:605-607 | Deleting a project other than the open one is the deletion alone |
| MainWindowLemmas.DeleteNeedsConfirmation | ui/main_window.py:579-592 | Without a selection inside the listing, or without confirmation, nothing is deleted and the window is unchanged |
| EmbeddingAdapters.NormalizeFormatIdempotent | embedding_adapters.py:212 | `strip().lower()` of a normalised tag changes nothing |
| EmbeddingAdapters.FormatTag | embedding_adapters.py:213-226 | Every adapter variant carries one of the seven known tags |
| EmbeddingAdapters.AdapterFor | embedding_adapters.py:213-228 | A variant exists exactly for the seven tags, and it is the one for that tag |
| EmbeddingAdapters.CreateEmbeddingAdapter | embedding_adapters.py:203-228 | Succeeds exactly when the normalised tag is one of the seven, with the matching variant; otherwise the error names the tag as given |
| EmbeddingAdapters.FactoryUsesNormalForm | embedding_adapters.py:212 | The factory gives the same adapter for a tag and its normal form |
| EmbeddingAdapters.OllamaIgnoresKey | embedding_adapters.py:217-218 | The Ollama variant is built from model name and base URL only; the API key makes no difference |
| EmbeddingAdapters.BearerHeaders | embedding_adapters.py:91-94 | The headers are exactly `Authorization: Bearer <key>` and `Content-Type: application/json` |
| EmbeddingAdapters.NewRestAdapter | embedding_adapters.py:87-94 | The endpoint is the base URL with all trailing '/' removed, plus the suffix; key, model and headers are kept |
| EmbeddingAdapters.EndpointIgnoresTrailingSlash | embedding_adapters.py:165-172 | A trailing '/' on the base URL does not change either REST adapter |
| EmbeddingAdapters.Extract | embedding_adapters.py:110-116 | `data['data'][0]['embedding']` when every step finds it; a missing key or index (`KeyError`, `IndexError`) gives `[]`; indexing a value of the wrong kind (`TypeError`) is an error that escapes |
| EmbeddingAdapters.EmbedSingle | embedding_adapters.py:180-200 | A failing request (transport error, HTTP error status, body that is not JSON) gives `[]`; otherwise the extraction from the reply |
| EmbeddingAdapters.EmbedDocuments | embedding_adapters.py:96-97 | Same length as the texts, and element i is `_embed_single(texts[i])`; an exception from any text escapes |
| EmbeddingAdapters.QueryIsSingletonBatch | embedding_adapters.py:99-100 | `embed_documents([t])` is `[embed_query(t)]` |
| EmbeddingAdapters.EmbedDocumentsAppend | embedding_adapters.py:174-175 | Embedding a concatenation is the concatenation of the embeddings |
| ConfigMigration.BackupConfig | config_migration.py:16-24 | An absent config returns "" and copies nothing; otherwise the backup is `config_file + ".backup_" + stamp`, holding a copy of the config |
| ConfigMigration.BackupNameShape | config_migration.py:21-22 | A backup name is a plain file name starting with `basename + ".backup_"` |
| ConfigMigration.BackupWritten | config_migration.py:21-23 | The backup file beside the config holds the config's content |
| ConfigMigration.RestoreConfigFromBackup | config_migration.py:83-96 | A missing backup returns False and copies nothing; True exactly when the copy succeeds, and then the config holds the backup's content |
| ConfigMigration.BackupRestores | config_migration.py:83-92 | Restoring from a fresh backup puts the original content back |
| ConfigMigration.Migrate | config_migration.py:27-80 | Already migrated: True with nothing rewritten. A legacy config is rewritten with the migrated record; True exactly when the save succeeded and some project is listed afterwards; every failure is False, never an exception |
| ConfigMigration.MigrateFreshInstall | config_migration.py:41-51 | With no config file, migration writes the defaults and reports True |
| ConfigMigration.MigrateKeepsOthers | config_migration.py:27-80 | Migration changes no file other than the config and the backup |
| ConfigMigration.SaveConfigKeeps | config_manager.py:104-111 | `save_config` changes no entry other than the one its path resolves to |
| ConfigMigration.LoadConfigKeeps | config_manager.py:12-23 | `load_config`, which may write the defaults, changes no entry other than the one its path resolves to |
| ConfigMigration.MigrateKeepsConfigFile | config_migration.py:27-80 | The config stays a file through a migration |
| ConfigMigration.MigrateKeepsBackup | config_migration.py:40-43 | After a migration the backup still holds the original content and restores it |
| ConfigMigration.BackupAt | config_migration.py:106-113 | A directory entry is a backup exactly when it starts with the prefix and is a file |
| ConfigMigration.Backups | config_migration.py:105-113 | The collected backups are never more than the listed names |
| ConfigMigration.BackupsMembers | config_migration.py:105-113 | A backup is collected exactly when some listed name is that backup |
| ConfigMigration.BackupsSound | config_migration.py:105-113 | Every collected backup comes from a listed name |
| ConfigMigration.BackupsComplete | config_migration.py:105-113 | Every listed backup name is collected |
| ConfigMigration.CollectBackups | config_migration.py:105-113 | The loop collects exactly the backups, in listing order |
| ConfigMigration.BackupListing | config_migration.py:99-117 | Fails exactly when the directory is missing; otherwise a permutation of the backups, newest first |
| ConfigMigration.ListBackupFiles | config_migration.py:99-117 | The method's result is the listing function's for the names `os.listdir` returned |
| ConfigMigration.BareListing | config_migration.py:102-103 | A bare config name is searched for in "." |
| ConfigMigration.ListedIsBackup | config_migration.py:105-113 | Every listed backup is a file whose name starts with the prefix, with its ctime in isoformat |
| ConfigMigration.ListedNewestFirst | config_migration.py:115-116 | No backup is listed before a newer one |
| ConfigMigration.BackupIsListed | config_migration.py:16-24 | A backup just made appears in the backup listing, with its creation time |
| ConfigMigration.ClassifyAsWritten | config_migration.py:149 | Reading the answer as `lower().strip()` or as `strip().lower()` gives the same result |
| ConfigMigration.ClassifyNormalised | config_migration.py:149-156 | Classifying a normalised answer gives the answer's own class |
| ConfigMigration.Classified | config_migration.py:148-156 | One class per answer line |
| ConfigMigration.Decide | config_migration.py:148-156 | Only running out of input is an error |
| ConfigMigration.DecideFirstDecisive | config_migration.py:148-156 | The loop ends exactly when some answer is decisive, and the decision is that of the first decisive one (y/yes/是 proceed, n/no/否 cancel) |
| ConfigMigration.ConfirmMigration | config_migration.py:148-156 | The loop's result is the decision of the classified answers |
| ConfigMigration.InteractiveMigration | config_migration.py:120-166 | An already migrated config does nothing. A preview that raises (an `other_params` that is not a dict, or a truthy topic that cannot be sliced) stops before the prompt and migrates nothing. Otherwise the answers decide: running out of input raises EOFError, a cancel changes nothing more, and a yes runs the migration |
| Sorting.SortDesc | config_manager.py:206 | The sort's result is ordered by key, descending, and is a permutation of its input |
| Sorting.FirstIsLargest | config_manager.py:206 | No key is larger than the first |
| Clock.IsoFormatOrderIff | config_manager.py:288 | One isoformat string sorts before another exactly when its instant is earlier |
| Clock.BackupStampOrder | config_migration.py:21 | Stamps of instants in different, increasing seconds sort in time order |
| Clock.BackupStampNoSlash | config_migration.py:21-22 | A stamp has no '/', so the backup sits beside the config |
| Text.StripAppendedNewline | ui/main_window.py:627 | Stripping the text of a box whose content has no surrounding whitespace gives back that content |
| Text.ParseIntOfIntToString | ui/main_window.py:215-216 | `int(str(i)) == i` |
| Text.StripLowerCommute | embedding_adapters.py:212 | Stripping and lower-casing commute |
| FileSystem.ReadAfterWrite | config_manager.py:291-292 | A file written with a record reads back as that record |
| FileSystem.MakeDirs | config_manager.py:177 | On success the path is a directory; failure is an OS error on that path |
| FileSystem.MakeDirsAt | config_manager.py:219 | Creates every missing ancestor as a directory and changes nothing else; fails exactly when an ancestor is a file |
| FileSystem.RemoveTree | config_manager.py:307 | Everything below a directory goes; the directory itself goes too, and the call succeeds, unless it is the working directory or its path ends in "." or ".."; then it stays, emptied, and the call raises. Anything else raises and changes nothing; nothing outside the directory changes |
| FileSystem.ResolveJoin | config_manager.py:187 | Joining a name onto a path resolves to that path's components followed by the name |
| FileSystem.ResolveSlash | config_manager.py:187 | Resolving `a/b` resolves `a` and walks `b` from there |
| FileSystem.ResolveNamed | config_manager.py:187 | Every resolved component is a name: not empty, not "." or "..", without '/' |
| FileSystem.LastComponentJoin | config_manager.py:307 | The last component of a name joined onto a path is that name |
| FileSystem.Copy | config_migration.py:23 | On success the target holds the source's content, and nothing else changes |
| FileSystem.ListDir | config_manager.py:186 | The names returned are the directory's entries, each once |

## Findings

| source | as written | input that shows it | evidently intended | confidence | as-written member | corrected member |
|---|---|---|---|---|---|---|
| ui/main_window.py:449-465 | `init_current_novel_project` opens the newest project but never calls `update_ui_from_novel_config`. The edit fields keep the values they were built with before any project was open (ui/main_window.py:144-183). | A newest project whose stored `genre` is "科幻", while the genre field starts at its default "玄幻". The first save writes "玄幻" into the project. | Start-up shows the opened config, as `switch_project` does (ui/main_window.py:567-568), so a save writes the stored `novel_params` back as they were. | medium; not executed | MainWindowLemmas.StartUpSaveOverwrites | MainWindowLemmas.InitShownSaveKeepsParams |

The window class keeps start-up as written, since it models the program as
it runs. The corrected start-up is the specification function
`MainWindowLemmas.InitShown`.

## Left out

- The connectivity probes `test_llm_config` and `test_embedding_config`. They run in background threads and call the providers.
- `safe_log` and the calls that hand work to the UI thread.
- Logging, `print`, message boxes, and the window title that `update_ui_from_novel_config` sets.
- Widget construction and layout. The window is modelled as already built, so the `hasattr` guards always pass.
- `refresh_chapters_list` and the clearing of the other text boxes (architecture, blueprint, character state, summary, chapter result) and of the chapter list. Nothing modelled reads them.
- The `except` fallbacks around `Text.get` in `save_current_novel_config`. They cannot fire once the text boxes exist.
- `create_new_project`, `show_novel_project_manager`, `show_character_import_window` and the role library. None of these is part of the project handle.
- `migrate_legacy_config` from `config_manager`. The comment at config_manager.py:313 says it was removed, and the file does not define it. So the imports at ui/main_window.py:13-17 and config_migration.py:10-13 raise ImportError as the code stands, and neither module loads. The model takes the function as a parameter that may fail and returns a record.
- The first profile `next(iter(llm_configs.values()))` in `__init__` depends on JSON key order, which a map does not have. Its value is not modelled.
- MainWindow.NovelGeneratorGUI.constructor, MainWindow.Launch: a config on which `__init__` raises is excluded by the `requires` rather than modelled. The application stops on these. The excluded configs are:
  - an `llm_configs` that is missing, not a dict, or whose first profile is not a dict. The file's first key is the parameter `first`, since a map keeps no order;
  - a `choose_configs` that is not a dict;
  - a `proxy_setting` that is missing or lacks one of its three keys;
  - an `embedding_configs` that cannot be searched or indexed by the tag, or whose chosen profile is not a dict (`EmbeddingProfile` is an error). A tag that is not found is not excluded: it falls back to the default profile.
- MainWindow.EmbeddingProfile: list membership uses Python's `==` at the top level only, where True and False equal 1 and 0. A float tag or element is compared by its repr, so `1.0` does not match `1`. A nested list or dict is compared structurally, so `[True]` does not match `[1]`.
- MainWindow.StartVarsNullFields, MainWindow.NovelGeneratorGUI.ShowNovelParams, MainWindow.NovelGeneratorGUI.ShowGenerationState, MainWindow.NovelGeneratorGUI.UpdateTextWidgets: a value handed to Tk as it is reads as `TkText` of it: a bool as Tcl's `1` or `0`, anything else as Python's `str()`, and a `None` given to a variable's `set` as `None`. A list becomes a Tcl list in Tk, and a float inserted into a text box is printed by Tcl; both may read differently from `str()`.
- ConfigMigration.Migrate, ConfigMigration.MigrateKeepsOthers: the modelled `migrate_legacy_config` has no effect on the disk, so it creates no novel project. A legacy config with no project already under `novels/` therefore makes `Migrate` return False. The messages at config_migration.py:65-72 expect the removed function to have created the projects.
- ConfigManager.NewNovelConfigStamped, ConfigManager.CreateNovelProject, ConfigManager.SaveNovelConfig, ConfigMigration.BackupConfig, ConfigMigration.BackupIsListed: each operation reads the clock once, as its `now` parameter. The source calls `datetime.now()` separately for:
  - `created_at` and `last_modified` (config_manager.py:225-226);
  - the stamp `save_novel_config` writes (config_manager.py:287);
  - the backup name (config_migration.py:19), and `copy2` gives the copy its own ctime.

  Those instants can differ, and the model makes them equal. So `created_at == last_modified` in a new record, and the `created` time `BackupIsListed` states being the name's instant, both come from this abstraction.
- ConfigManager.LoadNovelConfig: for a missing config file, the contract fixes the synthesised record only up to its `novel_params`. Those come from the global config as it is loaded at that moment. `LoadNovelConfigSynthesised`, `CreatedLoads` and `DefaultProjectCreated` pin the record down wherever that config is known.
- `get_novels_root_dir` joins `os.getcwd()`. Paths are modelled relative to the working directory, so `novels/` stands for it.
- JSON encoding and the on-disk format. A file either parses as a JSON object or is `Corrupt`; a top-level JSON value that is not an object counts as `Corrupt`.
- I/O errors other than "cannot be written here" (permissions, a full disk, read errors on an existing file). Writability is a property of the path.
- ConfigManager.ListingOutcome: with two or more entries, the model raises TypeError unless every `last_modified` is a str. Python also sorts keys that are all numbers, or all lists that compare. The model raises on those too. A str key mixed with any other kind raises in both, as do None and dict keys.
- ConfigManager.ReadEntry: a title that is a list or dict is shown in the project list with a fixed placeholder, not with Python's `str()` of it.
- ConfigManager.NovelProjects: the sort key is the `last_modified` str. Keys of another kind are never sorted, since the listing raises first (see ConfigManager.ListingOutcome above).
- ConfigManager.ListNovelProjects: raises TypeError on the keys ConfigManager.ListingOutcome raises on, including all-number keys that Python would sort.
- ConfigManager.DeleteNovelProject: resolves ".." as ConfigManager.CreateNovelProject does (next line).
- ConfigManager.CreateNovelProject: ".." in a path is resolved lexically: `a/..` is where `a` is, whether or not `a` exists. The operating system fails on `a/..` when `a` is missing. A name that starts with '/' makes `os.path.join` return it as an absolute path; the model resolves it below the working directory, and it does not model climbing above the working directory.
- ConfigMigration.BackupListing, ConfigMigration.ListBackupFiles: leave out directories as ConfigMigration.BackupAt does (next line).
- ConfigMigration.BackupAt: a directory whose name carries the backup prefix is listed by Python with its ctime. The model keeps no ctime for directories and leaves such entries out.
- The `size` field of a backup entry (`st_size`). Nothing reads it.
- The text of the `other_params` preview that `interactive_migration` prints. Only whether it raises is modelled.
- Order of equal keys in the two listings. It comes from `os.listdir` and a stable sort; the model keeps the stable sort but leaves the listing order as a parameter.
- `temperature` and other floats. They are carried as an opaque repr (`Num`).
- Python's `str()` of a list or dict shown in a text variable or a project label. It is printed as a fixed placeholder.
- Text.Lower: lower-casing is ASCII only. Classifying format tags and y/n answers comes out the same as under Unicode lower-casing. The only non-ASCII letters that lower-case to ASCII are the Kelvin sign (to 'k') and 'İ' (to 'i' plus a combining dot). No tag or answer contains a 'k', and the combining dot never matches.
- Text.ParseInt: `int()` is modelled on ASCII digits. Python also accepts other Unicode decimal digits.
- The vendor SDK adapters (OpenAI, Azure OpenAI, Ollama, Gemini, SiliconFlow) are opaque variants that carry their constructor arguments. `requests.post` is a parameter.
- A switch whose load raises sets the new path but keeps the old config, and it skips the refresh. The source does the same.
