/** The state App.tsx holds (its React state and the values it keeps in local storage) and
    the handlers that change it: the mount effect, the count refresh, model and settings
    changes, splitting into a session, loading, deleting and starting sessions, and the
    template handlers of the settings panel, which App passes its setters to. */
module App {
  import opened Common
  import opened Strings
  import opened Types
  import opened Splitter
  import opened Sizing
  import opened SettingsPanel

  /** The test `if (activeSessionId)`: a stored id that is neither null nor empty. */
  predicate Active(id: Option<string>)
  {
    id.Some? && id.value != []
  }

  /** `out` is what `splitText` returns for the text and settings. */
  ghost predicate IsSplitOf(out: seq<OutputChunk>, text: string, settings: SplitSettings)
    requires SplitTerminates(text, settings)
  {
    var pieces := Pieces(text, settings);
    && |out| == |pieces|
    && forall k :: 0 <= k < |out| ==> out[k] == OutputChunk(ChunkName(k, |out|), Trim(pieces[k]))
  }

  /** The values found in local storage when the page loads; None where nothing is stored
      (or the stored text does not parse), so that the initial value is used. */
  datatype Stored = Stored(
    settings: Option<SplitSettings>,
    templatePresets: Option<seq<TemplatePreset>>,
    templates: Option<TemplateSettings>,
    history: Option<seq<HistoryItem>>,
    activeSessionId: Option<Option<string>>)

  /** `item ? JSON.parse(item) : initialValue`. */
  function StoredOr<T>(stored: Option<T>, initial: T): T
  {
    if stored.Some? then stored.value else initial
  }

  /** The id `handleSplit` gives a new session. */
  function SessionId(now: int): (r: string)
    ensures Active(Some(r))
  {
    "session-" + IntToString(now)
  }

  /** Updating the entries of a session keeps every id, so every session is still found. */
  lemma UpdateKeepsSessions(history: seq<HistoryItem>, id: string, title: string, text: string,
                            chunks: seq<OutputChunk>, now: int, a: string)
    requires FindSession(history, a).Some?
    ensures FindSession(UpdateSession(history, id, title, text, chunks, now), a).Some?
  {
    var r := UpdateSession(history, id, title, text, chunks, now);
    var k :| 0 <= k < |history| && history[k] == FindSession(history, a).value;
    assert r[k].id == a;
  }

  /** Removing one id keeps every session with another id findable. */
  lemma RemoveKeepsOthers(history: seq<HistoryItem>, id: string, a: string)
    requires FindSession(history, a).Some? && a != id
    ensures FindSession(RemoveSession(history, id), a).Some?
  {
    var r := RemoveSession(history, id);
    var k :| 0 <= k < |history| && history[k] == FindSession(history, a).value;
    assert history[k] in r;
    var j :| 0 <= j < |r| && r[j] == history[k];
    assert r[j].id == a;
  }

  class AppState {
    var inputText: string
    var counts: Counts
    var outputChunks: seq<OutputChunk>
    var settings: SplitSettings
    var templatePresets: seq<TemplatePreset>
    var templates: TemplateSettings
    var history: seq<HistoryItem>
    var activeSessionId: Option<string>

    /** An active session id always names a session of the history. The handlers that state
        it change the history or the active id; every other handler keeps both, as its frame
        clauses say, and so keeps it too. */
    predicate Valid()
      reads this
    {
      Active(activeSessionId) ==> FindSession(history, activeSessionId.value).Some?
    }

    /** The initial state with the stored values, followed by the mount effect: a stored
        active session is loaded, or forgotten when the history no longer has it. */
    constructor Mount(stored: Stored)
      ensures settings == StoredOr(stored.settings, DefaultSettings())
      ensures templatePresets == StoredOr(stored.templatePresets, TEMPLATE_PRESETS)
      ensures templates == StoredOr(stored.templates, DEFAULT_TEMPLATE)
      ensures history == StoredOr(stored.history, [])
      ensures counts == Counts(0, 0, 0)
      ensures var active := StoredOr(stored.activeSessionId, None);
        var found := if Active(active) then FindSession(history, active.value) else None;
        && (found.Some? ==> activeSessionId == active && inputText == found.value.inputText
                             && outputChunks == found.value.outputChunks)
        && (found.None? ==> inputText == [] && outputChunks == []
                            && activeSessionId == if Active(active) then None else active)
      ensures Valid()
    {
      var h := StoredOr(stored.history, []);
      var active := StoredOr(stored.activeSessionId, None);
      var text, chunks, id := [], [], active;
      if Active(active) {
        var sessionToLoad := FindSession(h, active.value);
        if sessionToLoad.Some? {
          text, chunks := sessionToLoad.value.inputText, sessionToLoad.value.outputChunks;
        } else {
          id := None;
        }
      }
      settings := StoredOr(stored.settings, DefaultSettings());
      templatePresets := StoredOr(stored.templatePresets, TEMPLATE_PRESETS);
      templates := StoredOr(stored.templates, DEFAULT_TEMPLATE);
      history := h;
      counts := Counts(0, 0, 0);
      inputText, outputChunks, activeSessionId := text, chunks, id;
    }

    /** `updateCounts(inputText, currentPreset.encoding)`, once the debounce has fired. */
    method RefreshCounts()
      modifies this
      ensures counts == CountsOf(inputText, Encoding(settings))
      ensures inputText == old(inputText) && settings == old(settings) && outputChunks == old(outputChunks)
      ensures history == old(history) && activeSessionId == old(activeSessionId)
      ensures templates == old(templates) && templatePresets == old(templatePresets)
    {
      var encoding := Encoding(settings);
      counts := CountsOf(inputText, encoding);
    }

    /** `setInputText`, as the input panel calls it. */
    method EditInput(text: string)
      modifies this
      ensures inputText == text
      ensures counts == old(counts) && settings == old(settings) && outputChunks == old(outputChunks)
      ensures history == old(history) && activeSessionId == old(activeSessionId)
      ensures templates == old(templates) && templatePresets == old(templatePresets)
    {
      inputText := text;
    }

    /** `handleModelChange`. */
    method ModelChange(presetId: string)
      modifies this
      ensures settings == ModelChanged(old(settings), presetId)
      ensures settings.size == RecommendedChunkSize(settings)
      ensures inputText == old(inputText) && counts == old(counts) && outputChunks == old(outputChunks)
      ensures history == old(history) && activeSessionId == old(activeSessionId)
      ensures templates == old(templates) && templatePresets == old(templatePresets)
    {
      ModelChangeMatchesRecommendation(settings, presetId);
      settings := ModelChanged(settings, presetId);
    }

    /** `handleSettingsChange`: the setter App hands to the settings panel. */
    method ChangeSettings(u: SettingsUpdate)
      modifies this
      ensures settings == SettingsChanged(old(settings), u)
      ensures inputText == old(inputText) && counts == old(counts) && outputChunks == old(outputChunks)
      ensures history == old(history) && activeSessionId == old(activeSessionId)
      ensures templates == old(templates) && templatePresets == old(templatePresets)
    {
      match u {
        case Replace(v) =>
          if v.modelPresetId != settings.modelPresetId {
            ModelChange(v.modelPresetId);
          } else {
            settings := v;
          }
        case Apply(f) =>
          var prev := settings;
          var updated := f(prev);
          if updated.modelPresetId != prev.modelPresetId {
            ModelChange(updated.modelPresetId);
            settings := prev;
          } else {
            settings := updated;
          }
      }
    }

    /** The effect that runs when the recommendation changes; it leaves everything as is. */
    method Reconcile()
      modifies this
      ensures settings == old(settings)
      ensures inputText == old(inputText) && counts == old(counts) && outputChunks == old(outputChunks)
      ensures history == old(history) && activeSessionId == old(activeSessionId)
      ensures templates == old(templates) && templatePresets == old(templatePresets)
    {
      settings := Reconciled(settings);
    }

    /** `handleNewSession`: no active session, empty input and output, default settings and
        the first template preset. History and the saved presets stay. */
    method NewSession()
      modifies this
      ensures activeSessionId == None && inputText == [] && outputChunks == []
      ensures settings == DefaultSettings() && templates == DEFAULT_TEMPLATE
      ensures history == old(history) && templatePresets == old(templatePresets) && counts == old(counts)
      ensures Valid()
    {
      activeSessionId := None;
      inputText := [];
      outputChunks := [];
      settings := DefaultSettings();
      templates := DEFAULT_TEMPLATE;
    }

    /** `handleSplit`: the chunks replace the output; the active session is refreshed in
        place, or else a new session (id from the clock reading `idTime`) is put in front
        of the history and becomes active. `timestamp` is the clock reading stored with it. */
    method Split(idTime: int, timestamp: int)
      requires Valid()
      requires SplitTerminates(inputText, settings)
      modifies this
      ensures inputText == old(inputText) && settings == old(settings) && counts == old(counts)
      ensures IsSplitOf(outputChunks, inputText, settings)
      ensures templates == old(templates) && templatePresets == old(templatePresets)
      ensures old(Active(activeSessionId)) ==>
        && activeSessionId == old(activeSessionId)
        && history == UpdateSession(old(history), activeSessionId.value, SessionTitle(inputText),
             inputText, outputChunks, timestamp)
      ensures !old(Active(activeSessionId)) ==>
        && activeSessionId == Some(SessionId(idTime))
        && history == [HistoryItem(SessionId(idTime), SessionTitle(inputText), timestamp, inputText, outputChunks)]
             + old(history)
      ensures Valid()
    {
      var chunks := SplitText(inputText, settings);
      var title := SessionTitle(inputText);
      var updated, active;
      if Active(activeSessionId) {
        UpdateKeepsSessions(history, activeSessionId.value, title, inputText, chunks, timestamp, activeSessionId.value);
        updated := UpdateSession(history, activeSessionId.value, title, inputText, chunks, timestamp);
        active := activeSessionId;
      } else {
        var newSessionId := SessionId(idTime);
        var newHistoryItem := HistoryItem(newSessionId, title, timestamp, inputText, chunks);
        updated := [newHistoryItem] + history;
        active := Some(newSessionId);
      }
      outputChunks, history, activeSessionId := chunks, updated, active;
    }

    /** `handleLoadSession`: a session that exists becomes active with its input and
        output; an unknown id changes nothing. */
    method LoadSession(id: string)
      requires Valid()
      modifies this
      ensures FindSession(history, id).Some? ==>
        && activeSessionId == Some(id)
        && inputText == FindSession(history, id).value.inputText
        && outputChunks == FindSession(history, id).value.outputChunks
      ensures FindSession(history, id).None? ==>
        activeSessionId == old(activeSessionId) && inputText == old(inputText) && outputChunks == old(outputChunks)
      ensures history == old(history) && settings == old(settings) && counts == old(counts)
      ensures templates == old(templates) && templatePresets == old(templatePresets)
      ensures Valid()
    {
      var sessionToLoad := FindSession(history, id);
      if sessionToLoad.Some? {
        activeSessionId := Some(id);
        inputText := sessionToLoad.value.inputText;
        outputChunks := sessionToLoad.value.outputChunks;
      }
    }

    /** `handleDeleteSession`: every entry with the id goes; deleting the active session
        starts a new one. */
    method DeleteSession(id: string)
      requires Valid()
      modifies this
      ensures history == RemoveSession(old(history), id)
      ensures old(activeSessionId) == Some(id) ==>
        && activeSessionId == None && inputText == [] && outputChunks == []
        && settings == DefaultSettings() && templates == DEFAULT_TEMPLATE
      ensures old(activeSessionId) != Some(id) ==>
        && activeSessionId == old(activeSessionId) && inputText == old(inputText)
        && outputChunks == old(outputChunks) && settings == old(settings) && templates == old(templates)
      ensures templatePresets == old(templatePresets) && counts == old(counts)
      ensures Valid()
    {
      if Active(activeSessionId) && activeSessionId.value != id {
        RemoveKeepsOthers(history, id, activeSessionId.value);
      }
      history := RemoveSession(history, id);
      if activeSessionId == Some(id) {
        NewSession();
      }
    }

    /** `handleSettingChange(key, value)`, sent through `handleSettingsChange` as an updater. */
    method ChangeSetting(f: SettingField)
      modifies this
      ensures settings == WithSetting(old(settings), f)
      ensures inputText == old(inputText) && counts == old(counts) && outputChunks == old(outputChunks)
      ensures history == old(history) && activeSessionId == old(activeSessionId)
      ensures templates == old(templates) && templatePresets == old(templatePresets)
    {
      SettingEditApplied(settings, f);
      ChangeSettings(Apply(x => WithSetting(x, f)));
    }

    /** The model selector's choice, `handlePresetChange`: a new settings value whose size is
        the recommendation shown before the choice. Choosing another model goes through
        `handleModelChange`, so the size becomes the new recommendation and the warning is
        off; choosing the current model again stores the old recommendation as the size. */
    method ChoosePreset(presetId: string)
      requires FindPreset(MODEL_PRESETS, presetId).Some?
      modifies this
      ensures settings == SettingsChanged(old(settings),
        Replace(PresetChosenAsWritten(old(settings), presetId, RecommendedChunkSize(old(settings)))))
      ensures settings.modelPresetId == presetId
      ensures presetId != old(settings).modelPresetId ==> !SizeOverridden(settings, RecommendedChunkSize(settings))
      ensures presetId == old(settings).modelPresetId ==> settings.size == RecommendedChunkSize(old(settings))
      ensures inputText == old(inputText) && counts == old(counts) && outputChunks == old(outputChunks)
      ensures history == old(history) && activeSessionId == old(activeSessionId)
      ensures templates == old(templates) && templatePresets == old(templatePresets)
    {
      var recommended := RecommendedChunkSize(settings);
      ChangeSettings(Replace(PresetChosenAsWritten(settings, presetId, recommended)));
    }

    /** `handleTemplateChange(key, value)`. */
    method ChangeTemplate(f: TemplateField)
      modifies this
      ensures templates == WithTemplate(old(templates), f)
      ensures inputText == old(inputText) && counts == old(counts) && outputChunks == old(outputChunks)
      ensures history == old(history) && activeSessionId == old(activeSessionId)
      ensures settings == old(settings) && templatePresets == old(templatePresets)
    {
      templates := WithTemplate(templates, f);
    }

    /** `handleTemplatePresetChange`. */
    method ChooseTemplatePreset(id: string)
      modifies this
      ensures templates == ChooseTemplate(templatePresets, old(templates), id)
      ensures (forall k :: 0 <= k < |templatePresets| ==> templatePresets[k].id != id) ==> templates == old(templates)
      ensures inputText == old(inputText) && counts == old(counts) && outputChunks == old(outputChunks)
      ensures history == old(history) && activeSessionId == old(activeSessionId)
      ensures settings == old(settings) && templatePresets == old(templatePresets)
    {
      var preset := FindTemplate(templatePresets, id);
      if preset.Some? {
        templates := preset.value.settings;
      }
    }

    /** `handleSaveTemplate`, with the prompt's answer (None for a cancelled prompt) and the
        clock reading as parameters. */
    method SaveTemplate(name: Option<string>, now: int)
      modifies this
      ensures templatePresets == SavedPresets(old(templatePresets), templates, name, now)
      ensures |templatePresets| >= |old(templatePresets)| && templatePresets[..|old(templatePresets)|] == old(templatePresets)
      ensures inputText == old(inputText) && counts == old(counts) && outputChunks == old(outputChunks)
      ensures history == old(history) && activeSessionId == old(activeSessionId)
      ensures settings == old(settings) && templates == old(templates)
    {
      if name.Some? && name.value != [] {
        var newPreset := NewTemplatePreset(name.value, templates, now);
        templatePresets := templatePresets + [newPreset];
      }
    }

    /** The import handler once the file is read and parsed: valid presets are merged in
        front, anything else leaves the list unchanged. */
    method ImportPresets(parsed: Option<seq<ImportedPreset>>)
      modifies this
      ensures ImportTemplates(old(templatePresets), parsed).Some? ==>
        templatePresets == ImportTemplates(old(templatePresets), parsed).value
      ensures ImportTemplates(old(templatePresets), parsed).None? ==> templatePresets == old(templatePresets)
      ensures inputText == old(inputText) && counts == old(counts) && outputChunks == old(outputChunks)
      ensures history == old(history) && activeSessionId == old(activeSessionId)
      ensures settings == old(settings) && templates == old(templates)
    {
      var merged := ImportTemplates(templatePresets, parsed);
      if merged.Some? {
        templatePresets := merged.value;
      }
    }
  }
}
