/** The logic of components/SettingsPanel.tsx: the model search and its grouping by
    provider, the per-field setting and template edits, choosing, saving and importing
    template presets, the size-override warning and the active template. The handlers
    that change held state are methods of App.AppState; the values they compute are here. */
module SettingsPanel {
  import opened Common
  import opened Strings
  import opened Types
  import opened Sizing

  // ---------------------------------------------------------------------------
  // Model search and grouping

  /** The search test: the lower-cased query occurs in the lower-cased caption or in the
      lower-cased provider name. */
  predicate ModelMatches(p: ModelPreset, query: string)
  {
    Includes(Lower(p.caption), Lower(query)) || Includes(Lower(ProviderName(p.provider)), Lower(query))
  }

  /** `filteredModels`: the matching models, in catalog order. */
  function FilterModels(query: string): (r: seq<ModelPreset>)
    ensures IsSubsequence(r, MODEL_PRESETS)
    ensures forall i :: 0 <= i < |r| ==> ModelMatches(r[i], query)
    ensures forall k :: 0 <= k < |MODEL_PRESETS| && ModelMatches(MODEL_PRESETS[k], query) ==> MODEL_PRESETS[k] in r
  {
    Filter(MODEL_PRESETS, p => ModelMatches(p, query))
  }

  /** The empty query lists the whole catalog. */
  lemma EmptyQueryListsAll()
    ensures FilterModels("") == MODEL_PRESETS
  {
    forall k | 0 <= k < |MODEL_PRESETS| ensures ModelMatches(MODEL_PRESETS[k], "") {
      assert StartsWith(Lower(MODEL_PRESETS[k].caption), []);
    }
    FilterAll(MODEL_PRESETS, p => ModelMatches(p, ""));
  }

  /** The models of one provider, in their original order. */
  function OfProvider(models: seq<ModelPreset>, p: ModelProvider): (r: seq<ModelPreset>)
    ensures forall i :: 0 <= i < |r| ==> r[i].provider == p && r[i] in models
    ensures forall k :: 0 <= k < |models| && models[k].provider == p ==> models[k] in r
  {
    if models == [] then []
    else
      var init := models[..|models| - 1];
      var last := models[|models| - 1];
      assert models == init + [last];
      var r := OfProvider(init, p) + (if last.provider == p then [last] else []);
      assert forall k :: 0 <= k < |init| ==> init[k] == models[k];
      r
  }

  /** Each group keeps the catalog order: its members form a subsequence of the models. */
  lemma {:induction false} OfProviderOrdered(models: seq<ModelPreset>, p: ModelProvider)
    ensures IsSubsequence(OfProvider(models, p), models)
    decreases |models|
  {
    if models != [] {
      var init := models[..|models| - 1];
      var last := models[|models| - 1];
      assert models == init + [last];
      OfProviderOrdered(init, p);
      if last.provider == p {
        SubsequenceSnoc(OfProvider(init, p), init, last);
      } else {
        assert OfProvider(models, p) == OfProvider(init, p) + [];
        assert OfProvider(init, p) + [] == OfProvider(init, p);
        SubsequenceExtend(OfProvider(init, p), init, [last]);
      }
    }
  }

  lemma {:induction false} SubsequenceSnoc<T>(r: seq<T>, s: seq<T>, x: T)
    requires IsSubsequence(r, s)
    ensures IsSubsequence(r + [x], s + [x])
    decreases |s|
  {
    if r == [] {
      assert r + [x] == [x];
      SubsequenceOne(s, x);
    } else {
      assert s != [];
      assert (r + [x])[0] == r[0] && (r + [x])[1..] == r[1..] + [x];
      assert (s + [x])[0] == s[0] && (s + [x])[1..] == s[1..] + [x];
      if r[0] == s[0] && IsSubsequence(r[1..], s[1..]) {
        SubsequenceSnoc(r[1..], s[1..], x);
      } else {
        SubsequenceSnoc(r, s[1..], x);
      }
    }
  }

  lemma {:induction false} SubsequenceOne<T>(s: seq<T>, x: T)
    ensures IsSubsequence([x], s + [x])
    decreases |s|
  {
    if s != [] {
      assert (s + [x])[1..] == s[1..] + [x];
      SubsequenceOne(s[1..], x);
    } else {
      assert [x][1..] == [];
    }
  }

  lemma {:induction false} SubsequenceExtend<T>(r: seq<T>, s: seq<T>, t: seq<T>)
    requires IsSubsequence(r, s)
    ensures IsSubsequence(r, s + t)
    decreases |s|
  {
    if r != [] {
      assert s != [];
      assert (s + t)[0] == s[0] && (s + t)[1..] == s[1..] + t;
      if r[0] == s[0] && IsSubsequence(r[1..], s[1..]) {
        SubsequenceExtend(r[1..], s[1..], t);
      } else {
        SubsequenceExtend(r, s[1..], t);
      }
    }
  }

  /** Some model has provider p. */
  predicate HasProvider(models: seq<ModelPreset>, p: ModelProvider)
  {
    exists k :: 0 <= k < |models| && models[k].provider == p
  }

  /** A provider without models has an empty group. */
  lemma {:induction false} OfProviderAbsent(models: seq<ModelPreset>, p: ModelProvider)
    requires !HasProvider(models, p)
    ensures OfProvider(models, p) == []
    decreases |models|
  {
    if models != [] {
      OfProviderAbsent(models[..|models| - 1], p);
    }
  }

  /** One more model adds its own provider and no other. */
  lemma HasProviderSnoc(models: seq<ModelPreset>, i: nat, p: ModelProvider)
    requires i < |models|
    ensures HasProvider(models[..i + 1], p) <==> HasProvider(models[..i], p) || p == models[i].provider
  {
    if HasProvider(models[..i], p) {
      var k :| 0 <= k < i && models[..i][k].provider == p;
      assert models[..i + 1][k] == models[..i][k];
    }
    if HasProvider(models[..i + 1], p) && p != models[i].provider {
      var k :| 0 <= k < i + 1 && models[..i + 1][k].provider == p;
      assert models[..i][k] == models[..i + 1][k];
    }
    if p == models[i].provider {
      assert models[..i + 1][i] == models[i];
    }
  }

  /** One more model extends its own provider's group and no other. */
  lemma OfProviderSnoc(models: seq<ModelPreset>, i: nat, p: ModelProvider)
    requires i < |models|
    ensures OfProvider(models[..i + 1], p)
      == OfProvider(models[..i], p) + (if models[i].provider == p then [models[i]] else [])
  {
    assert models[..i + 1][..i] == models[..i];
  }

  /** `groups` holds, for every provider of `models` and no other, its models in order. */
  predicate Grouped(groups: map<ModelProvider, seq<ModelPreset>>, models: seq<ModelPreset>)
  {
    && (forall p :: p in groups <==> HasProvider(models, p))
    && (forall p :: p in groups ==> groups[p] == OfProvider(models, p))
  }

  /** The `reduce` callback: create the provider's list when it is missing, then push. */
  function Pushed(groups: map<ModelProvider, seq<ModelPreset>>, model: ModelPreset): map<ModelProvider, seq<ModelPreset>>
  {
    var g := if model.provider !in groups then groups[model.provider := []] else groups;
    g[model.provider := g[model.provider] + [model]]
  }

  /** One step of the `reduce` keeps the grouping of the prefix it has seen. */
  lemma PushedGrouped(groups: map<ModelProvider, seq<ModelPreset>>, models: seq<ModelPreset>, i: nat)
    requires i < |models| && Grouped(groups, models[..i])
    ensures Grouped(Pushed(groups, models[i]), models[..i + 1])
  {
    var model := models[i];
    var provider := model.provider;
    if provider !in groups {
      OfProviderAbsent(models[..i], provider);
    }
    var r := Pushed(groups, model);
    forall p ensures p in r <==> HasProvider(models[..i + 1], p) {
      HasProviderSnoc(models, i, p);
    }
    forall p | p in r ensures r[p] == OfProvider(models[..i + 1], p) {
      OfProviderSnoc(models, i, p);
    }
  }

  /** `groupedModels`: the `reduce` that pushes every model onto the list of its provider,
      creating the list on first use. */
  method GroupModels(models: seq<ModelPreset>) returns (groups: map<ModelProvider, seq<ModelPreset>>)
    ensures forall p :: p in groups <==> HasProvider(models, p)
    ensures forall p :: p in groups ==> groups[p] == OfProvider(models, p)
  {
    groups := map[];
    var i := 0;
    while i < |models|
      invariant 0 <= i <= |models|
      invariant Grouped(groups, models[..i])
    {
      PushedGrouped(groups, models, i);
      var model := models[i];
      var provider := model.provider;
      if provider !in groups {
        groups := groups[provider := []];
      }
      groups := groups[provider := groups[provider] + [model]];
      i := i + 1;
    }
    assert models[..i] == models;
  }

  /** Every model lands in exactly one group, the group of its own provider. */
  lemma GroupsPartition(models: seq<ModelPreset>, k: nat, p: ModelProvider)
    requires k < |models|
    ensures models[k] in OfProvider(models, p) <==> models[k].provider == p
  {
  }

  // ---------------------------------------------------------------------------
  // Field edits

  /** The value a `handleSettingChange(key, value)` call carries, one variant per key. */
  datatype SettingField =
    | UnitField(unit: SplitUnit)
    | SizeField(size: int)
    | BoundaryField(boundary: Boundary)
    | OverlapField(overlap: int)
    | ReplyBudgetField(replyBudget: int)
    | GuardBandField(guardBandPct: real)

  /** `{ ...prev, [key]: value }`. */
  function WithSetting(s: SplitSettings, f: SettingField): (r: SplitSettings)
    ensures r.modelPresetId == s.modelPresetId
    ensures r.unit == (if f.UnitField? then f.unit else s.unit)
    ensures r.size == (if f.SizeField? then f.size else s.size)
    ensures r.boundary == (if f.BoundaryField? then f.boundary else s.boundary)
    ensures r.overlap == (if f.OverlapField? then f.overlap else s.overlap)
    ensures r.replyBudget == (if f.ReplyBudgetField? then f.replyBudget else s.replyBudget)
    ensures r.guardBandPct == (if f.GuardBandField? then f.guardBandPct else s.guardBandPct)
  {
    match f
    case UnitField(v) => s.(unit := v)
    case SizeField(v) => s.(size := v)
    case BoundaryField(v) => s.(boundary := v)
    case OverlapField(v) => s.(overlap := v)
    case ReplyBudgetField(v) => s.(replyBudget := v)
    case GuardBandField(v) => s.(guardBandPct := v)
  }

  /** A field edit never changes the model, so `handleSettingsChange` applies it as is. */
  lemma SettingEditApplied(s: SplitSettings, f: SettingField)
    ensures SettingsChanged(s, Apply(x => WithSetting(x, f))) == WithSetting(s, f)
  {
  }

  /** Writing back the value a field already has changes nothing. */
  lemma SettingEditUnchanged(s: SplitSettings, f: SettingField)
    requires f.UnitField? ==> f.unit == s.unit
    requires f.SizeField? ==> f.size == s.size
    requires f.BoundaryField? ==> f.boundary == s.boundary
    requires f.OverlapField? ==> f.overlap == s.overlap
    requires f.ReplyBudgetField? ==> f.replyBudget == s.replyBudget
    requires f.GuardBandField? ==> f.guardBandPct == s.guardBandPct
    ensures WithSetting(s, f) == s
  {
  }

  /** The value a `handleTemplateChange(key, value)` call carries. */
  datatype TemplateField =
    | FirstMessageField(firstMessage: string)
    | HeaderField(perChunkHeader: string)
    | FooterField(perChunkFooter: string)

  function WithTemplate(t: TemplateSettings, f: TemplateField): (r: TemplateSettings)
    ensures r.firstMessage == (if f.FirstMessageField? then f.firstMessage else t.firstMessage)
    ensures r.perChunkHeader == (if f.HeaderField? then f.perChunkHeader else t.perChunkHeader)
    ensures r.perChunkFooter == (if f.FooterField? then f.perChunkFooter else t.perChunkFooter)
  {
    match f
    case FirstMessageField(v) => t.(firstMessage := v)
    case HeaderField(v) => t.(perChunkHeader := v)
    case FooterField(v) => t.(perChunkFooter := v)
  }

  // ---------------------------------------------------------------------------
  // Template presets

  predicate HasId(p: TemplatePreset, id: string)
  {
    p.id == id
  }

  /** `templatePresets.find(p => p.id === presetId)`. */
  function FindTemplate(presets: seq<TemplatePreset>, id: string): (r: Option<TemplatePreset>)
    ensures r.None? <==> forall k :: 0 <= k < |presets| ==> presets[k].id != id
    ensures r.Some? ==> r.value.id == id && r.value in presets
    ensures r.Some? ==> exists k :: (0 <= k < |presets| && presets[k] == r.value
      && forall j :: 0 <= j < k ==> presets[j].id != id)
  {
    Find(presets, p => HasId(p, id))
  }

  /** `handleTemplatePresetChange`: the settings of the chosen preset, or the current
      templates when no preset has that id. */
  function ChooseTemplate(presets: seq<TemplatePreset>, current: TemplateSettings, id: string): (r: TemplateSettings)
    ensures (forall k :: 0 <= k < |presets| ==> presets[k].id != id) ==> r == current
    ensures (exists k :: 0 <= k < |presets| && presets[k].id == id) ==>
      exists k :: 0 <= k < |presets| && presets[k].id == id && r == presets[k].settings
  {
    match FindTemplate(presets, id)
    case Some(p) => p.settings
    case None => current
  }

  predicate SameSettings(p: TemplatePreset, t: TemplateSettings)
  {
    p.settings == t
  }

  const CUSTOM_TEMPLATE: string := "custom"

  /** `activeTemplateId`: the id of the first preset whose settings are the current
      templates, otherwise `custom`. */
  function ActiveTemplateId(presets: seq<TemplatePreset>, t: TemplateSettings): (r: string)
    ensures (forall k :: 0 <= k < |presets| ==> presets[k].settings != t) ==> r == CUSTOM_TEMPLATE
    ensures (exists k :: 0 <= k < |presets| && presets[k].settings == t) ==>
      exists k :: (0 <= k < |presets| && presets[k].settings == t && presets[k].id == r
        && forall j :: 0 <= j < k ==> presets[j].settings != t)
  {
    match Find(presets, p => SameSettings(p, t))
    case Some(p) => p.id
    case None => CUSTOM_TEMPLATE
  }

  /** After choosing a preset, the active template is a preset with those settings: the
      chosen one itself unless an earlier preset has the same settings. */
  lemma ChosenTemplateActive(presets: seq<TemplatePreset>, current: TemplateSettings, k: nat)
    requires k < |presets|
    requires forall j :: 0 <= j < k ==> presets[j].id != presets[k].id
    ensures ChooseTemplate(presets, current, presets[k].id) == presets[k].settings
    ensures (forall j :: 0 <= j < k ==> presets[j].settings != presets[k].settings) ==>
      ActiveTemplateId(presets, presets[k].settings) == presets[k].id
  {
    FindFirst(presets, p => HasId(p, presets[k].id), k);
    if forall j :: 0 <= j < k ==> presets[j].settings != presets[k].settings {
      FindFirst(presets, p => SameSettings(p, presets[k].settings), k);
    }
  }

  /** The preset `handleSaveTemplate` creates from the name typed into the prompt. */
  function NewTemplatePreset(name: string, templates: TemplateSettings, now: int): TemplatePreset
  {
    TemplatePreset("custom-" + IntToString(now), name, templates)
  }

  /** `handleSaveTemplate`: a cancelled or empty prompt saves nothing; otherwise the current
      templates are appended as a new preset, after all existing ones. */
  function SavedPresets(presets: seq<TemplatePreset>, templates: TemplateSettings, name: Option<string>, now: int)
    : (r: seq<TemplatePreset>)
    ensures name.None? || name.value == [] ==> r == presets
    ensures name.Some? && name.value != [] ==>
      |r| == |presets| + 1 && r[..|presets|] == presets && r[|presets|].settings == templates
      && r[|presets|].caption == name.value && r[|presets|].id == "custom-" + IntToString(now)
  {
    if name.Some? && name.value != [] then presets + [NewTemplatePreset(name.value, templates, now)]
    else presets
  }

  /** Once saved, the current templates are no longer `custom`: some preset matches them. */
  lemma SavedTemplateMatches(presets: seq<TemplatePreset>, templates: TemplateSettings, name: string, now: int)
    requires name != []
    ensures var r := SavedPresets(presets, templates, Some(name), now);
      exists k :: 0 <= k < |r| && r[k].settings == templates && r[k].id == ActiveTemplateId(r, templates)
  {
    var r := SavedPresets(presets, templates, Some(name), now);
    assert r[|presets|].settings == templates;
  }

  // ---------------------------------------------------------------------------
  // Import

  /** One element of an imported JSON array; a field that is absent or not of the expected
      type is None. */
  datatype ImportedPreset = ImportedPreset(id: Option<string>, caption: Option<string>, settings: Option<TemplateSettings>)

  /** JavaScript truthiness of an optional string field. */
  predicate Truthy(s: Option<string>)
  {
    s.Some? && s.value != []
  }

  /** The check `p.id && p.label && p.settings` (any object is truthy). */
  predicate WellFormed(p: ImportedPreset)
  {
    Truthy(p.id) && Truthy(p.caption) && p.settings.Some?
  }

  function AsPreset(p: ImportedPreset): TemplatePreset
    requires WellFormed(p)
  {
    TemplatePreset(p.id.value, p.caption.value, p.settings.value)
  }

  /** The ids of a list of presets. */
  function Ids(presets: seq<TemplatePreset>): (r: set<string>)
    ensures forall k :: 0 <= k < |presets| ==> presets[k].id in r
    ensures forall id :: id in r ==> exists k :: 0 <= k < |presets| && presets[k].id == id
  {
    set k | 0 <= k < |presets| :: presets[k].id
  }

  predicate NotAmong(p: TemplatePreset, ids: set<string>)
  {
    p.id !in ids
  }

  /** `existing.filter(p => !ids.has(p.id))`. */
  function Kept(existing: seq<TemplatePreset>, ids: set<string>): (r: seq<TemplatePreset>)
    ensures forall k :: 0 <= k < |r| ==> r[k] in existing && r[k].id !in ids
    ensures forall k :: 0 <= k < |existing| && existing[k].id !in ids ==> existing[k] in r
    ensures IsSubsequence(r, existing)
    ensures forall x :: multiset(r)[x] == if x.id !in ids then multiset(existing)[x] else 0
  {
    FilterCounts(existing, p => NotAmong(p, ids));
    Filter(existing, p => NotAmong(p, ids))
  }

  /** `[...imported, ...existing.filter(p => !existingIds.has(p.id))]` with `existingIds` the
      ids of the imported presets. */
  function MergePresets(imported: seq<TemplatePreset>, existing: seq<TemplatePreset>): (r: seq<TemplatePreset>)
    ensures |r| >= |imported| && r[..|imported|] == imported
    ensures forall k :: |imported| <= k < |r| ==> r[k] in existing && r[k].id !in Ids(imported)
    ensures forall k :: 0 <= k < |existing| && existing[k].id !in Ids(imported) ==> existing[k] in r[|imported|..]
    ensures IsSubsequence(r[|imported|..], existing)
    ensures forall x :: multiset(r[|imported|..])[x] == if x.id !in Ids(imported) then multiset(existing)[x] else 0
  {
    var kept := Kept(existing, Ids(imported));
    var r := imported + kept;
    assert r[|imported|..] == kept;
    r
  }

  /** No id is lost by a merge: each existing id is still present, from the import or kept. */
  lemma MergeKeepsIds(imported: seq<TemplatePreset>, existing: seq<TemplatePreset>, k: nat)
    requires k < |existing|
    ensures exists j :: 0 <= j < |MergePresets(imported, existing)| && MergePresets(imported, existing)[j].id == existing[k].id
  {
    var r := MergePresets(imported, existing);
    if existing[k].id in Ids(imported) {
      var j :| 0 <= j < |imported| && imported[j].id == existing[k].id;
      assert r[j] == imported[j];
    } else {
      var tail := r[|imported|..];
      var j :| 0 <= j < |tail| && tail[j] == existing[k];
      assert r[|imported| + j] == existing[k];
    }
  }

  predicate IdsDistinct(presets: seq<TemplatePreset>)
  {
    forall i, j :: 0 <= i < j < |presets| ==> presets[i].id != presets[j].id
  }

  /** If the import and the existing list each have distinct ids, so does the merge. */
  lemma MergeDistinct(imported: seq<TemplatePreset>, existing: seq<TemplatePreset>)
    requires IdsDistinct(imported) && IdsDistinct(existing)
    ensures IdsDistinct(MergePresets(imported, existing))
  {
    var r := MergePresets(imported, existing);
    var n := |imported|;
    var tail := r[n..];
    assert DistinctBy(existing, (p: TemplatePreset) => p.id);
    SubsequenceDistinct(tail, existing, (p: TemplatePreset) => p.id);
    forall i, j | 0 <= i < j < |r| ensures r[i].id != r[j].id {
      if j < n {
        assert r[i] == imported[i] && r[j] == imported[j];
      } else if i < n {
        assert r[i] == imported[i];
        assert imported[i].id in Ids(imported);
      } else {
        assert r[i] == tail[i - n] && r[j] == tail[j - n];
      }
    }
  }

  /** Filtering the imported presets followed by an already filtered list leaves just that list. */
  lemma KeptTwice(imported: seq<TemplatePreset>, kept: seq<TemplatePreset>, ids: set<string>)
    requires forall k :: 0 <= k < |imported| ==> imported[k].id in ids
    requires forall k :: 0 <= k < |kept| ==> kept[k].id !in ids
    ensures Kept(imported + kept, ids) == kept
  {
    FilterAppend(imported, kept, p => NotAmong(p, ids));
    FilterNone(imported, p => NotAmong(p, ids));
    FilterAll(kept, p => NotAmong(p, ids));
  }

  /** Importing the same presets twice gives the same list as importing them once. */
  lemma MergeIdempotent(imported: seq<TemplatePreset>, existing: seq<TemplatePreset>)
    ensures MergePresets(imported, MergePresets(imported, existing)) == MergePresets(imported, existing)
  {
    var ids := Ids(imported);
    var kept := Kept(existing, ids);
    KeptTwice(imported, kept, ids);
  }

  /** The import step of `handleImportTemplates`: a parsed array whose every element has a
      truthy id, caption and settings is merged in front of the existing presets; anything
      else (unreadable file, invalid JSON, not an array, a bad element) leaves the list as
      it was, which None reports. */
  function ImportTemplates(existing: seq<TemplatePreset>, parsed: Option<seq<ImportedPreset>>)
    : (r: Option<seq<TemplatePreset>>)
    ensures r.Some? <==> parsed.Some? && forall k :: 0 <= k < |parsed.value| ==> WellFormed(parsed.value[k])
    ensures r.Some? ==>
      && |r.value| >= |parsed.value|
      && (forall k :: 0 <= k < |parsed.value| ==> r.value[k] == AsPreset(parsed.value[k]))
      && r.value[|parsed.value|..] == MergePresets(r.value[..|parsed.value|], existing)[|parsed.value|..]
  {
    if parsed.Some? && forall k :: 0 <= k < |parsed.value| ==> WellFormed(parsed.value[k]) then
      var items := parsed.value;
      var imported := seq(|items|, k requires 0 <= k < |items| => AsPreset(items[k]));
      var r := MergePresets(imported, existing);
      assert r[..|items|] == imported;
      Some(r)
    else None
  }

  // ---------------------------------------------------------------------------
  // Size warning and model choice

  /** `isSizeOverridden`: the size is strictly above the recommendation. */
  predicate SizeOverridden(s: SplitSettings, recommended: int)
  {
    s.size > recommended
  }

  /** A model change never leaves the warning on. */
  lemma ModelChangeNotOverridden(s: SplitSettings, presetId: string)
    ensures !SizeOverridden(ModelChanged(s, presetId), RecommendedChunkSize(ModelChanged(s, presetId)))
  {
    ModelChangeMatchesRecommendation(s, presetId);
  }

  /** `handlePresetChange` as written: the size becomes `recommended`, the recommendation
      shown for the settings before the change, while reply budget and guard band are
      reset to the chosen preset's defaults. */
  function PresetChosenAsWritten(s: SplitSettings, presetId: string, recommended: int): (r: SplitSettings)
    requires FindPreset(MODEL_PRESETS, presetId).Some?
    ensures r.modelPresetId == presetId && r.size == recommended
    ensures r.unit == s.unit && r.boundary == s.boundary && r.overlap == s.overlap
    ensures var p := FindPreset(MODEL_PRESETS, presetId).value;
      r.replyBudget == p.defaultReplyBudget && r.guardBandPct == p.defaultGuardBandPct
  {
    var preset := FindPreset(MODEL_PRESETS, presetId).value;
    s.(modelPresetId := presetId, size := recommended,
       replyBudget := preset.defaultReplyBudget, guardBandPct := preset.defaultGuardBandPct)
  }

  /** Re-selecting the current model after lowering the reply budget keeps the old, larger
      recommendation as the size: with GPT-4o and a reply budget of 1000 the size becomes
      124440 while the recommendation returns to 121440, so the warning comes on although
      the user just picked a preset. */
  lemma PresetReselectOverrides()
    ensures var s := DefaultSettings().(replyBudget := 1000);
      var v := PresetChosenAsWritten(s, DEFAULT_PRESET_ID, RecommendedChunkSize(s));
      var r := SettingsChanged(s, Replace(v));
      r.size == 124440 && RecommendedChunkSize(r) == 121440 && SizeOverridden(r, RecommendedChunkSize(r))
  {
    var s := DefaultSettings().(replyBudget := 1000);
    assert CurrentPreset(DEFAULT_PRESET_ID) == DefaultPreset();
    assert RecommendedChunkSize(s) == SafePartSize(128000, 1000, 0.02);
  }

  /** `handlePresetChange` as intended: the size is the safe part size of the chosen preset
      with its own default reply budget and guard band. */
  function PresetChosen(s: SplitSettings, presetId: string): (r: SplitSettings)
    requires FindPreset(MODEL_PRESETS, presetId).Some?
    ensures r.modelPresetId == presetId
    ensures r.unit == s.unit && r.boundary == s.boundary && r.overlap == s.overlap
    ensures var p := FindPreset(MODEL_PRESETS, presetId).value;
      && r.replyBudget == p.defaultReplyBudget && r.guardBandPct == p.defaultGuardBandPct
      && r.size == SafePartSize(p.inputContext, p.defaultReplyBudget, p.defaultGuardBandPct)
  {
    var preset := FindPreset(MODEL_PRESETS, presetId).value;
    s.(modelPresetId := presetId,
       size := SafePartSize(preset.inputContext, preset.defaultReplyBudget, preset.defaultGuardBandPct),
       replyBudget := preset.defaultReplyBudget, guardBandPct := preset.defaultGuardBandPct)
  }

  /** Whether or not the model changes, choosing a preset leaves the size exactly at the
      recommendation, so the warning is off. */
  lemma PresetChoiceNotOverridden(s: SplitSettings, presetId: string)
    requires FindPreset(MODEL_PRESETS, presetId).Some?
    ensures var r := SettingsChanged(s, Replace(PresetChosen(s, presetId)));
      r.size == RecommendedChunkSize(r) && !SizeOverridden(r, RecommendedChunkSize(r))
  {
    ModelChangeMatchesRecommendation(s, presetId);
  }
}
