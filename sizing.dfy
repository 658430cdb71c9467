/** The pure rules of App.tsx: the safe part size of a model, the default settings, the
    character/word/token counts, the estimated number of parts, the session title, and how
    a settings update is resolved (a change of model resets the sizing fields). */
module Sizing {
  import opened Common
  import opened Strings
  import opened Types
  import opened Splitter

  // ---------------------------------------------------------------------------
  // Safe part size and presets

  /** `computeSafePartSize`: the input context minus the reply budget and a guard band of
      `floor(inputContext * guardBandPct)`, but never below 100. */
  function SafePartSize(inputContext: int, replyBudget: int, guardBandPct: real): (r: int)
    ensures r >= 100
    ensures r >= inputContext - replyBudget - (inputContext as real * guardBandPct).Floor
    ensures r == 100 || r == inputContext - replyBudget - (inputContext as real * guardBandPct).Floor
  {
    var guard := (inputContext as real * guardBandPct).Floor;
    Max(100, inputContext - replyBudget - guard)
  }

  lemma SafePartSizeExamples()
    ensures SafePartSize(128000, 4000, 0.02) == 121440
    ensures SafePartSize(8000, 1000, 0.05) == 6600
    ensures SafePartSize(1000, 950, 0.02) == 100
  {
  }

  /** `presets.find(p => p.id === id)`. */
  function FindPreset(presets: seq<ModelPreset>, id: string): (r: Option<ModelPreset>)
    ensures r.None? <==> forall k :: 0 <= k < |presets| ==> presets[k].id != id
    ensures r.Some? ==> exists k :: (0 <= k < |presets| && presets[k] == r.value
      && r.value.id == id && forall j :: 0 <= j < k ==> presets[j].id != id)
  {
    if presets == [] then None
    else if presets[0].id == id then Some(presets[0])
    else
      var r := FindPreset(presets[1..], id);
      assert r.Some? ==> exists k :: (0 <= k < |presets| && presets[k] == r.value
        && r.value.id == id && forall j :: 0 <= j < k ==> presets[j].id != id) by {
        if r.Some? {
          var k :| 0 <= k < |presets[1..]| && presets[1..][k] == r.value
            && r.value.id == id && forall j :: 0 <= j < k ==> presets[1..][j].id != id;
          assert presets[k + 1] == r.value;
          forall j | 0 <= j < k + 1 ensures presets[j].id != id {
            if j > 0 { assert presets[j] == presets[1..][j - 1]; }
          }
        }
      }
      r
  }

  /** The default preset of the catalog (GPT-4o through the API). */
  function DefaultPreset(): (p: ModelPreset)
    ensures p.id == DEFAULT_PRESET_ID
    ensures p.inputContext == 128000 && p.defaultReplyBudget == 4000 && p.defaultGuardBandPct == 0.02
  {
    MODEL_PRESETS[1]
  }

  /** The default preset is the one the catalog lists under the default id. */
  lemma DefaultPresetFound()
    ensures FindPreset(MODEL_PRESETS, DEFAULT_PRESET_ID) == Some(DefaultPreset())
  {
    assert MODEL_PRESETS[0].id != DEFAULT_PRESET_ID;
    assert MODEL_PRESETS[1..][0].id == DEFAULT_PRESET_ID;
  }

  /** The preset a settings object refers to, falling back to the default preset for an unknown id. */
  function CurrentPreset(id: string): (p: ModelPreset)
    ensures FindPreset(MODEL_PRESETS, id).Some? ==> p == FindPreset(MODEL_PRESETS, id).value
    ensures FindPreset(MODEL_PRESETS, id).None? ==> p == DefaultPreset()
  {
    match FindPreset(MODEL_PRESETS, id)
    case Some(p) => p
    case None => DefaultPreset()
  }

  /** `getDefaultSettings`. */
  function DefaultSettings(): (s: SplitSettings)
    ensures s.unit == Tokens && s.boundary == Sentence && s.overlap == 50
    ensures s.modelPresetId == DEFAULT_PRESET_ID
    ensures s.replyBudget == DefaultPreset().defaultReplyBudget == 4000
    ensures s.guardBandPct == DefaultPreset().defaultGuardBandPct == 0.02
    ensures s.size == SafePartSize(128000, 4000, 0.02) == 121440
  {
    var p := DefaultPreset();
    SplitSettings(Tokens, SafePartSize(p.inputContext, p.defaultReplyBudget, p.defaultGuardBandPct),
      DEFAULT_PRESET_ID, Sentence, 50, p.defaultReplyBudget, p.defaultGuardBandPct)
  }

  /** `recommendedChunkSize`: the safe part size for the current model with the settings'
      own reply budget and guard band. */
  function RecommendedChunkSize(s: SplitSettings): (r: int)
    ensures r >= 100
  {
    SafePartSize(CurrentPreset(s.modelPresetId).inputContext, s.replyBudget, s.guardBandPct)
  }

  // ---------------------------------------------------------------------------
  // Counts

  /** `s.split(/\s+/)` as the ECMAScript split algorithm computes it; the piece started at p
      is closed at the first whitespace run, which is skipped as a whole. */
  function SplitWs(s: string, p: nat, q: nat): seq<string>
    requires p <= q <= |s|
    decreases |s| - q
  {
    if q == |s| then [s[p..]]
    else if IsSpace(s[q]) then
      var e := GapEnd(s, q);
      [s[p..q]] + SplitWs(s, e, e)
    else SplitWs(s, p, q + 1)
  }

  predicate NonEmpty(w: string)
  {
    w != []
  }

  predicate IsWordChar(c: char)
  {
    !IsSpace(c)
  }

  /** `text.trim().split(/\s+/).filter(Boolean).length`. */
  function WordCount(text: string): nat
  {
    |Filter(SplitWs(Trim(text), 0, 0), NonEmpty)|
  }

  /** Reference definition: the number of maximal runs of non-whitespace characters. */
  function RunCount(s: string): nat
    decreases |s|
  {
    if s == [] then 0
    else if IsSpace(s[0]) then RunCount(s[1..])
    else 1 + RunCount(s[Span(s, IsWordChar)..])
  }

  lemma RunCountSolid(t: string)
    requires forall i :: 0 <= i < |t| ==> !IsSpace(t[i])
    ensures RunCount(t) == if t == [] then 0 else 1
  {
    if t != [] {
      assert Span(t, IsWordChar) == |t|;
    }
  }

  /** Leading whitespace does not change the run count. */
  lemma {:induction false} RunCountSkip(t: string, n: nat)
    requires n <= |t| && forall i :: 0 <= i < n ==> IsSpace(t[i])
    ensures RunCount(t) == RunCount(t[n..])
    decreases n
  {
    if n > 0 {
      RunCountSkip(t[1..], n - 1);
      assert t[1..][n - 1..] == t[n..];
    }
  }

  /** Trailing whitespace does not change the run count. */
  lemma {:induction false} RunCountTrailing(r: string, w: string)
    requires IsBlank(w)
    ensures RunCount(r + w) == RunCount(r)
    decreases |r|
  {
    if r == [] {
      assert r + w == w;
      RunCountSkip(w, |w|);
      assert w[|w|..] == [];
    } else if IsSpace(r[0]) {
      assert (r + w)[0] == r[0];
      assert (r + w)[1..] == r[1..] + w;
      RunCountTrailing(r[1..], w);
    } else {
      var n := Span(r, IsWordChar);
      assert (r + w)[0] == r[0];
      forall i | 0 <= i < n ensures IsWordChar((r + w)[i]) {
        assert (r + w)[i] == r[i];
      }
      if n < |r| {
        assert (r + w)[n] == r[n];
      } else if w != [] {
        assert (r + w)[n] == w[0];
      } else {
        assert r + w == r;
      }
      SpanIs(r + w, IsWordChar, n);
      assert (r + w)[n..] == r[n..] + w;
      RunCountTrailing(r[n..], w);
    }
  }

  /** The number of non-empty pieces of `[x] + rest`. */
  lemma CountCons(x: string, rest: seq<string>)
    ensures |Filter([x] + rest, NonEmpty)| == (if x == [] then 0 else 1) + |Filter(rest, NonEmpty)|
  {
    assert ([x] + rest)[0] == x;
    assert ([x] + rest)[1..] == rest;
  }

  /** The end of the whitespace run that starts at q. */
  function GapEnd(s: string, q: nat): (e: nat)
    requires q < |s|
    ensures q < e <= |s| || (e == q && !IsSpace(s[q]))
  {
    q + Span(s[q..], IsSpace)
  }

  /** A whitespace run at q adds one run for the word before it, if any. */
  lemma RunCountGap(s: string, p: nat, q: nat)
    requires p <= q < |s| && IsSpace(s[q])
    requires forall i :: p <= i < q ==> !IsSpace(s[i])
    ensures RunCount(s[p..]) == (if p < q then 1 else 0) + RunCount(s[GapEnd(s, q)..])
  {
    RunCountSkipGap(s, q);
    if p < q {
      RunCountWord(s, p, q);
    } else {
      assert s[p..] == s[q..];
    }
  }

  /** Skipping the whitespace run at q keeps the run count. */
  lemma RunCountSkipGap(s: string, q: nat)
    requires q < |s|
    ensures RunCount(s[q..]) == RunCount(s[GapEnd(s, q)..])
  {
    var t := s[q..];
    var n := Span(t, IsSpace);
    var e := GapEnd(s, q);
    assert e == q + n;
    RunCountSkip(t, n);
    assert t[n..] == s[e..];
  }

  /** The pieces before a whitespace run at q count the runs from p, given those after it. */
  lemma SplitWsGap(s: string, p: nat, q: nat)
    requires p <= q < |s| && IsSpace(s[q])
    requires forall i :: p <= i < q ==> !IsSpace(s[i])
    requires |Filter(SplitWs(s, GapEnd(s, q), GapEnd(s, q)), NonEmpty)| == RunCount(s[GapEnd(s, q)..])
    ensures |Filter(SplitWs(s, p, q), NonEmpty)| == RunCount(s[p..])
  {
    var e := GapEnd(s, q);
    CountCons(s[p..q], SplitWs(s, e, e));
    RunCountGap(s, p, q);
  }

  /** The non-empty pieces of the split from p number the runs of s[p..]. */
  lemma {:induction false} SplitWsRuns(s: string, p: nat, q: nat)
    requires p <= q <= |s|
    requires forall i :: p <= i < q ==> !IsSpace(s[i])
    ensures |Filter(SplitWs(s, p, q), NonEmpty)| == RunCount(s[p..])
    decreases |s| - q
  {
    if q == |s| {
      RunCountSolid(s[p..]);
      CountCons(s[p..], []);
    } else if IsSpace(s[q]) {
      SplitWsRuns(s, GapEnd(s, q), GapEnd(s, q));
      SplitWsGap(s, p, q);
    } else {
      SplitWsRuns(s, p, q + 1);
    }
  }

  /** A word s[p..q] followed by whitespace counts one run before the rest. */
  lemma RunCountWord(s: string, p: nat, q: nat)
    requires p < q < |s|
    requires forall i :: p <= i < q ==> !IsSpace(s[i])
    requires IsSpace(s[q])
    ensures RunCount(s[p..]) == 1 + RunCount(s[q..])
  {
    var t := s[p..];
    forall i | 0 <= i < q - p ensures IsWordChar(t[i]) {
      assert t[i] == s[p + i];
    }
    assert t[q - p] == s[q];
    SpanIs(t, IsWordChar, q - p);
    assert t[0] == s[p];
    assert t[q - p..] == s[q..];
  }

  /** The word count is the number of maximal non-whitespace runs of the text. */
  lemma WordCountIsRunCount(text: string)
    ensures WordCount(text) == RunCount(text)
  {
    var t := TrimStart(text);
    var r := TrimEnd(t);
    assert Trim(text) == r;
    assert WordCount(text) == |Filter(SplitWs(r, 0, 0), NonEmpty)|;
    SplitWsRuns(r, 0, 0);
    assert r[0..] == r;
    assert WordCount(text) == RunCount(r);
    RunCountSkip(text, |text| - |t|);
    assert RunCount(text) == RunCount(t);
    TrailingBlank(t, r);
    RunCountTrailing(r, t[|r|..]);
  }

  /** What `trimEnd` drops is a whitespace tail. */
  lemma TrailingBlank(t: string, r: string)
    requires r == TrimEnd(t)
    ensures t == r + t[|r|..] && IsBlank(t[|r|..])
  {
    var w := t[|r|..];
    forall i | 0 <= i < |w| ensures IsSpace(w[i]) {
      assert w[i] == t[|r| + i];
    }
  }

  /** `currentPreset.encoding`: the encoding the token count uses. */
  function Encoding(s: SplitSettings): string
  {
    CurrentPreset(s.modelPresetId).encoding
  }

  /** The counts shown under the input: characters, words and (mock) tokens. */
  datatype Counts = Counts(chars: nat, words: nat, tokens: nat)

  /** The counts `updateCounts` settles on: tokens stay 0 for blank text. */
  function CountsOf(text: string, encoding: string): (c: Counts)
    ensures c.chars == |text| && c.words == WordCount(text)
    ensures c.tokens == 0 <==> IsBlank(text)
    ensures !IsBlank(text) ==> c.tokens == CountTokens(text, encoding)
  {
    Counts(|text|, WordCount(text), if Trim(text) == [] then 0 else CountTokens(text, encoding))
  }

  /** `Math.ceil(count / size)` for a natural count and a non-zero size of either sign. */
  function CeilQuotient(count: nat, size: int): (r: int)
    requires size != 0
    ensures size > 0 ==> r == CeilDiv(count, size)
    ensures size > 0 ==> (r - 1) * size < count <= r * size
    ensures size < 0 ==> r <= 0 && r * size <= count < (r - 1) * size
  {
    if size > 0 then CeilDiv(count, size)
    else
      NegativeCeil(count, -size);
      -(count / -size)
  }

  /** For a negative divisor -d the quotient rounds toward zero, which is upward. */
  lemma NegativeCeil(count: nat, d: int)
    requires d > 0
    ensures var r := -(count / d); r * -d <= count < (r - 1) * -d
  {
    var q := count / d;
    assert q * d <= count < q * d + d;
    assert -q * -d == q * d;
    assert (-q - 1) * -d == q * d + d;
  }

  /** `estimatedParts`: 0 when there are no tokens or the size is 0, otherwise the count the
      unit selects divided by the size, rounded up. */
  function EstimatedParts(counts: Counts, size: int, unit: SplitUnit): (r: int)
    ensures counts.tokens == 0 || size == 0 ==> r == 0
    ensures counts.tokens > 0 && size > 0 ==>
      var c := match unit case Tokens => counts.tokens case Characters => counts.chars case Words => counts.words;
      r >= 0 && c <= r * size && (r == 0 || (r - 1) * size < c)
    ensures counts.tokens > 0 && size < 0 ==>
      var c := match unit case Tokens => counts.tokens case Characters => counts.chars case Words => counts.words;
      r <= 0 && r * size <= c < (r - 1) * size
  {
    if counts.tokens == 0 || size == 0 then 0
    else
      match unit
      case Tokens => CeilQuotient(counts.tokens, size)
      case Characters => CeilQuotient(counts.chars, size)
      case Words => CeilQuotient(counts.words, size)
  }

  /** In the characters unit without a boundary the estimate is exactly the number of
      chunks `splitText` produces. */
  lemma EstimateMatchesSplit(text: string, settings: SplitSettings, encoding: string)
    requires settings.unit == Characters && settings.boundary == NoBoundary && settings.size > 0
    requires !IsBlank(text)
    ensures SplitTerminates(text, settings)
    ensures EstimatedParts(CountsOf(text, encoding), settings.size, settings.unit) == |Pieces(text, settings)|
  {
    NoBoundaryPiecesTile(text, settings);
    SlicesCount(text, settings.size);
  }

  // ---------------------------------------------------------------------------
  // Session title

  /** `s.split('\n')[0]`: s up to its first line feed. */
  function FirstLine(s: string): (r: string)
    ensures |r| <= |s| && r == s[..|r|]
    ensures forall i :: 0 <= i < |r| ==> r[i] != '\n'
    ensures |r| == |s| || s[|r|] == '\n'
  {
    if s == [] || s[0] == '\n' then []
    else [s[0]] + FirstLine(s[1..])
  }

  const UNTITLED: string := "Untitled Session"

  /** The title of a session: its first line, trimmed and cut to 50 characters, or
      "Untitled Session" when that leaves nothing. */
  function SessionTitle(text: string): (r: string)
    ensures IsBlank(FirstLine(text)) ==> r == UNTITLED
    ensures !IsBlank(FirstLine(text)) ==>
      && 0 < |r| <= 50
      && !IsSpace(r[0])
      && (|r| == 50 || r == Trim(FirstLine(text)))
      && (exists a :: SliceAt(FirstLine(text), a, r))
      && r == Trim(FirstLine(text))[..Min(50, |Trim(FirstLine(text))|)]
  {
    var line := FirstLine(text);
    var t := Trim(line);
    var cut := t[..Min(50, |t|)];
    if cut == [] then UNTITLED
    else
      TitleSlice(line, t, cut);
      cut
  }

  /** A prefix of a slice of the line is a slice of the line. */
  lemma TitleSlice(line: string, t: string, cut: string)
    requires t == Trim(line) && |cut| <= |t| && cut == t[..|cut|]
    ensures exists a :: SliceAt(line, a, cut)
  {
    var a :| SliceAt(line, a, t);
    assert SliceAt(line, a, cut);
  }

  // ---------------------------------------------------------------------------
  // Settings updates

  /** `handleModelChange`: store the id and take size, reply budget and guard band from the
      chosen preset (the default preset for an unknown id). */
  function ModelChanged(s: SplitSettings, presetId: string): (r: SplitSettings)
    ensures r.modelPresetId == presetId
    ensures r.unit == s.unit && r.boundary == s.boundary && r.overlap == s.overlap
    ensures var p := CurrentPreset(presetId);
      && r.replyBudget == p.defaultReplyBudget && r.guardBandPct == p.defaultGuardBandPct
      && r.size == SafePartSize(p.inputContext, p.defaultReplyBudget, p.defaultGuardBandPct)
  {
    var p := CurrentPreset(presetId);
    s.(modelPresetId := presetId,
       size := SafePartSize(p.inputContext, p.defaultReplyBudget, p.defaultGuardBandPct),
       replyBudget := p.defaultReplyBudget,
       guardBandPct := p.defaultGuardBandPct)
  }

  /** After a model change the size is exactly the recommendation for the new settings. */
  lemma ModelChangeMatchesRecommendation(s: SplitSettings, presetId: string)
    ensures ModelChanged(s, presetId).size == RecommendedChunkSize(ModelChanged(s, presetId))
  {
  }

  /** A model change is idempotent: choosing the same model twice is choosing it once. */
  lemma ModelChangeIdempotent(s: SplitSettings, presetId: string)
    ensures ModelChanged(ModelChanged(s, presetId), presetId) == ModelChanged(s, presetId)
  {
  }

  /** The argument of `handleSettingsChange`: a new settings value or an updater function. */
  datatype SettingsUpdate = Replace(value: SplitSettings) | Apply(f: SplitSettings -> SplitSettings)

  /** The settings the update asks for. */
  function Requested(current: SplitSettings, u: SettingsUpdate): SplitSettings
  {
    match u
    case Replace(v) => v
    case Apply(f) => f(current)
  }

  /** `handleSettingsChange`. Any update that keeps the model is applied as is. A new
      settings value that switches the model is routed through `handleModelChange` and the
      rest of it is dropped. An updater function that switches the model also calls
      `handleModelChange`, from inside the updater, but then returns `prev`: the storage hook
      applies the updater at once, so the model change is stored first and then overwritten
      by `prev`, and the settings stay as they were. */
  function SettingsChanged(current: SplitSettings, u: SettingsUpdate): (r: SplitSettings)
    ensures Requested(current, u).modelPresetId == current.modelPresetId ==> r == Requested(current, u)
    ensures u.Replace? ==> r.modelPresetId == u.value.modelPresetId
    ensures u.Replace? && u.value.modelPresetId != current.modelPresetId ==>
      && r == ModelChanged(current, u.value.modelPresetId)
      && r.unit == current.unit && r.boundary == current.boundary && r.overlap == current.overlap
      && r.size == RecommendedChunkSize(r)
    ensures u.Apply? && u.f(current).modelPresetId != current.modelPresetId ==> r == current
  {
    match u
    case Replace(v) =>
      if v.modelPresetId != current.modelPresetId then ModelChanged(current, v.modelPresetId) else v
    case Apply(f) =>
      var updated := f(current);
      if updated.modelPresetId != current.modelPresetId then current else updated
  }

  /** The effect run when the recommendation changes. The source works out whether the size
      was overridden (above the recommendation plus one) or was the old default, uses neither
      result, and returns the settings unchanged. */
  function Reconciled(prev: SplitSettings): (r: SplitSettings)
    ensures r == prev
  {
    prev
  }

  // ---------------------------------------------------------------------------
  // History

  predicate HasSessionId(item: HistoryItem, id: string)
  {
    item.id == id
  }

  /** `history.find(item => item.id === id)`: the first entry with that id. */
  function FindSession(history: seq<HistoryItem>, id: string): (r: Option<HistoryItem>)
    ensures r.None? <==> forall k :: 0 <= k < |history| ==> history[k].id != id
    ensures r.Some? ==> r.value.id == id && r.value in history
    ensures r.Some? ==> exists k :: (0 <= k < |history| && history[k] == r.value
      && forall j :: 0 <= j < k ==> history[j].id != id)
  {
    Find(history, item => HasSessionId(item, id))
  }

  /** The update `handleSplit` applies to an active session's entry. */
  function Refreshed(item: HistoryItem, title: string, text: string, chunks: seq<OutputChunk>, now: int): HistoryItem
  {
    item.(title := title, inputText := text, outputChunks := chunks, timestamp := now)
  }

  /** `history.map(item => item.id === id ? {...item, title, inputText, outputChunks, timestamp} : item)`. */
  function UpdateSession(history: seq<HistoryItem>, id: string, title: string, text: string,
                         chunks: seq<OutputChunk>, now: int): (r: seq<HistoryItem>)
    ensures |r| == |history|
    ensures forall k :: 0 <= k < |r| ==>
      r[k] == if history[k].id == id then Refreshed(history[k], title, text, chunks, now) else history[k]
  {
    seq(|history|, k requires 0 <= k < |history| =>
      if history[k].id == id then Refreshed(history[k], title, text, chunks, now) else history[k])
  }

  predicate NotId(item: HistoryItem, id: string)
  {
    item.id != id
  }

  /** `history.filter(item => item.id !== id)`. */
  function RemoveSession(history: seq<HistoryItem>, id: string): (r: seq<HistoryItem>)
    ensures forall k :: 0 <= k < |r| ==> r[k].id != id && r[k] in history
    ensures forall k :: 0 <= k < |history| && history[k].id != id ==> history[k] in r
    ensures IsSubsequence(r, history)
    ensures forall x :: multiset(r)[x] == if x.id != id then multiset(history)[x] else 0
  {
    FilterCounts(history, item => NotId(item, id));
    Filter(history, item => NotId(item, id))
  }

  /** Deleting an id that is not present changes nothing. */
  lemma RemoveAbsentSession(history: seq<HistoryItem>, id: string)
    requires forall k :: 0 <= k < |history| ==> history[k].id != id
    ensures RemoveSession(history, id) == history
  {
    FilterAll(history, item => NotId(item, id));
  }
}
