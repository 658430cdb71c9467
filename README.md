# TokenSlicer core, modelled in Dafny

TokenSlicer is a browser tool that cuts a long text into parts small enough for a language
model's context window. It names and trims each part and exports the parts as a Markdown
document or a ZIP archive with per-part templates around them. It keeps a history of split
sessions. This project models the logic behind that and proves properties of it:

- the splitter: `countTokens`, `splitByBoundary` and `splitText` of `services/mockApi.ts`;
- the sizing, counting and session rules of `App.tsx`, with the application state as a class
  whose methods are the state handlers;
- the text builders of `utils/fileUtils.ts`: templating, file-name sanitising, Reddit comment
  rendering, and the Markdown, ZIP and extracted-content exports;
- the list logic of `components/SettingsPanel.tsx`: model search and grouping, setting and
  template edits, saving, importing and merging template presets, the size-override warning
  and the active template id.

Modules:

| module | file | models |
|---|---|---|
| `Common` | `common.dfy` | `Option`, ceiling division, `list.join('')`, `filter`, `find`, subsequences |
| `Strings` | `strings.dfy` | JavaScript whitespace and `trim`, greedy spans, `includes`, global literal `replace`, `String(n)`, `padStart`, ASCII `toLowerCase` |
| `Types` | `types.dfy` | the records of `types.ts` and the catalog of `constants.ts` that the core reads |
| `Segmenter` | `segmenter.dfy` | `splitByBoundary`: the sentence regex match and the paragraph regex split |
| `Splitter` | `splitter.dfy` | `countTokens` and `splitText`: greedy packing, the size pass, token strides, naming |
| `Sizing` | `sizing.dfy` | the pure rules of `App.tsx`: safe part size, defaults, counts, estimate, titles, settings updates, history lists |
| `App` | `app.dfy` | class `AppState`: the state `App` keeps and the handlers that change it |
| `SettingsPanel` | `settings_panel.dfy` | model search and grouping, setting and template edits, preset save and import, override warning, active template |
| `FileUtils` | `file_utils.dfy` | `applyTemplate`, `sanitizeFilename`, `formatRedditComments` and the three export builders |

The three regular expressions the splitter and the word count use are replaced by scanners
that reproduce what the JavaScript engine computes for them:
- `/[^.!?]+[.!?]*\s*/g` is a match list that moves one character on after a failed attempt;
- `/(\r\n|\n){2,}/` is a split that also emits the last captured line break;
- `/\s+/` is a split on maximal whitespace runs.

Whitespace is the JavaScript `WhiteSpace` and `LineTerminator` set. Sizes, overlaps and budgets
are unbounded integers, because the number inputs can produce 0 or negative values. The
guard-band percentage is a `real`, so `Math.floor(inputContext * guardBandPct)` is exact.

The property `label` of presets is called `caption` in the model, because `label` is a Dafny
keyword.

`splitText` loops forever when the size is not positive (characters and words units) or when
`charsPerChunk - overlap` is not positive (tokens unit). The model therefore takes, as its
precondition `Splitter.SplitTerminates`, the settings under which the loops end for every overlap the slider can produce. A
blank text returns before any loop, so it needs no condition.

## Model

| member | source | states |
|---|---|---|
| Splitter.CountTokens | services/mockApi.ts:4-9 | the mock token count is the number of started groups of four characters, `ceil(len/4)`, whatever the encoding |
| Segmenter.SentenceMatches | services/mockApi.ts:14 | every sentence match is a non-empty run of non-terminators, then terminators, then whitespace |
| Segmenter.SentenceMatchLength | services/mockApi.ts:14 | a match starting at a non-terminator is the longest prefix with the sentence shape: that prefix is a sentence and no longer prefix is one, as the greedy regex takes it |
| Segmenter.SentenceMatchesLongest | services/mockApi.ts:14 | when the longest sentence prefix of the text has length n, the matches are that prefix followed by the matches of the rest |
| Segmenter.SentenceMatchesSkip | services/mockApi.ts:14 | when no prefix is a sentence, the global match skips the first character |
| Segmenter.SentenceMatchesErase | services/mockApi.ts:14 | the sentence matches, concatenated, are the text with only some `.`, `!`, `?` characters missing (the kept characters in order, each dropped one a terminator) |
| Segmenter.NoSentenceMatch | services/mockApi.ts:14 | there is no match exactly when the text is made of terminators only, so `splitByBoundary` falls back to `[text]` |
| Segmenter.BreakRun | services/mockApi.ts:17 | the run of line breaks at the start of a string: its length, its count, and its last break (`\n` or `\r\n`) |
| Segmenter.ParagraphSegmentsShape | services/mockApi.ts:17 | every paragraph segment has non-whitespace content and contains no two consecutive line breaks |
| Segmenter.ParagraphSegmentsErase | services/mockApi.ts:17 | the paragraph segments, concatenated, are the text with only some whitespace characters missing |
| Segmenter.SplitErases | services/mockApi.ts:17 | the pieces of `split(/(\r\n\|\n){2,}/)`, captured line breaks included, from any position, concatenated, are the rest of the text with only whitespace missing |
| Segmenter.SplitPiecesNoBlankLine | services/mockApi.ts:17 | no piece of the paragraph split, separators included, contains a blank line |
| Segmenter.SeparatorNoBlankLine | services/mockApi.ts:17 | the piece before a separator and the captured break contain no blank line |
| Segmenter.PieceNoBlankLine | services/mockApi.ts:17 | a piece that ends at the first blank line contains none |
| Segmenter.BlankPieces | services/mockApi.ts:17 | if every piece of the split is blank, so is the text |
| Segmenter.ParagraphSegmentsExist | services/mockApi.ts:17 | a text with non-whitespace content has at least one paragraph segment |
| Splitter.Carry | services/mockApi.ts:39-40 | the carried text is the last `min(overlap, len)` characters of the closed chunk when overlap is positive, and empty otherwise |
| Splitter.Pack | services/mockApi.ts:34-45 | the packing loop computes the greedy packing `Packed` of the segments |
| Splitter.PackedShape | services/mockApi.ts:34-45 | every packed chunk is non-empty and begins with the carried tail of the previous one; without the carried prefixes the chunks concatenate to the segments |
| Splitter.PackFromShape | services/mockApi.ts:36-45 | the same three facts for packing that starts from any loop state |
| Splitter.PackFromExtend | services/mockApi.ts:41-43 | the step that appends a segment to the current chunk keeps those facts |
| Splitter.PackFromClose | services/mockApi.ts:37-40 | the step that closes the current chunk and starts the next with the carry keeps those facts |
| Splitter.StripSnoc | services/mockApi.ts:38 | closing a chunk keeps the chunks chained and adds the chunk's new text |
| Splitter.FreshExtend | services/mockApi.ts:42 | appending to the current chunk adds to its new text and keeps its carried prefix |
| Splitter.PackedNoOverlap | services/mockApi.ts:36-45 | without overlap the packed chunks concatenate to the segments |
| Splitter.StripNothing | services/mockApi.ts:40 | without overlap nothing is carried |
| Splitter.PackedNonEmpty | services/mockApi.ts:36-45 | packing segments with some content gives chunks with some content |
| Splitter.SlicesShape | services/mockApi.ts:50-52 | slicing a chunk gives pieces of 1 to size characters, all full but the last, that concatenate back to the chunk |
| Splitter.SlicesCount | services/mockApi.ts:50-52 | a chunk gives `ceil(len/size)` pieces |
| Splitter.EnforceAllShape | services/mockApi.ts:48-54 | after the size pass no piece is empty or longer than size, and the pieces concatenate to the chunks |
| Splitter.Enforce | services/mockApi.ts:48-54 | the size-pass loop computes `EnforceAll` |
| Splitter.CharsPerChunk | services/mockApi.ts:57-59 | the token-path chunk width is positive for a non-empty text and a positive size |
| Splitter.StridesShape | services/mockApi.ts:60-62 | every stride has 1 to `charsPerChunk` characters |
| Splitter.StridesTile | services/mockApi.ts:60-62 | with overlap 0 the strides concatenate to the text |
| Splitter.StridesOverlap | services/mockApi.ts:60-62 | each stride after the first begins with the previous stride minus its first `step` characters, so consecutive strides share what the overlap carries |
| Splitter.Stride | services/mockApi.ts:60-62 | the token-path loop computes `Strides` |
| Splitter.SplitText | services/mockApi.ts:22-71 | one output chunk per piece, in order: piece k of n is named `split_<k+1>_of_<n>.txt` and holds the trimmed piece; a blank text gives no chunks |
| Splitter.PiecesBounded | services/mockApi.ts:25-63 | a non-blank text gives at least one piece; no piece is empty; pieces are at most size (characters, words) or `charsPerChunk` (tokens) long |
| Splitter.SegmentsNonEmpty | services/mockApi.ts:11-20 | the segments of a non-blank text have some content, for every boundary |
| Splitter.NoBoundaryPiecesTile | services/mockApi.ts:32-54 | with boundary none, the characters or words pieces are the text cut into consecutive slices of size characters, so nothing is lost or repeated |
| Splitter.SentencePiecesErase | services/mockApi.ts:32-54 | with sentence boundaries and no overlap, the pieces concatenate to the text with only some terminators missing |
| Splitter.TokenPiecesTile | services/mockApi.ts:56-63 | with the tokens unit and overlap 0, the pieces concatenate to the text |
| Splitter.ChunkNameExample | services/mockApi.ts:68 | the first of twelve chunks is named `split_001_of_012.txt` |
| Splitter.ChunkNamesDistinct | services/mockApi.ts:68 | different positions give different names |
| Splitter.Pad3Differ | services/mockApi.ts:68 | the zero-padded forms of different numbers differ; padding never truncates |
| Strings.Trim | services/mockApi.ts:25 | `trim` returns a slice of the string that is empty exactly for blank strings and otherwise starts and ends with non-whitespace |
| Strings.TrimRemovesWhitespace | services/mockApi.ts:25 | what `trim` drops before and after the result is whitespace only |
| Strings.PaddedValue | services/mockApi.ts:68 | `String(n).padStart(w, '0')` is a digit string that still writes n |
| Strings.NatToStringValue | services/mockApi.ts:68 | `String(n)` is a digit string without a leading zero that writes n |
| Strings.PadStart | services/mockApi.ts:68 | `padStart` puts copies of the pad before the string, up to the width, and never shortens it |
| Sizing.SafePartSize | App.tsx:13-22 | the safe part size is `max(100, inputContext - replyBudget - floor(inputContext * guardBandPct))`, so at least 100 |
| Sizing.SafePartSizeExamples | App.tsx:13-22 | 121440 for 128000/4000/0.02, 6600 for 8000/1000/0.05, and the floor of 100 for 1000/950/0.02 |
| Sizing.DefaultPreset | App.tsx:25 | the default preset has the default id, a 128000 context, a 4000 reply budget and a 0.02 guard band |
| Sizing.DefaultPresetFound | App.tsx:25 | the catalog search for the default id finds the default preset |
| Sizing.FindPreset | App.tsx:89 | the search finds the first preset with the id, or nothing when no preset has it |
| Sizing.CurrentPreset | App.tsx:88-90 | the preset of the settings' id, or the default preset when the id is unknown |
| Sizing.DefaultSettings | App.tsx:24-39 | the defaults: tokens, sentence boundary, overlap 50, the default preset's reply budget and guard band, and size 121440 |
| Sizing.RecommendedChunkSize | App.tsx:115-121 | the recommendation is the safe part size for the current model with the settings' own budget and guard band, so at least 100 |
| Sizing.WordCountIsRunCount | App.tsx:80 | the word count equals the number of maximal runs of non-whitespace characters |
| Sizing.SplitWsRuns | App.tsx:80 | the non-empty pieces of the whitespace split from a word start number the runs after it |
| Sizing.SplitWsGap | App.tsx:80 | a whitespace run adds the word before it, if any, to the runs after it |
| Sizing.RunCountGap | App.tsx:80 | the run count before a whitespace run is the runs after it plus one for a word in front |
| Sizing.RunCountSkipGap | App.tsx:80 | skipping a whitespace run keeps the run count |
| Sizing.RunCountWord | App.tsx:80 | a word followed by whitespace counts as one run before the rest |
| Sizing.RunCountSkip | App.tsx:80 | leading whitespace does not change the run count |
| Sizing.RunCountTrailing | App.tsx:80 | trailing whitespace does not change the run count |
| Sizing.CountCons | App.tsx:80 | `filter(Boolean)` counts a leading piece exactly when it is non-empty |
| Sizing.TrailingBlank | App.tsx:80 | what `trimEnd` drops is a whitespace tail |
| Sizing.CountsOf | App.tsx:78-86 | the counts: characters are the length, words are the word count, and tokens are 0 exactly for blank text and otherwise the mock token count |
| Sizing.EstimatedParts | App.tsx:148-154 | the estimate is 0 without tokens or size; for a positive size it is the ceiling of the unit's count divided by the size; for a negative size it is the non-positive r with r·size ≤ count < (r−1)·size, the value of `Math.ceil` |
| Sizing.CeilQuotient | App.tsx:150-152 | `Math.ceil(count / size)`: for a positive size the least r with count ≤ r·size; for a negative size the non-positive r with r·size ≤ count < (r−1)·size |
| Sizing.EstimateMatchesSplit | App.tsx:148-154 | in the characters unit without a boundary the estimate is exactly the number of chunks the split produces |
| Sizing.FirstLine | App.tsx:184 | `split('\n')[0]` is the prefix of the text up to its first line feed |
| Sizing.SessionTitle | App.tsx:184 | the title is `Untitled Session` for a blank first line; otherwise it is the first 50 characters of the trimmed first line (all of it when shorter), which start with non-whitespace |
| Sizing.TitleSlice | App.tsx:184 | a prefix of the trimmed line is a slice of the line |
| Sizing.ModelChanged | App.tsx:99-113 | a model change stores the id, takes the safe size, reply budget and guard band of that preset (or of the default preset for an unknown id), and keeps unit, boundary and overlap |
| Sizing.ModelChangeMatchesRecommendation | App.tsx:99-121 | after a model change the size equals the recommendation |
| Sizing.ModelChangeIdempotent | App.tsx:99-113 | choosing the same model twice is choosing it once |
| Sizing.SettingsChanged | App.tsx:226-243 | an object that switches the model gives the model change: the chosen preset's id, budget, guard band and safe size, with unit, boundary and overlap kept; an updater that switches the model leaves the settings as they were, because the storage hook applies it at once and the outer updater returns the previous value; any other update is applied as is |
| Sizing.Reconciled | App.tsx:123-145 | the recommendation effect returns the previous settings unchanged |
| Sizing.FindSession | App.tsx:67 | the history search finds the first item with the id, or nothing exactly when no item has it |
| Sizing.UpdateSession | App.tsx:187 | the active-session update keeps the length and changes exactly the items with the id (title, text, chunks, timestamp) |
| Sizing.RemoveSession | App.tsx:219 | deleting keeps, in order, exactly the items with another id, each as many times as it was there |
| Sizing.RemoveAbsentSession | App.tsx:219 | deleting an absent id changes nothing |
| App.SessionId | App.tsx:189 | a new session id is a non-empty string, so the session counts as active |
| App.UpdateKeepsSessions | App.tsx:187 | updating a session keeps every session findable |
| App.RemoveKeepsOthers | App.tsx:219 | deleting one id keeps every session with another id findable |
| App.AppState.Mount | App.tsx:45-76 | initial state from storage or defaults; a stored active session is loaded when the history has it and forgotten otherwise |
| App.AppState.RefreshCounts | App.tsx:78-97 | the counts become those of the input text for the current preset's encoding; nothing else changes |
| App.AppState.EditInput | App.tsx:45 | only the input text changes |
| App.AppState.ModelChange | App.tsx:99-113 | the settings become the model change of the old settings, and the size equals the recommendation |
| App.AppState.ChangeSettings | App.tsx:226-243 | the settings become the routed update of the old settings (the model change for an object that switches the model, the old settings for an updater that does); nothing else changes |
| App.AppState.Reconcile | App.tsx:123-145 | the recommendation effect leaves all state unchanged |
| App.AppState.NewSession | App.tsx:167-175 | no active session, empty input and output, default settings and the first template; history and presets stay |
| App.AppState.Split | App.tsx:177-205 | the output becomes the split of the input; the active session is updated in place, or else a new session with the title goes in front and becomes active; the active id stays in the history |
| App.AppState.LoadSession | App.tsx:207-216 | a known id becomes active with its text and chunks; an unknown id changes nothing |
| App.AppState.DeleteSession | App.tsx:218-223 | the history loses every item with the id; deleting the active session resets to a new session; otherwise the rest stays |
| App.AppState.ChangeSetting | components/SettingsPanel.tsx:137-139 | the settings change in the one named field |
| App.AppState.ChoosePreset | components/SettingsPanel.tsx:126-135 | choosing a model sends the handler's object, sized with the recommendation before the change, through the settings handler; the id is stored; choosing another model leaves the override warning off, and re-choosing the current one stores the old recommendation |
| App.AppState.ChangeTemplate | components/SettingsPanel.tsx:141-143 | the templates change in the one named field |
| App.AppState.ChooseTemplatePreset | components/SettingsPanel.tsx:145-150 | the templates become the chosen preset's, and stay as they were for an unknown id |
| App.AppState.SaveTemplate | components/SettingsPanel.tsx:152-163 | the presets are the saved list: the existing ones unchanged, then the new one for a non-empty name |
| App.AppState.ImportPresets | components/SettingsPanel.tsx:165-191 | a valid import replaces the presets by the merge; an invalid one leaves them unchanged |
| SettingsPanel.FilterModels | components/SettingsPanel.tsx:46-48 | the search keeps, in catalog order, exactly the models whose lower-cased label or provider contains the lower-cased query |
| SettingsPanel.EmptyQueryListsAll | components/SettingsPanel.tsx:46-48 | the empty query lists the whole catalog |
| Strings.Includes | components/SettingsPanel.tsx:47 | `includes` holds exactly when the pattern occurs at some position |
| Strings.Lower | components/SettingsPanel.tsx:47 | `toLowerCase` keeps the length, maps each capital to its small letter, keeps every other character and leaves no capital |
| Strings.LowerIdempotent | components/SettingsPanel.tsx:47 | lowering twice equals lowering once |
| SettingsPanel.GroupModels | components/SettingsPanel.tsx:50-57 | the groups have a key exactly for the providers present, and each group is that provider's models in order |
| SettingsPanel.PushedGrouped | components/SettingsPanel.tsx:51-55 | one step of the `reduce` keeps the grouping of the models seen so far |
| SettingsPanel.OfProvider | components/SettingsPanel.tsx:50-57 | a group holds exactly the models of its provider |
| SettingsPanel.OfProviderOrdered | components/SettingsPanel.tsx:50-57 | a group keeps the catalog order |
| SettingsPanel.OfProviderSnoc | components/SettingsPanel.tsx:54 | one more model extends its own provider's group and no other |
| SettingsPanel.OfProviderAbsent | components/SettingsPanel.tsx:53 | a provider without models has an empty group |
| SettingsPanel.HasProviderSnoc | components/SettingsPanel.tsx:53 | one more model adds its own provider and no other |
| SettingsPanel.GroupsPartition | components/SettingsPanel.tsx:50-57 | every model is in exactly one group, that of its own provider |
| SettingsPanel.WithSetting | components/SettingsPanel.tsx:137-139 | a setting edit changes only the named field |
| SettingsPanel.SettingEditApplied | components/SettingsPanel.tsx:137-139 | a field edit never switches the model, so the routing applies it as is |
| SettingsPanel.SettingEditUnchanged | components/SettingsPanel.tsx:137-139 | writing back a field's current value changes nothing |
| SettingsPanel.WithTemplate | components/SettingsPanel.tsx:141-143 | a template edit changes only the named field |
| SettingsPanel.FindTemplate | components/SettingsPanel.tsx:146 | the template search finds the first preset with the id, or nothing exactly when none has it |
| SettingsPanel.ChooseTemplate | components/SettingsPanel.tsx:145-150 | the chosen preset's settings, or the current templates when no preset has the id |
| SettingsPanel.ActiveTemplateId | components/SettingsPanel.tsx:196-199 | the id of the first preset whose settings equal the templates, else `custom` |
| SettingsPanel.ChosenTemplateActive | components/SettingsPanel.tsx:145-150 | after a preset is chosen it is the active template, unless an earlier preset has the same settings |
| SettingsPanel.SavedPresets | components/SettingsPanel.tsx:152-163 | a cancelled or empty name saves nothing; otherwise one preset with id `custom-<now>`, the templates and the name is appended after the existing ones |
| SettingsPanel.SavedTemplateMatches | components/SettingsPanel.tsx:152-163 | after a save, some preset matches the current templates |
| SettingsPanel.Ids | components/SettingsPanel.tsx:178 | the id set holds exactly the presets' ids |
| SettingsPanel.Kept | components/SettingsPanel.tsx:179 | the filter keeps, in order, exactly the existing presets whose id is not imported, each as many times as it was there |
| SettingsPanel.MergePresets | components/SettingsPanel.tsx:178-179 | the merge is the imported presets, then, in order, exactly the existing presets with other ids, each as many times as it was there |
| SettingsPanel.MergeKeepsIds | components/SettingsPanel.tsx:178-179 | every existing id is still present after the merge |
| SettingsPanel.MergeDistinct | components/SettingsPanel.tsx:178-179 | if both lists have distinct ids, so does the merge |
| SettingsPanel.KeptTwice | components/SettingsPanel.tsx:179 | filtering the imported presets plus an already-filtered list leaves that list |
| SettingsPanel.MergeIdempotent | components/SettingsPanel.tsx:178-179 | importing the same presets twice gives the same list as once |
| SettingsPanel.ImportTemplates | components/SettingsPanel.tsx:172-187 | an import is accepted exactly when it parsed and every entry has a truthy id, label and settings; the result is the imported presets followed by the merge's kept part |
| SettingsPanel.ModelChangeNotOverridden | components/SettingsPanel.tsx:194 | after a model change the override warning is off |
| SettingsPanel.PresetChosenAsWritten | components/SettingsPanel.tsx:126-135 | the handler as written: the id and the preset's budget and guard band are stored, and the size becomes the recommendation shown before the change |
| SettingsPanel.PresetReselectOverrides | components/SettingsPanel.tsx:126-135 | as written, re-selecting GPT-4o after lowering the reply budget to 1000 leaves size 124440 above the new recommendation 121440, so the warning shows |
| SettingsPanel.PresetChosen | components/SettingsPanel.tsx:126-135 | the handler as intended: the size is the safe part size of the chosen preset's own defaults |
| SettingsPanel.PresetChoiceNotOverridden | components/SettingsPanel.tsx:126-135 | as intended, choosing any preset leaves the size at the recommendation, so the warning is off |
| FileUtils.FillRemoves | utils/fileUtils.ts:6-7 | no `{part}` or `{total}` is left after the replacements |
| FileUtils.FillPlain | utils/fileUtils.ts:6-7 | a template without placeholders comes out unchanged |
| FileUtils.PlaceholdersRemoved | utils/fileUtils.ts:7 | replacing by digit strings removes both placeholders |
| FileUtils.DigitsAvoid | utils/fileUtils.ts:7 | no character other than a digit, such as the braces and letters of a placeholder, occurs in a digit string |
| Strings.ReplaceAllRemoves | utils/fileUtils.ts:7 | after a global replacement the pattern no longer occurs, nor does any string absent before that shares no character with the replacement |
| Strings.ReplaceAllFree | utils/fileUtils.ts:7 | a string without the pattern is unchanged by the replacement |
| Strings.ReplaceAllPrefix | utils/fileUtils.ts:7 | a prefix of the result that uses no character of the replacement is a prefix of the input |
| Strings.ReplacedHead | utils/fileUtils.ts:7 | where a replacement happened, the result starts with the replacement |
| FileUtils.ApplyTemplateShape | utils/fileUtils.ts:5-10 | a templated part is the filled header, a line feed, the content unchanged, a line feed and the filled footer, with no placeholder left in header or footer |
| FileUtils.ApplyTemplatePlain | utils/fileUtils.ts:5-10 | with plain header and footer the part is just the three lines |
| FileUtils.MarkdownExport | utils/fileUtils.ts:36-49 | the export loop builds the Markdown document of the chunks |
| FileUtils.ExportStep | utils/fileUtils.ts:47-48 | one iteration appends the next part's heading and block |
| FileUtils.MarkdownInstructions | utils/fileUtils.ts:40-42 | the document opens with the instructions block exactly when the first message is not blank |
| FileUtils.MarkdownFirstPart | utils/fileUtils.ts:40-48 | without instructions the document opens with the heading `### Part 1 of n` |
| FileUtils.SectionStartsWithTitle | utils/fileUtils.ts:47 | each part section opens with its title |
| FileUtils.TitleStartsWithHeading | utils/fileUtils.ts:47 | each part title opens with `### Part ` |
| FileUtils.FirstPartTitle | utils/fileUtils.ts:47 | the first title is `### Part 1 of n` |
| FileUtils.PartSections | utils/fileUtils.ts:44-49 | one section per chunk, the k-th being the titled, templated block of the k-th chunk as part k+1 |
| FileUtils.ZipEntries | utils/fileUtils.ts:12-24 | the archive holds `000_instructions.txt` only for a non-blank first message, then one entry per chunk under its name with its templated content for part k+1 of n |
| FileUtils.ZipNamesDistinct | utils/fileUtils.ts:17-23 | for split output, no two entries share a name, and none is the instructions file |
| FileUtils.Underscored | utils/fileUtils.ts:74 | the replacement keeps the length, keeps every allowed character in place and puts `_` for every other one |
| FileUtils.SanitizeFilename | utils/fileUtils.ts:73-75 | the result has `min(len, 100)` characters, all allowed: allowed characters keep their place and every other becomes `_` |
| FileUtils.SanitizeIdempotent | utils/fileUtils.ts:73-75 | sanitising twice is sanitising once |
| FileUtils.Pad | utils/fileUtils.ts:90-93 | `'  '.repeat(depth)` is 2·depth spaces |
| FileUtils.FormatRedditComments | utils/fileUtils.ts:88-99 | the loop renders the comment list: each comment, then its replies one level deeper, then its siblings |
| FileUtils.FormatComment | utils/fileUtils.ts:91-97 | the callback's text for one comment: header line, indented body, and replies one level deeper when there are any |
| FileUtils.RenderedConcat | utils/fileUtils.ts:91-97 | appending the callback's text for each comment in turn gives the rendering of the list |
| FileUtils.Texts | utils/fileUtils.ts:91-97 | the callback text of each comment of a list, in order |
| FileUtils.TextsSnoc | utils/fileUtils.ts:91-97 | one more comment adds its callback text at the end |
| FileUtils.RenderIsPreorder | utils/fileUtils.ts:88-99 | the rendering is the comments' entries in pre-order, each at its own depth |
| FileUtils.EntriesAppend | utils/fileUtils.ts:88-99 | entries distribute over concatenation |
| FileUtils.IndentedLines | utils/fileUtils.ts:93 | replacing each line feed by a line feed and the pad indents every line after the first |
| FileUtils.BodyIndented | utils/fileUtils.ts:93 | every body line is indented by `'  '.repeat(depth + 1)` |
| FileUtils.Lookup | utils/fileUtils.ts:102-120 | a defined metadata value comes from an entry with that key |
| FileUtils.LookupFirst | utils/fileUtils.ts:102-120 | the value is undefined when no entry has the key, and otherwise is the value of the first entry with it |
| FileUtils.MetadataListed | utils/fileUtils.ts:105-108 | the metadata list has one line per entry other than the title, and only those |
| FileUtils.MetadataLinesSnoc | utils/fileUtils.ts:105-108 | one more entry adds its line, unless it is the title |
| FileUtils.MetadataStep | utils/fileUtils.ts:105-108 | one iteration of the metadata loop appends the entry's line, or nothing for the title |
| FileUtils.ExtractedMarkdown | utils/fileUtils.ts:101-122 | the builder produces the extracted document: title, metadata list, rule, then the one section of the content type |
| FileUtils.ExtractedTitle | utils/fileUtils.ts:102 | the document opens with `# title` |
| FileUtils.GenericFallback | utils/fileUtils.ts:119-121 | generic content without a truthy description ends with `## Description`, a blank line and `N/A` |
| FileUtils.GenericDescription | utils/fileUtils.ts:119-121 | generic content with a description ends with that description |
| Common.Filter | App.tsx:80 | `filter` keeps, in order, exactly the elements that pass |
| Common.FilterCounts | App.tsx:80 | `filter` keeps each passing element as many times as it occurs and drops every other one |
| Common.FilterAppend | App.tsx:80 | filtering distributes over concatenation |
| Common.Find | components/SettingsPanel.tsx:197 | `find` returns the first element that passes, or nothing when none does |
| Common.FindFirst | components/SettingsPanel.tsx:197 | an element that passes with none passing before it is the one found |
| Common.CeilDiv | App.tsx:150-152 | `Math.ceil(a/b)` is the least r with a ≤ r·b |
| Common.ConcatAppend | services/mockApi.ts:49-54 | joining distributes over concatenation |
| Common.SubsequenceDistinct | components/SettingsPanel.tsx:179 | a subsequence of a list with distinct ids has distinct ids |

## Left out

- Latency, the debounce timer and `await`: the mock delays and the 500 ms debounce before counting are not modelled. `App.AppState.RefreshCounts` is the state once the debounced count has settled. The intermediate state (tokens 0 while the count is pending) is not modelled.
- `extractContent`: it returns canned data chosen by URL substring, and there is nothing to verify in it.
- Browser I/O: JSZip, `Blob`, links, `FileReader`, `JSON.parse`, `prompt` and `alert` are left out. The ZIP and Markdown builders return the entries and the text they would hand over. The file read and parse of an import is the parameter `parsed`, and the prompt's answer is a parameter of `SaveTemplate`.
- The clock: `Date.now()` values are parameters (`idTime`, `timestamp`, `now`).
- `localStorage`: the values `useLocalStorage` reads at start-up are the `Stored` parameter of `App.AppState.Mount`, and writes are not modelled.
- JSZip replaces an entry when a name repeats. `FileUtils.ZipEntries` lists the entries in order instead, and `FileUtils.ZipNamesDistinct` shows that split output has no repeat.
- The floating-point cost estimate and the price formatting are left out. `guardBandPct` is an exact `real`, so IEEE rounding of `inputContext * guardBandPct` is not modelled.
- `activeTemplateId` compares `JSON.stringify` outputs. The model compares the settings records, which agrees when every record has its keys in the same order.
- `Object.entries` lists integer-like keys first. The model takes the metadata as an already-ordered list of entries.
- The overlap slider reads its value with `parseInt` and no `|| 0`, so it could in principle store `NaN`. The model's overlap is an integer; the range input only produces whole numbers from 0 to 500.
- Settings objects inside an imported file are assumed well-typed. Only the truthiness checks of the import validation are modelled.
- Comment scores and metadata values are integers or strings. Other JSON values are not modelled.
- Unicode: `toLowerCase` is ASCII-only. The model's strings are sequences of Unicode scalar values, while JavaScript strings are sequences of UTF-16 code units. A character outside the Basic Multilingual Plane, such as an emoji, is one element in the model and two code units in the source. For such text the model counts it once where the source counts it twice: in lengths (`countTokens`, the character count, the size checks), in `slice`, `substring` and `padStart`, in the 50-character session title, and in regular-expression matches (`sanitizeFilename` turns it into one `_` in the model and `__` in the source). No normalisation is modelled.
- `FileUtils.MarkdownExport` assigns the instructions block to the empty string rather than appending it. The text is the same.
- The JSX rendering, the theme, the sidebar and tab state, and the `isLoading` flag are not modelled.
- `Splitter.SplitText` requires `Splitter.SplitTerminates`: the source's loops do not end for a non-positive size or step, and the model does not describe a run that never returns. For the tokens unit the condition is stricter than the source's loop only when the overlap is negative, which the slider cannot produce: a size of 0 with a negative overlap gives a zero-width part and a forward stride, and the loop ends.
- Number inputs: `parseInt(value, 10) || 0` is not modelled. `SettingsPanel.WithSetting` receives the integer the input produced.
- `ImportedPreset` types `id` and `caption` as strings. A truthy id or caption of another JSON type, which the import check accepts, cannot be represented.

## Findings

| source | as written | input that shows it | evidently intended | confidence | as-written member | corrected member |
|---|---|---|---|---|---|---|
| components/SettingsPanel.tsx:126-135 | `handlePresetChange` sets the size to `recommendedChunkSize`, the recommendation for the settings before the change. It resets the reply budget and the guard band to the chosen preset's defaults. | GPT-4o selected, reply budget lowered to 1000, GPT-4o selected again: the size becomes 124440 while the new recommendation is 121440, so the override warning shows right after choosing a model | the size is the safe part size of the chosen preset's own defaults, as `handleModelChange` computes it | not executed | SettingsPanel.PresetChosenAsWritten, SettingsPanel.PresetReselectOverrides | SettingsPanel.PresetChosen, SettingsPanel.PresetChoiceNotOverridden |

`App.AppState.ChoosePreset` keeps the handler as written, so the state it produces is the one the page shows. `SettingsPanel.PresetChosen` is the corrected handler, and `SettingsPanel.PresetChoiceNotOverridden` proves that routing it through `Sizing.SettingsChanged` leaves the override warning off for every model choice, the current one included.
