# Sutra reader: the logic behind the pages

A Dafny model of the decision logic inside the sutra-reading web
application. The application is a React single-page app. It shows
collections ("sutras") of chapters stored as YAML files, each with an
optional transcript, video, audio and slides. Rendering is out of scope.
The model lifts out the pieces that decide things and states what they
promise.

**Chapter view.**
- The declared chapter range and the previous/next flags.
- The bounded walk that skips missing chapters by probing for their files.
- The navigate actions.
- The markdown normaliser that turns single line breaks between text lines into paragraph breaks.
- The extraction of the teaching section from a transcript.
- The toggle of explanation panels.

**Media players.**
- How a URL is classified as YouTube, Google Vids, Google Drive, SoundCloud or a direct file, with the platforms' precedence.
- The YouTube, Vids and Drive rewrites to an embeddable address. These use the leftmost-match semantics of the capture regexes.
- The audio iframe's height.
- The deployment-base prefixing of site-relative files.

**Slide player.** Page clamping, the reset on URL change, and the button predicates.

**Preferences.**
- The theme and font-size services over a `localStorage` whose reads and writes may throw.
- The font-size enumeration and its tables.
- The font-size context and the theme hook.

**Loading.**
- The YAML loader's empty-content guard and error wrapping.
- The fetch-then-parse pipeline and the chapter existence probe.
- The loading/error/data transitions of the chapter and collection hooks.
- The all-or-nothing load of every collection.
- The chapter-title hook: which files it loads, which loads yield an entry, the number an entry carries, and both ordering rules.

**Selection.** The default chapter a collection card opens, and the table of contents with its single current entry. A chapter count past JavaScript's array limit makes `Array.from` throw; the table of contents and the chapter-title hook both model that error.

## Modules

| file | module | what it holds |
|---|---|---|
| wrappers.dfy | `Wrappers` | `Option` (a value that may be `null`) and `Result` (a computation that may throw) |
| strings.dfy | `Strings` | `indexOf`, `includes`, `replace` of the first occurrence, `trim`, `split`/`join` on one character, decimal rendering of integers, a case-insensitive suffix test, the length rule of `Array.from` |
| content_types.dfy | `ContentTypes` | the collection metadata record and the `/{sutra}/{chapter}` route |
| storage.dfy | `KeyValueStore` | `getItem`/`setItem` over a map, with failing reads and writes |
| theme.dfy | `ThemePreference` | `saveTheme`, `loadTheme`, and the mount sync and toggle of `useTheme` |
| font_size.dfy | `FontSizes` | the four sizes, their tables, `saveFontSize`/`loadFontSize`, the provider and `useFontSize` |
| explanations.dfy | `ExplanationToggle` | `toggleExplanation` |
| pdf_pager.dfy | `PdfPager` | page state and events of the slide player |
| navigation.dfy | `ChapterNavigation` | range, flags, `findNextValidChapter` (a function and the loop as a method), the navigate actions |
| markdown.dfy | `MarkdownText` | `normalizeMarkdown` |
| teaching.dfy | `TeachingExtract` | `extractTeaching` |
| yaml_loader.dfy | `YamlLoader` | `loadYaml`, `loadYamlFromFile`, file paths, `checkChapterExists` |
| data_hooks.dfy | `DataHooks` | `useChapterData`, `useSutraData`, `useAllSutras` |
| chapter_titles.dfy | `ChapterTitles` | `useChapterTitles` |
| selection.dfy | `Selection` | the card's default chapter and link, the table of contents |
| media.dfy | `MediaUrls` | the capture-regex matcher, URL classification and rewriting, both players |

### How the outside world appears

- **Injected functions.** `fetch`, the YAML parser and the schema validators are function parameters of the operations that use them. So is the chapter existence probe, as seen from the chapter view.
- **Storage.** `localStorage` is a value of the `Store` datatype. Its `readable` and `writable` flags say whether an access throws.
- **The deployment base.** `BASE_URL` is a string parameter.
- **Effects.** A React effect is a function from the hook's state to the state after the load settles.
- **Regexes.** The capture regexes are values of a small pattern datatype that covers exactly what they use:
  - alternatives of literal characters and `.`, which matches any character but a line terminator;
  - then one greedy run of characters outside a stop set.

  `MatchGroup` returns the group of the leftmost match.
  - The first alternative, in order, that matches at the leftmost position wins.
  - Its group is the longest run of non-stop characters after it.
  - The run must be non-empty.
- **Lines.** The two line-based transforms are stated for an arbitrary line test:
  - `blank` for the normaliser;
  - `isHeading` for the teaching extraction.

  The application's own test is the instance used for the text-level results. The general statements are what the proofs need, and they hold for any test of that shape.

## Model

| member | source | states |
|---|---|---|
| ContentTypes.ChapterRoute | src/components/sutra/ChapterView.tsx:130 | a chapter route lies under `/{sutra}/` |
| ContentTypes.ChapterRouteInjective | src/components/sutra/ChapterView.tsx:128-140 | two chapter routes of one collection are equal only for the same chapter |
| KeyValueStore.GetItem | src/services/themeStorage.ts:16 | a read throws exactly when storage is unreadable; otherwise it gives the stored value, or `null` for a missing key |
| KeyValueStore.SetItem | src/services/themeStorage.ts:7 | a write throws exactly when storage is unwritable; otherwise it sets that key and leaves every other key as it was |
| KeyValueStore.SetThenGet | src/services/themeStorage.ts:5-19 | on working storage, reading back a written key gives the written value |
| KeyValueStore.SetOtherKey | src/services/themeStorage.ts:3-12 | a write to one key is invisible through every other key |
| ThemePreference.SaveTheme | src/services/themeStorage.ts:3-12 | `saveTheme` stores the mode's name under `chakra-ui-color-mode` when writable; a failing write is swallowed and changes nothing; no other key changes |
| ThemePreference.LoadTheme | src/services/themeStorage.ts:14-26 | `loadTheme` is dark exactly when storage is readable and holds exactly `dark`; it is light for `light`, any other value, a missing key and a failing read |
| ThemePreference.SaveLoadRoundTrip | src/services/themeStorage.ts:5-19 | with working storage, loading after saving a mode gives that mode |
| ThemePreference.Mount | src/hooks/useTheme.ts:14-21 | after the mount effect the displayed mode is the loaded theme, and nothing is written |
| ThemePreference.MountIdempotent | src/hooks/useTheme.ts:14-21 | running the mount sync again changes nothing |
| ThemePreference.ModeName | src/types/theme.ts:1 | the two modes are spelled `light` and `dark` |
| ThemePreference.Flip | src/hooks/useTheme.ts:25 | the mode a toggle saves is always the other one |
| ThemePreference.ToggleTheme | src/hooks/useTheme.ts:23-27 | a toggle changes the displayed mode and saves the mode opposite to the one displayed before the toggle |
| ThemePreference.ToggleStoresDisplayedMode | src/hooks/useTheme.ts:23-27 | with working storage, the stored theme equals the displayed mode after a toggle |
| ThemePreference.ToggleTwice | src/hooks/useTheme.ts:23-27 | two toggles restore the mode, and with working storage the stored theme is that mode |
| FontSizes.Parse | src/services/fontSizeStorage.ts:15-17 | parsing accepts only the name of a size and is its inverse |
| FontSizes.ParseName | src/types/fontSize.ts:1 | every size's name parses back to that size |
| FontSizes.Name | src/types/fontSize.ts:1 | the stored spellings `small`, `medium`, `large`, `x-large` |
| FontSizes.PixelSize | src/types/fontSize.ts:3-8 | `FONT_SIZE_MAP`: 14, 18, 22 and 26 px |
| FontSizes.Label | src/types/fontSize.ts:10-15 | `FONT_SIZE_LABELS`: one or two characters per size |
| FontSizes.SizeTables | src/types/fontSize.ts:1-15 | there are exactly four sizes, listed once each; the stored whitelist names them in order; pixel sizes strictly increase 14 < 18 < 22 < 26; each CSS length is its pixel size plus `px`; labels are distinct |
| FontSizes.CssSize | src/types/fontSize.ts:3-8 | every CSS length is four characters ending in `px` |
| FontSizes.SaveFontSize | src/services/fontSizeStorage.ts:5-11 | `saveFontSize` stores the size's name under `fontSize` when writable, swallows a failing write without change, and touches no other key |
| FontSizes.LoadFontSize | src/services/fontSizeStorage.ts:13-23 | `loadFontSize` gives the stored size exactly when the stored value is one of the four names; otherwise, and on a missing key or failing read, `medium` |
| FontSizes.SaveLoadRoundTrip | src/services/fontSizeStorage.ts:5-17 | with working storage, loading after saving a size gives that size |
| FontSizes.MountProvider | src/contexts/FontSizeContext.tsx:14 | a provider starts at the loaded size |
| FontSizes.SetFontSize | src/contexts/FontSizeContext.tsx:16-19 | `setFontSize` sets the size in memory whether or not saving succeeds, and saves it |
| FontSizes.SetFontSizePersists | src/contexts/FontSizeContext.tsx:14-19 | with working storage, a provider mounted after `setFontSize(f)` starts at `f`; with unwritable storage the store is unchanged |
| FontSizes.UseFontSize | src/contexts/FontSizeContext.tsx:28-34 | outside a provider the hook fails with its message; inside one it returns the provider |
| ExplanationToggle.Toggle | src/components/sutra/ChapterView.tsx:83-88 | the toggled panel's openness flips, with a missing entry reading as closed; every other entry keeps its value |
| ExplanationToggle.ToggleTwice | src/components/sutra/ChapterView.tsx:83-88 | toggling one panel twice restores every panel's openness |
| ExplanationToggle.ToggleCommutes | src/components/sutra/ChapterView.tsx:83-88 | toggles of different panels commute |
| ExplanationToggle.ToggleOnlyAffectsIndex | src/components/sutra/ChapterView.tsx:83-88 | a toggle changes the openness of exactly its own panel |
| PdfPager.Initial | src/components/media/PdfSlidePlayer.tsx:18-19 | the player starts on page 1 with no page count |
| PdfPager.Prev | src/components/media/PdfSlidePlayer.tsx:33-35 | the previous-page action decrements above page 1 and otherwise lands on page 1; the page is never below 1 afterwards |
| PdfPager.Next | src/components/media/PdfSlidePlayer.tsx:37-39 | the next-page action does nothing while the count is unknown or 0; otherwise it increments below the count and otherwise lands on the count |
| PdfPager.ChangeUrl | src/components/media/PdfSlidePlayer.tsx:23-27 | a new URL resets the page to 1; the same URL changes nothing |
| PdfPager.Load | src/components/media/PdfSlidePlayer.tsx:29-31 | a loaded document records its page count and keeps the page |
| PdfPager.PrevDisabled | src/components/media/PdfSlidePlayer.tsx:154 | the previous-page button is disabled on page 1 or below |
| PdfPager.NextDisabled | src/components/media/PdfSlidePlayer.tsx:166 | the next-page button is disabled once the page count is known and the page has reached it |
| PdfPager.Step | src/components/media/PdfSlidePlayer.tsx:23-39 | only a URL change changes the URL, only a loaded document changes the page count, and no event takes the page below 1 |
| PdfPager.Run | src/components/media/PdfSlidePlayer.tsx:23-39 | over a run of events, the URL stays unless some event changes it, and the page count stays unless some document loads |
| PdfPager.ButtonsKeepBounds | src/components/media/PdfSlidePlayer.tsx:33-39 | with a positive count and the page in `1..count`, both actions keep it there |
| PdfPager.PrevAtFirstPage | src/components/media/PdfSlidePlayer.tsx:33-35 | the previous-page action is a no-op on page 1 |
| PdfPager.EnabledPrevDecrements | src/components/media/PdfSlidePlayer.tsx:151-157 | when the previous button is enabled, a click decrements the page |
| PdfPager.EnabledNextSemantics | src/components/media/PdfSlidePlayer.tsx:163-169 | while the count is unknown the next button is enabled but a click does nothing; with a known count, an enabled click increments |
| PdfPager.PageAtLeastOne | src/components/media/PdfSlidePlayer.tsx:23-39 | over any sequence of events, the page never drops below 1 |
| PdfPager.StepKeepsBounds | src/components/media/PdfSlidePlayer.tsx:23-39 | every event keeps the page in bounds, except a page count that arrives smaller than the current page |
| PdfPager.StaleCountExample | src/components/media/PdfSlidePlayer.tsx:23-31 | the page count survives a URL change, so before the new document loads, next-page clicks are clamped by the old document's count |
| ChapterNavigation.Step | src/components/sutra/ChapterView.tsx:103 | the walk's step is +1 forward and -1 backward |
| ChapterNavigation.RangeOf | src/components/sutra/ChapterView.tsx:91-93 | the start defaults to 1 and the count to 0 before metadata loads; the range holds exactly `chapters` chapters from the start |
| ChapterNavigation.HasPrev | src/components/sutra/ChapterView.tsx:95 | the previous flag is set exactly when the chapter lies above the start |
| ChapterNavigation.HasNext | src/components/sutra/ChapterView.tsx:96 | the next flag is set exactly when the chapter lies below the last chapter |
| ChapterNavigation.FlagsMatchFirstCandidate | src/components/sutra/ChapterView.tsx:95-96 | for a chapter in range, a direction's flag is set exactly when the first candidate in that direction is in range |
| ChapterNavigation.WalkFrom | src/components/sutra/ChapterView.tsx:106-122 | the loop from iteration `i` probes at most one candidate per remaining attempt, and a chapter it returns is in range and reported to exist |
| ChapterNavigation.WalkFromProperties | src/components/sutra/ChapterView.tsx:106-120 | from any iteration, the loop probes consecutive in-range candidates, at most one per remaining attempt, and stops at the first hit or at the boundary |
| ChapterNavigation.FindNextValidChapter | src/components/sutra/ChapterView.tsx:99-123 | the walk has the shape of a bounded first-hit search: consecutive candidates, each checked against the range before it is probed, every one before the hit reported missing, ending at the budget or at the boundary |
| ChapterNavigation.WalkResultUnique | src/components/sutra/ChapterView.tsx:99-123 | that description determines the walk: any two walks meeting it are equal |
| ChapterNavigation.NoShorterWalk | src/components/sutra/ChapterView.tsx:106-120 | a walk meeting the description cannot stop earlier than another one |
| ChapterNavigation.ResolvedChapterProperties | src/components/sutra/ChapterView.tsx:99-123 | a resolved chapter is `chapterNum ± k` with `1 <= k <= maxAttempts`, lies in the range, was reported to exist, is not the current chapter, and every chapter strictly between the two was reported missing |
| ChapterNavigation.BoundaryStopsWithoutProbing | src/components/sutra/ChapterView.tsx:106-110 | a walk whose first candidate is outside the range returns null without probing |
| ChapterNavigation.WalkDependsOnlyOnProbed | src/components/sutra/ChapterView.tsx:106-120 | two probes that agree on the in-range candidates within the budget give the same walk |
| ChapterNavigation.FindNextValidChapterLoop | src/components/sutra/ChapterView.tsx:99-123 | the loop as written returns the chapter and probe sequence of the bounded first-hit search |
| ChapterNavigation.GoToChapter | src/components/sutra/ChapterView.tsx:125-141 | with the flag off nothing is probed and nothing happens; otherwise at most 5 in-range candidates are probed, and a navigation goes to the route of an existing, non-zero, in-range chapter within 5 steps in the right direction |
| ChapterNavigation.ResolvedZeroIsIgnored | src/components/sutra/ChapterView.tsx:128-131 | a walk that resolves chapter 0 probes but does not navigate, because the navigate action checks the result for truthiness |
| ChapterNavigation.ResolvedNonZeroIsFollowed | src/components/sutra/ChapterView.tsx:137-140 | any other resolved chapter is navigated to |
| ChapterNavigation.NoNavigationBeforeMetadata | src/components/sutra/ChapterView.tsx:90-141 | before the metadata loads, neither action probes or navigates, even when its flag is set |
| ChapterNavigation.ResolverExamples | src/components/sutra/ChapterView.tsx:99-123 | with chapters 5 and 9 present in [1, 10]: forward from 4 finds 5; from 5 with 3 attempts finds nothing; from 10 nothing is probed |
| MarkdownText.IsBlank | src/components/sutra/ChapterView.tsx:66 | a line counts as blank when it is white space only |
| MarkdownText.IsBlankIsTrimEmpty | src/components/sutra/ChapterView.tsx:66 | a line is blank exactly when it trims to the empty string |
| MarkdownText.NormalizeLines | src/components/sutra/ChapterView.tsx:58-69 | the first line survives unchanged, and no lines give no lines |
| MarkdownText.NormalizeMarkdown | src/components/sutra/ChapterView.tsx:56-72 | text without a line feed comes back unchanged |
| MarkdownText.NormalizeLinesSeparates | src/components/sutra/ChapterView.tsx:56-72 | for any blank test that counts the empty line as blank, the output holds no two adjacent non-blank lines |
| MarkdownText.NormalizeLinesDrawsFromInput | src/components/sutra/ChapterView.tsx:61-69 | every output line is an inserted empty line or a line of the input |
| MarkdownText.NormalizeKeepsLinesInOrder | src/components/sutra/ChapterView.tsx:61-69 | every input line appears, in order, shifted by the number of empty lines inserted before it; exactly one empty line follows each line that starts a non-blank pair; the output has no other lines |
| MarkdownText.NormalizeSeparatedIsIdentity | src/components/sutra/ChapterView.tsx:61-69 | lines with no adjacent non-blank pair come back unchanged |
| MarkdownText.NormalizeLinesIdempotent | src/components/sutra/ChapterView.tsx:56-72 | normalising normalised lines changes nothing |
| MarkdownText.NormalizedLinesResplit | src/components/sutra/ChapterView.tsx:58-71 | normalised lines contain no line feed, so joining and re-splitting them gives them back |
| MarkdownText.NormalizeMarkdownIdempotent | src/components/sutra/ChapterView.tsx:56-72 | on text, normalising twice is normalising once |
| MarkdownText.NormalizeMarkdownSeparates | src/components/sutra/ChapterView.tsx:56-72 | the output text never holds two non-blank lines in a row |
| Strings.JoinSplit | src/components/sutra/ChapterView.tsx:58-71 | joining the pieces of a split restores the text |
| Strings.SplitJoin | src/components/sutra/ChapterView.tsx:58-71 | splitting a join of pieces free of the separator gives the pieces back |
| Strings.StartsWith | src/components/sutra/ChapterView.tsx:191 | `startsWith`: the string begins with the prefix |
| Strings.Contains | src/components/media/VideoPlayer.tsx:15 | `includes`: the pattern occurs somewhere (`Strings.ContainsIff`) |
| Strings.ContainsIff | src/components/media/VideoPlayer.tsx:15 | `includes` holds exactly when some position starts an occurrence |
| Strings.TrimEmptyIff | src/components/sutra/ChapterView.tsx:66 | `trim()` gives the empty string exactly for all-white-space text |
| Strings.Trim | src/components/sutra/ChapterView.tsx:190 | `trim()` drops the leading and the trailing white space (`Strings.TrimBounds`, `Strings.TrimEmptyIff`) |
| Strings.TrimBounds | src/components/sutra/ChapterView.tsx:190 | `trim()` is no longer than its input and neither starts nor ends with white space |
| Strings.Split | src/components/sutra/ChapterView.tsx:186 | `split('\n')` gives at least one piece, and no piece contains the separator |
| Strings.Join | src/components/sutra/ChapterView.tsx:71 | `join('\n')` puts one separator between consecutive pieces; it undoes `split` (`Strings.JoinSplit`, `Strings.SplitJoin`) |
| Strings.EndsWithIgnoreCase | src/components/media/AudioPlayer.tsx:18 | the `$`-anchored, case-insensitive extension test: the string ends with the suffix when ASCII letters are folded to lower case |
| Strings.IntToDecimal | src/components/sutra/TableOfContents.tsx:52 | `${n}` is non-empty, starts with a digit for a non-negative number and with `-` for a negative one |
| Strings.ArrayFromLength | src/hooks/useChapterTitles.ts:43 | `Array.from({ length: n })` has length `n` for `0 <= n <= 2^32 - 1`, is empty for a negative `n`, and throws `Invalid array length` exactly when `n` is past `2^32 - 1` |
| Strings.IndexOf | src/components/sutra/ChapterView.tsx:180 | `indexOf` gives the leftmost occurrence, or none when there is none |
| Strings.ReplaceFirst | src/components/media/VideoPlayer.tsx:35 | replacing with a string pattern changes only the first occurrence, and changes nothing when there is none |
| Strings.NatToDecimalRoundTrip | src/components/sutra/TableOfContents.tsx:52 | reading back the decimal rendering of a number gives the number |
| Strings.IntToDecimalInjective | src/components/sutra/TableOfContents.tsx:52 | distinct integers render differently |
| TeachingExtract.IsHeadingLine | src/components/sutra/ChapterView.tsx:190-191 | a line is a heading when, trimmed, it starts with `### ` or `## ` |
| TeachingExtract.FirstHeading | src/components/sutra/ChapterView.tsx:189-196 | the scan stops at the first heading line, and no earlier line is a heading |
| TeachingExtract.TeachingEnd | src/components/sutra/ChapterView.tsx:185-196 | the end position lies within the text after the marker |
| TeachingExtract.TeachingEndCharacterized | src/components/sutra/ChapterView.tsx:185-196 | the computed end position is where the teaching text ends: at the line break before the first heading line, or at the end when there is none |
| TeachingExtract.ExtractSection | src/components/sutra/ChapterView.tsx:178-199 | empty without the marker; otherwise a slice of the transcript that starts at the marker's first occurrence and with the marker |
| TeachingExtract.ExtractTeaching | src/components/sutra/ChapterView.tsx:178-199 | empty when the teaching heading is absent; otherwise it starts with that heading |
| TeachingExtract.ExtractSectionSpec | src/components/sutra/ChapterView.tsx:178-199 | the result is empty when the marker is absent; otherwise it is the transcript from the marker's first occurrence to the end position, and it starts with the marker |
| TeachingExtract.ExtractTeachingSpec | src/components/sutra/ChapterView.tsx:178-199 | with the teaching marker and the `### `/`## ` heading test, the extraction has that shape, and is empty exactly when the marker is absent |
| YamlLoader.LoadYaml | src/services/yamlParser.ts:3-18 | empty or blank content fails with `YAML content is empty` before parsing; a parse error becomes `YAML parse error: ` plus its message, or the unknown-error message; a parsed document is returned |
| YamlLoader.WrapFileError | src/services/yamlParser.ts:28-33 | a caught error gets the `File load error: ` prefix, and any other thrown value becomes the unknown-file-error message |
| YamlLoader.LoadYamlFromFile | src/services/yamlParser.ts:20-34 | a rejected fetch, a non-OK response (as `Failed to fetch {path}: {statusText}`) and a failing body read are reported with the file-error prefix; an OK body goes to `loadYaml` |
| YamlLoader.ParseErrorsNotRewrapped | src/services/yamlParser.ts:26-28 | a parse error reached through the file loader keeps the parse prefix and never gets the file-error prefix |
| YamlLoader.LoadDependsOnlyOnPath | src/services/yamlParser.ts:20-34 | the file loader's outcome depends only on what `fetch` gives for its path |
| YamlLoader.ChapterPath | src/hooks/useChapterData.ts:26-28 | a chapter path is `{base}content/{sutra}/chapter-` followed by the number and `.yml` |
| YamlLoader.ChapterPathInjective | src/services/yamlParser.ts:42-44 | chapter paths of one collection name their chapters unambiguously |
| YamlLoader.MetaPath | src/hooks/useSutraData.ts:23 | a metadata path lies in the collection's directory and ends in `/meta.yml` |
| YamlLoader.CheckChapterExists | src/services/yamlParser.ts:37-49 | the probe answers yes exactly when the fetch of the chapter's path resolves to an OK response; a rejected fetch answers no |
| YamlLoader.ProbeIgnoresBody | src/services/yamlParser.ts:42-45 | responses that differ only in body give the same answer |
| DataHooks.InitialState | src/hooks/useChapterData.ts:16-18 | a hook starts loading, with neither data nor error |
| DataHooks.LoadValidated | src/hooks/useChapterData.ts:26-32 | the load succeeds exactly when the file loads and validates; load errors pass through unchanged, and a rejected document gives the schema message |
| DataHooks.Settle | src/hooks/useChapterData.ts:22-40 | a settled load is not loading and holds exactly one of data and error: the data on success, the error (with data cleared) on failure |
| DataHooks.ShouldFetchChapter | src/hooks/useChapterData.ts:43 | the chapter effect loads only with a non-empty collection id and a chapter above 0 |
| DataHooks.ChapterEffect | src/hooks/useChapterData.ts:20-46 | without a collection id or with a chapter below 1 the state is untouched; otherwise it settles with the validated chapter, with `Invalid chapter schema` for a rejected document, or with the loader's own error when the load fails |
| DataHooks.ChapterZeroNeverLoads | src/hooks/useChapterData.ts:43-45 | chapter 0, negative chapters and an empty id leave the hook in its initial loading state |
| DataHooks.ChapterEffectReadsOnlyItsPath | src/hooks/useChapterData.ts:26-28 | the chapter effect reads nothing but its chapter's path |
| DataHooks.SutraEffect | src/hooks/useSutraData.ts:17-41 | an empty id leaves the state untouched; otherwise it settles with the validated metadata, with `Invalid sutra metadata schema` for a rejected document, or with the loader's own error when the load fails |
| DataHooks.SutraEffectRerun | src/hooks/useSutraData.ts:17-41 | running the effect again on its own settled state changes nothing |
| DataHooks.LoadMeta | src/hooks/useSutraData.ts:62-68 | one collection's entry succeeds exactly when its metadata loads and validates, and then holds that metadata; a failed load passes its error through; a rejected document gives `Invalid metadata for {id}` |
| DataHooks.LoadEach | src/hooks/useSutraData.ts:62-70 | a successful combined load has one value per id; a failing first entry is the reported failure |
| DataHooks.LoadAll | src/hooks/useSutraData.ts:62-70 | the same, for the metadata loads of the listed ids |
| DataHooks.LoadEachSpec | src/hooks/useSutraData.ts:62-70 | the combined load succeeds exactly when every entry does, and then holds every entry's value in list order; otherwise it reports the error of the first failing entry in list order |
| DataHooks.LoadAllSpec | src/hooks/useSutraData.ts:60-70 | the same all-or-nothing contract, for the metadata loads of the listed collections |
| DataHooks.AllSutrasEffect | src/hooks/useSutraData.ts:47-84 | the effect settles; with no error it lists the three collections' metadata in id order; with an error the list is empty and the error is that of the first failing collection in id order |
| DataHooks.CollectionPageAgreesWithHome | src/hooks/useSutraData.ts:17-84 | when the home page's load succeeds, each listed collection's own page shows the same metadata the home page lists for it |
| DataHooks.FirstSutra | src/hooks/useSutraData.ts:83 | the returned collection is the first listed one, or null for an empty list |
| ChapterTitles.IdsToFetch | src/hooks/useChapterTitles.ts:39-44 | a non-empty chapter list is used as is; otherwise there are `total` consecutive ids from the start (none for a negative total), and a total past the array limit throws `Invalid array length` |
| ChapterTitles.ShouldLoadTitles | src/hooks/useChapterTitles.ts:100-104 | the titles effect runs with a non-empty collection id and either a non-empty chapter list or a non-negative count |
| ChapterTitles.TitlePath | src/hooks/useChapterTitles.ts:47-49 | each id is read from `{BASE_URL}content/{sutraId}/chapter-{id}.yml` |
| ChapterTitles.TitlePathIsChapterPath | src/hooks/useChapterTitles.ts:47-49 | for a numeric id the title loader reads the same file as the chapter view |
| ChapterTitles.LoadTitleDoc | src/hooks/useChapterTitles.ts:46-67 | a failed load is swallowed and yields no document; a successful one yields the parsed document |
| ChapterTitles.Truthy | src/hooks/useChapterTitles.ts:56-59 | an id is truthy unless it is the number 0 or the empty string |
| ChapterTitles.NumberOf | src/hooks/useChapterTitles.ts:59 | an entry keeps the file's number when it is truthy, and otherwise takes the requested id, so 0 and `""` fall back |
| ChapterTitles.Contribution | src/hooks/useChapterTitles.ts:56-64 | an id contributes an entry exactly when its document loaded with a non-empty title, and the entry carries that title and the number above |
| ChapterTitles.Collect | src/hooks/useChapterTitles.ts:46-70 | no more entries are collected than ids are requested |
| ChapterTitles.CollectSpec | src/hooks/useChapterTitles.ts:46-70 | an entry is collected exactly when some requested id contributes it |
| ChapterTitles.CollectCounts | src/hooks/useChapterTitles.ts:56-64 | every contributing load adds one copy of its entry: an entry occurs as many times as there are requested positions that contribute it, so duplicates are kept |
| ChapterTitles.TitleMap | src/hooks/useChapterTitles.ts:57 | the title map is keyed by requested id and has an entry for exactly the ids that contributed, with their titles |
| ChapterTitles.TitleMapKeyedById | src/hooks/useChapterTitles.ts:57-59 | a loaded chapter is filed in the map under the requested id, while its entry carries the number its file declares (or the id) |
| ChapterTitles.IndexIn | src/hooks/useChapterTitles.ts:78-79 | `indexOf` gives the leftmost position of an element, or -1 exactly when it is absent |
| ChapterTitles.CodePointCompare | src/hooks/useChapterTitles.ts:87 | the string comparison gives -1, 0 or 1, and 0 exactly for equal strings |
| ChapterTitles.Compare | src/hooks/useChapterTitles.ts:77-88 | the comparator is 0 for equal numbers; with a list it is negative exactly when the first number sits earlier in the list; without one, for two numbers it is negative exactly when the first is smaller |
| ChapterTitles.Insert | src/hooks/useChapterTitles.ts:75-89 | the insertion step of the sort adds exactly one entry |
| ChapterTitles.InsertPermutes | src/hooks/useChapterTitles.ts:75-89 | the insertion step adds its entry and keeps every other one |
| ChapterTitles.InsertSorted | src/hooks/useChapterTitles.ts:75-89 | inserting into a key-ordered sequence keeps it key-ordered |
| ChapterTitles.SortInfos | src/hooks/useChapterTitles.ts:75-89 | the sort keeps the number of entries |
| ChapterTitles.SortPermutes | src/hooks/useChapterTitles.ts:75-89 | sorting rearranges the entries and neither loses nor adds any |
| ChapterTitles.SortSorted | src/hooks/useChapterTitles.ts:75-89 | when each comparison is a difference of keys, the sort orders the entries by key |
| ChapterTitles.SortedPermutationUnique | src/hooks/useChapterTitles.ts:75-89 | two key-sorted arrangements of the same entries are equal when a key identifies its entry |
| ChapterTitles.CompletionOrderIrrelevant | src/hooks/useChapterTitles.ts:70-88 | without a chapter list, and with numeric, distinct numbers, the sorted table does not depend on the order in which the loads completed |
| ChapterTitles.NumericTableAscends | src/hooks/useChapterTitles.ts:83-88 | without a chapter list and with numeric numbers, the table ascends by number |
| ChapterTitles.ListOrderRespected | src/hooks/useChapterTitles.ts:75-81 | with a chapter list, entries follow their numbers' list positions, and entries whose number is not listed come first |
| ChapterTitles.TitlesEffect | src/hooks/useChapterTitles.ts:29-105 | the effect runs only with an id and a list or a non-negative count, and it always stops loading; a count past the array limit (with no list) sets the `Invalid array length` error and keeps the previous titles and entries; otherwise it settles without error, holds the collected entries (as a permutation), and maps exactly the contributing ids, each to its own title |
| Selection.DefaultChapter | src/components/sutra/SutraCard.tsx:11-19 | a declared default chapter wins, even 0; then a declared start chapter; then 0 for the Diamond Sutra and 1 otherwise |
| Selection.ReadLink | src/components/sutra/SutraCard.tsx:48 | the read button's route lies under the collection's own path |
| Selection.ReadLinkNamesDefault | src/components/sutra/SutraCard.tsx:48 | the read button's route names the default chapter and no other |
| Selection.ZeroDefaultNeverLoads | src/components/sutra/SutraCard.tsx:18 | the Diamond Sutra's fallback chapter 0 opens a chapter view whose data hook never starts a load |
| Selection.Entries | src/components/sutra/TableOfContents.tsx:24-65 | there is one entry per chapter `1..n`, in order, current exactly for the current chapter, linking to that chapter's route |
| Selection.TocEntries | src/components/sutra/TableOfContents.tsx:16-24 | no list while loading or without metadata; rendering throws `Invalid array length` exactly when the count is past the array limit; otherwise entries 1..chapters in order (none for a negative count), each marked current exactly when it is the current chapter, each linking to its route |
| Selection.ExactlyOneCurrent | src/components/sutra/TableOfContents.tsx:46-60 | exactly one entry is current when the current chapter is in `1..chapters`, and none otherwise |
| MediaUrls.LiteralPrefixAt | src/components/media/VideoPlayer.tsx:27 | a literal alternative matches exactly where its text occurs |
| MediaUrls.GroupAt | src/components/media/VideoPlayer.tsx:27 | an alternative's group exists exactly when the alternative matches and is followed by at least one non-stop character; the group is the maximal such run |
| MediaUrls.FirstAltSpec | src/components/media/VideoPlayer.tsx:27 | an attempt at one position fails exactly when no alternative matches there; otherwise the first alternative that matches gives the group |
| MediaUrls.SearchFromSpec | src/components/media/VideoPlayer.tsx:27 | the search finds the leftmost position whose attempt succeeds, and fails only when every attempt fails |
| MediaUrls.MatchGroup | src/components/media/VideoPlayer.tsx:27 | `match(...)?.[1]` is absent exactly when no attempt succeeds, and otherwise is the group of the leftmost successful attempt |
| MediaUrls.LeftmostIsFound | src/components/media/VideoPlayer.tsx:27 | a successful attempt with no earlier success is the one `match` reports |
| MediaUrls.YouTubeEmbed | src/components/media/VideoPlayer.tsx:29 | the embed address is the embed base, then the id, then the fixed query |
| MediaUrls.DrivePreview | src/components/media/VideoPlayer.tsx:45 | the preview address is the Drive file base, then the id, then `/preview` |
| MediaUrls.EmbedsInjective | src/components/media/VideoPlayer.tsx:29-45 | distinct ids give distinct embed and preview addresses |
| MediaUrls.IsYouTube | src/components/media/VideoPlayer.tsx:15 | a URL is YouTube when it contains `youtube.com` or `youtu.be` |
| MediaUrls.IsGoogleVids | src/components/media/VideoPlayer.tsx:16 | a URL is Vids when it contains `docs.google.com/videos` |
| MediaUrls.IsGoogleDrive | src/components/media/VideoPlayer.tsx:17 | a URL is Drive when it contains `drive.google.com` |
| MediaUrls.IsSoundCloud | src/components/media/AudioPlayer.tsx:15 | a URL is SoundCloud when it contains `soundcloud.com` |
| MediaUrls.IsVideoPlatform | src/components/media/VideoPlayer.tsx:21 | the video player embeds YouTube, Google Vids and Google Drive links |
| MediaUrls.IsAudioPlatform | src/components/media/AudioPlayer.tsx:21 | the audio player embeds SoundCloud, YouTube and Google Drive links |
| MediaUrls.IsDirectVideo | src/components/media/VideoPlayer.tsx:18 | a video URL is a direct file when it starts with `/` or contains `.mp4` or `.webm` |
| MediaUrls.IsDirectAudio | src/components/media/AudioPlayer.tsx:18 | an audio URL is a direct file when it starts with `/` or ends, ignoring case, in `.m4a`, `.mp3`, `.wav` or `.ogg` |
| MediaUrls.YouTubeStep | src/components/media/VideoPlayer.tsx:25-31 | a YouTube URL without `/embed/` whose id is captured becomes that id's embed address; any other URL is kept |
| MediaUrls.DriveStep | src/components/media/VideoPlayer.tsx:38-47 | a Drive URL with a captured file id becomes that id's preview address, whatever earlier steps produced; otherwise the current address is kept |
| MediaUrls.VideoEmbedUrl | src/components/media/VideoPlayer.tsx:23-47 | the Drive rewrite wins; otherwise a Vids URL without `/preview` has its first `/play` replaced; otherwise the YouTube rewrite applies |
| MediaUrls.AudioEmbedUrl | src/components/media/AudioPlayer.tsx:22-41 | the Drive rewrite wins; otherwise the YouTube rewrite applies, with the audio player's pattern |
| MediaUrls.DirectSource | src/components/media/VideoPlayer.tsx:75-76 | a URL starting with `/` is served under the base with that `/` removed, so the base plus `/` restores it; any other URL is kept |
| MediaUrls.VideoPlayer | src/components/media/VideoPlayer.tsx:13-111 | the video player shows an iframe exactly for YouTube, Vids or Drive URLs; a media element exactly for other direct files; and the fallback exactly for everything else, each with the address above |
| MediaUrls.AudioPlayer | src/components/media/AudioPlayer.tsx:13-105 | the audio player shows an iframe exactly for SoundCloud, YouTube or Drive URLs; a media element exactly for other direct files; and the fallback exactly for everything else |
| MediaUrls.AudioFrameHeight | src/components/media/AudioPlayer.tsx:54 | the iframe is 166 px for SoundCloud, 80 px for Drive without SoundCloud, and 200 px otherwise, each an if-and-only-if |
| MediaUrls.AudioFrameHeightFollowsPlayer | src/components/media/AudioPlayer.tsx:21-54 | a 166 px or 80 px height always goes with a rendered iframe, and the 200 px fallback is rendered exactly for a YouTube link |
| MediaUrls.DriveIdShape | src/components/media/VideoPlayer.tsx:42 | a captured Drive id is non-empty and free of `/` |
| MediaUrls.DrivePreviewMatches | src/components/media/VideoPlayer.tsx:42-45 | matching a preview address recovers the id it was built from |
| MediaUrls.DrivePreviewIsDrive | src/components/media/VideoPlayer.tsx:17 | a preview address is classified as Drive |
| MediaUrls.DrivePreviewIsFixedPoint | src/components/media/VideoPlayer.tsx:38-47 | both players leave a preview address unchanged |
| MediaUrls.DriveRewriteIdempotent | src/components/media/AudioPlayer.tsx:32-41 | embedding an embedded Drive address changes nothing, in both players |
| MediaUrls.LooseAcceptsStrict | src/components/media/AudioPlayer.tsx:26 | at each start position where the video pattern's attempt succeeds, the audio pattern's attempt at that position captures the same id |
| MediaUrls.LooseAcceptsMore | src/components/media/AudioPlayer.tsx:26 | the audio pattern also captures where the video pattern fails, since its `.` matches any character but a line terminator |
| MediaUrls.LooseCapturesDifferentId | src/components/media/AudioPlayer.tsx:26 | on `youtu-be/a?v=b` the video pattern captures `b` while the audio pattern, matching earlier, captures `a` |
| MediaUrls.WatchLinkCapture | src/components/media/VideoPlayer.tsx:27 | an id free of `&` and `?` is what both patterns capture from a watch link |
| MediaUrls.ShortLinkCapture | src/components/media/VideoPlayer.tsx:27 | an id free of `&` and `?` is what both patterns capture from a short link |
| MediaUrls.WatchLinkPlays | src/components/media/VideoPlayer.tsx:21-31 | both players show a plain watch link through the embed address of its id |
| MediaUrls.VidsPlayBecomesPreview | src/components/media/VideoPlayer.tsx:33-36 | a Google Vids link without `/preview` has its first `/play` replaced by `/preview`, with the text before and after kept |

## Left out

- The YAML parser, `fetch`, the schema validators and `BASE_URL` are parameters. The validators' rules live in schema files that are not part of this model.
- `localStorage` is a map with two failure flags. Chakra's own persistence of the colour mode under the same key is not modelled; only the application's writes are.
- All rendering, styling and layout.
- The slide player's zoom (floating-point scale) and fullscreen (DOM API), and its viewer worker setup.
- The route's `parseInt` of the chapter number, and its `NaN`.
- Timing:
  - `Promise.all` and the title loads run in list order in the model. `ChapterTitles.CompletionOrderIrrelevant` shows when completion order cannot change the result.
  - For `useAllSutras`, the first failure in list order is reported. In the application, the failure that settles first would be reported.
- Stale effects that overwrite a newer load.
- Strings are sequences of code points, not UTF-16 code units. Offsets agree for text in the Basic Multilingual Plane.
- `ChapterTitles.CodePointCompare`: orders strings by code point, where the application uses `localeCompare`. The ordering lemmas are stated for numeric numbers or a chapter list, where that comparison is not used.
- `ChapterTitles.TitlesEffect`: its contract gives the entries as a permutation of the collected ones. Their order is in `ChapterTitles.SortSorted`, `ChapterTitles.NumericTableAscends` and `ChapterTitles.ListOrderRespected`.
- The `volume` and `volumeTitle` fields of a chapter entry are carried by the application but never inspected; they are dropped.
- A chapter document that parses to a non-object is represented as "no document".
- A JavaScript number that is `NaN` is not an integer here. The truthiness of a number is `n != 0`.
- A chapter file's `number` is an integer or a string here. A fractional number such as `1.5` cannot be represented, and neither can a truthy title that is not a string (YAML `title: 2024`), which the application would store as it is.
- The audio player's YouTube pattern leaves the `.` of `youtu.be` unescaped. It is modelled as written. It matches wherever the video pattern matches, and at each such start position it captures the same id. It can, however, match at an earlier position, so on one URL the two players may capture different ids (`MediaUrls.LooseCapturesDifferentId`).
- The start chapter of `useChapterTitles` defaults to 0. Callers pass it explicitly in the model.
- The teaching marker's string literal in `src/components/sutra/ChapterView.tsx` is mis-encoded: its bytes are UTF-8 that was encoded twice, so read as UTF-8 it is not the heading the transcripts carry. The model uses the heading `### 弘源法師開示`, which is the text the application's own end-to-end test looks for (`tests/e2e/safari-compatibility.spec.ts`).
- What React does with the `RangeError` that the table of contents throws while rendering a count past the array limit (an error boundary, or an unmounted tree). The model stops at the `Failure` that `Selection.TocEntries` returns.
- The text of that `RangeError` is V8's (`Invalid array length`); other engines word it differently.
- Numbers are unbounded integers here, while the application's are IEEE doubles. The model is exact only while every chapter number, and every sum formed from one, stays within `Number.MAX_SAFE_INTEGER` (2^53 − 1). Past that, `+ 1` and `+ step` may round: the chapter walk can stand still and probe the current chapter again, and `i + startChapter` can repeat an id. From 10^21, JavaScript renders a number in exponent form (`1e+21`), which is not modelled either. The members below promise their properties for the exact integers only.
- `ChapterNavigation.RangeOf`: `last - start + 1 == chapters` holds for exact integers; past 2^53 the application's `startChapter + chapters - 1` may round and give a range of a different length.
- `ChapterNavigation.FindNextValidChapter`: walks exact consecutive candidates; past 2^53 the application's `targetChapter += step` may not move, and it can then return the current chapter.
- `ChapterNavigation.WalkFromProperties`: "the candidates are consecutive" holds only below 2^53.
- `ChapterNavigation.ResolvedChapterProperties`: "the resolved chapter is not the current one" holds only below 2^53.
- `ChapterNavigation.FindNextValidChapterLoop`: is proved equal to the exact-integer walk, which the application follows only below 2^53.
- `ChapterNavigation.GoToChapter`: the target lies strictly past the current chapter in the step's direction only below 2^53; past it the application can navigate to the chapter it is on.
- `ChapterTitles.IdsToFetch`: the ids `start + i` are distinct only while they stay below 2^53.
- `ChapterTitles.TitlesEffect`: inherits the limit of `ChapterTitles.IdsToFetch`; past 2^53 it can fetch one id twice.
- `Strings.IntToDecimal`: writes every integer in plain digits; the application's `${n}` uses exponent form from 10^21.
