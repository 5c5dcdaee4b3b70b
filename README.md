# Script-to-video generator: a verified model of keyword-driven clip selection

The application is meant to turn a written script into a narrated video:

1. The script is split into scenes at " and ".
2. Each scene is analysed into sentences and keywords.
3. Each sentence's keywords select a clip from a local library, or from the Pexels stock-video search.
4. Each clip is brought to a standard length and given fades.
5. The clips are joined under the voiceover.

This project models that core in Dafny and proves what the code promises about it:

- how a local file is scored against keywords and how the scored files are ranked;
- the random fallback when nothing scores;
- which stock rendition is chosen and when the sample video is returned instead;
- how keywords are drawn from a parse;
- how clip durations are normalised and where fades go;
- how a script becomes scenes, and how the narrated text splits back into them.

Modules, one per concern:

- `Wrappers`: `Option` and `Result`.
- `Seqs`: Python's prefix slice `s[:n]`, `list(set(...))` as "some duplicate-free ordering", and sums over lists.
- `Text`: the Python string operations the code relies on:
  - `in`, `lower()`, `strip()`;
  - `split()` and `split(sep)`;
  - `sep.join`;
  - the strip-and-drop-blanks comprehension.
- `Config`: the constants of config.py.
- `Media`: the video record shared by both clip sources.
- `LocalVideoScoring`: the synonym table, the per-keyword score rule by rule, and the stable descending sort.
- `LocalVideo`: the directory catalogue and the reference functions of the search. The class `LocalVideoService` holds the catalogue in its `availableVideos` field, and its loops are proved equal to those functions.
- `StockVideo`: the Pexels search as the class `StockVideoService`. The HTTP client is a function parameter from request to reply.
- `NlpAnalyzer`: `analyze_script` and `extract_keywords`. The language model is a function parameter `nlp` from text to parse.
- `VideoProcessor`: duration normalisation, transitions, and the per-sentence clip loop of `create_video`. Search and download are function parameters.
- `ApiRoutes`: the `generate-video` and `search-videos` handlers up to their hand-off. As written, the generator that `generate-video` hands over to fails on an import before it builds anything, so the route never produces a video (see Findings). The model keeps both the route as written and the hand-off as intended.

Random choices are modelled as nondeterministic choices constrained by what the source guarantees: `random.sample`, `random.choice`, and the iteration order of a Python `set`.

The synonym-table rule for the words of a keyword adds +5 for every word that is a key of the table and has a related word in the file name (services/local_video_service.py:111-118), so a keyword of several such words earns the bonus several times. The model does the same.

## Model

| member | source | states |
|---|---|---|
| Seqs.Dedup | utils/nlp_analyzer.py:38 | some duplicate-free listing of exactly the elements of the input exists (what `list(set(xs))` may give) |
| Seqs.SliceTo | services/local_video_service.py:147 | Python's `s[:n]`: a prefix of `s`, of length `min(n, len s)` for `n >= 0` and `max(0, len s + n)` for negative `n` |
| Text.Lower | services/local_video_service.py:73 | same length, each character lowered (ASCII letters) |
| Text.IndexOf | services/local_video_service.py:84 | `s.find(sub)`: the position returned is an occurrence and none occurs before it; absent only when `sub` occurs nowhere |
| Text.Strip | routes/api_routes.py:32 | `strip()`: the result is no longer than the input, starts and ends with non-whitespace, and is empty exactly when the input is all whitespace |
| Text.StripTrims | routes/api_routes.py:32 | `strip()` removes exactly a whitespace-only prefix and a whitespace-only suffix: the result is the input's infix between them |
| Text.StripNonBlank | routes/api_routes.py:38 | the comprehension `[p.strip() for p in parts if p.strip()]`: no more entries than parts, each one stripped and non-empty |
| Text.StripNonBlankFrom | routes/api_routes.py:38 | every kept entry is the strip of some part |
| Text.StripNonBlankWithoutBlanks | utils/nlp_analyzer.py:23 | with no blank part, the result is the parts stripped one for one |
| Text.StripNonBlankOfStripped | routes/api_routes.py:38 | parts that are already stripped and non-empty come back unchanged |
| Text.BlankPartDropped | utils/nlp_analyzer.py:23 | a whitespace-only part contributes nothing |
| Text.StripNonBlankNonEmpty | routes/api_routes.py:38 | one non-blank part makes the result non-empty |
| Text.SplitWordsRuns | services/local_video_service.py:81 | `split()` gives exactly the maximal runs of non-whitespace, in order: each word is a run bounded by whitespace or the ends, each ends before the next starts, and every non-whitespace character lies in one of them |
| Text.SplitOn | routes/api_routes.py:38 | `split(sep)` always yields at least one part |
| Text.SplitOnJoin | routes/api_routes.py:38 | joining the parts of `split(sep)` with `sep` gives back the text |
| Text.SplitOnPartsFree | routes/api_routes.py:38 | no part produced by `split(sep)` contains `sep` |
| Text.Contains | services/local_video_service.py:84 | Python's `sub in s`: some position of `s` starts an occurrence of `sub` (the first one is `IndexOf`) |
| Text.Join | core/video_generator.py:161 | Python's `sep.join(parts)`: the parts in order with `sep` between neighbours, nothing for no parts |
| LocalVideoScoring.DirectMatchScores | services/local_video_service.py:83-86 | a keyword found, lowered, in the lowered file name earns at least 10 |
| LocalVideoScoring.CatIsMapped | services/local_video_service.py:46 | "cat" is a table key one of whose related tokens ("kitten") a kitten file name contains |
| LocalVideoScoring.CatKittenScores | services/local_video_service.py:95-108 | a keyword with the word "cat" against a name holding "kitten" earns at least 20: +15 for the kitten rule and +5 through the table |
| LocalVideoScoring.WordHitsBound | services/local_video_service.py:89-118 | the per-word rules fire at most once per keyword word |
| LocalVideoScoring.MappedWordCounted | services/local_video_service.py:111-118 | every keyword word that is a table key with a related token in the name is counted |
| LocalVideoScoring.KeywordScoreBound | services/local_video_service.py:77-126 | one keyword earns at most 32 + 13 per keyword word: the direct, table and partial bonuses once, the word rules once per word |
| LocalVideoScoring.ScorePositiveIff | services/local_video_service.py:128-133 | a file scores above zero exactly when some keyword earns points on it |
| LocalVideoScoring.ScorePermutation | services/local_video_service.py:77-126 | a file's score does not depend on the order of the keywords |
| LocalVideoScoring.CatTokensMiss | services/local_video_service.py:46 | a name lacking the letters c, k, f and t contains none of the tokens related to "cat" |
| LocalVideoScoring.PlayingTokensMiss | services/local_video_service.py:65 | a name lacking y, f, t and k contains none of the tokens related to "playing" |
| LocalVideoScoring.SingleWordMisses | services/local_video_service.py:77-126 | a one-word table keyword earns nothing against a longer one-word name that lacks one of its letters and all its related tokens |
| LocalVideoScoring.NoPartialHitInOneWord | services/local_video_service.py:121-126 | no partial overlap when neither the keyword nor the single name word contains the other |
| LocalVideoScoring.ScorePair | services/local_video_service.py:77 | the score for two keywords is the sum of their points |
| LocalVideoScoring.CatScoresOnKitten | services/local_video_service.py:95-97 | "cat" earns at least 20 against any name holding "kitten" |
| LocalVideoScoring.CatNothingOnCar | services/local_video_service.py:77-126 | "cat" earns nothing against a long one-word name without c, k, f, t |
| LocalVideoScoring.PlayingNothingOnCar | services/local_video_service.py:77-126 | "playing" earns nothing against a long one-word name without y, f, t, k |
| LocalVideoScoring.NothingScoresOnCar | services/local_video_service.py:77-126 | neither keyword of the list ["cat", "playing"] earns anything against such a name |
| LocalVideoScoring.KittenBeatsCar | services/local_video_service.py:72-133 | for the keyword list ["cat", "playing"], a kitten file scores at least 20 and a long car name such as lamborghini_drive scores 0 |
| LocalVideoScoring.WithScoreAppend | services/local_video_service.py:136 | the entries of a given score in a concatenation are those of each half, in order |
| LocalVideoScoring.Insert | services/local_video_service.py:136 | inserting into a descending list keeps it descending, adds exactly the new entry, and puts it after every entry of its score |
| LocalVideoScoring.Rank | services/local_video_service.py:136 | `sort(key=score, reverse=True)`: descending by score, a permutation of the input, and stable (entries of equal score keep their relative order) |
| LocalVideoScoring.DirectBonus | services/local_video_service.py:84-86 | +10 when the whole lowered keyword occurs in the file name, else nothing |
| LocalVideoScoring.KittenBonus | services/local_video_service.py:95-99 | +15 when "cat" is one of the keyword's words and the file name holds "kitten", else nothing |
| LocalVideoScoring.MappingBonus | services/local_video_service.py:101-108 | +5 once when the whole keyword is a table key with a related word in the file name, else nothing |
| LocalVideoScoring.PartialBonus | services/local_video_service.py:120-126 | +2 once when some word of the file name contains the keyword or lies inside it, else nothing |
| LocalVideoScoring.KeywordScore | services/local_video_service.py:77-126 | the reference score of one keyword: the sum of the six rules, with +8 per keyword word found and +5 per keyword word matched through the table |
| LocalVideo.LastDot | services/local_video_service.py:18 | the position of the last '.', absent exactly when there is none |
| LocalVideo.Suffix | services/local_video_service.py:18 | pathlib's `suffix`: empty, or a proper tail of the name that starts with its last dot and has at least one more character |
| LocalVideo.ExtensionCaseIgnored | services/local_video_service.py:18 | an upper-case extension is accepted; a directory entry that is not a regular file is not |
| LocalVideo.OnlyLastSuffixCounts | services/local_video_service.py:18 | only the text from the last dot counts as the extension |
| LocalVideo.LeadingDotIsNoSuffix | services/local_video_service.py:18 | a name that is only a dot and an extension has no suffix and is not a video |
| LocalVideo.Catalogue | services/local_video_service.py:15-25 | the catalogue has no more entries than the listing and is built in listing order; CatalogueSound, CatalogueComplete and CatalogueIff characterise it fully |
| LocalVideo.CatalogueSound | services/local_video_service.py:17-24 | every catalogued record names the listed video file it was built from |
| LocalVideo.CatalogueComplete | services/local_video_service.py:17-24 | every listed regular file with a video extension has its record in the catalogue |
| LocalVideo.CatalogueIff | services/local_video_service.py:17-24 | a record is catalogued exactly when a listed regular file with a video extension produced it |
| LocalVideo.CatalogueIsLocalVideos | services/local_video_service.py:18-23 | every catalogued record is tagged "local" and has a video extension |
| LocalVideo.EffectiveMax | services/local_video_service.py:29-30 | a missing or zero count becomes 3, any other count is kept |
| LocalVideo.ScoredEntries | services/local_video_service.py:128-133 | every kept entry has a positive score equal to its file's score |
| LocalVideo.ScoredEntriesIff | services/local_video_service.py:128-133 | a file is kept exactly when it is catalogued and scores above zero |
| LocalVideo.ScoredEntriesPermutation | services/local_video_service.py:72-133 | reordering the keywords leaves the scored list unchanged |
| LocalVideo.Items | services/local_video_service.py:147 | the files of the ranked entries, in order |
| LocalVideo.Format | services/local_video_service.py:153-162 | the record is a `file://` URL of the path, the path and file name, 1280x720, 10 seconds, no preview, source "local" |
| LocalVideo.FormatAll | services/local_video_service.py:151-162 | one record per selected file, in order |
| LocalVideo.FirstIndicesSample | services/local_video_service.py:141-144 | a sample of size k ≤ n always exists |
| LocalVideo.Pick | services/local_video_service.py:141-144 | the files at the sampled indices, in sample order |
| LocalVideo.TopScoredAreBest | services/local_video_service.py:136-147 | no catalogued file that scores higher than a selected one is left out of the selection |
| LocalVideo.TopScoredShape | services/local_video_service.py:128-147 | the ranked answer has `min(m, #scored)` entries, in descending score order, each a catalogued file with a positive score |
| LocalVideo.TopScoredIndependentOfKeywordOrder | services/local_video_service.py:77-147 | reordering the keywords leaves the ranked answer unchanged |
| LocalVideo.KittenClipChosen | services/local_video_service.py:27-164 | for the keyword list ["cat", "playing"], a catalogue of a kitten clip and a long car clip yields exactly the kitten clip |
| LocalVideo.FindRelated | services/local_video_service.py:102-108 | the scan that stops at the first related token finds one exactly when one occurs |
| LocalVideo.FindPartial | services/local_video_service.py:121-126 | the scan of the name's words finds an overlap exactly when one exists |
| LocalVideo.CountWordHits | services/local_video_service.py:89-93 | the loop counts exactly the keyword words found in the name |
| LocalVideo.CountMappedWordHits | services/local_video_service.py:111-118 | the loop counts exactly the keyword words with a table hit |
| LocalVideo.PartialPoints | services/local_video_service.py:120-126 | the partial-overlap rule earns exactly its +2 bonus or nothing |
| LocalVideo.MappingPoints | services/local_video_service.py:102-108 | the table rule for the whole keyword earns exactly its +5 bonus or nothing |
| LocalVideo.ScoreKeyword | services/local_video_service.py:78-126 | the rule-by-rule loop body computes the keyword's reference score |
| LocalVideo.ScoreFile | services/local_video_service.py:72-126 | the loop over the keywords computes the file's reference score |
| LocalVideo.SampleIndices | services/local_video_service.py:141-144 | `random.sample(range(n), k)`: k distinct indices below n |
| LocalVideo.FormatVideos | services/local_video_service.py:151-162 | the formatting loop builds one record per selected file, in order |
| LocalVideo.LocalVideoService.constructor | services/local_video_service.py:9-11 | the catalogue is the scan of the videos directory |
| LocalVideo.LocalVideoService.ScanVideos | services/local_video_service.py:13-25 | the scan yields the catalogue of the listing, or nothing when the directory does not exist |
| LocalVideo.LocalVideoService.ScoreCatalogue | services/local_video_service.py:70-133 | the scoring loop yields the positively scored files with their scores, in catalogue order |
| LocalVideo.LocalVideoService.SearchStockVideos | services/local_video_service.py:27-164 | empty catalogue gives `[]`; otherwise the top-scored files; if none scores, a random sample of `min(m, n)` files, or an error for a negative sample size |
| LocalVideo.LocalVideoService.GetRandomVideo | services/local_video_service.py:166-181 | none exactly when the catalogue is empty, otherwise the record of some catalogued file |
| LocalVideo.LocalVideoService.GetVideoByIndex | services/local_video_service.py:183-197 | a record exactly when `0 <= index < count`, and then the record of that file |
| LocalVideo.LocalVideoService.GetVideoCount | services/local_video_service.py:199-201 | the number of catalogued files |
| LocalVideo.IsVideoFile | services/local_video_service.py:18 | a regular file whose pathlib suffix, lowered, is .mp4, .avi, .mov or .mkv |
| LocalVideo.FileScore | services/local_video_service.py:72-126 | a file's score: the keyword scores summed against its lowered name |
| LocalVideo.TopScored | services/local_video_service.py:128-147 | the answer when something scores: the positively scored files sorted by descending score, stable, cut to `max_results` with Python's slice |
| StockVideo.MockVideos | services/stock_video_service.py:73-86 | one sample record, 1280x720, source "mock" |
| StockVideo.EffectiveMax | services/stock_video_service.py:13-14 | a missing or zero count becomes 3, any other count is kept |
| StockVideo.NarrowestHD | services/stock_video_service.py:49-51 | `min` over the HD renditions: none exactly when no rendition is 1280 wide or more; otherwise an HD rendition no HD one is narrower than, and the first of equals |
| StockVideo.Widest | services/stock_video_service.py:53 | `max` by width (missing width as 0): no rendition is wider, and no earlier one is as wide |
| StockVideo.BestFilePrefersHD | services/stock_video_service.py:47-53 | the chosen rendition is the narrowest HD one when one exists, otherwise the widest, the first among ties |
| StockVideo.ParseVideosShape | services/stock_video_service.py:44-62 | a parsed answer has at most one record per hit, all tagged "pexels", and exactly one per hit when every hit has renditions |
| StockVideo.ParseVideosFailureStays | services/stock_video_service.py:44-62 | an error in an early hit ends the whole parse with that error |
| StockVideo.AnswerCases | services/stock_video_service.py:40-71 | an exception, a non-200 status or an unreadable body give the sample video; the answer is empty only for a 200 answer with nothing usable; with a positive size no more results than the size |
| StockVideo.QueryUsesFirstThree | services/stock_video_service.py:22 | the query joins the first three keywords with spaces, all of them when there are fewer |
| StockVideo.CollectVideos | services/stock_video_service.py:42-62 | the loop over the hits computes the reference parse |
| StockVideo.StockVideoService.constructor | services/stock_video_service.py:7-9 | the service keeps the configured key; the default size is 3 |
| StockVideo.StockVideoService.SearchStockVideos | services/stock_video_service.py:11-71 | without a usable key, the sample video and no request; otherwise one request (first three keywords, effective size, the key) and the reference answer to the reply |
| StockVideo.Query | services/stock_video_service.py:22 | the search query: the first three keywords joined by spaces |
| StockVideo.BestFile | services/stock_video_service.py:48-53 | the rendition taken: the narrowest HD one if any, otherwise the widest, the first on ties |
| StockVideo.ParseVideo | services/stock_video_service.py:45-62 | one hit gives one result from its best rendition, nothing without renditions, and the TypeError or KeyError cases as errors |
| StockVideo.ParseVideos | services/stock_video_service.py:44-62 | all hits in order, the first error ending the scan |
| StockVideo.ParseBody | services/stock_video_service.py:41-44 | a body that is not JSON or has a null `videos` is an error; a missing `videos` is the empty list |
| StockVideo.Answer | services/stock_video_service.py:20-71 | the reference answer: the parsed videos cut to the size on status 200, the mock list on any other status, error or exception |
| NlpAnalyzer.LowerIsLowercase | utils/nlp_analyzer.py:32 | a lowered text holds no capital letter |
| NlpAnalyzer.ContentLemmas | utils/nlp_analyzer.py:29-33 | at most one lemma per token |
| NlpAnalyzer.ContentLemmasIff | utils/nlp_analyzer.py:29-33 | a lemma is collected exactly when a non-stop noun, verb or adjective lowers to it |
| NlpAnalyzer.NounPhrases | utils/nlp_analyzer.py:36 | one lowered phrase per noun chunk, in order |
| NlpAnalyzer.CandidatesLowercase | utils/nlp_analyzer.py:29-38 | every keyword candidate is in lower case |
| NlpAnalyzer.DedupTruncated | utils/nlp_analyzer.py:38-44 | `list(set(...))[:5]`: at most five distinct candidates, and all of them when there are no more than five |
| NlpAnalyzer.CollectLemmas | utils/nlp_analyzer.py:29-33 | the token loop collects exactly the content lemmas |
| NlpAnalyzer.SentenceKeywords | utils/nlp_analyzer.py:27-44 | a sentence's keywords are a keyword list of its candidates |
| NlpAnalyzer.AnalyzeScript | utils/nlp_analyzer.py:20-46 | one entry per non-blank stripped sentence, in order, each with a keyword list of its own parse |
| NlpAnalyzer.ExtractKeywords | utils/nlp_analyzer.py:48-57 | the distinct content lemmas, in some order, without a cap |
| VideoProcessor.NormalizeLong | services/video_processor.py:78-81 | footage of 3 s or more is cut at `min(5, d)`, within the footage |
| VideoProcessor.NormalizeLoop | services/video_processor.py:72-77 | footage of 1 to 3 s is repeated `floor(4/d) + 1 ≥ 2` times, strictly longer than 4 s, then cut at 4 s |
| VideoProcessor.NormalizeSpeed | services/video_processor.py:67-70 | footage under 1 s is slowed by factor `d/4` and then lasts exactly 4 s |
| VideoProcessor.NormalizedInRange | services/video_processor.py:59-81 | every normalised clip lasts between 3 and 5 seconds |
| VideoProcessor.FootageClip | services/video_processor.py:45-83 | a loaded clip lasts 3 to 5 seconds and has no fades yet |
| VideoProcessor.PlaceholderClip | services/video_processor.py:152-155 | a placeholder lasts 3 seconds |
| VideoProcessor.TransitionFadesIff | services/video_processor.py:207-216 | with two or more clips, a clip fades in exactly when it is not the last and fades out exactly when it is not the first |
| VideoProcessor.Transitioned | services/video_processor.py:198-220 | transitions keep the number of clips, their sources and their lengths |
| VideoProcessor.TotalDurationSameLengths | services/video_processor.py:100 | clip lists of equal lengths one for one have the same total length |
| VideoProcessor.TransitionsKeepTotal | services/video_processor.py:198-220 | adding fades does not change the length of the joined video |
| VideoProcessor.AddTransitions | services/video_processor.py:198-220 | the loop gives lists of at most one clip back unchanged and otherwise adds each clip's fades by position |
| VideoProcessor.SceneClips | services/video_processor.py:36-91 | one clip per analysed sentence |
| VideoProcessor.SceneClipCases | services/video_processor.py:38-91 | a sentence gets the placeholder with its text exactly when the search is empty or the download fails, otherwise the first hit; either way 3 to 5 seconds |
| VideoProcessor.CreateVideo | services/video_processor.py:29-150 | succeeds exactly when there is a sentence, all footage reads and encoding succeeds; then one clip per sentence with transitions, and the voiceover or silence of the video's length |
| VideoProcessor.RenderedClipsInRange | services/video_processor.py:36-97 | every clip of the rendered video lasts 3 to 5 seconds, one per sentence |
| VideoProcessor.Normalize | services/video_processor.py:62-81 | the three-way rule: cut long footage at min(5, d), loop 1-3 s footage `int(4/d) + 1` times cut at 4, slow footage under 1 s by d/4 |
| VideoProcessor.TransitionFades | services/video_processor.py:207-216 | the first clip fades in, the last fades out, every other both |
| VideoProcessor.SceneClip | services/video_processor.py:36-94 | a sentence's clip: footage from the first hit when it downloads, else the placeholder of its text |
| ApiRoutes.Scenes | routes/api_routes.py:38 | every scene is non-empty and neither starts nor ends with whitespace |
| ApiRoutes.ScenesFreeOfSeparator | routes/api_routes.py:38 | no scene contains " and " |
| ApiRoutes.StrippedScriptHasScene | routes/api_routes.py:32-38 | a script that is not blank has at least one scene |
| ApiRoutes.FirstSeparatorAfter | core/video_generator.py:161 | in `p + " and " + rest` the first separator follows `p` when `p` is stripped, free of " and " and does not end in " and" |
| ApiRoutes.SplitJoinedParts | core/video_generator.py:161 | stripped parts free of " and ", none but the last ending in " and", split back out of their `" and ".join` |
| ApiRoutes.ScenesOfJoin | core/video_generator.py:161 | under the same conditions the scenes of the joined text are the parts |
| ApiRoutes.NarrationRoundTrip | core/video_generator.py:161 | the narration `" and ".join(scenes)` has exactly the original scenes, unless a scene other than the last ends in " and" |
| ApiRoutes.NarrationSplitsIntoScenes | core/video_generator.py:161 | when no scene contains "and", splitting the narration at " and " gives back the scenes |
| ApiRoutes.FlattenIff | routes/api_routes.py:45-48 | a keyword is in a scene's gathered list exactly when one of its sentences has it |
| ApiRoutes.FlattenKeywords | routes/api_routes.py:45-48 | the `extend` loop gathers every sentence's keywords in order |
| ApiRoutes.GenerateVideo | routes/api_routes.py:30-58 | the route as intended: a blank script is refused with "Script is required"; otherwise the scenes (at least one), one analysis and one duplicate-free keyword list per scene, and the narration joined from the scenes |
| ApiRoutes.SearchVideos | routes/api_routes.py:107-117 | an absent or empty keyword list is refused with "Keywords are required"; otherwise the local search with size 3, which never fails and returns at most 3 records |
| ApiRoutes.Flatten | routes/api_routes.py:46-48 | a scene's keywords: those of its analysed sentences, concatenated in order |
| ApiRoutes.GenerateVideoAsWritten | core/video_generator.py:143-146 | as written the route never succeeds: a blank script is a 400, every other script a 500 with the failed import of `add_caption_to_video` |

## Left out

- Frames, audio samples and encoding are not modelled: moviepy decoding, `resize`, `speedx`, concatenation, fades, `write_videofile` and the silent audio clip. A clip is a record of its source, its length and its fades.
- The resize step of `create_video` (services/video_processor.py:51-56) changes only frame size, and the model carries no frame size.
- The text rendering fallbacks of `_create_placeholder_clip` are not modelled; only its 3-second length and its text are kept.
- Temporary clip files and their removal (services/video_processor.py:141-144) are file-system work and are not modelled.
- VideoProcessor.CreateVideo: an exception raised by the clip search itself is not modelled. A downloaded file that cannot be read is modelled, and it makes the whole call fail.
- `resize_video`, `merge_clips` and `merge_clips_with_voiceover` in services/video_processor.py only call the video library, and are not modelled.
- `add_caption_to_video` (services/video_processor.py:268) is not modelled beyond one fact. It is written inside class `VideoProcessor` without `self`, so services.video_processor has no module-level name of that name. The import at core/video_generator.py:146 therefore raises ImportError, `generate_multi_scene_video` returns `success: False`, and `generate-video` answers 500 for every non-blank script. The narration join at core/video_generator.py:161 is never reached as written. `ApiRoutes.GenerateVideoAsWritten` models this (see Findings). `ApiRoutes.GenerateVideo` models the hand-off as intended.
- ApiRoutes.GenerateVideoAsWritten: Python's ImportError message also names the module's file path after the text kept in `CaptionImportError`; the path is not modelled.
- File copying and stat calls are I/O and are not modelled: `download_video` and `get_video_info` of both services, and `list_videos`. The directory listing is an input of the catalogue scan.
- The HTTP client, the JSON decoder and the spaCy model are function parameters. Their own behaviour is not modelled.
- StockVideo.ParseVideo: a rendition whose `link` is present but JSON null, and JSON values of unexpected types, are not modelled.
- LocalVideo.LocalVideoService.SearchStockVideos: `matched_keywords` only feeds a log line and is not modelled.
- Text.Lower: lowers ASCII letters only. Python's `str.lower()` also maps other characters, such as accented capitals and the Kelvin sign.
- Sentence segmentation, tagging, lemmas and noun chunks come from the `nlp` parameter.
- utils/tts_generator.py, core/video_generator.py beyond the narration join at line 161, the search hand-off at lines 100-112, app.py, routes/web_routes.py, the Flask routing, `uuid` and directory creation are not part of this model.
- The generator's `generate_multi_scene_video` beyond its failing import and its narration join is not part of this model: the per-scene search, the voiceover, the merge and the captions. `GenerateVideo` stops at the plan it hands over.
- ApiRoutes.GenerateVideo: a request body that is not JSON, or a `script` member that is not a string, makes the route answer 500; this is not modelled.
- ApiRoutes.SearchVideos: the model takes the request's `keywords` as an optional list of strings. For a JSON object whose `keywords` is such a list, the 500 answer cannot occur with the default size of 3, so the model has no such branch. These cases are not modelled: a body that is not JSON or not an object, for which the route answers 500 (routes/api_routes.py:110-112, 127-128); a `keywords` such as `[1]` or `5` with a non-empty catalogue, where the keyword loop at services/local_video_service.py:77-78 raises AttributeError or TypeError, core/video_generator.py:109 catches it, and the route answers 500 (routes/api_routes.py:124-125); and a string `keywords` such as `"cat"`, which is searched character by character as the keywords "c", "a" and "t".
- VideoProcessor.Normalize: footage is taken to last more than 0 seconds (`Seconds`). A decoded clip of length 0 would make the source divide by zero in `target_duration / original_duration` (services/video_processor.py:74) and fail the whole call; that case is not modelled.
- VideoProcessor.SceneClips: `search` takes the sentence index as well as the keywords, so the local search's random fallback may give different clips to sentences with the same keywords. The model does not say which random clip a sentence gets.
- Logging (`print`) is left out throughout.

## Findings

| source | as written | input that shows it | evidently intended | confidence | as-written member | corrected member |
|---|---|---|---|---|---|---|
| core/video_generator.py:146 | `from services.video_processor import add_caption_to_video` imports a name that services/video_processor.py:268 defines only inside class `VideoProcessor`; the ImportError is caught, the generator reports failure and `generate-video` answers 500 | any non-blank script, e.g. `{"script": "a cat plays"}` | a module-level `add_caption_to_video`, so the route hands the scenes, their keywords and the narration `" and ".join(scenes)` on to the generator | not executed; high (read from the source text) | ApiRoutes.GenerateVideoAsWritten | ApiRoutes.GenerateVideo |
