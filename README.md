# n8n-ffmpeg: a verified model of the request logic

This project models the decision logic of the n8n-ffmpeg helper services in
Dafny and proves properties of that model. It covers three parts.

- **The `/slowmo` handler (server.js).** It turns one still image into a short
  vertical MP4 clip. The model covers:
  - how duration and frame rate are resolved from the request body
    (`Number(x || default)`, then clamped into [1, 60]);
  - the choice of image source: URL first, then upload, else 400;
  - the case-insensitive `http(s)://` check;
  - the 18-argument ffmpeg command line;
  - the classification of the engine's `error` and `close` events;
  - the `cleanup` closure that deletes the two temporary files.

  `Slowmo.Handle` describes a whole request as one function over an abstract
  filesystem, the set of paths that exist. `SlowmoHandler.Handler` is the same
  handler as a state machine: one object per request with a path set, a single
  response, the accumulated stderr text, and one method per event.
  `SlowmoHandler.Serve` drives a request through those events and is proved to
  end in the state `Handle` gives. That state includes one response, and
  cleanup run exactly once on every path that got as far as acquiring an
  image.
- **The `/check` handler (image.js).** It rejects a request with no image or
  with an unreadable size. Otherwise it reports whether width/height lies
  between 1.3 and 2.5 inclusive. The test is stated on integers and proved
  equal to the test on the exact quotient.
- **The list processing of the trend detector (python/ai_trends.py).** The
  model covers:
  - the blacklist substring test;
  - the nested collection loop over the six regions;
  - de-duplication by query, keeping the first row;
  - the second blacklist pass;
  - the growth tier, in tenths;
  - the minimum-volume filter;
  - the top-10 cut;
  - the extraction of the news `page_token`.

  `AiTrends.SelectCandidates` runs the table through these steps in the
  script's order. It is proved to yield clean, distinct, first-collected
  rows at or above the minimum volume, with none missing.

Files: `wrappers.dfy` (Option), `strings.dfy` (decimal rendering, substring
search, ASCII case folding), `slowmo.dfy`, `slowmo_handler.dfy`,
`image_check.dfy`, `ai_trends.dfy`.

Two things about the code that a reader might expect otherwise:
- A non-numeric text such as `"abc"` for duration or fps becomes NaN. NaN
  passes through `Math.min` and `Math.max` unchanged and reaches ffmpeg as
  `-t NaN`. `ResolveDuration` and `ResolveFps` state this: the result is NaN
  exactly for such input, and within [1, 60] otherwise.
- server.js has no timeout, output-size check, audio input or public-URL
  mode. Success is exit code 0 with the output file present.

## Model

| member | source | states |
|---|---|---|
| Slowmo.MathMin | server.js:3-4 | `Math.min` is NaN iff an argument is NaN, otherwise the argument that is at most both. |
| Slowmo.MathMax | server.js:3-4 | `Math.max` is NaN iff an argument is NaN, otherwise the argument that is at least both. |
| Slowmo.ClampedField | server.js:3-4 | NaN iff the field is non-numeric text. Otherwise the number, or the default for a falsy field, is kept inside [1, 60], and moved to 1 below it and to 60 above it. |
| Slowmo.ResolveDuration | server.js:3 | A falsy field gives 5. An integer inside [1, 60] is kept; below it gives 1, above it gives 60. The result is NaN exactly when the field is non-numeric text, and within [1, 60] otherwise. |
| Slowmo.ResolveFps | server.js:4 | A falsy field gives 30. Integers clamp into [1, 60] as for the duration. NaN exactly for non-numeric text. |
| Slowmo.ResolveIsIdempotent | server.js:3-4 | Resolving an already-resolved finite value gives it back: the clamp is a fixpoint. |
| Slowmo.NumberText | server.js:31-32 | `String(x)`: "NaN" for NaN. Otherwise the shortest decimal spelling: for n >= 0, digits with decimal value n and no leading zero ("0" for zero); for n < 0, a minus sign followed by that spelling of -n. |
| Slowmo.ChooseSource | server.js:16-24 | A truthy url decides alone: http(s) gives download, anything else gives InvalidUrl, whatever upload is present. Without a url, an uploaded `video` is used, else NoSource. Each case is stated as an if-and-only-if. |
| Slowmo.IsHttpUrl | server.js:18 | The check holds iff the text starts with h, t, t, p in either case, then an optional s in either case, then "://". |
| Slowmo.UrlCheckIgnoresCase | server.js:18 | Two strings that agree after ASCII lower-casing are judged alike by the `/^https?:\/\//i` check. |
| Slowmo.FfmpegArgs | server.js:27-38 | The argument list has 18 elements, starts with "-y" and ends with the output path. |
| Slowmo.ParseFlattened | server.js:27-38 | A list of option/value pairs followed by an output file reads back as exactly those pairs and that one output. |
| Slowmo.ArgsReadBack | server.js:27-38 | Read as an ffmpeg command line, the argument list gives the overwrite switch, the input after `-i` (looped), `String(duration)` after `-t`, `String(fps)` after `-r`, the fixed scale/pad filter, libx264, yuv420p, +faststart, and the output path as the only output. The decimal value of the duration and fps texts is the clamped value. |
| Slowmo.Concat | server.js:42-43 | The accumulated stderr text is "" with no chunks, is the chunk itself for one chunk, and is as long as all chunks together. With ConcatAppend this makes it the chunks' texts joined in arrival order. |
| Slowmo.ConcatAppend | server.js:42-43 | Appending chunks one by one builds the same text as appending a first batch and then a second: the text accumulated so far is always a prefix of the final text, in arrival order. |
| Slowmo.CodeText | server.js:53 | `${code}`: "null" for a process killed by a signal, otherwise the shortest decimal spelling of the code ("0" for exit code 0, no leading zero), with a minus sign when negative. |
| Slowmo.CloseSucceeded | server.js:51 | A null code, a non-zero code or a missing output each fail; code 0 with the output present succeeds. |
| Slowmo.CaughtMessage | server.js:64 | The caught error's message, or "Processing error" when it is empty; never empty. |
| Slowmo.CleanedUp | server.js:9-12 | After cleanup neither temp path exists, and every other path is as before. No path is created. Running it again changes nothing. |
| Slowmo.Handle | server.js:14-65 | An invalid url gives 400 "Invalid URL"; no source gives 400 with the "No image provided" message. In both cases no file is touched, no engine runs and nothing is cleaned up. Once acquisition starts, cleanup runs exactly once and removes both temp paths. `spawn` is called iff the image was acquired, with exactly `FfmpegArgs`. Acquisition failure, spawn error and failed close give 500 with the source's messages. The file is delivered as "image-video.mp4" iff the exit code is 0 and the output exists. |
| SlowmoHandler.Handler.constructor | server.js:3-7 | A new request: resolved duration and fps, the existing paths, no response, no engine. |
| SlowmoHandler.Handler.Cleanup | server.js:9-12 | The path set becomes `CleanedUp` of the old one, and the cleanup count goes up by one. |
| SlowmoHandler.Handler.Start | server.js:14-40 | The 400 cases finish with the files unchanged. A failed acquisition is cleaned up and answered 500 with the caught message, and no engine runs. A successful one adds the input path, spawns the engine with the fixed command line and starts with empty stderr. |
| SlowmoHandler.Handler.OnStderrData | server.js:43 | The stderr text grows by exactly the chunk. |
| SlowmoHandler.Handler.EngineWritesOutput | server.js:37 | The output path comes to exist. |
| SlowmoHandler.Handler.OnError | server.js:45-48 | Cleanup, then 500 "FFmpeg spawn error: " followed by the message; the request is finished. |
| SlowmoHandler.Handler.OnClose | server.js:50-56 | A code other than 0 (null included) or a missing output gives cleanup and 500 "FFmpeg failed (code N). " plus the stderr text. Otherwise the download starts and the files are left in place. |
| SlowmoHandler.Handler.OnDownloadDone | server.js:56-59 | Cleanup runs whether or not the transfer failed. The response is unchanged, since the error is only logged. |
| SlowmoHandler.Serve | server.js:2-66 | Every request ends finished with the handler invariant holding (one response; cleanup exactly once after acquisition, both temp paths gone). Its response, files, command line and cleanup count are those of `Slowmo.Handle`. |
| ImageCheck.RatioBoundsExact | image.js:24-27 | For a positive height, `13h <= 10w && 2w <= 5h` holds iff `1.3 <= w/h <= 2.5` on the exact quotient, both bounds inclusive. |
| ImageCheck.InRatioBounds | image.js:27 | For a positive height, holds iff 1.3 <= w/h <= 2.5 on the exact quotient; only a landscape image passes. |
| ImageCheck.Check | image.js:9-35 | No files or no `image` field: 400. A failed metadata read: 500. A zero or missing width or height: 400. The reply is `ok: true` iff both are positive, and then width and height are echoed and `valid` iff 1.3 <= w/h <= 2.5; a square or portrait image is never valid. ok iff status 200, otherwise 400 or 500. |
| Strings.Contains | python/ai_trends.py:88 | `needle in hay` holds iff the needle occurs at some position of the hay. |
| AiTrends.Lower | python/ai_trends.py:87 | Lower-casing keeps the length and maps each character on its own. |
| AiTrends.AnyOccurs | python/ai_trends.py:88 | `any(bad in text for bad in words)` iff some word occurs in the text. |
| AiTrends.IsBlacklisted | python/ai_trends.py:85-88 | Holds iff some blacklist entry is a substring of the lower-cased text. It is substring matching, not word matching. |
| AiTrends.LowerIsIdempotent | python/ai_trends.py:87 | Lower-casing twice equals lower-casing once. |
| AiTrends.BlacklistIgnoresCase | python/ai_trends.py:87 | A text and its lower-case form are blacklisted alike. |
| AiTrends.RowOf | python/ai_trends.py:99-107 | A raw trend yields a row iff its query is present, non-empty and not blacklisted. The row keeps the query and region. The volume is 0 when missing, otherwise copied. |
| AiTrends.RegionRows | python/ai_trends.py:98-107 | A region contributes at most one row per trend, each clean and tagged with that region. |
| AiTrends.RegionRowsAreTheirTrendsRows | python/ai_trends.py:98-107 | A region's rows are exactly the rows its trends contribute: every trend whose query is present, non-empty and not blacklisted is collected (with its volume, or 0 when missing), and no other row is. |
| AiTrends.Collected | python/ai_trends.py:94-107 | Every collected row has a non-empty, non-blacklisted query and a region from the list. |
| AiTrends.CollectedAreTheTrendsRows | python/ai_trends.py:94-107 | The collected rows are exactly the rows contributed by the trends of some region in the list: none is lost and none is invented. |
| AiTrends.CollectTrends | python/ai_trends.py:94-107 | The nested append loop, with `continue` on empty or blacklisted queries, yields exactly `Collected(GeoList, fetched)`. |
| AiTrends.AppendRegion | python/ai_trends.py:98-107 | The inner loop appends exactly the rows of one region's trends to the rows so far. |
| AiTrends.FirstIndex | python/ai_trends.py:110 | The position of the first row with a query: that row has it, no earlier row does, and it is past the end iff no row does. |
| AiTrends.DedupAfter | python/ai_trends.py:110 | No kept row has a query already seen. |
| AiTrends.DedupDistinct | python/ai_trends.py:110 | The kept rows have pairwise distinct queries. |
| AiTrends.DedupKeepsFirst | python/ai_trends.py:110 | Each kept row is the first row of its query, and kept rows are in order of first occurrence. |
| AiTrends.DedupCovers | python/ai_trends.py:110 | Every query not already seen keeps a row. |
| AiTrends.DropDuplicateQueries | python/ai_trends.py:110 | `drop_duplicates(subset="query")`: distinct queries, each the first row of its query, in first-occurrence order, and no query lost. |
| AiTrends.GeoListIsDistinct | python/ai_trends.py:18 | The six regions are pairwise distinct. |
| AiTrends.CollectedIsRegionOrdered | python/ai_trends.py:95-107 | Collected rows never put a later region before an earlier one. |
| AiTrends.KeptRowIsFromEarliestRegion | python/ai_trends.py:94-110 | Among collected rows sharing a query, the kept row's region comes first in the region list. |
| AiTrends.DropBlacklisted | python/ai_trends.py:115 | A row is kept iff it is an input row whose lower-cased query is not blacklisted. |
| AiTrends.SecondBlacklistPassKeepsAll | python/ai_trends.py:100-115 | On rows the collection loop produced, the second blacklist pass removes nothing. |
| AiTrends.DedupKeepsClean | python/ai_trends.py:110 | De-duplication keeps every row clean. |
| AiTrends.GrowthTenths | python/ai_trends.py:127-129 | The tier is between 0.4 and 1.0. |
| AiTrends.GrowthThresholdsAreStrict | python/ai_trends.py:127-129 | Volumes 50000, 10000 and 1000 fall in the lower tier (0.8, 0.6, 0.4); one more falls in the higher one. |
| AiTrends.GrowthIsMonotone | python/ai_trends.py:127-129 | A higher volume never gets a lower tier. |
| AiTrends.WithGrowth | python/ai_trends.py:127-129 | Every row is kept in place and gets the tier of its own volume. |
| AiTrends.AtLeastMinVolume | python/ai_trends.py:137-138 | A row is kept iff it is in the input with volume >= 15000. |
| AiTrends.MinVolumeKeepsDistinct | python/ai_trends.py:138 | Filtering keeps queries pairwise distinct. |
| AiTrends.SurvivorsHaveHighGrowth | python/ai_trends.py:127-138 | Every row surviving the minimum-volume filter has tier 0.8 or more. |
| AiTrends.MinVolumeKeepsScoredRows | python/ai_trends.py:127-138 | Each surviving row is an input row with its own tier. |
| AiTrends.MinVolumeKeepsLargeRows | python/ai_trends.py:137-138 | Every input row at or above the minimum survives. |
| AiTrends.TopRows | python/ai_trends.py:147 | `head(TOP_N)`: the first min(10, n) rows, unchanged. |
| AiTrends.Candidates | python/ai_trends.py:110-138 | For any input, every candidate has an unblacklisted query, a volume of at least 15000 and a tier of at least 0.8 that matches its volume. |
| AiTrends.CandidatesAreDistinctAndLarge | python/ai_trends.py:110-138 | After dedup, second pass, tiering and the volume filter, the queries are distinct. Every row is clean, at or above 15000, with its tier >= 0.8. |
| AiTrends.CandidatesAreFirstRows | python/ai_trends.py:110-138 | Every candidate is the first collected row of its query. |
| AiTrends.CandidatesAreComplete | python/ai_trends.py:110-138 | Every query whose first row reaches the minimum volume is among the candidates. |
| AiTrends.SelectCandidates | python/ai_trends.py:94-138 | The reassignments of `df` yield distinct, clean rows at or above the minimum with tier >= 0.8. Each is the first collected row of its query, and none with enough volume is missing. |
| AiTrends.FirstOccurrence | python/ai_trends.py:59 | The separator occurs at the returned position and at no earlier one: `split` cuts at the leftmost occurrence. |
| AiTrends.LastPiece | python/ai_trends.py:59 | `s.split(sep)[-1]`: a suffix that follows some occurrence of the separator and contains none; the whole string if it has none. |
| AiTrends.PageToken | python/ai_trends.py:57-59 | "" when the link is missing, empty or lacks "page_token=". Otherwise the text after an occurrence of the key, containing no further occurrence. |
| AiTrends.TokenFollowsLastOccurrence | python/ai_trends.py:57-59 | Every occurrence of "page_token=" ends at or before the token starts, so the token follows the last one. |

## Left out

- Process and network I/O of server.js are not modelled: the `spawn` of ffmpeg, `downloadFile`, `req.files.video.mv`, the `res.download` streaming and the Express wiring. They appear as inputs: the acquisition result, the engine run (spawn error, or stderr chunks, whether the output was written, and the exit code) and the delivery error.
- `tmpPath` is not part of this model. The two temp paths are parameters, and their uniqueness is not modelled.
- `downloadFile` is not part of this model. Redirect-following and the removal of partly written files by the download are not modelled.
- The errors cleanup swallows are not modelled: removing an existing path is taken to succeed.
- Slowmo.ResolveDuration and Slowmo.ResolveFps model body values that are falsy, integer-valued or NaN. Fractions and Infinity pass through `Number` as floats and are not modelled.
- Slowmo.ChooseSource takes the url as text. A truthy non-string url is converted by `String` before the check; that conversion is not modelled.
- The Node `error` and `close` events are taken as mutually exclusive terminal events, each firing once. Their interleaving and double firing are left out.
- A synchronous throw from `spawn` itself (caught at server.js:62-64) is not modelled. The caught-exception path is modelled for acquisition failures.
- server.js has no timeout, output-size check, audio input or public-URL mode, so none is modelled.
- The `sharp` metadata read of image.js is an input. `ratio.toFixed(2)` in the reply is float formatting and is not modelled.
- ImageCheck.RatioBoundsExact compares with the exact quotient. JavaScript divides in double precision, which agrees for every realistic pixel size, but the rounding itself is not modelled.
- AiTrends.Lower models Python's `str.lower` for ASCII and the Latin-1 capitals only. Other scripts' case mappings are not modelled.
- The trends' query, search volume and news link are strings and integers or absent. A JSON `null` news link stays `None` in Python; here it is treated as absent.
- The SerpApi calls (`fetch_trends`, the news request) are not modelled: what each region returned is an input. The news snippets text and its join are left out.
- The sentence-transformer embeddings, `semantic_score`, `normalize`, `score_final`, the `sem_norm >= 0.35` filter and the float sort are numeric or external and are not modelled. The top-10 cut is modelled on a ranked table given as input.
- The pipeline's behaviour when no trend at all is collected (pandas raises on an empty frame) is not modelled.
- The printing, the JSON export and the R2 upload are not modelled.
- python/server.py, python/r2_uploader.py, python/google_drive_uploader.py and api/slowmo.js are thin I/O or SDK wrappers with no decision logic and are not modelled.
