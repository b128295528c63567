# yt-extractor-service, modelled in Dafny

The service answers `POST /extract`. A request carries a YouTube URL and a start and
end timestamp. The service checks an API key and validates the body. It then downloads
the audio, trims the requested range to an MP3, uploads the clip to object storage and
deletes the two intermediate files. This project models that path and proves properties
of it.

Modules, one file each:

- `Wrappers`: `Option` and `Result`.
- `JsValues`: a JSON body field. It is absent, a string, or some other value with its
  JavaScript truthiness.
- `Strings`: prefixes, substrings, case folding and `path.basename`.
- `Timestamps`: `parseTimestamp` and `validateTimestamps`.
  - `ParseTimestamp` is the source's accumulating loop, proved equal to the base-60
    reading `TimestampSeconds`.
  - The 600-second cap is `MaxSegmentSeconds`.
- `Urls`: the acceptance pattern of `isValidYouTubeUrl` and `normalizeYouTubeUrl`.
  - The pattern is written out as the disjunction of its five prefix choices.
  - The WHATWG URL parser is a parameter `parse`; `None` stands for the exception.
- `Acquisition`: `downloadAudio`, with at most three attempts.
  - The retries `Attempts` take a function `Runs` that gives, for each attempt number,
    how that attempt ends and which calls it makes. The properties of the retries hold
    for every such function whose attempts have the shape of one attempt
    (`AttemptTraces`).
  - The download itself uses `Runner`: each attempt is a pure cascade `RunAttempt`:
    1. the primary yt-dlp call and the scan of the temp directory;
    2. the JSON format dump and the choice of format;
    3. either the ytdl-core stream or a direct fetch of the chosen format;
    4. the scan of the working directory.
  - What each tool does in attempt `n` is given by `Env.world(n)`.
  - `DownloadAudio` is the retry loop, proved equal to the function `Acquire`.
  - It returns the result and the trace of external calls, which include the backoff
    sleeps.
- `Files`: a `FileStore` class.
  - It holds the existing paths and the locked ones (paths whose removal throws).
  - `Cleanup` is the source's loop over `paths`, specified by `AfterCleanup` and
    `Warnings`.
- `Auth`: `requireApiKey` and the configured key.
- `Service`: the `/extract` handler.
  - `Handle` is the specification, in three layers: the key check, then `Admit` on the
    body's verdict `CheckRequest`, then `Pipeline` on the download's result.
  - `Handle` takes the download as a function from URL to result. `Extract` passes
    `Downloader(stages)`, which is `Acquire` in the stages' environment. The handler
    lemmas hold for every download function.
  - `Extract` runs the handler step by step on a `FileStore`, calls `ParseTimestamp`
    and `DownloadAudio`, and is proved equal to `Handle`, file set included.

The collaborators are parameters of `Service.Stages`:

- the URL parser and the download environment;
- the uuids;
- whether trimming or uploading throws, and what it throws: the error's message and
  its printed form `String(err)`;
- whether a failing trim had already opened its output file (`trimLeftPartial`);
- the public URL and the bucket.

Three behaviours of the code are worth noting:

- Cleanup runs only after the upload succeeds. If downloading, trimming or uploading
  fails, the files already written stay behind (`Service.IntermediateFiles`).
- Lines 98 and 171 of `extractor.ts` clear the download deadline as soon as the first primary call
  settles. Only that call can time out (`Acquisition.DeadlineWins`). After the deadline
  fires, the attempts still run to their end.
- A failing ytdl-core fallback throws inside the JSON fallback's `try` (`extractor.ts` line 134). The
  `catch` at line 150 catches it, so the download ends with "download failed: no file",
  not with the "no downloadable format" text.

## Model

Source paths are relative to the repository root. All `extractor.ts`, `index.ts` and
`config.ts` lines are under `yt-extractor-service/src/`.

| member | source | states |
|---|---|---|
| Strings.Basename | yt-extractor-service/src/index.ts:59 | `path.basename`: the result holds no '/', it ends the path, and a '/' stands right before it when it is shorter than the path |
| Strings.BasenameJoin | yt-extractor-service/src/index.ts:59 | the base name of `dir + "/" + name` is `name` when `name` holds no '/' |
| Timestamps.ReplaceDots | yt-extractor-service/src/extractor.ts:51 | defines `replace(/\./g, ":")` one character at a time; the length is kept |
| Timestamps.Split | yt-extractor-service/src/extractor.ts:52 | defines `split(":")`: there is always at least one piece, and the empty string gives one empty piece |
| Timestamps.TimestampSeconds | yt-extractor-service/src/extractor.ts:49-56 | defines the reading of a timestamp: null for a falsy or non-string value or a non-numeric piece, otherwise the base-60 value of the pieces after dots become colons |
| Timestamps.ReplaceDotsAt | yt-extractor-service/src/extractor.ts:51 | every '.' becomes ':', every other character stays, and no '.' is left |
| Timestamps.NoDotsUnchanged | yt-extractor-service/src/extractor.ts:51 | a string without dots is left as it is |
| Timestamps.ReplaceDotsIdempotent | yt-extractor-service/src/extractor.ts:51 | replacing dots a second time changes nothing |
| Timestamps.JoinSplit | yt-extractor-service/src/extractor.ts:52 | `split(":")` pieces hold no colon and joined with ':' give back the string |
| Timestamps.SplitJoin | yt-extractor-service/src/extractor.ts:52 | splitting colon-free pieces joined with ':' gives back exactly those pieces |
| Timestamps.NumberOf | yt-extractor-service/src/extractor.ts:52 | `Number(piece)` is a number exactly for digit strings, the empty string included |
| Timestamps.Numbers | yt-extractor-service/src/extractor.ts:52-53 | all pieces map to numbers exactly when every piece is numeric, and then there is one value per piece |
| Timestamps.NumbersAt | yt-extractor-service/src/extractor.ts:52 | when every piece is numeric, each value is the decimal value of its piece |
| Timestamps.Base60Prepend | yt-extractor-service/src/extractor.ts:55 | the leftmost of k+1 components weighs 60^k |
| Timestamps.ParseTimestamp | yt-extractor-service/src/extractor.ts:47-57 | the loop `seconds += parts[i] * 60^i` over the reversed pieces returns null for a falsy or non-string input or a non-numeric piece, and otherwise the base-60 value of the pieces |
| Timestamps.ParseDigitComponents | yt-extractor-service/src/extractor.ts:51-56 | digit-only components joined by colons parse to their base-60 value |
| Timestamps.DotsAreColons | yt-extractor-service/src/extractor.ts:50-51 | a timestamp parses the same with dots as with colons |
| Timestamps.NullIffNonNumeric | yt-extractor-service/src/extractor.ts:53 | a non-empty string parses to null exactly when some piece is not a number |
| Timestamps.NullForNonText | yt-extractor-service/src/extractor.ts:49 | a falsy or non-string timestamp parses to null |
| Timestamps.ParseMinutesSeconds | yt-extractor-service/src/extractor.ts:48-56 | `MM:SS` parses to 60·MM + SS |
| Timestamps.ParseHoursMinutesSeconds | yt-extractor-service/src/extractor.ts:48-56 | `HH:MM:SS` parses to 3600·HH + 60·MM + SS |
| Timestamps.ParseExampleMinutes | yt-extractor-service/src/extractor.ts:47-57 | "1:30" parses to 90 |
| Timestamps.ParseExampleHours | yt-extractor-service/src/extractor.ts:47-57 | "1:01:01" parses to 3661 |
| Timestamps.ParseExampleColon | yt-extractor-service/src/extractor.ts:47-57 | "0:30" parses to 30 |
| Timestamps.ParseExampleDot | yt-extractor-service/src/extractor.ts:50-51 | "0.30" parses to 30, as "0:30" does |
| Timestamps.ParseEmptyComponent | yt-extractor-service/src/extractor.ts:52-55 | "1:" parses to 60, because an empty piece counts as 0 |
| Timestamps.ParseNonNumeric | yt-extractor-service/src/extractor.ts:53 | "1:x" parses to null |
| Timestamps.Message | yt-extractor-service/src/extractor.ts:60-62 | defines the three error texts, the third with the 600-second cap written in |
| Timestamps.ValidateTimestamps | yt-extractor-service/src/extractor.ts:59-64 | no error exactly when both bounds exist, end > start and end − start ≤ 600; each of the three errors exactly under its own condition, checked in source order |
| Timestamps.ValidateExamples | yt-extractor-service/src/extractor.ts:59-64 | 30→20 gives "end must be after start", 0→700 is too long, 0→300 and 0→600 pass, a missing start gives "invalid timestamps" |
| Urls.FirstIndex | yt-extractor-service/src/extractor.ts:38 | `searchParams.get` finds the first pair with the name and no earlier one, or reports that none has it |
| Urls.IsValidYouTubeUrl | yt-extractor-service/src/extractor.ts:27-29 | defines acceptance: no prefix or one of http://, https://, http://www., https://www., then youtube.com/ or youtu.be/ in any letter case, then one character other than a line terminator |
| Urls.QueryGet | yt-extractor-service/src/extractor.ts:38 | defines `searchParams.get`: the value of the first pair with the name, none when no pair has it |
| Urls.VideoId | yt-extractor-service/src/extractor.ts:35-39 | defines the id: on a host containing "youtu.be" the path without its first character, otherwise the first `v` value, "" when there is none |
| Urls.NormalizeYouTubeUrl | yt-extractor-service/src/extractor.ts:31-45 | an unparsable URL or an empty video id gives back the input; otherwise the result is the canonical watch URL of the id |
| Urls.CanonicalAccepted | yt-extractor-service/src/extractor.ts:27-41 | every canonical watch URL passes the acceptance pattern |
| Urls.NormalizeKeepsAccepted | yt-extractor-service/src/extractor.ts:27-45 | normalising an accepted URL yields an accepted URL |
| Urls.NormalizeIdempotent | yt-extractor-service/src/extractor.ts:31-45 | normalising twice equals normalising once when the parser reads the canonical URL of this URL's id back with that id as the only `v` |
| Urls.AmpersandIdNotIdempotent | yt-extractor-service/src/extractor.ts:38-41 | the id "a&v=b" (from `v=a%26v%3Db`) is written into the canonical URL unescaped, so a second normalisation yields the watch URL of "a" instead |
| Urls.ShortLinkId | yt-extractor-service/src/extractor.ts:35-41 | `youtu.be/<id>` normalises to the watch URL of `<id>` |
| Urls.AcceptedExtends | yt-extractor-service/src/extractor.ts:28 | the pattern is anchored only at the start: an accepted URL stays accepted with any suffix |
| Urls.AcceptedIgnoresCase | yt-extractor-service/src/extractor.ts:28 | acceptance does not depend on letter case |
| Urls.AcceptShortLink | yt-extractor-service/src/extractor.ts:28 | "youtu.be/abc" is accepted |
| Urls.RejectWwwWithoutScheme | yt-extractor-service/src/extractor.ts:28 | "www.youtube.com/…" without a scheme is rejected |
| Urls.RejectEmptyPath | yt-extractor-service/src/extractor.ts:28 | "https://youtube.com/" with nothing after the slash is rejected |
| Acquisition.IsAudio | yt-extractor-service/src/extractor.ts:113 | defines an audio format: `acodec` present and not "none" |
| Acquisition.Rate | yt-extractor-service/src/extractor.ts:114 | defines the sort key `abr || tbr || 0` |
| Acquisition.BestAudio | yt-extractor-service/src/extractor.ts:113-115 | the index found is the first audio format of maximal rate (abr, else tbr); none exactly when no format has audio |
| Acquisition.BestAudioIsHead | yt-extractor-service/src/extractor.ts:114-115 | the first audio format of maximal rate is the one found, i.e. the head of the stable descending sort |
| Acquisition.ChooseFormat | yt-extractor-service/src/extractor.ts:113-115 | with audio formats the choice has audio and maximal rate; without them it is the first format; nothing is chosen exactly when the list is empty |
| Acquisition.ExtOf | yt-extractor-service/src/extractor.ts:137 | the extension is the format's own, or "m4a" when that is empty |
| Acquisition.FirstContaining | yt-extractor-service/src/extractor.ts:103 | the directory scan finds the first file name containing the id, or reports that none does |
| Acquisition.IdFor | yt-extractor-service/src/extractor.ts:68 | the id is the given base name when non-empty, else the fresh uuid |
| Acquisition.Fallback | yt-extractor-service/src/extractor.ts:107-150 | defines the JSON fallback: the dump, the choice of format, then ytdl-core or a direct fetch, the file each writes on success and the calls made; any failure inside it, ytdl-core's included, resolves with no file |
| Acquisition.RunAttempt | yt-extractor-service/src/extractor.ts:85-180 | defines one attempt: the primary call and the temp-directory scan, then the fallback, then the working-directory scan; it ends with a file, with the primary call's error, or with nothing found |
| Acquisition.Attempts | yt-extractor-service/src/extractor.ts:82-183 | defines the retries from attempt n: the first attempt that finds a file gives it; otherwise a backoff sleep and the next attempt, and after the third the last attempt's error or "download failed: no file" |
| Acquisition.Acquire | yt-extractor-service/src/extractor.ts:66-185 | defines `downloadAudio`: the retries on the normalised URL with the id `outBaseName || uuid`, overridden by "download timeout" when the first primary call outlasts the deadline |
| Acquisition.DownloadAudio | yt-extractor-service/src/extractor.ts:66-185 | the retry loop returns exactly the result and call trace of `Acquire`: up to three attempts with backoff between them, and the deadline if the first call outlasts it |
| Acquisition.AttemptOrder | yt-extractor-service/src/extractor.ts:85-166 | one attempt starts with one primary call, then only fallback calls in cascade order, all numbered with the attempt, and no sleep |
| Acquisition.FallbackOrder | yt-extractor-service/src/extractor.ts:107-140 | the JSON fallback asks for the dump first and then calls at most one downloader, ytdl-core with the normalised url or a direct fetch |
| Acquisition.AttemptCounts | yt-extractor-service/src/extractor.ts:85-166 | one attempt makes exactly one primary call and no sleep |
| Acquisition.FallbackOnlyOnMiss | yt-extractor-service/src/extractor.ts:103-109 | the JSON fallback runs exactly when the primary call returned and left no file carrying the id |
| Acquisition.YtdlCoreOnlyWithoutUsableFormat | yt-extractor-service/src/extractor.ts:117-120 | ytdl-core runs exactly when the primary call missed, the dump succeeded, and no format or one without a url was chosen |
| Acquisition.DirectFetchesChosenUrl | yt-extractor-service/src/extractor.ts:137-140 | a direct fetch asks for the chosen format's url, which is non-empty |
| Acquisition.FoundCarriesId | yt-extractor-service/src/extractor.ts:103-168 | a file an attempt resolves with lies in the temp or working directory and its name carries the id |
| Acquisition.BackoffSchedule | yt-extractor-service/src/extractor.ts:158-161 | the waits 500·2^(n−1) before attempts 2 and 3 are 500 and 1000 ms |
| Acquisition.AttemptsCounts | yt-extractor-service/src/extractor.ts:158-177 | from attempt n on there is one primary call per attempt and one sleep between attempts, following the schedule; a failure has used all remaining attempts |
| Acquisition.AttemptsNumbered | yt-extractor-service/src/extractor.ts:82-83 | attempt numbers in the trace stay within n..3 and never decrease |
| Acquisition.AttemptsFailure | yt-extractor-service/src/extractor.ts:164-179 | the retries fail exactly when every remaining attempt fails, and then with the last attempt's error |
| Acquisition.AttemptsFound | yt-extractor-service/src/extractor.ts:164-168 | a downloaded file is the one some remaining attempt resolved with |
| Acquisition.RunnerTraces | yt-extractor-service/src/extractor.ts:85-166 | every attempt of a download has the shape of one attempt |
| Acquisition.RetrySchedule | yt-extractor-service/src/extractor.ts:80-83 | at most three primary calls, one more than the sleeps, which are a prefix of [500, 1000] |
| Acquisition.ExhaustedRetries | yt-extractor-service/src/extractor.ts:158-179 | without the deadline the download fails exactly when all three attempts fail; it has then slept 500 and 1000 ms, made three primary calls, and rejects with the third attempt's error |
| Acquisition.DeadlineWins | yt-extractor-service/src/extractor.ts:74-76 | when the first primary call outlasts the deadline, the result is "download timeout" whatever the attempts do |
| Acquisition.DownloadedCarriesId | yt-extractor-service/src/extractor.ts:66-168 | a downloaded file lies in the temp or working directory and its name carries the id |
| Files.Deletable | yt-extractor-service/src/extractor.ts:203-212 | defines what cleanup removes: the listed paths that are non-empty and whose removal does not throw |
| Files.Warnings | yt-extractor-service/src/extractor.ts:208-209 | defines the warnings: the listed, non-empty, existing, locked paths in list order, repeats included |
| Files.FileStore.Create | yt-extractor-service/src/extractor.ts:187-199 | a stage adds its output file and changes nothing else |
| Files.FileStore.Cleanup | yt-extractor-service/src/extractor.ts:203-212 | the loop removes exactly the listed, non-empty, removable paths, leaves every other file, and warns about each listed locked file in order |
| Files.AfterCleanup | yt-extractor-service/src/extractor.ts:203-212 | cleanup only ever removes files |
| Files.ListedGone | yt-extractor-service/src/extractor.ts:206-207 | a listed, non-empty, removable path is gone afterwards |
| Files.UnlistedUnchanged | yt-extractor-service/src/extractor.ts:204-207 | a path that is not listed exists afterwards exactly when it did before |
| Files.EmptyPathsIgnored | yt-extractor-service/src/extractor.ts:206 | empty paths change nothing and cause no warning |
| Files.CleanupIdempotent | yt-extractor-service/src/extractor.ts:203-212 | a second cleanup of the same paths removes nothing more and warns about the same paths |
| Files.WarningsOnlyLocked | yt-extractor-service/src/extractor.ts:208-209 | only the existing locked paths affect the warnings |
| Files.WarningsAreLocked | yt-extractor-service/src/extractor.ts:208-209 | every warning names a listed, non-empty, existing, locked path |
| Auth.ConfiguredKey | yt-extractor-service/src/config.ts:7 | the key is SERVICE_API_KEY when non-empty, else API_KEY, else "" |
| Auth.RequireApiKey | yt-extractor-service/src/middleware/auth.ts:5-19 | a refusal carries 401, 403 or 500 |
| Auth.MisconfiguredRefusesAll | yt-extractor-service/src/middleware/auth.ts:7-10 | without a configured key every request gets 500 "server misconfigured" |
| Auth.MissingAuthIff | yt-extractor-service/src/middleware/auth.ts:11-13 | 401 exactly when a key is configured and the header is absent or lacks "Bearer " |
| Auth.WrongKeyIff | yt-extractor-service/src/middleware/auth.ts:14-17 | 403 exactly when the header has the prefix and the token after it differs from the key |
| Auth.PassIff | yt-extractor-service/src/middleware/auth.ts:5-19 | the request passes exactly when a key is configured and the header is "Bearer " followed by that key |
| Service.ConcurrencyCap | yt-extractor-service/src/index.ts:21 | the cap is the parsed setting unless that is NaN or 0, then 2 |
| Service.ErrorText | yt-extractor-service/src/index.ts:81-82 | outside debug mode "processing failed"; in debug mode the error's message when non-empty, else its printed form; empty exactly when both are empty in debug mode |
| Service.ErrorObject | yt-extractor-service/src/extractor.ts:75 | a plain `Error` keeps its message and prints as "Error", followed by ": " and the message when that is non-empty |
| Service.TrimmedPath | yt-extractor-service/src/extractor.ts:188-189 | defines the trimmed file's path: the temp directory joined with a fresh uuid and ".mp3" |
| Service.DestPath | yt-extractor-service/src/index.ts:59 | defines the storage path `performances/<uuid>/<basename of the trimmed file>` |
| Service.Pipeline | yt-extractor-service/src/index.ts:53-83 | defines the queued work given the download's result: trim, upload, cleanup in turn, each stage's error answered with 500 and the files written so far left (the trim's partial output included when it had opened it), success answered with 200 and the clip |
| Service.Admit | yt-extractor-service/src/index.ts:42-83 | defines the handling after the key check: 400 with the checks' text for a rejected body, otherwise the pipeline on the accepted URL and range |
| Service.Handle | yt-extractor-service/src/index.ts:34-84 | defines the `/extract` handler: the key check's refusal, otherwise the handling of the body's verdict, in debug mode when LOG_LEVEL is "debug" |
| Service.CheckRequest | yt-extractor-service/src/index.ts:42-48 | an accepted body has a range of 1 to 600 seconds |
| Service.CheckBody | yt-extractor-service/src/index.ts:42-48 | the checks, run with `ParseTimestamp`, give the verdict `CheckRequest` describes |
| Service.AdmitRequest | yt-extractor-service/src/index.ts:42-83 | after the key check: a rejected body is answered with 400 and touches no file; an accepted one runs the pipeline, and the reply, calls and file set are those of `Admit` |
| Service.Extract | yt-extractor-service/src/index.ts:34-84 | the handler's reply and stage calls are those of `Handle`, the file set afterwards is the files written minus those cleanup removes, and the locked set is unchanged |
| Service.RunPipeline | yt-extractor-service/src/index.ts:53-64 | the queued work equals `Pipeline` applied to the download's own result, file set included |
| Service.AfterDownload | yt-extractor-service/src/index.ts:56-64 | trim, upload and cleanup, given a download result, equal `Pipeline` and leave the file set it predicts |
| Service.AuthorisationFirst | yt-extractor-service/src/index.ts:34 | a refused key answers with the check's status and text, and nothing runs or is written |
| Service.PassAdmits | yt-extractor-service/src/index.ts:34-42 | once the key passes, the handler is `Admit` on the body's verdict |
| Service.MissingFieldsFirst | yt-extractor-service/src/index.ts:42 | a falsy field is rejected with "missing fields" before anything else is looked at |
| Service.InvalidUrlBeforeTimestamps | yt-extractor-service/src/index.ts:43 | a rejected URL gives "invalid youtube url" whatever the timestamps say |
| Service.RangeErrorAnswered | yt-extractor-service/src/index.ts:45-48 | with fields present and the URL accepted, a range error is rejected with its own text |
| Service.AcceptedIff | yt-extractor-service/src/index.ts:42-48 | a body is accepted exactly when its fields are truthy, its URL passes and the parsed bounds validate, and it then carries the URL and the parsed bounds |
| Service.BadRequestIff | yt-extractor-service/src/index.ts:42-48 | once the key passes, the reply is 400 exactly when the checks reject the body, with their text, and then no stage runs and no file is written |
| Service.PipelineStatus | yt-extractor-service/src/index.ts:53-83 | the pipeline answers 200 or 500 |
| Service.AdmitStatus | yt-extractor-service/src/index.ts:42-83 | after the key check the answer is 200, 400 or 500 |
| Service.Statuses | yt-extractor-service/src/index.ts:42-82 | every reply has status 200, 400, 401, 403 or 500 |
| Service.PipelineStages | yt-extractor-service/src/index.ts:53-64 | download, trim, upload, cleanup in that order, each only after the previous succeeded, with the right arguments; cleanup is reached exactly when the reply is 200 |
| Service.SuccessMeansAccepted | yt-extractor-service/src/index.ts:34-67 | a 200 comes only from a passed key and an accepted body |
| Service.PipelineSuccess | yt-extractor-service/src/index.ts:57-67 | a 200 reports the public URL, the storage path and the duration given to trimming |
| Service.AdmittedSuccess | yt-extractor-service/src/index.ts:48-67 | a 200 after the key check comes from an accepted body and reports the range's length, which lies in 1..600, equals the trim duration, and the trim starts at the start |
| Service.SuccessReport | yt-extractor-service/src/index.ts:34-67 | a 200 from the handler reports end − start of the accepted body, which lies in 1..600, equals the trim duration, and the trim starts at the start |
| Service.StoragePathShape | yt-extractor-service/src/index.ts:59 | the storage path is `performances/<uuid>/<trim uuid>.mp3` |
| Service.ErrorMapping | yt-extractor-service/src/index.ts:68-83 | a 500 comes from a failed stage and carries "processing failed", or the failing stage's message in debug mode |
| Service.OnlyOwnFiles | yt-extractor-service/src/index.ts:62 | a request removes only files its own stages wrote |
| Service.PipelineCleansOwn | yt-extractor-service/src/index.ts:62 | cleanup is handed only files the stages wrote |
| Service.IntermediateFiles | yt-extractor-service/src/index.ts:53-83 | after a 200 the two intermediate files are gone unless removal throws; after a 500 every written file is left, the download included, and so is the partial output of a trim that fails after opening it |
| Service.DownloadedPathNonEmpty | yt-extractor-service/src/extractor.ts:66-168 | a successful download never hands back an empty path |

## Left out

- I/O, processes and the network are left out. yt-dlp, ytdl-core, axios, ffmpeg and the
  storage client are abstract outcomes. The download tools' outcomes are given per
  attempt in `Env`; trimming and uploading each either throw a given message or succeed.
- Service.Extract: the file set holds no download leftovers. A ytdl-core stream or
  direct fetch that fails after its write stream opened (extractor.ts:124, 142) leaves a
  partial file that is not in the model's file set. So does a file written by an attempt
  that runs on after the deadline has rejected (extractor.ts:74-76). So do the files the
  primary yt-dlp call writes besides the one a scan returns, such as the unconverted
  original or a `.part` file left by a failed attempt. The partial output of a failed
  trim is modelled (`Stages.trimLeftPartial`).
- Service.Pipeline: the same download leftovers are not among its created files.
- Service.RunPipeline: the same download leftovers are not in the file set it predicts.
- Service.AfterDownload: the same download leftovers are not in the file set it predicts.
- Acquisition.Fallback: a failure resolves with no file, but a write stream that was
  already open (extractor.ts:124, 142) leaves a partial file behind, which the model
  does not record.
- Urls.NormalizeIdempotent: idempotence is promised only when the parser reads the
  canonical URL back with the id as its only `v`. It fails for ids holding '&', '#', '%'
  or '+', which the canonical URL does not escape (`Urls.AmpersandIdNotIdempotent`).
- Service.ErrorText: a failed download's error is taken to be a plain `Error`
  (`Service.ErrorObject`). A primary-call rejection passed on unchanged
  (extractor.ts:179) may be another kind of value, whose printed form would differ when
  its message is empty.
- `trimToMp3` is not modelled as a transcode. Its output path is `TrimmedPath`, and it
  fails with `Stages.trimError`, leaving a partial output when `Stages.trimLeftPartial`
  holds.
- `uploadFile` (supabase.ts:12-22) is left out as a storage call. Its public URL and its
  error are `Stages` fields, and its storage path is the requested one.
- `Number()` is modelled only on digit strings, the empty string included. Other forms
  (`"1e2"`, `" 5"`, `"0x1f"`) and floating point are
  left out.
- The regular expression is modelled as the prefix disjunction it amounts to. The WHATWG
  URL grammar is left out: it is the `parse` parameter.
- Acquisition.BestAudio: only the head of the sort is modelled, since it is the only
  element the code reads. The in-place sort itself is left out.
- Acquisition.DeadlineWins: timers are left out. The deadline fires when the first
  primary call takes longer than `timeoutMs`; a tie counts as the call settling first.
  The request-level timer (index.ts:35-38) only logs, so it is left out.
- JSON body values that are neither strings nor absent are covered only by their
  truthiness. JavaScript would stringify them for the URL check; the model rejects them
  there.
- `path.join` and `path.resolve` are modelled as plain concatenation with "/". Their
  normalisation and Windows separators are left out. `Strings.Basename` does not strip a
  trailing slash.
- A `readdirSync`, write-stream or logging call that throws inside the handlers is left
  out.
- `ensureTempDir`, the `/health` route, `express` setup, CORS, the body-size limit, the
  rate limiter, `listen` and logging are left out.
- The p-limit queue is left out, since requests are not interleaved in the model. Only
  the cap value is kept (`Service.ConcurrencyCap`); a negative cap, which p-limit
  rejects, is not singled out.
- Config parsing is modelled only for the API key (`Auth.ConfiguredKey`) and the
  concurrency cap. `parseInt` is the caller's `Option<int>`. The other settings are
  constants or `Stages` fields.
- `download-test.js` is a manual script and is not part of this model.
