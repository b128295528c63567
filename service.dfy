/** The `/extract` handler: authorisation, the 400 checks, the pipeline
    download → trim → upload → cleanup, and the mapping of errors to 500. */
module Service {
  import opened Wrappers
  import opened Strings
  import opened JsValues
  import Timestamps
  import Urls
  import Acquisition
  import Auth
  import Files

  const DefaultConcurrency: int := 2
  const MissingFields := "missing fields"
  const InvalidUrl := "invalid youtube url"
  const ProcessingFailed := "processing failed"
  const StoragePrefix := "performances/"

  /** `CONCURRENCY || 2`, where the setting is `parseInt`'s result and `None` is NaN. */
  function ConcurrencyCap(setting: Option<int>): (cap: int)
    ensures setting.None? || setting.value == 0 ==> cap == DefaultConcurrency
    ensures setting.Some? && setting.value != 0 ==> cap == setting.value
  {
    if setting.None? || setting.value == 0 then DefaultConcurrency else setting.value
  }

  /** The three fields of the JSON body the handler reads. */
  datatype Body = Body(youtubeUrl: Value, start: Value, end: Value)

  /** What the collaborators of the handler do: the URL parser and the download
      environment, the uuids drawn for the download, the trimmed file and the storage
      path, whether trimming and uploading throw (and what they throw), whether a failing
      trim had already opened its output file, the public URL the storage reports, and
      the bucket. */
  datatype Stages = Stages(
    parse: string -> Option<Urls.ParsedUrl>,
    env: Acquisition.Env,
    downloadUuid: string,
    trimUuid: string,
    trimError: Option<Thrown>,
    trimLeftPartial: bool,
    uploadUuid: string,
    uploadError: Option<Thrown>,
    publicUrl: string,
    bucket: string)

  /** The stage calls the handler makes, in order. */
  datatype StageCall =
    | Download(url: string)
    | Trim(input: string, startSec: nat, durationSec: nat)
    | Upload(bucket: string, destPath: string, localFile: string)
    | Cleanup(paths: seq<string>)

  function StageRank(c: StageCall): nat {
    match c
    case Download(_) => 0
    case Trim(_, _, _) => 1
    case Upload(_, _, _) => 2
    case Cleanup(_) => 3
  }

  datatype Reply = Failure(error: string) | Clip(audioUrl: string, storagePath: string, durationSeconds: nat)

  datatype Response = Response(status: nat, reply: Reply)

  /** The answer, the stage calls, the files the stages wrote, and the paths handed to
      cleanup (none when cleanup is not reached). */
  datatype Handled = Handled(response: Response, calls: seq<StageCall>, created: seq<string>, cleaned: seq<string>)

  /** `LOG_LEVEL === "debug"` */
  predicate IsDebug(logLevel: Option<string>) {
    logLevel == Some("debug")
  }

  /** A thrown value as the handler's catch sees it: `err?.message` ("" when it is
      absent or empty) and `String(err)`. */
  datatype Thrown = Thrown(message: string, printed: string)

  /** A plain `Error` with the given message: `String(err)` is "Error: " and the message,
      or "Error" alone when the message is empty. */
  function ErrorObject(message: string): (err: Thrown)
    ensures err.message == message
    ensures |err.printed| >= 5 && err.printed[..5] == "Error"
    ensures message != "" <==> |err.printed| > 5
  {
    Thrown(message, if message == "" then "Error" else "Error: " + message)
  }

  /** The error text of a 500: `err?.message || String(err)` in debug mode, otherwise a
      fixed text. */
  function ErrorText(debug: bool, err: Thrown): (text: string)
    ensures !debug ==> text == ProcessingFailed
    ensures debug && err.message != "" ==> text == err.message
    ensures debug && err.message == "" ==> text == err.printed
    ensures text == "" <==> debug && err.message == "" && err.printed == ""
  {
    if !debug then ProcessingFailed
    else if err.message != "" then err.message
    else err.printed
  }

  /** The outcome of the checks at index.ts:42-48: a 400 message, or the URL and bounds. */
  datatype Checked = Rejected(error: string) | Accepted(url: string, startSec: nat, endSec: nat)

  function CheckRequest(body: Body): (c: Checked)
    ensures c.Accepted? ==> Timestamps.ValidRange(c.startSec, c.endSec)
  {
    if !Truthy(body.youtubeUrl) || !Truthy(body.start) || !Truthy(body.end) then Rejected(MissingFields)
    else if !(body.youtubeUrl.Str? && Urls.IsValidYouTubeUrl(body.youtubeUrl.s)) then Rejected(InvalidUrl)
    else
      var s := Timestamps.TimestampSeconds(body.start);
      var e := Timestamps.TimestampSeconds(body.end);
      match Timestamps.ValidateTimestamps(s, e)
      case Some(err) => Rejected(Timestamps.Message(err))
      case None => Accepted(body.youtubeUrl.s, s.value, e.value)
  }

  /** The file `trimToMp3` writes. */
  function TrimmedPath(stages: Stages): string {
    Acquisition.PathJoin(stages.env.tempDir, stages.trimUuid + ".mp3")
  }

  /** `performances/${uuid}/${basename(trimmed)}` */
  function DestPath(stages: Stages): string {
    StoragePrefix + stages.uploadUuid + "/" + Basename(TrimmedPath(stages))
  }

  function Fail(debug: bool, err: Thrown, calls: seq<StageCall>, created: seq<string>): Handled {
    Handled(Response(500, Failure(ErrorText(debug, err))), calls, created, [])
  }

  /** The result of the download stage: `downloadAudio(youtubeUrl)` with the default
      deadline and a fresh uuid as the id. */
  function DownloadOf(url: string, stages: Stages): Acquisition.DownloadResult {
    Acquisition.Acquire(url, None, Acquisition.DefaultTimeoutMs, stages.downloadUuid, stages.parse, stages.env).0
  }

  /** The download stage as a function of the URL. */
  function Downloader(stages: Stages): string -> Acquisition.DownloadResult {
    u => DownloadOf(u, stages)
  }

  /** The work queued on the limiter, for an accepted request, given what the download
      stage settled with. */
  function Pipeline(url: string, download: Acquisition.DownloadResult, startSec: nat, duration: nat,
                    stages: Stages, debug: bool): Handled {
    var calls := [Download(url)];
    match download
    case DownloadFailed(m) => Fail(debug, ErrorObject(m), calls, [])
    case Downloaded(downloaded) =>
      var trimmed := TrimmedPath(stages);
      var calls := calls + [Trim(downloaded, startSec, duration)];
      if stages.trimError.Some? then
        Fail(debug, stages.trimError.value, calls, [downloaded] + (if stages.trimLeftPartial then [trimmed] else []))
      else
        var dest := DestPath(stages);
        var calls := calls + [Upload(stages.bucket, dest, trimmed)];
        if stages.uploadError.Some? then Fail(debug, stages.uploadError.value, calls, [downloaded, trimmed])
        else
          Handled(Response(200, Clip(stages.publicUrl, dest, duration)),
                  calls + [Cleanup([downloaded, trimmed])], [downloaded, trimmed], [downloaded, trimmed])
  }

  /** What happens to a request whose key passed: the 400 answer of a rejected body, or
      the pipeline of an accepted one, where `download` gives what the download stage
      settles with for a URL. */
  function Admit(checked: Checked, download: string -> Acquisition.DownloadResult, stages: Stages,
                 debug: bool): Handled
    requires checked.Accepted? ==> Timestamps.ValidRange(checked.startSec, checked.endSec)
  {
    match checked
    case Rejected(error) => Handled(Response(400, Failure(error)), [], [], [])
    case Accepted(url, s, e) => Pipeline(url, download(url), s, e - s, stages, debug)
  }

  /** A request to `/extract`, from the API-key check to the reply. */
  function Handle(serverKey: string, header: Option<string>, body: Body,
                  download: string -> Acquisition.DownloadResult, stages: Stages,
                  logLevel: Option<string>): Handled
  {
    match Auth.RequireApiKey(serverKey, header)
    case Deny(status, error) => Handled(Response(status, Failure(error)), [], [], [])
    case Pass => Admit(CheckRequest(body), download, stages, IsDebug(logLevel))
  }

  function SetOf(s: seq<string>): set<string> {
    set p | p in s
  }

  /** The file set the request leaves behind. */
  function FilesAfter(files: set<string>, locked: set<string>, h: Handled): set<string> {
    Files.AfterCleanup(files + SetOf(h.created), h.cleaned, locked)
  }

  lemma Untouched(files: set<string>, locked: set<string>)
    ensures FilesAfter(files, locked, Handled(Response(0, Failure("")), [], [], [])) == files
  {
    assert SetOf([]) == {};
    assert Files.Deletable([], locked) == {};
  }

  /** The handler, with its collaborators run step by step on the file store; the
      download stage is `downloadAudio` itself. */
  method Extract(store: Files.FileStore, serverKey: string, header: Option<string>, body: Body,
                 stages: Stages, logLevel: Option<string>)
    returns (response: Response, calls: seq<StageCall>)
    modifies store
    ensures var h := Handle(serverKey, header, body, Downloader(stages), stages, logLevel);
            response == h.response && calls == h.calls &&
            store.files == FilesAfter(old(store.files), old(store.locked), h) &&
            store.locked == old(store.locked)
  {
    var decision := Auth.RequireApiKey(serverKey, header);
    if decision.Deny? {
      response, calls := Response(decision.status, Failure(decision.error)), [];
      Untouched(store.files, store.locked);
      return;
    }
    var checked := CheckBody(body);
    response, calls := AdmitRequest(store, checked, stages, logLevel == Some("debug"));
  }

  /** The checks of index.ts:42-48, parsing the timestamps with the extractor's loop. */
  method CheckBody(body: Body) returns (c: Checked)
    ensures c == CheckRequest(body)
  {
    if !Truthy(body.youtubeUrl) || !Truthy(body.start) || !Truthy(body.end) {
      return Rejected(MissingFields);
    }
    if !(body.youtubeUrl.Str? && Urls.IsValidYouTubeUrl(body.youtubeUrl.s)) {
      return Rejected(InvalidUrl);
    }
    var startSec := Timestamps.ParseTimestamp(body.start);
    var endSec := Timestamps.ParseTimestamp(body.end);
    var rangeError := Timestamps.ValidateTimestamps(startSec, endSec);
    if rangeError.Some? {
      return Rejected(Timestamps.Message(rangeError.value));
    }
    c := Accepted(body.youtubeUrl.s, startSec.value, endSec.value);
  }

  /** A request whose key passed: answer 400, or queue the pipeline. */
  method AdmitRequest(store: Files.FileStore, checked: Checked, stages: Stages, debug: bool)
    returns (response: Response, calls: seq<StageCall>)
    requires checked.Accepted? ==> Timestamps.ValidRange(checked.startSec, checked.endSec)
    modifies store
    ensures var h := Admit(checked, Downloader(stages), stages, debug);
            response == h.response && calls == h.calls &&
            store.files == FilesAfter(old(store.files), old(store.locked), h) &&
            store.locked == old(store.locked)
  {
    if checked.Rejected? {
      response, calls := Response(400, Failure(checked.error)), [];
      Untouched(store.files, store.locked);
      return;
    }
    response, calls := RunPipeline(store, checked.url, checked.startSec, checked.endSec - checked.startSec,
                                   stages, debug);
  }

  /** The work queued on the limiter. */
  method RunPipeline(store: Files.FileStore, url: string, startSec: nat, duration: nat,
                     stages: Stages, debug: bool)
    returns (response: Response, calls: seq<StageCall>)
    modifies store
    ensures var h := Pipeline(url, Downloader(stages)(url), startSec, duration, stages, debug);
            response == h.response && calls == h.calls &&
            store.files == FilesAfter(old(store.files), old(store.locked), h) &&
            store.locked == old(store.locked)
  {
    var downloaded, trace := Acquisition.DownloadAudio(url, None, Acquisition.DefaultTimeoutMs,
                                                       stages.downloadUuid, stages.parse, stages.env);
    response, calls := AfterDownload(store, url, downloaded, startSec, duration, stages, debug);
  }

  /** The stages after the download, given its result. */
  method AfterDownload(store: Files.FileStore, url: string, downloaded: Acquisition.DownloadResult,
                       startSec: nat, duration: nat, stages: Stages, debug: bool)
    returns (response: Response, calls: seq<StageCall>)
    modifies store
    ensures var h := Pipeline(url, downloaded, startSec, duration, stages, debug);
            response == h.response && calls == h.calls &&
            store.files == FilesAfter(old(store.files), old(store.locked), h) &&
            store.locked == old(store.locked)
  {
    assert Files.Deletable([], store.locked) == {};
    calls := [Download(url)];
    if downloaded.DownloadFailed? {
      response := Response(500, Failure(ErrorText(debug, ErrorObject(downloaded.error))));
      assert SetOf([]) == {};
      return;
    }
    store.Create(downloaded.path);

    var trimmed := Acquisition.PathJoin(stages.env.tempDir, stages.trimUuid + ".mp3");
    calls := calls + [Trim(downloaded.path, startSec, duration)];
    if stages.trimError.Some? {
      response := Response(500, Failure(ErrorText(debug, stages.trimError.value)));
      if stages.trimLeftPartial {
        store.Create(trimmed);
        assert SetOf([downloaded.path, trimmed]) == {downloaded.path, trimmed};
      } else {
        assert SetOf([downloaded.path]) == {downloaded.path};
      }
      return;
    }
    store.Create(trimmed);
    assert SetOf([downloaded.path, trimmed]) == {downloaded.path, trimmed};

    var dest := StoragePrefix + stages.uploadUuid + "/" + Basename(trimmed);
    calls := calls + [Upload(stages.bucket, dest, trimmed)];
    if stages.uploadError.Some? {
      response := Response(500, Failure(ErrorText(debug, stages.uploadError.value)));
      return;
    }

    calls := calls + [Cleanup([downloaded.path, trimmed])];
    var warned := store.Cleanup([downloaded.path, trimmed]);
    response := Response(200, Clip(stages.publicUrl, dest, duration));
  }

  // ---------------------------------------------------------------------------
  // Properties

  /** A refused key answers with the check's status and text and starts nothing. */
  lemma AuthorisationFirst(serverKey: string, header: Option<string>, body: Body,
                           download: string -> Acquisition.DownloadResult, stages: Stages,
                           logLevel: Option<string>)
    requires Auth.RequireApiKey(serverKey, header).Deny?
    ensures var h := Handle(serverKey, header, body, download, stages, logLevel);
            var d := Auth.RequireApiKey(serverKey, header);
            h.response == Response(d.status, Failure(d.error)) && h.calls == [] && h.created == []
  {
  }

  /** Once the key passes, the body checks decide what happens. */
  lemma PassAdmits(serverKey: string, header: Option<string>, body: Body,
                   download: string -> Acquisition.DownloadResult, stages: Stages,
                   logLevel: Option<string>)
    requires Auth.RequireApiKey(serverKey, header).Pass?
    ensures Handle(serverKey, header, body, download, stages, logLevel) ==
            Admit(CheckRequest(body), download, stages, IsDebug(logLevel))
  {
  }

  /** A missing or empty field is rejected before the url is looked at. */
  lemma MissingFieldsFirst(body: Body)
    requires !Truthy(body.youtubeUrl) || !Truthy(body.start) || !Truthy(body.end)
    ensures CheckRequest(body) == Rejected(MissingFields)
  {
  }

  /** A rejected url is answered before any timestamp is parsed: whatever the bounds say. */
  lemma InvalidUrlBeforeTimestamps(body: Body)
    requires Truthy(body.youtubeUrl) && Truthy(body.start) && Truthy(body.end)
    requires !(body.youtubeUrl.Str? && Urls.IsValidYouTubeUrl(body.youtubeUrl.s))
    ensures CheckRequest(body) == Rejected(InvalidUrl)
  {
  }

  /** A range error of the parsed bounds becomes the rejection text. */
  lemma RangeErrorAnswered(body: Body, err: Timestamps.RangeError)
    requires Truthy(body.youtubeUrl) && Truthy(body.start) && Truthy(body.end)
    requires body.youtubeUrl.Str? && Urls.IsValidYouTubeUrl(body.youtubeUrl.s)
    requires Timestamps.ValidateTimestamps(Timestamps.TimestampSeconds(body.start),
                                           Timestamps.TimestampSeconds(body.end)) == Some(err)
    ensures CheckRequest(body) == Rejected(Timestamps.Message(err))
  {
  }

  /** A body is accepted exactly when its fields are present, the url passes and the
      parsed bounds validate; it then carries the url and the parsed bounds. */
  lemma AcceptedIff(body: Body)
    ensures var c := CheckRequest(body);
            var s := Timestamps.TimestampSeconds(body.start);
            var e := Timestamps.TimestampSeconds(body.end);
            (c.Accepted? <==>
               Truthy(body.youtubeUrl) && Truthy(body.start) && Truthy(body.end) &&
               body.youtubeUrl.Str? && Urls.IsValidYouTubeUrl(body.youtubeUrl.s) &&
               Timestamps.ValidateTimestamps(s, e).None?) &&
            (c.Accepted? ==>
               c.url == body.youtubeUrl.s && s == Some(c.startSec) && e == Some(c.endSec))
  {
  }

  /** Once the key passes, the answer is 400 exactly when the body is rejected, and then
      it carries the rejection text and no stage runs. */
  lemma BadRequestIff(checked: Checked, download: string -> Acquisition.DownloadResult, stages: Stages,
                      debug: bool)
    requires checked.Accepted? ==> Timestamps.ValidRange(checked.startSec, checked.endSec)
    ensures var h := Admit(checked, download, stages, debug);
            (h.response.status == 400 <==> checked.Rejected?) &&
            (h.response.status == 400 ==>
               h.calls == [] && h.created == [] && h.response.reply == Failure(checked.error))
  {
    if checked.Accepted? {
      var c := checked;
      PipelineStatus(c.url, download(c.url), c.startSec, c.endSec - c.startSec, stages, debug);
    }
  }

  lemma PipelineStatus(url: string, dl: Acquisition.DownloadResult, startSec: nat, duration: nat, stages: Stages, debug: bool)
    ensures Pipeline(url, dl, startSec, duration, stages, debug).response.status in {200, 500}
  {
  }

  lemma AdmitStatus(checked: Checked, download: string -> Acquisition.DownloadResult, stages: Stages,
                    debug: bool)
    requires checked.Accepted? ==> Timestamps.ValidRange(checked.startSec, checked.endSec)
    ensures Admit(checked, download, stages, debug).response.status in {200, 400, 500}
  {
    if checked.Accepted? {
      var c := checked;
      PipelineStatus(c.url, download(c.url), c.startSec, c.endSec - c.startSec, stages, debug);
    }
  }

  /** Every answer is one of the five statuses the handler and the key check use. */
  lemma Statuses(serverKey: string, header: Option<string>, body: Body,
                 download: string -> Acquisition.DownloadResult, stages: Stages,
                 logLevel: Option<string>)
    ensures Handle(serverKey, header, body, download, stages, logLevel).response.status in {200, 400, 401, 403, 500}
  {
    if Auth.RequireApiKey(serverKey, header).Pass? {
      PassAdmits(serverKey, header, body, download, stages, logLevel);
      AdmitStatus(CheckRequest(body), download, stages, IsDebug(logLevel));
    }
  }

  /** The stages run in the order download, trim, upload, cleanup, each only after the one
      before succeeded; trimming gets the downloaded file, the start and the duration,
      the upload the trimmed file under its storage path, and cleanup both files. Cleanup
      is reached exactly when the upload succeeds, and the answer is then 200. */
  lemma PipelineStages(url: string, dl: Acquisition.DownloadResult, startSec: nat, duration: nat, stages: Stages, debug: bool)
    ensures var h := Pipeline(url, dl, startSec, duration, stages, debug);
            var c := h.calls;
            1 <= |c| <= 4 && (forall i :: 0 <= i < |c| ==> StageRank(c[i]) == i) &&
            c[0] == Download(url) &&
            (|c| >= 2 ==> dl.Downloaded? &&
                          c[1] == Trim(dl.path, startSec, duration)) &&
            (|c| >= 3 ==> stages.trimError.None? &&
                          c[2] == Upload(stages.bucket, DestPath(stages), TrimmedPath(stages))) &&
            (|c| == 4 <==> h.response.status == 200) &&
            (|c| == 4 ==> stages.uploadError.None? &&
                          c[3] == Cleanup([dl.path, TrimmedPath(stages)]))
  {
  }

  /** A 200 comes only from a request whose key passed and whose body was accepted. */
  lemma SuccessMeansAccepted(serverKey: string, header: Option<string>, body: Body,
                             download: string -> Acquisition.DownloadResult, stages: Stages,
                             logLevel: Option<string>)
    requires Handle(serverKey, header, body, download, stages, logLevel).response.status == 200
    ensures Auth.RequireApiKey(serverKey, header).Pass? && CheckRequest(body).Accepted?
  {
    if Auth.RequireApiKey(serverKey, header).Pass? {
      BadRequestIff(CheckRequest(body), download, stages, IsDebug(logLevel));
    }
  }

  /** A 200 from the pipeline reports the duration trimming was given and the storage path
      the file was uploaded to. */
  lemma PipelineSuccess(url: string, dl: Acquisition.DownloadResult, startSec: nat, duration: nat,
                        stages: Stages, debug: bool)
    requires Pipeline(url, dl, startSec, duration, stages, debug).response.status == 200
    ensures var h := Pipeline(url, dl, startSec, duration, stages, debug);
            h.response.reply == Clip(stages.publicUrl, DestPath(stages), duration) &&
            |h.calls| == 4 && h.calls[1] == Trim(dl.path, startSec, duration)
  {
  }

  /** A 200 for an admitted request reports the accepted range's length, which lies in
      1..600 and is what trimming was given, and names the storage path the file was
      uploaded to. */
  lemma AdmittedSuccess(checked: Checked, download: string -> Acquisition.DownloadResult, stages: Stages,
                        debug: bool)
    requires checked.Accepted? ==> Timestamps.ValidRange(checked.startSec, checked.endSec)
    requires Admit(checked, download, stages, debug).response.status == 200
    ensures var h := Admit(checked, download, stages, debug);
            checked.Accepted? &&
            h.response.reply == Clip(stages.publicUrl, DestPath(stages), checked.endSec - checked.startSec) &&
            0 < checked.endSec - checked.startSec <= Timestamps.MaxSegmentSeconds &&
            |h.calls| == 4 && h.calls[1].Trim? && h.calls[1].startSec == checked.startSec &&
            h.calls[1].durationSec == checked.endSec - checked.startSec
  {
    BadRequestIff(checked, download, stages, debug);
    var c := checked;
    PipelineSuccess(c.url, download(c.url), c.startSec, c.endSec - c.startSec, stages, debug);
  }

  /** The same for the whole handler: a 200 reports the length of the range the body
      asked for. */
  lemma SuccessReport(serverKey: string, header: Option<string>, body: Body,
                      download: string -> Acquisition.DownloadResult, stages: Stages,
                      logLevel: Option<string>)
    requires Handle(serverKey, header, body, download, stages, logLevel).response.status == 200
    ensures var h := Handle(serverKey, header, body, download, stages, logLevel);
            var c := CheckRequest(body);
            c.Accepted? &&
            h.response.reply == Clip(stages.publicUrl, DestPath(stages), c.endSec - c.startSec) &&
            0 < c.endSec - c.startSec <= Timestamps.MaxSegmentSeconds &&
            |h.calls| == 4 && h.calls[1].Trim? && h.calls[1].startSec == c.startSec &&
            h.calls[1].durationSec == c.endSec - c.startSec
  {
    SuccessMeansAccepted(serverKey, header, body, download, stages, logLevel);
    PassAdmits(serverKey, header, body, download, stages, logLevel);
    AdmittedSuccess(CheckRequest(body), download, stages, IsDebug(logLevel));
  }

  /** The storage path is `performances/<uuid>/<uuid of the trimmed file>.mp3`. */
  lemma StoragePathShape(stages: Stages)
    requires '/' !in stages.trimUuid
    ensures DestPath(stages) == StoragePrefix + stages.uploadUuid + "/" + stages.trimUuid + ".mp3"
  {
    assert '/' !in stages.trimUuid + ".mp3";
    BasenameJoin(stages.env.tempDir, stages.trimUuid + ".mp3");
  }

  /** A stage failure answers 500 with "processing failed", or in debug mode with the
      failing stage's error text. */
  lemma ErrorMapping(url: string, dl: Acquisition.DownloadResult, startSec: nat, duration: nat, stages: Stages, debug: bool)
    requires Pipeline(url, dl, startSec, duration, stages, debug).response.status == 500
    ensures var h := Pipeline(url, dl, startSec, duration, stages, debug);
            var err := if dl.DownloadFailed? then ErrorObject(dl.error)
                           else if stages.trimError.Some? then stages.trimError.value
                           else stages.uploadError.value;
            (dl.Downloaded? ==> stages.trimError.Some? || stages.uploadError.Some?) &&
            h.response.reply == Failure(ErrorText(debug, err)) &&
            (!debug ==> h.response.reply == Failure(ProcessingFailed))
  {
  }

  /** The request touches only the files its stages wrote. */
  lemma OnlyOwnFiles(files: set<string>, locked: set<string>, h: Handled, q: string)
    requires forall i :: 0 <= i < |h.cleaned| ==> h.cleaned[i] in h.created
    requires q !in h.created
    ensures q in FilesAfter(files, locked, h) <==> q in files
  {
  }

  lemma PipelineCleansOwn(url: string, dl: Acquisition.DownloadResult, startSec: nat, duration: nat, stages: Stages, debug: bool)
    ensures var h := Pipeline(url, dl, startSec, duration, stages, debug);
            forall i :: 0 <= i < |h.cleaned| ==> h.cleaned[i] in h.created
  {
  }

  /** After a 200 the downloaded and the trimmed file are gone unless their removal
      throws; after a 500 every file a stage wrote is left behind, the downloaded file
      included once the download succeeded, and the partial output of a trim that fails
      after opening it. */
  lemma IntermediateFiles(url: string, dl: Acquisition.DownloadResult, startSec: nat, duration: nat, stages: Stages, debug: bool,
                          files: set<string>, locked: set<string>)
    requires dl.Downloaded? ==> dl.path != ""
    ensures var h := Pipeline(url, dl, startSec, duration, stages, debug);
            var after := FilesAfter(files, locked, h);
            (h.response.status == 200 ==>
               forall p :: p in h.created && p !in locked ==> p !in after) &&
            (h.response.status == 500 ==>
               (forall p :: p in h.created ==> p in after) &&
               (dl.Downloaded? ==> dl.path in after) &&
               (dl.Downloaded? && stages.trimError.Some? && stages.trimLeftPartial ==>
                  TrimmedPath(stages) in after))
  {
    assert TrimmedPath(stages) != "";
    assert Files.Deletable([], locked) == {};
  }

  /** The download stage never hands back an empty path. */
  lemma DownloadedPathNonEmpty(url: string, stages: Stages)
    ensures DownloadOf(url, stages).Downloaded? ==> DownloadOf(url, stages).path != ""
  {
    Acquisition.DownloadedCarriesId(url, None, Acquisition.DefaultTimeoutMs, stages.downloadUuid,
                                    stages.parse, stages.env);
  }
}
