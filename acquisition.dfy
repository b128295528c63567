/** The control of `downloadAudio`: attempts, backoff, the fallback cascade within an
    attempt and the choice of a format. Every tool the cascade calls is a recorded
    outcome of the world the download runs in. */
module Acquisition {
  import opened Wrappers
  import opened Strings
  import Urls

  const MaxAttempts: nat := 3
  const DefaultTimeoutMs: nat := 120000
  const TimeoutMessage := "download timeout"
  const NoFileMessage := "download failed: no file"
  const DefaultExt := "m4a"

  function Pow2(e: nat): nat {
    if e == 0 then 1 else 2 * Pow2(e - 1)
  }

  /** The wait, in milliseconds, before the retry that follows attempt `n`. */
  function Backoff(n: nat): nat
    requires n >= 1
  {
    500 * Pow2(n - 1)
  }

  // ---------------------------------------------------------------------------
  // Format choice

  /** One entry of the `formats` list that the JSON dump reports. An empty `acodec`,
      `url` or `ext`, and a zero `abr` or `tbr`, stand for a field that is absent. The
      bitrates are floating-point numbers in the dump; they are whole numbers here, since
      the choice depends only on their order and on whether they are zero. */
  datatype Format = Format(acodec: string, abr: nat, tbr: nat, url: string, ext: string)

  /** `f.abr || f.tbr || 0` */
  function Rate(f: Format): nat {
    if f.abr != 0 then f.abr else f.tbr
  }

  /** `f.acodec && f.acodec !== "none"` */
  predicate IsAudio(f: Format) {
    f.acodec != "" && f.acodec != "none"
  }

  /** `i` is the head of the audio formats after the stable descending sort by rate:
      an audio format of maximal rate that no earlier audio format equals. */
  predicate IsFirstBest(fs: seq<Format>, i: nat) {
    i < |fs| && IsAudio(fs[i]) &&
    (forall j :: 0 <= j < |fs| && IsAudio(fs[j]) ==> Rate(fs[j]) <= Rate(fs[i])) &&
    (forall j :: 0 <= j < i && IsAudio(fs[j]) ==> Rate(fs[j]) < Rate(fs[i]))
  }

  predicate NoAudio(fs: seq<Format>) {
    forall j :: 0 <= j < |fs| ==> !IsAudio(fs[j])
  }

  /** The index of `audioFormats[0]` in `formats`, if there is an audio format. */
  function BestAudio(fs: seq<Format>): (r: Option<nat>)
    ensures r.Some? ==> IsFirstBest(fs, r.value)
    ensures r.None? <==> NoAudio(fs)
  {
    if fs == [] then None
    else
      var init := fs[..|fs| - 1];
      var last := fs[|fs| - 1];
      var b := BestAudio(init);
      assert forall j :: 0 <= j < |init| ==> init[j] == fs[j];
      if IsAudio(last) && (b.None? || Rate(last) > Rate(init[b.value])) then Some(|fs| - 1)
      else b
  }

  /** The format characterisation fixes one index. */
  lemma FirstBestUnique(fs: seq<Format>, i: nat, j: nat)
    requires IsFirstBest(fs, i) && IsFirstBest(fs, j)
    ensures i == j
  {
  }

  /** `BestAudio` finds exactly the index the characterisation describes. */
  lemma BestAudioIsHead(fs: seq<Format>, i: nat)
    requires IsFirstBest(fs, i)
    ensures BestAudio(fs) == Some(i)
  {
    assert !NoAudio(fs);
    FirstBestUnique(fs, i, BestAudio(fs).value);
  }

  /** `audioFormats[0] || formats[0]` */
  function ChooseFormat(fs: seq<Format>): (r: Option<Format>)
    ensures !NoAudio(fs) ==>
              r.Some? && IsAudio(r.value) &&
              forall j :: 0 <= j < |fs| && IsAudio(fs[j]) ==> Rate(fs[j]) <= Rate(r.value)
    ensures NoAudio(fs) && fs != [] ==> r == Some(fs[0])
    ensures r.None? <==> fs == []
  {
    match BestAudio(fs)
    case Some(i) => Some(fs[i])
    case None => if fs == [] then None else Some(fs[0])
  }

  /** The ytdl-core fallback runs when nothing was chosen or the choice has no url. */
  predicate NeedsYtdlCore(chosen: Option<Format>) {
    chosen.None? || chosen.value.url == ""
  }

  /** `chosen.ext || "m4a"` */
  function ExtOf(f: Format): (r: string)
    ensures r != ""
    ensures f.ext != "" ==> r == f.ext
  {
    if f.ext == "" then DefaultExt else f.ext
  }

  // ---------------------------------------------------------------------------
  // The world and the trace

  /** What the tools do in one attempt: the primary yt-dlp call throws or leaves the
      temp directory with the given listing; the JSON dump throws or reports formats;
      the ytdl-core stream and the direct fetch of the chosen url succeed or not; and
      the working directory holds the given listing. */
  datatype AttemptWorld = AttemptWorld(
    primary: Result<seq<string>>,
    info: Result<seq<Format>>,
    ytdlOk: bool,
    directOk: bool,
    cwdListing: seq<string>)

  /** The environment of one download: the two directories, what each attempt sees,
      and how long the first primary call takes to settle. */
  datatype Env = Env(tempDir: string, cwd: string, world: nat -> AttemptWorld, firstCallMs: nat)

  /** The external calls of a download, in the order they are made. */
  datatype Call =
    | Primary(target: string)
    | InfoDump(target: string)
    | YtdlCore(target: string)
    | Direct(formatUrl: string)
    | ScanCwd
    | Sleep(ms: nat)

  datatype Event = Event(attempt: nat, call: Call)

  /** The step of the cascade a call belongs to. */
  function Stage(c: Call): nat {
    match c
    case Primary(_) => 0
    case InfoDump(_) => 1
    case YtdlCore(_) => 2
    case Direct(_) => 2
    case ScanCwd => 3
    case Sleep(_) => 4
  }

  /** `path.join(dir, name)`, without normalisation. */
  function PathJoin(dir: string, name: string): string {
    dir + "/" + name
  }

  /** `listing.find((f) => f.includes(id))`, as an index. */
  function FirstContaining(listing: seq<string>, id: string): (k: Option<nat>)
    ensures k.None? ==> forall i :: 0 <= i < |listing| ==> !Contains(listing[i], id)
    ensures k.Some? ==> k.value < |listing| && Contains(listing[k.value], id) &&
                        forall i :: 0 <= i < k.value ==> !Contains(listing[i], id)
  {
    if listing == [] then None
    else if Contains(listing[0], id) then Some(0)
    else
      match FirstContaining(listing[1..], id)
      case None => None
      case Some(k) => Some(k + 1)
  }

  // ---------------------------------------------------------------------------
  // One attempt

  /** How an attempt ends: a file, the primary call's error, or nothing found. */
  datatype Outcome = Found(path: string) | Failed(message: string) | NoFile

  /** The JSON fallback and, within it, the ytdl-core fallback: the file they wrote, if
      any, and the calls they made. */
  function Fallback(n: nat, w: AttemptWorld, tempDir: string, id: string, target: string)
    : (Option<string>, seq<Event>)
  {
    var ask := [Event(n, InfoDump(target))];
    match w.info
    case Threw(_) => (None, ask)
    case Ok(formats) =>
      var chosen := ChooseFormat(formats);
      if NeedsYtdlCore(chosen) then
        (if w.ytdlOk then Some(PathJoin(tempDir, id + ".mp3")) else None,
         ask + [Event(n, YtdlCore(target))])
      else
        (if w.directOk then Some(PathJoin(tempDir, id + "." + ExtOf(chosen.value))) else None,
         ask + [Event(n, Direct(chosen.value.url))])
  }

  /** One run of `tryDownload`, up to the point where it resolves, rejects or retries. */
  function RunAttempt(n: nat, w: AttemptWorld, env: Env, id: string, target: string)
    : (Outcome, seq<Event>)
  {
    var first := [Event(n, Primary(target))];
    match w.primary
    case Threw(m) => (Failed(m), first)
    case Ok(listing) =>
      match FirstContaining(listing, id)
      case Some(k) => (Found(PathJoin(env.tempDir, listing[k])), first)
      case None =>
        var fb := Fallback(n, w, env.tempDir, id, target);
        if fb.0.Some? then (Found(fb.0.value), first + fb.1)
        else
          var scanned := first + fb.1 + [Event(n, ScanCwd)];
          match FirstContaining(w.cwdListing, id)
          case Some(k) => (Found(PathJoin(env.cwd, w.cwdListing[k])), scanned)
          case None => (NoFile, scanned)
  }

  /** The rejection that ends the last attempt. */
  function FailureMessage(o: Outcome): string {
    match o
    case Failed(m) => m
    case _ => NoFileMessage
  }

  datatype DownloadResult = Downloaded(path: string) | DownloadFailed(error: string)

  /** How each attempt, by its number, ends and which calls it makes. */
  type Runs = nat -> (Outcome, seq<Event>)

  /** The attempts of one download: `tryDownload` in the world of each attempt. */
  function Runner(env: Env, id: string, target: string): Runs {
    (k: nat) => RunAttempt(k, env.world(k), env, id, target)
  }

  /** Attempts `n` to `MaxAttempts`, with the backoff sleep between two of them. */
  function Attempts(n: nat, run: Runs): (DownloadResult, seq<Event>)
    requires 1 <= n <= MaxAttempts
    decreases MaxAttempts - n
  {
    var a := run(n);
    if a.0.Found? then (Downloaded(a.0.path), a.1)
    else if n < MaxAttempts then
      var rest := Attempts(n + 1, run);
      (rest.0, a.1 + [Event(n, Sleep(Backoff(n)))] + rest.1)
    else (DownloadFailed(FailureMessage(a.0)), a.1)
  }

  lemma Regroup<T>(a: seq<T>, b: seq<T>, c: seq<T>, d: seq<T>)
    ensures a + (b + c + d) == a + b + c + d
  {
  }

  /** `outBaseName || uuidv4()` */
  function IdFor(outBaseName: Option<string>, uuid: string): (id: string)
    ensures outBaseName.Some? && outBaseName.value != "" ==> id == outBaseName.value
    ensures outBaseName.None? || outBaseName.value == "" ==> id == uuid
  {
    if outBaseName.Some? && outBaseName.value != "" then outBaseName.value else uuid
  }

  /** The settled result of `downloadAudio` and the calls it makes. The deadline can only
      fire while the first primary call is pending: that call's settling clears it. */
  function Acquire(url: string, outBaseName: Option<string>, timeoutMs: nat, uuid: string,
                   parse: string -> Option<Urls.ParsedUrl>, env: Env): (DownloadResult, seq<Event>)
  {
    var r := Attempts(1, Runner(env, IdFor(outBaseName, uuid), Urls.NormalizeYouTubeUrl(url, parse)));
    if env.firstCallMs > timeoutMs then (DownloadFailed(TimeoutMessage), r.1) else r
  }

  /** `downloadAudio`: the retry loop with its attempt counter. */
  method DownloadAudio(url: string, outBaseName: Option<string>, timeoutMs: nat, uuid: string,
                       parse: string -> Option<Urls.ParsedUrl>, env: Env)
    returns (res: DownloadResult, trace: seq<Event>)
    ensures (res, trace) == Acquire(url, outBaseName, timeoutMs, uuid, parse, env)
  {
    var id := if outBaseName.Some? && outBaseName.value != "" then outBaseName.value else uuid;
    var target := Urls.NormalizeYouTubeUrl(url, parse);
    ghost var run := Runner(env, id, target);
    ghost var whole := Attempts(1, run);
    var attempt := 0;
    var settled := false;
    trace := [];
    res := DownloadFailed(NoFileMessage);
    while !settled
      invariant 0 <= attempt <= MaxAttempts
      invariant settled ==> res == whole.0 && trace == whole.1
      invariant !settled ==> attempt < MaxAttempts &&
                             whole.0 == Attempts(attempt + 1, run).0 &&
                             whole.1 == trace + Attempts(attempt + 1, run).1
      decreases MaxAttempts - attempt, if settled then 0 else 1
    {
      attempt := attempt + 1;
      var step := RunAttempt(attempt, env.world(attempt), env, id, target);
      assert step == run(attempt);
      ghost var before := trace;
      trace := trace + step.1;
      if step.0.Found? {
        res := Downloaded(step.0.path);
        settled := true;
      } else if attempt == MaxAttempts {
        res := DownloadFailed(FailureMessage(step.0));
        settled := true;
      } else {
        var pause := [Event(attempt, Sleep(Backoff(attempt)))];
        ghost var later := Attempts(attempt + 1, run).1;
        assert whole.1 == before + (step.1 + pause + later);
        Regroup(before, step.1, pause, later);
        trace := trace + pause;
      }
    }
    if env.firstCallMs > timeoutMs {
      res := DownloadFailed(TimeoutMessage);
    }
  }

  // ---------------------------------------------------------------------------
  // Properties of one attempt

  /** The waits recorded in a trace, in order. */
  function Sleeps(t: seq<Event>): seq<nat> {
    if t == [] then []
    else (if t[0].call.Sleep? then [t[0].call.ms] else []) + Sleeps(t[1..])
  }

  /** The number of primary yt-dlp calls in a trace, one per attempt. */
  function PrimaryCalls(t: seq<Event>): nat {
    if t == [] then 0
    else (if t[0].call.Primary? then 1 else 0) + PrimaryCalls(t[1..])
  }

  lemma {:induction false} SleepsAppend(a: seq<Event>, b: seq<Event>)
    ensures Sleeps(a + b) == Sleeps(a) + Sleeps(b)
  {
    if a != [] {
      assert (a + b)[1..] == a[1..] + b;
      SleepsAppend(a[1..], b);
    } else {
      assert a + b == b;
    }
  }

  lemma {:induction false} PrimaryCallsAppend(a: seq<Event>, b: seq<Event>)
    ensures PrimaryCalls(a + b) == PrimaryCalls(a) + PrimaryCalls(b)
  {
    if a != [] {
      assert (a + b)[1..] == a[1..] + b;
      PrimaryCallsAppend(a[1..], b);
    } else {
      assert a + b == b;
    }
  }

  /** A trace of one attempt: it opens with the primary call, goes strictly forward
      through the cascade, never sleeps, carries the attempt's number throughout, and
      hands the normalised url to every tool that takes the video's url. */
  predicate AttemptTrace(t: seq<Event>, n: nat, target: string) {
    |t| >= 1 && t[0].call.Primary? &&
    (forall i :: 0 <= i < |t| ==> t[i].attempt == n && !t[i].call.Sleep?) &&
    (forall i :: 0 <= i < |t| && (t[i].call.Primary? || t[i].call.InfoDump? || t[i].call.YtdlCore?) ==>
       t[i].call.target == target) &&
    (forall i, j :: 0 <= i < j < |t| ==> Stage(t[i].call) < Stage(t[j].call))
  }

  lemma AttemptOrder(n: nat, w: AttemptWorld, env: Env, id: string, target: string)
    ensures AttemptTrace(RunAttempt(n, w, env, id, target).1, n, target)
  {
    var t := RunAttempt(n, w, env, id, target).1;
    var p := Event(n, Primary(target));
    if w.primary.Ok? && FirstContaining(w.primary.value, id).None? {
      var fb := Fallback(n, w, env.tempDir, id, target).1;
      FallbackOrder(n, w, env.tempDir, id, target);
      if t == [p] + fb {
        CascadeTrace(p, fb, [], n, target);
      } else {
        CascadeTrace(p, fb, [Event(n, ScanCwd)], n, target);
      }
    } else {
      assert t == [p];
    }
  }

  /** The JSON fallback asks for the dump and then calls at most one downloader. */
  lemma FallbackOrder(n: nat, w: AttemptWorld, tempDir: string, id: string, target: string)
    ensures var fb := Fallback(n, w, tempDir, id, target).1;
            1 <= |fb| <= 2 && fb[0] == Event(n, InfoDump(target)) &&
            (|fb| == 2 ==>
               fb[1].attempt == n &&
               ((fb[1].call.YtdlCore? && fb[1].call.target == target) || fb[1].call.Direct?))
  {
  }

  /** The primary call, the fallback and an optional scan of the working directory. */
  lemma CascadeTrace(p: Event, fb: seq<Event>, scan: seq<Event>, n: nat, target: string)
    requires p == Event(n, Primary(target))
    requires 1 <= |fb| <= 2 && fb[0] == Event(n, InfoDump(target))
    requires |fb| == 2 ==>
               fb[1].attempt == n &&
               ((fb[1].call.YtdlCore? && fb[1].call.target == target) || fb[1].call.Direct?)
    requires scan == [] || scan == [Event(n, ScanCwd)]
    ensures AttemptTrace([p] + fb + scan, n, target)
  {
    var t := [p] + fb + scan;
    assert t[0] == p && t[1] == fb[0];
    assert |fb| == 2 ==> t[2] == fb[1];
    assert scan != [] ==> t[|t| - 1] == scan[0];
    assert forall i :: 0 <= i < |t| ==> Stage(t[i].call) == i || (scan != [] && i == |t| - 1 && Stage(t[i].call) == 3);
  }

  lemma {:induction false} NoSleeps(t: seq<Event>)
    requires forall i :: 0 <= i < |t| ==> !t[i].call.Sleep?
    ensures Sleeps(t) == []
  {
    if t != [] {
      NoSleeps(t[1..]);
    }
  }

  lemma {:induction false} NoPrimaries(t: seq<Event>)
    requires forall i :: 0 <= i < |t| ==> !t[i].call.Primary?
    ensures PrimaryCalls(t) == 0
  {
    if t != [] {
      NoPrimaries(t[1..]);
    }
  }

  /** An attempt makes exactly one primary call and no sleep. */
  lemma AttemptCounts(t: seq<Event>, n: nat, target: string)
    requires AttemptTrace(t, n, target)
    ensures Sleeps(t) == [] && PrimaryCalls(t) == 1
  {
    NoSleeps(t);
    assert forall i :: 0 < i < |t| ==> Stage(t[0].call) < Stage(t[i].call);
    NoPrimaries(t[1..]);
  }

  predicate UsedInfoDump(t: seq<Event>) {
    exists i :: 0 <= i < |t| && t[i].call.InfoDump?
  }

  predicate UsedYtdlCore(t: seq<Event>) {
    exists i :: 0 <= i < |t| && t[i].call.YtdlCore?
  }

  predicate PrimaryMissed(w: AttemptWorld, id: string) {
    w.primary.Ok? && FirstContaining(w.primary.value, id).None?
  }

  /** The JSON fallback runs exactly when the primary call returned and left no file
      whose name carries the id. */
  lemma FallbackOnlyOnMiss(n: nat, w: AttemptWorld, env: Env, id: string, target: string)
    ensures UsedInfoDump(RunAttempt(n, w, env, id, target).1) <==> PrimaryMissed(w, id)
  {
    var t := RunAttempt(n, w, env, id, target).1;
    if PrimaryMissed(w, id) {
      assert t[1].call.InfoDump?;
    } else {
      assert t == [Event(n, Primary(target))];
    }
  }

  /** ytdl-core runs exactly when the JSON fallback found no format, or one without a
      url. */
  lemma YtdlCoreOnlyWithoutUsableFormat(n: nat, w: AttemptWorld, env: Env, id: string, target: string)
    ensures UsedYtdlCore(RunAttempt(n, w, env, id, target).1) <==>
            PrimaryMissed(w, id) && w.info.Ok? && NeedsYtdlCore(ChooseFormat(w.info.value))
  {
    var t := RunAttempt(n, w, env, id, target).1;
    if PrimaryMissed(w, id) && w.info.Ok? && NeedsYtdlCore(ChooseFormat(w.info.value)) {
      assert t[2].call.YtdlCore?;
    } else if PrimaryMissed(w, id) && w.info.Ok? {
      var fb := Fallback(n, w, env.tempDir, id, target);
      assert fb.1 == [Event(n, InfoDump(target)), Event(n, Direct(ChooseFormat(w.info.value).value.url))];
    } else if PrimaryMissed(w, id) {
      assert Fallback(n, w, env.tempDir, id, target).1 == [Event(n, InfoDump(target))];
    } else {
      assert t == [Event(n, Primary(target))];
    }
  }

  /** The direct fetch asks for the chosen format's url, which is never empty. */
  lemma DirectFetchesChosenUrl(n: nat, w: AttemptWorld, env: Env, id: string, target: string, i: nat)
    requires var t := RunAttempt(n, w, env, id, target).1; i < |t| && t[i].call.Direct?
    ensures w.info.Ok? && ChooseFormat(w.info.value).Some?
    ensures RunAttempt(n, w, env, id, target).1[i].call.formatUrl == ChooseFormat(w.info.value).value.url != ""
  {
  }

  /** `p` lies directly in `dir` and its name carries the id. */
  predicate NamedFor(p: string, dir: string, id: string) {
    HasPrefix(p, dir + "/") && Contains(p[|dir| + 1..], id)
  }

  lemma JoinedNamedFor(dir: string, name: string, id: string)
    requires Contains(name, id)
    ensures NamedFor(PathJoin(dir, name), dir, id)
  {
    var p := PathJoin(dir, name);
    assert p[..|dir + "/"|] == dir + "/";
    assert p[|dir| + 1..] == name;
  }

  lemma {:induction false} StartsWithId(id: string, rest: string)
    ensures Contains(id + rest, id)
  {
    assert (id + rest)[..|id|] == id;
  }

  /** A file an attempt hands back lies in the temp directory or the working directory,
      and its name carries the id. */
  lemma FoundCarriesId(n: nat, w: AttemptWorld, env: Env, id: string, target: string)
    ensures var o := RunAttempt(n, w, env, id, target).0;
            o.Found? ==> NamedFor(o.path, env.tempDir, id) || NamedFor(o.path, env.cwd, id)
  {
    var o := RunAttempt(n, w, env, id, target).0;
    if o.Found? && w.primary.Ok? {
      var listing := w.primary.value;
      match FirstContaining(listing, id)
      case Some(k) =>
        JoinedNamedFor(env.tempDir, listing[k], id);
      case None =>
        var fb := Fallback(n, w, env.tempDir, id, target);
        if fb.0.Some? {
          var chosen := ChooseFormat(w.info.value);
          if NeedsYtdlCore(chosen) {
            StartsWithId(id, ".mp3");
            JoinedNamedFor(env.tempDir, id + ".mp3", id);
          } else {
            StartsWithId(id, "." + ExtOf(chosen.value));
            assert id + "." + ExtOf(chosen.value) == id + ("." + ExtOf(chosen.value));
            JoinedNamedFor(env.tempDir, id + "." + ExtOf(chosen.value), id);
          }
        } else {
          var k := FirstContaining(w.cwdListing, id).value;
          JoinedNamedFor(env.cwd, w.cwdListing[k], id);
        }
    }
  }

  // ---------------------------------------------------------------------------
  // Properties of the retries

  /** The waits before attempts `n + 1` to `MaxAttempts`. */
  function BackoffsFrom(n: nat): seq<nat>
    requires 1 <= n <= MaxAttempts
    decreases MaxAttempts - n
  {
    if n < MaxAttempts then [Backoff(n)] + BackoffsFrom(n + 1) else []
  }

  lemma BackoffSchedule()
    ensures BackoffsFrom(1) == [500, 1000]
  {
    assert Pow2(1) == 2;
    assert BackoffsFrom(3) == [];
    assert BackoffsFrom(2) == [1000];
  }

  predicate AllFail(n: nat, run: Runs) {
    forall k :: n <= k <= MaxAttempts ==> !run(k).0.Found?
  }

  /** Every attempt's calls form an attempt trace. */
  predicate AttemptTraces(run: Runs, target: string) {
    forall k :: 1 <= k <= MaxAttempts ==> AttemptTrace(run(k).1, k, target)
  }

  lemma RunnerTraces(env: Env, id: string, target: string)
    ensures AttemptTraces(Runner(env, id, target), target)
  {
    forall k | 1 <= k <= MaxAttempts
      ensures AttemptTrace(Runner(env, id, target)(k).1, k, target)
    {
      AttemptOrder(k, env.world(k), env, id, target);
    }
  }

  /** The retries from attempt `n` on make one primary call per attempt and one backoff
      sleep between two attempts, following the schedule; a failed download has used
      every attempt. */
  lemma {:induction false} AttemptsCounts(n: nat, run: Runs, target: string)
    requires 1 <= n <= MaxAttempts
    requires AttemptTraces(run, target)
    decreases MaxAttempts - n
    ensures var r := Attempts(n, run);
            var waits := Sleeps(r.1);
            PrimaryCalls(r.1) == |waits| + 1 &&
            |waits| <= MaxAttempts - n &&
            waits == BackoffsFrom(n)[..|waits|] &&
            (r.0.DownloadFailed? ==> |waits| == MaxAttempts - n)
  {
    var a := run(n);
    AttemptCounts(a.1, n, target);
    if !a.0.Found? && n < MaxAttempts {
      AttemptsCounts(n + 1, run, target);
      RetryCounts(a.1, Event(n, Sleep(Backoff(n))), Attempts(n + 1, run).1);
    }
  }

  /** An attempt, the sleep after it and the retries. */
  lemma RetryCounts(first: seq<Event>, pause: Event, rest: seq<Event>)
    requires Sleeps(first) == [] && PrimaryCalls(first) == 1 && pause.call.Sleep?
    ensures Sleeps(first + [pause] + rest) == [pause.call.ms] + Sleeps(rest)
    ensures PrimaryCalls(first + [pause] + rest) == 1 + PrimaryCalls(rest)
  {
    SleepsAppend(first + [pause], rest);
    SleepsAppend(first, [pause]);
    PrimaryCallsAppend(first + [pause], rest);
    PrimaryCallsAppend(first, [pause]);
    assert [pause][1..] == [];
  }

  /** The attempt numbers in the trace never go down and stay within `n` and
      `MaxAttempts`: every call of an attempt comes before every call of a retry. */
  lemma {:induction false} AttemptsNumbered(n: nat, run: Runs, target: string)
    requires 1 <= n <= MaxAttempts
    requires AttemptTraces(run, target)
    decreases MaxAttempts - n
    ensures var t := Attempts(n, run).1;
            (forall i :: 0 <= i < |t| ==> n <= t[i].attempt <= MaxAttempts) &&
            (forall i, j :: 0 <= i < j < |t| ==> t[i].attempt <= t[j].attempt)
  {
    var a := run(n);
    assert AttemptTrace(a.1, n, target);
    if !a.0.Found? && n < MaxAttempts {
      var rest := Attempts(n + 1, run).1;
      AttemptsNumbered(n + 1, run, target);
      var head := a.1 + [Event(n, Sleep(Backoff(n)))];
      assert Attempts(n, run).1 == head + rest;
      assert forall i :: 0 <= i < |head| ==> head[i].attempt == n;
      NumberedJoin(head, rest, n);
    }
  }

  lemma NumberedJoin(head: seq<Event>, rest: seq<Event>, n: nat)
    requires n < MaxAttempts
    requires forall i :: 0 <= i < |head| ==> head[i].attempt == n
    requires forall i :: 0 <= i < |rest| ==> n + 1 <= rest[i].attempt <= MaxAttempts
    requires forall i, j :: 0 <= i < j < |rest| ==> rest[i].attempt <= rest[j].attempt
    ensures var t := head + rest;
            (forall i :: 0 <= i < |t| ==> n <= t[i].attempt <= MaxAttempts) &&
            (forall i, j :: 0 <= i < j < |t| ==> t[i].attempt <= t[j].attempt)
  {
    var t := head + rest;
    assert forall i :: 0 <= i < |t| ==> t[i].attempt == if i < |head| then n else rest[i - |head|].attempt;
    forall i, j | 0 <= i < j < |t|
      ensures t[i].attempt <= t[j].attempt
    {
      if j < |head| {
      } else if i < |head| {
        assert t[j] == rest[j - |head|];
      } else {
        assert t[i] == rest[i - |head|] && t[j] == rest[j - |head|];
      }
    }
  }

  /** The download fails exactly when every attempt from `n` on fails, and then with the
      last attempt's error. */
  lemma {:induction false} AttemptsFailure(n: nat, run: Runs)
    requires 1 <= n <= MaxAttempts
    decreases MaxAttempts - n
    ensures var r := Attempts(n, run).0;
            (r.DownloadFailed? <==> AllFail(n, run)) &&
            (r.DownloadFailed? ==> r.error == FailureMessage(run(MaxAttempts).0))
  {
    if n < MaxAttempts {
      AttemptsFailure(n + 1, run);
    }
  }

  /** A downloaded file is the one some attempt from `n` on resolved with. */
  lemma {:induction false} AttemptsFound(n: nat, run: Runs)
    requires 1 <= n <= MaxAttempts
    decreases MaxAttempts - n
    ensures var r := Attempts(n, run).0;
            r.Downloaded? ==> exists k :: n <= k <= MaxAttempts && run(k).0 == Found(r.path)
  {
    if n < MaxAttempts {
      AttemptsFound(n + 1, run);
    }
  }

  /** `downloadAudio` makes at most three attempts, waits 500 ms and then 1000 ms
      between them, and never starts a fourth. */
  lemma RetrySchedule(url: string, outBaseName: Option<string>, timeoutMs: nat, uuid: string,
                      parse: string -> Option<Urls.ParsedUrl>, env: Env)
    ensures var t := Acquire(url, outBaseName, timeoutMs, uuid, parse, env).1;
            PrimaryCalls(t) == |Sleeps(t)| + 1 <= MaxAttempts &&
            Sleeps(t) == [500, 1000][..|Sleeps(t)|] &&
            forall i :: 0 <= i < |t| ==> 1 <= t[i].attempt <= MaxAttempts
  {
    var id, target := IdFor(outBaseName, uuid), Urls.NormalizeYouTubeUrl(url, parse);
    RunnerTraces(env, id, target);
    AttemptsCounts(1, Runner(env, id, target), target);
    AttemptsNumbered(1, Runner(env, id, target), target);
    BackoffSchedule();
  }

  /** Without the deadline, the download fails exactly when all three attempts fail; it
      then has waited 500 and 1000 ms and rejects with the third attempt's error. */
  lemma ExhaustedRetries(url: string, outBaseName: Option<string>, timeoutMs: nat, uuid: string,
                         parse: string -> Option<Urls.ParsedUrl>, env: Env)
    requires env.firstCallMs <= timeoutMs
    ensures var id := IdFor(outBaseName, uuid);
            var target := Urls.NormalizeYouTubeUrl(url, parse);
            var r := Acquire(url, outBaseName, timeoutMs, uuid, parse, env);
            (r.0.DownloadFailed? <==> AllFail(1, Runner(env, id, target))) &&
            (r.0.DownloadFailed? ==>
               Sleeps(r.1) == [500, 1000] && PrimaryCalls(r.1) == MaxAttempts &&
               r.0.error == FailureMessage(RunAttempt(MaxAttempts, env.world(MaxAttempts), env, id, target).0))
  {
    var id, target := IdFor(outBaseName, uuid), Urls.NormalizeYouTubeUrl(url, parse);
    RunnerTraces(env, id, target);
    AttemptsCounts(1, Runner(env, id, target), target);
    AttemptsFailure(1, Runner(env, id, target));
    BackoffSchedule();
  }

  /** Once the first primary call outlasts the deadline the download rejects with the
      timeout, whatever the later attempts do; the attempts still run to their end. */
  lemma DeadlineWins(url: string, outBaseName: Option<string>, timeoutMs: nat, uuid: string,
                     parse: string -> Option<Urls.ParsedUrl>, env: Env)
    requires env.firstCallMs > timeoutMs
    ensures Acquire(url, outBaseName, timeoutMs, uuid, parse, env) ==
            (DownloadFailed(TimeoutMessage),
             Attempts(1, Runner(env, IdFor(outBaseName, uuid), Urls.NormalizeYouTubeUrl(url, parse))).1)
  {
  }

  /** A downloaded file lies in the temp directory or the working directory, and its
      name carries the id. */
  lemma DownloadedCarriesId(url: string, outBaseName: Option<string>, timeoutMs: nat, uuid: string,
                            parse: string -> Option<Urls.ParsedUrl>, env: Env)
    ensures var r := Acquire(url, outBaseName, timeoutMs, uuid, parse, env).0;
            var id := IdFor(outBaseName, uuid);
            r.Downloaded? ==> NamedFor(r.path, env.tempDir, id) || NamedFor(r.path, env.cwd, id)
  {
    var id := IdFor(outBaseName, uuid);
    var target := Urls.NormalizeYouTubeUrl(url, parse);
    var run := Runner(env, id, target);
    var r := Acquire(url, outBaseName, timeoutMs, uuid, parse, env).0;
    AttemptsFound(1, run);
    if r.Downloaded? {
      var k :| 1 <= k <= MaxAttempts && run(k).0 == Found(r.path);
      FoundCarriesId(k, env.world(k), env, id, target);
    }
  }
}
