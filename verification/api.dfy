/**
 * Request validation, defaulting, job-id allocation and response shaping of
 * the local download server (src/api_handler.rs). The file system, the
 * worker channel and the `yt-dlp` process are not modelled: what they do to
 * a request arrives as an `Env` value, and the handlers compute the response
 * and the server's new state from it.
 */
module Api {
  import opened Wrappers
  import opened Text

  // ---------------------------------------------------------------------------
  // Data
  // ---------------------------------------------------------------------------

  /** The job counter is a `u64`. */
  const U64: nat := 0x1_0000_0000_0000_0000
  type U64Value = x: nat | x < U64

  /** The JSON body of both download handlers. */
  datatype DownloadRequest = DownloadRequest(
    url: string, quality: Option<string>, format: Option<string>, subfolder: Option<string>,
    title: Option<string>, username: Option<string>, password: Option<string>)

  /** An entry of the persisted queue. */
  datatype QueueItem = QueueItem(
    id: U64Value, url: string, quality: string, formatSelector: string, subfolder: string,
    title: Option<string>, username: Option<string>, password: Option<string>)

  /** What the worker receives. */
  datatype DownloadParams = DownloadParams(
    url: string, quality: string, formatSelector: string, outputPath: string,
    customTitle: Option<string>, username: Option<string>, password: Option<string>)

  datatype Job = Job(id: U64Value, params: DownloadParams)

  /** The HTTP status and the JSON body of a download response. */
  datatype DownloadResponse = DownloadResponse(
    status: nat, success: bool, message: Option<string>, error: Option<string>,
    outputPath: Option<string>, id: Option<U64Value>)

  /** The server state the handlers change: the job counter, the queue and
      the jobs handed to the worker. */
  datatype Server = Server(counter: U64Value, queue: seq<QueueItem>, jobs: seq<Job>)

  /** What the worker reports for a finished job. */
  datatype JobResult = JobResult(
    success: bool, message: Option<string>, error: Option<string>, outputPath: Option<string>,
    httpStatus: nat)

  /** What the environment does with one request: the downloads folder, the
      error of creating the target folder if any, whether the worker channel
      accepts the job, and the worker's report (`None` when the reply
      channel closes without one). */
  datatype Env = Env(downloadsFolder: string, mkdirError: Option<string>, sendOk: bool, reply: Option<JobResult>)

  const UrlRequired := "URL jest wymagany"
  const BadSubfolder := "Nieprawidłowa nazwa podfolderu"
  const MkdirFailed := "Nie udało się utworzyć folderu"
  const SendFailed := "Nie udało się dodać zadania do kolejki"
  const ChannelClosed := "Błąd kolejki pobierania (kanał przerwany)"
  const Queued := "Dodano do kolejki"
  const UnknownTitleText := "Unknown Title"

  /** A response without success, id or output path. */
  function Reject(status: nat, msg: string): DownloadResponse {
    DownloadResponse(status, false, None, Some(msg), None, None)
  }

  // ---------------------------------------------------------------------------
  // Paths (Unix semantics)
  // ---------------------------------------------------------------------------

  /** `Path::is_absolute`: a leading "/". */
  predicate IsAbsolute(p: string) {
    StartsWith(p, "/")
  }

  /** Some component of the path is `..`. */
  predicate HasParentDir(p: string) {
    var parts := Split(p, {'/'});
    exists i :: 0 <= i < |parts| && parts[i] == ".."
  }

  /** `PathBuf::push`: an absolute path replaces the base; otherwise it is
      appended, with a "/" in between unless the base is empty or already
      ends in one. */
  function Push(base: string, p: string): (r: string)
    ensures IsAbsolute(p) ==> r == p
    ensures !IsAbsolute(p) ==> r == base + Separator(base) + p
  {
    if IsAbsolute(p) then p
    else if base == [] || base[|base| - 1] == '/' then base + p
    else base + "/" + p
  }

  /** What `push` puts between a base and a relative path: nothing when the
      base is empty or already ends in "/", otherwise one "/". */
  function Separator(base: string): (r: string)
    ensures r == [] <==> base == [] || EndsWith(base, "/")
    ensures r != [] ==> r == "/"
  {
    if base == [] || base[|base| - 1] == '/' then [] else "/"
  }

  /** `path` lies inside `folder` component by component: it starts with the
      folder, and the folder's last component ends there, so "/dl" contains
      "/dl" and "/dl/a" but not "/dlx/a". */
  predicate InsideFolder(path: string, folder: string) {
    && StartsWith(path, folder)
    && (|path| == |folder| || folder == [] || folder[|folder| - 1] == '/' || path[|folder|] == '/')
  }

  /** A relative path pushed onto a base stays inside the base and ends with
      the pushed path. */
  lemma {:induction false} PushStaysInside(base: string, p: string)
    requires !IsAbsolute(p)
    ensures InsideFolder(Push(base, p), base) && EndsWith(Push(base, p), p)
  {
    var r := Push(base, p);
    var sep := Separator(base);
    assert r == base + sep + p;
    assert r[..|base|] == base;
    assert r[|r| - |p|..] == p;
    if sep != [] {
      assert r[|base|] == '/';
    }
  }

  /** The target folder: the downloads folder, with a non-empty subfolder pushed. */
  function TargetPath(folder: string, subfolder: string): string {
    if subfolder != [] then Push(folder, subfolder) else folder
  }

  /** `StatusCode::from_u16(s).unwrap_or(INTERNAL_SERVER_ERROR)`. */
  function StatusOr500(s: nat): (r: nat)
    ensures 100 <= r <= 999
    ensures 100 <= s <= 999 ==> r == s
  {
    if 100 <= s <= 999 then s else 500
  }

  /** `fetch_add(1)` followed by `wrapping_add(1)`: the new counter value,
      which is also the job's id. */
  function NextId(counter: U64Value): (r: U64Value)
    ensures counter + 1 < U64 ==> r == counter + 1
    ensures counter + 1 == U64 ==> r == 0
  {
    (counter + 1) % U64
  }

  // ---------------------------------------------------------------------------
  // download_handler (lines 124-276)
  // ---------------------------------------------------------------------------

  /** One request to the first download handler. It waits for the worker's
      report. Any non-empty subfolder is pushed as it is. */
  function HandleV1(s: Server, req: DownloadRequest, env: Env): (r: (DownloadResponse, Server))
    ensures IsRustBlank(req.url) ==> r == (Reject(400, UrlRequired), s)
    ensures !IsRustBlank(req.url) && env.mkdirError.Some? ==>
              r == (Reject(500, MkdirFailed + ": " + env.mkdirError.value), s)
    ensures !IsRustBlank(req.url) && env.mkdirError.None? ==>
              && r.1.counter == NextId(s.counter)
              && r.1.queue == s.queue + [QueueItem(NextId(s.counter), req.url,
                   req.quality.GetOr("best"), req.format.GetOr("mp4"), req.subfolder.GetOr(""),
                   req.title, req.username, req.password)]
              && (env.sendOk ==>
                    r.1.jobs == s.jobs + [Job(NextId(s.counter),
                      DownloadParams(req.url, req.quality.GetOr("best"), req.format.GetOr("mp4"),
                        TargetPath(env.downloadsFolder, req.subfolder.GetOr("")),
                        req.title, req.username, req.password))])
              && (!env.sendOk ==> r.1.jobs == s.jobs && r.0 == Reject(500, SendFailed))
              && (env.sendOk && env.reply.None? ==> r.0 == Reject(500, ChannelClosed))
              && (env.sendOk && env.reply.Some? && !env.reply.value.success ==>
                    r.0.status == StatusOr500(env.reply.value.httpStatus) &&
                    r.0.message == env.reply.value.message)
    ensures r.0.success <==> !IsRustBlank(req.url) && env.mkdirError.None? && env.sendOk &&
                             env.reply.Some? && env.reply.value.success
    ensures r.0.success ==> r.0.status == 200 && r.0.id == Some(NextId(s.counter))
    ensures !r.0.success ==> r.0.id == None
  {
    if IsRustBlank(req.url) then (Reject(400, UrlRequired), s)
    else
      var quality := req.quality.GetOr("best");
      var format := req.format.GetOr("mp4");
      var subfolder := req.subfolder.GetOr("");
      var path := TargetPath(env.downloadsFolder, subfolder);
      if env.mkdirError.Some? then (Reject(500, MkdirFailed + ": " + env.mkdirError.value), s)
      else
        var id := NextId(s.counter);
        var item := QueueItem(id, req.url, quality, format, subfolder, req.title, req.username, req.password);
        var queued := Server(id, s.queue + [item], s.jobs);
        if !env.sendOk then (Reject(500, SendFailed), queued)
        else
          var params := DownloadParams(req.url, quality, format, path, req.title, req.username, req.password);
          var sent := queued.(jobs := s.jobs + [Job(id, params)]);
          match env.reply
          case None => (Reject(500, ChannelClosed), sent)
          case Some(res) =>
            if res.success then
              (DownloadResponse(200, true, res.message, None, res.outputPath, Some(id)), sent)
            else
              (DownloadResponse(StatusOr500(res.httpStatus), false, res.message, res.error, res.outputPath, None), sent)
  }

  // ---------------------------------------------------------------------------
  // download_handlerv2 (lines 280-403)
  // ---------------------------------------------------------------------------

  /** The second handler refuses an absolute subfolder and one with a ".."
      component. */
  predicate SubfolderAllowed(subfolder: string) {
    subfolder == [] || (!IsAbsolute(subfolder) && !HasParentDir(subfolder))
  }

  /** Whether a request gets past every check before a job id is taken. */
  predicate PassesV2(req: DownloadRequest, env: Env) {
    !IsRustBlank(req.url) && SubfolderAllowed(req.subfolder.GetOr("")) && env.mkdirError.None?
  }

  /** The first failing check's response, for a request that does not pass. */
  function V2Rejection(req: DownloadRequest, env: Env): (r: DownloadResponse)
    requires !PassesV2(req, env)
    ensures r.status == 400 <==> IsRustBlank(req.url) || !SubfolderAllowed(req.subfolder.GetOr(""))
    ensures r.status == 500 <==> !IsRustBlank(req.url) && SubfolderAllowed(req.subfolder.GetOr(""))
    ensures !r.success && r.id == None && r.outputPath == None && r.message == None
    ensures IsRustBlank(req.url) ==> r.error == Some(UrlRequired)
    ensures !IsRustBlank(req.url) && !SubfolderAllowed(req.subfolder.GetOr("")) ==> r.error == Some(BadSubfolder)
    // the folder error names the cause and the target path
    ensures r.status == 500 ==>
              r.error == Some(MkdirFailed + "::" + env.mkdirError.value + " /// " +
                              DebugPath(TargetPath(env.downloadsFolder, req.subfolder.GetOr(""))))
  {
    if IsRustBlank(req.url) then Reject(400, UrlRequired)
    else if !SubfolderAllowed(req.subfolder.GetOr("")) then Reject(400, BadSubfolder)
    else
      var path := TargetPath(env.downloadsFolder, req.subfolder.GetOr(""));
      Reject(500, MkdirFailed + "::" + env.mkdirError.value + " /// " + DebugPath(path))
  }

  /** The `{:?}` rendering of a path: the path in double quotes (escaping of
      quotes and control characters inside it is not modelled). */
  function DebugPath(p: string): string {
    "\"" + p + "\""
  }

  /** One request to the second download handler. It answers as soon as the
      job is handed over, and always stores a title. */
  function HandleV2(s: Server, req: DownloadRequest, env: Env): (r: (DownloadResponse, Server))
    ensures !PassesV2(req, env) ==> r == (V2Rejection(req, env), s)
    ensures IsRustBlank(req.url) ==> r.0 == Reject(400, UrlRequired)
    ensures !IsRustBlank(req.url) && !SubfolderAllowed(req.subfolder.GetOr("")) ==> r.0 == Reject(400, BadSubfolder)
    ensures PassesV2(req, env) ==>
              && r.1.counter == NextId(s.counter)
              && r.1.queue == s.queue + [QueueItem(NextId(s.counter), req.url,
                   req.quality.GetOr("best"), req.format.GetOr("mp4"), req.subfolder.GetOr(""),
                   Some(req.title.GetOr(UnknownTitleText)), req.username, req.password)]
    ensures PassesV2(req, env) && env.sendOk ==>
              && r.0 == DownloadResponse(200, true, Some(Queued), None, None, Some(NextId(s.counter)))
              && r.1.jobs == s.jobs + [Job(NextId(s.counter), DownloadParams(req.url,
                   req.quality.GetOr("best"), req.format.GetOr("mp4"),
                   TargetPath(env.downloadsFolder, req.subfolder.GetOr("")),
                   req.title, req.username, req.password))]
    ensures PassesV2(req, env) && !env.sendOk ==> r.0 == Reject(500, SendFailed) && r.1.jobs == s.jobs
  {
    if !PassesV2(req, env) then (V2Rejection(req, env), s)
    else
      var quality := req.quality.GetOr("best");
      var format := req.format.GetOr("mp4");
      var subfolder := req.subfolder.GetOr("");
      var path := TargetPath(env.downloadsFolder, subfolder);
      var id := NextId(s.counter);
      var params := DownloadParams(req.url, quality, format, path, req.title, req.username, req.password);
      var title := req.title.GetOr(UnknownTitleText);
      var item := QueueItem(id, req.url, quality, format, subfolder, Some(title), req.username, req.password);
      var queued := Server(id, s.queue + [item], s.jobs);
      if !env.sendOk then (Reject(500, SendFailed), queued)
      else (DownloadResponse(200, true, Some(Queued), None, None, Some(id)), queued.(jobs := s.jobs + [Job(id, params)]))
  }

  /** A run of requests to the second handler, each with its environment. */
  function ServeV2(s: Server, reqs: seq<(DownloadRequest, Env)>): Server
    decreases |reqs|
  {
    if reqs == [] then s else ServeV2(HandleV2(s, reqs[0].0, reqs[0].1).1, reqs[1..])
  }

  /** How many requests of a run pass the checks. */
  function CountPassing(reqs: seq<(DownloadRequest, Env)>): (r: nat)
    ensures r <= |reqs|
    ensures r == 0 <==> forall i :: 0 <= i < |reqs| ==> !PassesV2(reqs[i].0, reqs[i].1)
    ensures r == |reqs| <==> forall i :: 0 <= i < |reqs| ==> PassesV2(reqs[i].0, reqs[i].1)
    decreases |reqs|
  {
    if reqs == [] then 0 else (if PassesV2(reqs[0].0, reqs[0].1) then 1 else 0) + CountPassing(reqs[1..])
  }

  // ---------------------------------------------------------------------------
  // verify_premium_handler (lines 45-121)
  // ---------------------------------------------------------------------------

  datatype PremiumRequest = PremiumRequest(username: Option<string>, password: Option<string>)

  /** How the `yt-dlp` run ended: exit status zero, another exit status with
      its error output, or no process at all. */
  datatype RunOutcome = ExitedOk | ExitedFailed(stderr: string) | LaunchFailed(err: string)

  /** Runs `yt-dlp` with the given arguments; the process is not modelled. */
  type Runner = seq<string> -> RunOutcome

  datatype PremiumResponse = PremiumResponse(
    status: nat, success: bool, isPremium: Option<bool>, message: Option<string>, error: Option<string>)

  const MissingCredentials := "Brak danych logowania"

  /** The command line checking the credentials against cda.pl. */
  function PremiumArgs(username: string, password: string): (r: seq<string>)
    ensures |r| == 9 && r[1] == username && r[3] == password
  {
    ["--username", username, "--password", password, "--dump-json",
     "--playlist-items", "0", "--no-download", "https://www.cda.pl"]
  }

  /** A credential is present when it is there and non-empty; white space
      counts as content. */
  predicate Given(v: Option<string>) {
    v.Some? && v.value != []
  }

  /** `verify_premium_handler`: missing credentials are refused before
      anything runs; otherwise the outcome of the run decides. */
  function VerifyPremium(req: PremiumRequest, run: Runner): (r: PremiumResponse)
    ensures r.status == 400 <==> !Given(req.username) || !Given(req.password)
    ensures r.status == 400 ==> r == PremiumResponse(400, false, None, None, Some(MissingCredentials))
    ensures r.success <==> Given(req.username) && Given(req.password) &&
                           run(PremiumArgs(req.username.value, req.password.value)).ExitedOk?
    ensures r.status == 500 <==> Given(req.username) && Given(req.password) &&
                                 run(PremiumArgs(req.username.value, req.password.value)).LaunchFailed?
    ensures (Given(req.username) && Given(req.password) &&
             !run(PremiumArgs(req.username.value, req.password.value)).LaunchFailed?) ==> r.status == 200
    ensures r.isPremium == None
  {
    if !Given(req.username) || !Given(req.password) then
      PremiumResponse(400, false, None, None, Some(MissingCredentials))
    else
      match run(PremiumArgs(req.username.value, req.password.value))
      case ExitedOk => PremiumResponse(200, true, None, Some("Dane logowania poprawne (status Premium nieznany)"), None)
      case ExitedFailed(_) => PremiumResponse(200, false, None, None, Some("Nieprawidłowe dane logowania"))
      case LaunchFailed(e) => PremiumResponse(500, false, None, None, Some("Błąd uruchomienia yt-dlp: " + e))
  }

  /** The premium check's body agrees with its status: a success carries a
      message and no error, anything else an error and no message; the status
      is one of 200, 400 and 500. Missing credentials are refused without
      running yt-dlp, and otherwise only the outcome of the one run matters. */
  lemma {:induction false} VerifyPremiumShape(req: PremiumRequest, run: Runner, other: Runner)
    ensures var r := VerifyPremium(req, run);
            && (r.success <==> r.message.Some?)
            && (r.success <==> r.error.None?)
            && r.status in {200, 400, 500}
    ensures !Given(req.username) || !Given(req.password) ==> VerifyPremium(req, other) == VerifyPremium(req, run)
    ensures (Given(req.username) && Given(req.password) &&
             other(PremiumArgs(req.username.value, req.password.value)) == run(PremiumArgs(req.username.value, req.password.value)))
            ==> VerifyPremium(req, other) == VerifyPremium(req, run)
  {
  }

  // ---------------------------------------------------------------------------
  // Properties
  // ---------------------------------------------------------------------------

  /** A rejected request leaves the counter, the queue and the jobs as they
      were, in both handlers. */
  lemma {:induction false} RejectionsChangeNothing(s: Server, req: DownloadRequest, env: Env)
    ensures !PassesV2(req, env) ==> HandleV2(s, req, env).1 == s
    ensures IsRustBlank(req.url) || env.mkdirError.Some? ==> HandleV1(s, req, env).1 == s
  {
  }

  /** Over a run of requests the counter advances once per request that
      passes the checks, wrapping at 2^64; the queue grows by one item per
      such request, whose ids follow the counter. */
  lemma {:induction false} ServeV2Counts(s: Server, reqs: seq<(DownloadRequest, Env)>)
    ensures CountedFrom(s, ServeV2(s, reqs), CountPassing(reqs))
    decreases |reqs|
  {
    if reqs == [] {
      assert ServeV2(s, reqs) == s;
      assert s.queue[..|s.queue|] == s.queue;
    } else {
      var next := HandleV2(s, reqs[0].0, reqs[0].1).1;
      ServeV2Counts(next, reqs[1..]);
      var out := ServeV2(next, reqs[1..]);
      assert ServeV2(s, reqs) == out;
      var c := CountPassing(reqs[1..]);
      if PassesV2(reqs[0].0, reqs[0].1) {
        assert CountPassing(reqs) == c + 1;
        CountedAfterOneMore(s, next, out, c);
      } else {
        assert next == s;
      }
    }
  }

  /** `out` is `s` after `n` more queued requests, numbered from the counter. */
  predicate CountedFrom(s: Server, out: Server, n: nat) {
    && out.counter == (s.counter + n) % U64
    && |out.queue| == |s.queue| + n
    && out.queue[..|s.queue|] == s.queue
    && forall k :: |s.queue| <= k < |out.queue| ==>
         out.queue[k].id == (s.counter + (k - |s.queue|) + 1) % U64
  }

  /** One request queued with the next id, then `n` more, is `n + 1` more. */
  lemma {:induction false} CountedAfterOneMore(s: Server, next: Server, out: Server, n: nat)
    requires next.counter == (s.counter + 1) % U64
    requires |next.queue| == |s.queue| + 1 && next.queue[..|s.queue|] == s.queue
    requires next.queue[|s.queue|].id == next.counter
    requires CountedFrom(next, out, n)
    ensures CountedFrom(s, out, n + 1)
  {
    ModAdd(s.counter + 1, n);
    assert out.queue[..|s.queue|] == out.queue[..|next.queue|][..|s.queue|];
    forall k | |s.queue| <= k < |out.queue|
      ensures out.queue[k].id == (s.counter + (k - |s.queue|) + 1) % U64
    {
      if k == |s.queue| {
        assert out.queue[k] == out.queue[..|next.queue|][k] == next.queue[k];
      } else {
        ModAdd(s.counter + 1, k - |next.queue| + 1);
      }
    }
  }

  /** Adding after a reduction is adding before it. */
  lemma {:induction false} ModAdd(a: nat, b: nat)
    ensures (a % U64 + b) % U64 == (a + b) % U64
  {
    var q := a / U64;
    assert a == q * U64 + a % U64;
    assert a + b == q * U64 + (a % U64 + b);
  }

  /** Fewer than 2^64 accepted requests in a row get distinct job ids. */
  lemma {:induction false} QueuedIdsDistinct(s: Server, reqs: seq<(DownloadRequest, Env)>)
    requires CountPassing(reqs) <= U64
    ensures var q := ServeV2(s, reqs).queue;
            forall a, b :: |s.queue| <= a < b < |q| ==> q[a].id != q[b].id
  {
    ServeV2Counts(s, reqs);
    var q := ServeV2(s, reqs).queue;
    forall a, b | |s.queue| <= a < b < |q|
      ensures q[a].id != q[b].id
    {
      ModDistinct(s.counter + (a - |s.queue|) + 1, b - a);
    }
  }

  /** Two numbers less than a modulus apart have different remainders. */
  lemma {:induction false} ModDistinct(x: nat, d: nat)
    requires 0 < d < U64
    ensures x % U64 != (x + d) % U64
  {
  }

  /** A subfolder the second handler accepts keeps the target inside the
      downloads folder: it is appended, never replacing the base, and has no
      ".." component. */
  lemma {:induction false} V2TargetStaysInside(s: Server, req: DownloadRequest, env: Env)
    requires PassesV2(req, env) && env.sendOk
    ensures var path := HandleV2(s, req, env).1.jobs[|s.jobs|].params.outputPath;
            var sub := req.subfolder.GetOr("");
            && InsideFolder(path, env.downloadsFolder)
            && path[|env.downloadsFolder|..] == (if sub == [] then [] else Separator(env.downloadsFolder) + sub)
            && !HasParentDir(sub) && !IsAbsolute(sub)
  {
    var sub := req.subfolder.GetOr("");
    var folder := env.downloadsFolder;
    if sub != [] {
      assert TargetPath(folder, sub) == folder + (Separator(folder) + sub);
    } else {
      assert TargetPath(folder, sub) == folder + [];
    }
  }

  /** A plain prefix is not enough: "/dl" is a prefix of "/dlx/a", which is
      not inside "/dl". */
  lemma {:induction false} PrefixIsNotInside()
    ensures StartsWith("/dlx/a", "/dl") && !InsideFolder("/dlx/a", "/dl")
    ensures InsideFolder(Push("/dl", "a"), "/dl")
  {
    assert "/dlx/a"[..3] == "/dl";
    assert "a"[..1][0] != "/"[0];
    PushStaysInside("/dl", "a");
  }

  /** The first handler has no such check: an absolute subfolder replaces the
      downloads folder, so the job writes wherever the caller names. */
  lemma {:induction false} V1AbsoluteSubfolderEscapes(s: Server, req: DownloadRequest, env: Env)
    requires !IsRustBlank(req.url) && env.mkdirError.None? && env.sendOk
    requires req.subfolder == Some("/etc")
    ensures HandleV1(s, req, env).1.jobs[|s.jobs|].params.outputPath == "/etc"
  {
    assert IsAbsolute("/etc");
  }

  /** The same absolute subfolder is refused by the second handler, and
      the counter does not move. */
  lemma {:induction false} V2RefusesAbsoluteSubfolder(s: Server, req: DownloadRequest, env: Env)
    requires !IsRustBlank(req.url) && req.subfolder == Some("/etc")
    ensures HandleV2(s, req, env) == (Reject(400, BadSubfolder), s)
  {
    assert IsAbsolute("/etc");
  }

  /** A ".." anywhere among the components is refused; one inside a name
      ("a..b") is not a component and is accepted. */
  lemma {:induction false} ParentDirComponents(pre: string, post: string)
    requires forall j :: 0 <= j < |pre| ==> pre[j] != '/'
    ensures HasParentDir(pre + "/../" + post)
    ensures !HasParentDir("a..b")
  {
    assert pre + "/" + ".." + "/" + post == pre + "/../" + post;
    SplitPieceAfter(pre, "..", post);
    var noSep := "a..b";
    assert forall j :: 0 <= j < |noSep| ==> noSep[j] != '/';
    SplitWithoutSeparatorIsSingle(noSep, {'/'});
    SplitSingleMeansNoSeparator(noSep, {'/'});
  }

  /** Splitting "<pre>/<mid>/<post>" where `pre` and `mid` have no "/" gives
      `mid` as the second piece. */
  lemma {:induction false} SplitPieceAfter(pre: string, mid: string, post: string)
    requires forall j :: 0 <= j < |pre| ==> pre[j] != '/'
    requires forall j :: 0 <= j < |mid| ==> mid[j] != '/'
    ensures var parts := Split(pre + "/" + mid + "/" + post, {'/'});
            |parts| >= 2 && parts[1] == mid
    decreases |pre|
  {
    var s := pre + "/" + mid + "/" + post;
    if pre == [] {
      assert s == "/" + (mid + "/" + post);
      assert s[1..] == mid + "/" + post;
      SplitHead(mid, post);
    } else {
      assert s[1..] == pre[1..] + "/" + mid + "/" + post;
      SplitPieceAfter(pre[1..], mid, post);
    }
  }

  /** Splitting "<mid>/<post>" where `mid` has no "/" gives `mid` first. */
  lemma {:induction false} SplitHead(mid: string, post: string)
    requires forall j :: 0 <= j < |mid| ==> mid[j] != '/'
    ensures Split(mid + "/" + post, {'/'})[0] == mid
    decreases |mid|
  {
    var s := mid + "/" + post;
    if mid == [] {
      assert s[0] == '/';
    } else {
      assert s[0] == mid[0];
      assert s[1..] == mid[1..] + "/" + post;
      SplitHead(mid[1..], post);
      assert [mid[0]] + mid[1..] == mid;
    }
  }

  /** The URL is trimmed before it is tested, the credentials are not: a
      blank URL is refused, a blank user name reaches `yt-dlp`. */
  lemma {:induction false} BlankUrlButBlankNameAccepted(s: Server, env: Env, run: Runner, req: DownloadRequest)
    requires req.url == " "
    ensures HandleV2(s, req, env).0 == Reject(400, UrlRequired)
    ensures VerifyPremium(PremiumRequest(Some(" "), Some("x")), run).status != 400
  {
    assert IsRustBlank(" ") by {
      assert IsRustWhitespace(' ');
    }
  }

  /** The second handler always stores a title; the first keeps the caller's. */
  lemma {:induction false} TitlesInQueue(s: Server, req: DownloadRequest, env: Env)
    requires PassesV2(req, env) && req.title.None?
    ensures HandleV2(s, req, env).1.queue[|s.queue|].title == Some(UnknownTitleText)
    ensures env.mkdirError.None? ==> HandleV1(s, req, env).1.queue[|s.queue|].title == None
  {
  }

  /** The worker's status is passed on when it is a valid status code and
      replaced by 500 otherwise; a failed job never reports an id. */
  lemma {:induction false} FailedJobStatus(s: Server, req: DownloadRequest, env: Env, res: JobResult)
    requires !IsRustBlank(req.url) && env.mkdirError.None? && env.sendOk
    requires env.reply == Some(res) && !res.success
    ensures HandleV1(s, req, env).0.status == (if 100 <= res.httpStatus <= 999 then res.httpStatus else 500)
    ensures HandleV1(s, req, env).0.id == None
  {
  }
}
