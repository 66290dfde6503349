/**
 * `HttpInterface` (cloudvolume/storage.py), the read-only HTTP backend.  A
 * file `f` of the layer is fetched from `protocol://join(bucket, path, f)`.
 * Single requests (`get_file`, `exists`) retry server errors under the retry
 * budget; the batch calls (`get_files`, `files_exist`) keep one connection's
 * pipe full: they push requests while the connection accepts another stream
 * and read the answers in the order the requests were sent.
 *
 * The server is an oracle: `server(verb, url, n)` is the response to the `n`-th
 * request of that verb for that url (0 for the pipelined request, 1 to 7 for the
 * attempts of a retried single request).  The connection refuses a new stream
 * (h2's `TooManyStreamsError`) whenever `limit` streams are in flight.
 */
module HttpBackend {
  import opened Wrappers
  import opened Blobs
  import opened PathOps
  import opened Retry

  datatype Verb = GET | HEAD

  /**
   * One response: its status, the class of the exception that
   * `exceptions.from_http_status` builds for it, and its body.  That function
   * is not part of this model, so the class comes with the response.
   */
  datatype Response = Response(status: int, kind: StatusClass, body: Bytes)

  type Server = (Verb, string, nat) -> Response

  /** The interface: where the layer lives, and the connection it talks over. */
  datatype HttpInterface = HttpInterface(protocol: string, bucket: string, path: string, server: Server, limit: nat)

  /**
   * The exception classes the interface tells apart: `NotFound` or
   * `Forbidden`, another `HTTPClientError`, an `HTTPServerError`, and
   * anything else (no exception class, or one of neither kind), which counts
   * as success.
   */
  datatype StatusClass = Fine | NotFoundOrForbidden | ClientFailure | ServerFailure

  /**
   * What is known of `exceptions.from_http_status`: 404 and 403 give `NotFound`
   * and `Forbidden`, and a client or server error class only comes from a 4xx
   * or 5xx status.  Which other statuses have a class is left open.
   */
  predicate FromHttpStatus(resp: Response) {
    && (resp.status in {403, 404} ==> resp.kind == NotFoundOrForbidden)
    && (resp.kind in {NotFoundOrForbidden, ClientFailure} ==> 400 <= resp.status < 500)
    && (resp.kind == ServerFailure ==> 500 <= resp.status < 600)
  }

  /** The exceptions the interface raises. */
  datatype HttpError = ClientError(status: int) | ServerError(status: int) | NotImplementedError

  /** The retry policy of `get_file` and `exists`: only server errors are retried. */
  predicate IsServerError(e: HttpError) {
    e.ServerError?
  }

  /** `get_path_to_file`. */
  function Url(h: HttpInterface, file: string): string {
    h.protocol + "://" + Join3(h.bucket, h.path, file)
  }

  // ---------------------------------------------------------------------------
  // Single requests.

  /** One attempt of `get_file`: any 4xx or 5xx status raises, otherwise the body. */
  function GetAttempt(server: Server, url: string, n: nat): Outcome<Bytes, HttpError> {
    var resp := server(GET, url, n);
    match resp.kind
    case Fine => Returned(resp.body)
    case ServerFailure => Raised(ServerError(resp.status))
    case _ => Raised(ClientError(resp.status))
  }

  /** One attempt of `exists`: 404 and 403 answer `false`, other errors raise, anything else `true`. */
  function ExistsAttempt(server: Server, url: string, n: nat): Outcome<bool, HttpError> {
    var resp := server(HEAD, url, n);
    match resp.kind
    case Fine => Returned(true)
    case NotFoundOrForbidden => Returned(false)
    case ServerFailure => Raised(ServerError(resp.status))
    case ClientFailure => Raised(ClientError(resp.status))
  }

  /** `get_file`, retried on server errors; its attempts are requests 1 to 7. */
  function GetFile(server: Server, url: string): Outcome<Bytes, HttpError> {
    Retried(n => GetAttempt(server, url, n + 1), IsServerError)
  }

  /** `exists`, retried on server errors; its attempts are requests 1 to 7. */
  function Exists(server: Server, url: string): Outcome<bool, HttpError> {
    Retried(n => ExistsAttempt(server, url, n + 1), IsServerError)
  }

  /** `exists` answers `false` for a missing or forbidden file, after any number of server errors within the budget. */
  lemma ExistsFalseOnNotFound(server: Server, url: string, k: nat)
    requires k < MAX_RETRIES
    requires forall j :: 1 <= j <= k ==> server(HEAD, url, j).kind == ServerFailure
    requires server(HEAD, url, k + 1).kind == NotFoundOrForbidden
    ensures Exists(server, url) == Returned(false)
  {
    var attempt := (n: nat) => ExistsAttempt(server, url, n + 1);
    forall j | 0 <= j < k ensures !Decisive(attempt(j), IsServerError) {
      assert server(HEAD, url, j + 1).kind == ServerFailure;
    }
    SuccessWithinBudget(attempt, IsServerError, k, false);
  }

  /** In status terms: a first `exists` attempt answered 404 or 403 gives `false`. */
  lemma ExistsFalseOn404(server: Server, url: string)
    requires server(HEAD, url, 1).status in {403, 404}
    requires FromHttpStatus(server(HEAD, url, 1))
    ensures Exists(server, url) == Returned(false)
  {
    ExistsFalseOnNotFound(server, url, 0);
  }

  /** A client error of `get_file` is raised at once, without retrying. */
  lemma GetFileClientErrorSurfaces(server: Server, url: string)
    requires server(GET, url, 1).kind in {NotFoundOrForbidden, ClientFailure}
    ensures GetFile(server, url) == Raised(ClientError(server(GET, url, 1).status))
  {
    var attempt := (n: nat) => GetAttempt(server, url, n + 1);
    NonRetryableSurfaces(attempt, IsServerError, 0, ClientError(server(GET, url, 1).status));
  }

  /** Seven server errors in a row: `get_file` raises the last of them. */
  lemma GetFileGivesUpAfterBudget(server: Server, url: string)
    requires forall j :: 1 <= j <= MAX_RETRIES ==> server(GET, url, j).kind == ServerFailure
    ensures GetFile(server, url) == Raised(ServerError(server(GET, url, MAX_RETRIES).status))
  {
    var attempt := (n: nat) => GetAttempt(server, url, n + 1);
    forall j | 0 <= j < MAX_RETRIES ensures !Decisive(attempt(j), IsServerError) {
      assert server(GET, url, j + 1).kind == ServerFailure;
    }
    BudgetExhaustedReraisesLast(attempt, IsServerError);
  }

  /** `put_file`, `delete_file` and `list_files` always raise: the backend is read-only. */
  function PutFile(h: HttpInterface, file: string, content: Bytes): (r: Result<(), HttpError>)
    ensures r == Err(NotImplementedError)
  {
    Err(NotImplementedError)
  }

  function DeleteFile(h: HttpInterface, file: string): (r: Result<(), HttpError>)
    ensures r == Err(NotImplementedError)
  {
    Err(NotImplementedError)
  }

  function ListFiles(h: HttpInterface, prefix: string, flat: bool): (r: Result<seq<string>, HttpError>)
    ensures r == Err(NotImplementedError)
  {
    Err(NotImplementedError)
  }

  // ---------------------------------------------------------------------------
  // What the batch calls make of the answer to one pipelined request.

  /** `_get_response` of `get_files`: a server error falls back to `get_file`; a client error raises; else the body. */
  function PipelinedGet(server: Server, url: string): Outcome<Bytes, HttpError> {
    var resp := server(GET, url, 0);
    match resp.kind
    case Fine => Returned(resp.body)
    case ServerFailure => GetFile(server, url)
    case _ => Raised(ClientError(resp.status))
  }

  /** `_get_response` of `files_exist`: 404 and 403 are `false`; a server error falls back to `exists`; a client error raises. */
  function PipelinedHead(server: Server, url: string): Outcome<bool, HttpError> {
    var resp := server(HEAD, url, 0);
    match resp.kind
    case Fine => Returned(true)
    case NotFoundOrForbidden => Returned(false)
    case ServerFailure => Exists(server, url)
    case ClientFailure => Raised(ClientError(resp.status))
  }

  /** One record of `get_files`: an error of the item is captured, with no content. */
  datatype HttpRecord = HttpRecord(filename: string, content: Option<Bytes>, error: Option<HttpError>)

  function Record(h: HttpInterface, file: string): HttpRecord {
    match PipelinedGet(h.server, Url(h, file))
    case Returned(body) => HttpRecord(file, Some(body), None)
    case Raised(e) => HttpRecord(file, None, Some(e))
  }

  /** A client error of one item, 404 included, is captured in its record rather than raised. */
  lemma GetFilesCapturesClientError(h: HttpInterface, file: string)
    requires h.server(GET, Url(h, file), 0).kind in {NotFoundOrForbidden, ClientFailure}
    ensures Record(h, file) == HttpRecord(file, None, Some(ClientError(h.server(GET, Url(h, file), 0).status)))
  {
  }

  // ---------------------------------------------------------------------------
  // The scheduler.

  /** The order the requests go out: `available` is consumed from its end. */
  function Rev(s: seq<string>): (r: seq<string>)
    ensures |r| == |s|
  {
    if s == [] then [] else [s[|s| - 1]] + Rev(s[..|s| - 1])
  }

  lemma {:induction false} RevAt(s: seq<string>, i: nat)
    requires i < |s|
    ensures Rev(s)[i] == s[|s| - 1 - i]
    decreases |s|
  {
    if i > 0 {
      RevAt(s[..|s| - 1], i - 1);
    }
  }

  /** Every path is requested: the request order holds the same paths as the input. */
  lemma RevMembers(s: seq<string>, x: string)
    ensures x in Rev(s) <==> x in s
  {
    if x in s {
      var i :| 0 <= i < |s| && s[i] == x;
      RevAt(s, |s| - 1 - i);
    }
    if x in Rev(s) {
      var i :| 0 <= i < |s| && Rev(s)[i] == x;
      RevAt(s, i);
    }
  }

  /**
   * `_send_next_request`: the last available path is requested when there is
   * one and the connection accepts another stream; it moves to the back of the
   * running queue.
   */
  method SendNext(limit: nat, available: seq<string>, running: seq<string>)
    returns (available': seq<string>, running': seq<string>, sent: bool)
    ensures sent <==> available != [] && |running| < limit
    ensures sent ==> available' == available[..|available| - 1] && running' == running + [available[|available| - 1]]
    ensures !sent ==> available' == available && running' == running
  {
    if available == [] || |running| >= limit {
      return available, running, false;
    }
    available' := available[..|available| - 1];
    running' := running + [available[|available| - 1]];
    sent := true;
  }

  /**
   * How the queues stand while a pipelined loop runs: `available` is still the
   * front of the input, and `running` holds the requests sent and not yet
   * answered, `done` answers into the request order.
   */
  ghost predicate Queues(paths: seq<string>, available: seq<string>, running: seq<string>, done: nat) {
    |available| <= |paths| && available == paths[..|available|]
    && done + |running| == |paths| - |available|
    && running == Rev(paths)[done..|paths| - |available|]
  }

  /** Sending the last available path keeps the queues in step. */
  lemma SendKeepsQueues(paths: seq<string>, available: seq<string>, running: seq<string>, done: nat)
    requires Queues(paths, available, running, done) && available != []
    ensures Queues(paths, available[..|available| - 1], running + [available[|available| - 1]], done)
  {
    var m := |paths| - |available|;
    RevAt(paths, m);
    assert running + [Rev(paths)[m]] == Rev(paths)[done..m + 1];
  }

  /** Answering the oldest running request keeps the queues in step; it is the next path in request order. */
  lemma AnswerKeepsQueues(paths: seq<string>, available: seq<string>, running: seq<string>, done: nat)
    requires Queues(paths, available, running, done) && running != []
    ensures Queues(paths, available, running[1..], done + 1)
    ensures running[0] == Rev(paths)[done]
  {
  }

  /**
   * The queues between two rounds of a pipelined loop, `done` answers in;
   * `sent` says whether the last round sent a request, and when it did not,
   * nothing is left to send or the connection is full.
   */
  ghost predicate Pipe(limit: nat, paths: seq<string>, available: seq<string>, running: seq<string>, done: nat, sent: bool) {
    Queues(paths, available, running, done)
    && |running| <= limit
    && (sent ==> running != [])
    && (!sent ==> available == [] || |running| >= limit)
  }

  /** `_send_next_request` inside a loop: it keeps the queues in step and never raises the loop's measure. */
  method SendRound(limit: nat, paths: seq<string>, available: seq<string>, running: seq<string>, ghost done: nat)
    returns (available': seq<string>, running': seq<string>, sent: bool)
    requires Queues(paths, available, running, done) && |running| <= limit
    ensures Pipe(limit, paths, available', running', done, sent)
    ensures 2 * |available'| + |running'| + (if sent then 1 else 0) <= 2 * |available| + |running|
  {
    if available != [] && |running| < limit {
      SendKeepsQueues(paths, available, running, done);
    }
    available', running', sent := SendNext(limit, available, running);
  }

  /** The records of `get_files` so far: the answers to the first requests, in request order. */
  ghost predicate Answered(paths: seq<string>, fetch: string -> HttpRecord, results: seq<HttpRecord>) {
    |results| <= |paths| && forall i :: 0 <= i < |results| ==> results[i] == fetch(Rev(paths)[i])
  }

  /** A round of `get_files` after the connection refused: the oldest request's answer is recorded, then a request is tried again. */
  method AnswerRound(limit: nat, paths: seq<string>, fetch: string -> HttpRecord,
                     available: seq<string>, running: seq<string>, results: seq<HttpRecord>)
    returns (available': seq<string>, running': seq<string>, sent: bool, results': seq<HttpRecord>)
    requires Pipe(limit, paths, available, running, |results|, false) && Answered(paths, fetch, results) && running != []
    ensures Pipe(limit, paths, available', running', |results'|, sent) && Answered(paths, fetch, results')
    ensures 2 * |available'| + |running'| + (if sent then 1 else 0) < 2 * |available| + |running|
  {
    AnswerKeepsQueues(paths, available, running, |results|);
    var file := running[0];
    var rec := fetch(file);
    available', running', sent := SendRound(limit, paths, available, running[1..], |results| + 1);
    results' := results + [rec];
  }

  /**
   * The loop of `get_files`, with `fetch` the record one answer gives.  With a
   * connection that admits a stream, every path is requested once and answered
   * in the order the requests went out, the reverse of the input.  A connection
   * that admits none makes no request and answers nothing.
   */
  method PipelineGets(limit: nat, paths: seq<string>, fetch: string -> HttpRecord) returns (results: seq<HttpRecord>)
    ensures limit == 0 ==> results == []
    ensures limit > 0 ==> |results| == |paths|
    ensures limit > 0 ==> forall i :: 0 <= i < |paths| ==> results[i] == fetch(paths[|paths| - 1 - i])
  {
    var available := paths;
    var running: seq<string> := [];
    results := [];
    var sent;
    available, running, sent := SendRound(limit, paths, available, running, 0);
    while running != []
      invariant Pipe(limit, paths, available, running, |results|, sent) && Answered(paths, fetch, results)
      invariant limit == 0 ==> results == []
      decreases 2 * |available| + |running| + (if sent then 1 else 0)
    {
      if sent {
        available, running, sent := SendRound(limit, paths, available, running, |results|);
      } else {
        available, running, sent, results := AnswerRound(limit, paths, fetch, available, running, results);
      }
    }
    forall i | 0 <= i < |results| ensures results[i] == fetch(paths[|paths| - 1 - i]) {
      RevAt(paths, i);
    }
  }

  /** `get_files`: one captured record per path, in the reverse of the input order. */
  method GetFiles(h: HttpInterface, paths: seq<string>) returns (results: seq<HttpRecord>)
    ensures h.limit == 0 ==> results == []
    ensures h.limit > 0 ==> |results| == |paths|
    ensures h.limit > 0 ==> forall i :: 0 <= i < |paths| ==> results[i] == Record(h, paths[|paths| - 1 - i])
  {
    results := PipelineGets(h.limit, paths, file => Record(h, file));
  }

  /**
   * The answer `files_exist` builds: starting from `m`, the paths are answered
   * in `order`; the first one that raises ends the call with its error.
   */
  function ExistsFold(answer: string -> Outcome<bool, HttpError>, order: seq<string>, m: map<string, Option<bool>>)
    : Result<map<string, Option<bool>>, HttpError>
  {
    if order == [] then Ok(m)
    else
      match answer(order[0])
      case Raised(e) => Err(e)
      case Returned(b) => ExistsFold(answer, order[1..], m[order[0] := Some(b)])
  }

  /** The dictionary `files_exist` starts from: every path, with no answer yet. */
  function Unanswered(paths: seq<string>): map<string, Option<bool>> {
    map p | p in paths :: None
  }

  /** The fold of `files_exist` so far: finishing it from `result` gives what finishing it from the start gives. */
  ghost predicate Folding(limit: nat, paths: seq<string>, answer: string -> Outcome<bool, HttpError>,
                          answered: nat, result: map<string, Option<bool>>) {
    answered <= |paths|
    && ExistsFold(answer, Rev(paths), Unanswered(paths)) == ExistsFold(answer, Rev(paths)[answered..], result)
  }

  /**
   * A round of `files_exist` after the connection refused: the oldest
   * request's answer either raises, which ends the loop with the fold's
   * error, or is recorded before a request is tried again.
   */
  method HeadsRound(limit: nat, paths: seq<string>, answer: string -> Outcome<bool, HttpError>,
                    available: seq<string>, running: seq<string>, result: map<string, Option<bool>>, ghost answered: nat)
    returns (available': seq<string>, running': seq<string>, sent: bool, result': map<string, Option<bool>>,
             ghost answered': nat, raised: Option<HttpError>)
    requires Pipe(limit, paths, available, running, answered, false) && Folding(limit, paths, answer, answered, result)
    requires running != []
    ensures raised.Some? ==> ExistsFold(answer, Rev(paths), Unanswered(paths)) == Err(raised.value)
    ensures raised.None? ==> Pipe(limit, paths, available', running', answered', sent)
                             && Folding(limit, paths, answer, answered', result')
    ensures raised.None? ==> 2 * |available'| + |running'| + (if sent then 1 else 0) < 2 * |available| + |running|
  {
    AnswerKeepsQueues(paths, available, running, answered);
    var file := running[0];
    FoldStep(answer, Rev(paths), answered, result);
    var a := answer(file);
    if a.Raised? {
      return available, running, false, result, answered, Some(a.error);
    }
    result' := result[file := Some(a.value)];
    answered' := answered + 1;
    raised := None;
    available', running', sent := SendRound(limit, paths, available, running[1..], answered');
  }

  /** The loop of `files_exist`, with `answer` what one pipelined answer gives: like `get_files`, but the first error ends it. */
  method PipelineHeads(limit: nat, paths: seq<string>, answer: string -> Outcome<bool, HttpError>)
    returns (r: Result<map<string, Option<bool>>, HttpError>)
    ensures limit == 0 ==> r == Ok(Unanswered(paths))
    ensures limit > 0 ==> r == ExistsFold(answer, Rev(paths), Unanswered(paths))
    ensures r == FilesExistResult(limit, answer, paths)
  {
    var available := paths;
    var running: seq<string> := [];
    var result := Unanswered(paths);
    ghost var answered: nat := 0;
    var sent;
    available, running, sent := SendRound(limit, paths, available, running, 0);
    while running != []
      invariant Pipe(limit, paths, available, running, answered, sent)
      invariant limit > 0 ==> Folding(limit, paths, answer, answered, result)
      invariant limit == 0 ==> result == Unanswered(paths) && available == paths
      decreases 2 * |available| + |running| + (if sent then 1 else 0)
    {
      if sent {
        available, running, sent := SendRound(limit, paths, available, running, answered);
      } else {
        var raised;
        available, running, sent, result, answered, raised := HeadsRound(limit, paths, answer, available, running, result, answered);
        if raised.Some? {
          return Err(raised.value);
        }
      }
    }
    if limit > 0 {
      assert Rev(paths)[answered..] == [];
    }
    r := Ok(result);
  }

  /** One step of the fold: the answer for the next path either ends it or is recorded. */
  lemma FoldStep(answer: string -> Outcome<bool, HttpError>, order: seq<string>, k: nat, m: map<string, Option<bool>>)
    requires k < |order|
    ensures answer(order[k]).Raised? ==> ExistsFold(answer, order[k..], m) == Err(answer(order[k]).error)
    ensures answer(order[k]).Returned? ==>
      ExistsFold(answer, order[k..], m) == ExistsFold(answer, order[k + 1..], m[order[k] := Some(answer(order[k]).value)])
  {
    assert order[k..][0] == order[k] && order[k..][1..] == order[k + 1..];
  }

  /** The dictionary `files_exist` returns, or the error it raises. */
  function FilesExistResult(limit: nat, answer: string -> Outcome<bool, HttpError>, paths: seq<string>)
    : Result<map<string, Option<bool>>, HttpError>
  {
    if limit == 0 then Ok(Unanswered(paths)) else ExistsFold(answer, Rev(paths), Unanswered(paths))
  }

  /** What `files_exist` makes of one path's pipelined answer. */
  function HeadAnswer(server: Server, url: string -> string): string -> Outcome<bool, HttpError> {
    file => PipelinedHead(server, url(file))
  }

  /** `get_path_to_file` as a function of the path. */
  function UrlOf(h: HttpInterface): string -> string {
    file => Url(h, file)
  }

  /** `files_exist`: every path starts unanswered; the answers come in request order, and the first error is raised. */
  method FilesExist(h: HttpInterface, paths: seq<string>) returns (r: Result<map<string, Option<bool>>, HttpError>)
    ensures r == FilesExistResult(h.limit, HeadAnswer(h.server, UrlOf(h)), paths)
  {
    r := PipelineHeads(h.limit, paths, HeadAnswer(h.server, UrlOf(h)));
  }

  // ---------------------------------------------------------------------------
  // What `files_exist` promises.

  /** The fold ends well exactly when no path in the order raises. */
  lemma {:induction false} FoldOkIff(answer: string -> Outcome<bool, HttpError>, order: seq<string>, m: map<string, Option<bool>>)
    ensures ExistsFold(answer, order, m).Ok? <==> forall p :: p in order ==> answer(p).Returned?
    decreases |order|
  {
    if order != [] {
      assert forall p :: p in order <==> p == order[0] || p in order[1..];
      if answer(order[0]).Returned? {
        FoldOkIff(answer, order[1..], m[order[0] := Some(answer(order[0]).value)]);
      }
    }
  }

  /** A fold that ends well has answered every path in the order and left the other entries alone. */
  lemma {:induction false} FoldAnswers(answer: string -> Outcome<bool, HttpError>, order: seq<string>, m: map<string, Option<bool>>)
    requires ExistsFold(answer, order, m).Ok?
    ensures ExistsFold(answer, order, m).value.Keys == m.Keys + set p | p in order
    ensures forall p :: p in order ==> answer(p).Returned? && ExistsFold(answer, order, m).value[p] == Some(answer(p).value)
    ensures forall p :: p in m && p !in order ==> ExistsFold(answer, order, m).value[p] == m[p]
    decreases |order|
  {
    if order != [] {
      assert forall p :: p in order <==> p == order[0] || p in order[1..];
      var m' := m[order[0] := Some(answer(order[0]).value)];
      FoldAnswers(answer, order[1..], m');
    }
  }

  /**
   * With a connection that admits a stream, `files_exist` returns a dictionary
   * exactly when no path's answer raises, and the dictionary then has one entry
   * per path, holding that path's answer.
   */
  lemma PipelineHeadsAnswers(limit: nat, answer: string -> Outcome<bool, HttpError>, paths: seq<string>)
    requires limit > 0
    ensures FilesExistResult(limit, answer, paths).Ok? <==> forall p :: p in paths ==> answer(p).Returned?
    ensures FilesExistResult(limit, answer, paths).Ok? ==>
      FilesExistResult(limit, answer, paths).value.Keys == (set p | p in paths)
      && forall p :: p in paths ==> FilesExistResult(limit, answer, paths).value[p] == Some(answer(p).value)
  {
    forall x {
      RevMembers(paths, x);
    }
    FoldOkIff(answer, Rev(paths), Unanswered(paths));
    if FilesExistResult(limit, answer, paths).Ok? {
      FoldAnswers(answer, Rev(paths), Unanswered(paths));
    }
  }

  /** A path whose answer is `false` is answered `false` in the dictionary. */
  lemma AnsweredFalse(limit: nat, answer: string -> Outcome<bool, HttpError>, paths: seq<string>, file: string)
    requires limit > 0 && file in paths && answer(file) == Returned(false)
    requires FilesExistResult(limit, answer, paths).Ok?
    ensures file in FilesExistResult(limit, answer, paths).value
    ensures FilesExistResult(limit, answer, paths).value[file] == Some(false)
  {
    PipelineHeadsAnswers(limit, answer, paths);
  }

  /** A path whose answer raises makes the fold raise. */
  lemma AnswerRaises(limit: nat, answer: string -> Outcome<bool, HttpError>, paths: seq<string>, file: string)
    requires limit > 0 && file in paths && answer(file).Raised?
    ensures FilesExistResult(limit, answer, paths).Err?
  {
    PipelineHeadsAnswers(limit, answer, paths);
  }

  /**
   * A path the server reports missing or forbidden is answered `false`.  Stated
   * for every way of building a path's URL, `UrlOf(h)` among them.
   */
  lemma FilesExistNotFound(limit: nat, server: Server, url: string -> string, paths: seq<string>, file: string)
    requires limit > 0 && file in paths
    requires server(HEAD, url(file), 0).kind == NotFoundOrForbidden
    requires FilesExistResult(limit, HeadAnswer(server, url), paths).Ok?
    ensures file in FilesExistResult(limit, HeadAnswer(server, url), paths).value
    ensures FilesExistResult(limit, HeadAnswer(server, url), paths).value[file] == Some(false)
  {
    assert HeadAnswer(server, url)(file) == Returned(false);
    AnsweredFalse(limit, HeadAnswer(server, url), paths, file);
  }

  /** Unlike `get_files`, `files_exist` does not capture a client error: one such path makes the whole call raise. */
  lemma FilesExistClientErrorRaises(limit: nat, server: Server, url: string -> string, paths: seq<string>, file: string)
    requires limit > 0 && file in paths
    requires server(HEAD, url(file), 0).kind == ClientFailure
    ensures FilesExistResult(limit, HeadAnswer(server, url), paths).Err?
  {
    assert HeadAnswer(server, url)(file).Raised?;
    AnswerRaises(limit, HeadAnswer(server, url), paths, file);
  }
}
