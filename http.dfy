/** The `Http` helper: a global log level that gates console messages, the
    error values and their messages, and what `sendRequest` and
    `sendRequestForString` return for each outcome of a request. The transfer
    itself is not modelled: what the session hands to the completion handler
    is an input (`Response`), and so are the URL parser, the JSON decoder and
    the UTF-8 decoder. */
module Http {
  import opened Wrappers

  // ---------------------------------------------------------------------
  // Log levels

  datatype LogLevel = Debug | Warning | Release

  /** The `UInt` raw values. */
  function LevelRaw(l: LogLevel): (r: nat)
    ensures r <= 2
  {
    match l
    case Debug => 0
    case Warning => 1
    case Release => 2
  }

  /** `LogLevel.string`. */
  function LevelString(l: LogLevel): (s: string)
    ensures |s| >= 5 && forall i :: 0 <= i < |s| ==> 'A' <= s[i] <= 'Z'
  {
    match l
    case Debug => "DEBUG"
    case Warning => "WARNING"
    case Release => "RELEASE"
  }

  lemma LevelsOrdered()
    ensures LevelRaw(Debug) < LevelRaw(Warning) < LevelRaw(Release)
    ensures LevelString(Debug) != LevelString(Warning)
    ensures LevelString(Warning) != LevelString(Release)
    ensures LevelString(Debug) != LevelString(Release)
  {
  }

  /** `log` prints a message of level `message` when the configured level is
      `configured`. */
  predicate Prints(message: LogLevel, configured: LogLevel)
    ensures message == Release || configured == Debug ==> Prints(message, configured)
    ensures configured == Release ==> (Prints(message, configured) <==> message == Release)
  {
    LevelRaw(message) >= LevelRaw(configured)
  }

  /** Release messages always print, debug messages only at the debug level,
      and a lower configured level prints everything a higher one prints. */
  lemma PrintsGate(message: LogLevel, configured: LogLevel, lower: LogLevel)
    ensures Prints(Release, configured)
    ensures Prints(Debug, configured) <==> configured == Debug
    ensures Prints(Warning, configured) <==> configured != Release
    ensures LevelRaw(lower) <= LevelRaw(configured) && Prints(message, configured) ==> Prints(message, lower)
  {
  }

  /** The console line `log` prints. */
  function LogLine(level: LogLevel, message: string): (line: string)
    ensures |line| >= |message| + 8 && line[0] == '[' && line[|line| - |message|..] == message
  {
    "[" + LevelString(level) + "] " + message
  }

  // ---------------------------------------------------------------------
  // Methods and errors

  datatype Method = GET | POST | PUT | PATCH | DELETE

  /** The `String` raw values, which spell the case names. */
  function MethodRaw(m: Method): (s: string)
    ensures |s| >= 3 && forall i :: 0 <= i < |s| ==> 'A' <= s[i] <= 'Z'
  {
    match m
    case GET => "GET"
    case POST => "POST"
    case PUT => "PUT"
    case PATCH => "PATCH"
    case DELETE => "DELETE"
  }

  lemma MethodRawInjective(m: Method, n: Method)
    requires MethodRaw(m) == MethodRaw(n)
    ensures m == n
  {
  }

  datatype HttpError =
    | ErrParseURL(verb: Method, url: string)
    | ErrDownloadData(verb: Method, url: string, msg: string)
    | ErrDecodeData(verb: Method, url: string, msg: string)

  /** `Http.Error.message`: every message starts with the method and the
      URL, then a line naming the failure. */
  function Message(e: HttpError): (s: string)
    ensures var head := MethodRaw(e.verb) + ": " + e.url;
      |head| <= |s| && s[..|head|] == head
  {
    var head := MethodRaw(e.verb) + ": " + e.url;
    match e
    case ErrParseURL(_, _) => head + "\n parse URL error, please check your url path"
    case ErrDownloadData(_, _, msg) => head + "\ndownload data error, err: " + msg
    case ErrDecodeData(_, _, msg) => head + "\ndecode json data error, err: " + msg
  }

  // ---------------------------------------------------------------------
  // Completion handler

  /** What the data task hands to its completion handler: the transport
      error (as `String(describing:)` renders it), the status code when the
      response is an `HTTPURLResponse`, and the body. */
  datatype Response = Response(error: Option<string>, status: Option<int>, data: Option<seq<bv8>>)

  /** The triple `sendRequest` returns: the decoded value, the status code
      and the error. */
  datatype Reply<T> = Reply(result: Option<T>, code: Option<int>, err: Option<HttpError>)

  /** A JSON decoder: the value, or the decoding error as text. */
  type Decoder<T> = seq<bv8> -> Result<T, string>

  /** The completion handler of `sendRequest`. Exactly one of `result` and
      `err` is set; a status code is reported exactly when there was no
      transport error and the response was HTTP, and then it is that
      response's code, even if the body is missing or fails to decode. */
  function Complete<T>(verb: Method, path: string, resp: Response, decode: Decoder<T>): (r: Reply<T>)
    ensures r.result.Some? <==> r.err.None?
    ensures r.code.Some? <==> resp.error.None? && resp.status.Some?
    ensures r.code.Some? ==> r.code == resp.status
    ensures r.err.Some? ==> r.err.value.verb == verb && r.err.value.url == path
    ensures r.err.Some? ==> !r.err.value.ErrParseURL?
  {
    if resp.error.Some? then Reply(None, None, Some(ErrDownloadData(verb, path, resp.error.value)))
    else if resp.status.None? then Reply(None, None, Some(ErrDownloadData(verb, path, "network connection error")))
    else if resp.data.None? then Reply(None, resp.status, Some(ErrDownloadData(verb, path, "connection timeout")))
    else match decode(resp.data.value)
      case Success(v) => Reply(Some(v), resp.status, None)
      case Failure(why) => Reply(None, resp.status, Some(ErrDecodeData(verb, path, why)))
  }

  /** A transport error or a non-HTTP response is a download error without
      a status code. */
  lemma CompleteWithoutResponse<T>(verb: Method, path: string, resp: Response, decode: Decoder<T>)
    requires resp.error.Some? || resp.status.None?
    ensures Complete(verb, path, resp, decode).code.None?
    ensures Complete(verb, path, resp, decode).err ==
      Some(ErrDownloadData(verb, path, if resp.error.Some? then resp.error.value else "network connection error"))
  {
  }

  /** With an HTTP response, a missing body is a "connection timeout"
      download error and a body that does not decode is a decode error,
      both carrying the status code. */
  lemma CompleteWithResponse<T>(verb: Method, path: string, resp: Response, decode: Decoder<T>)
    requires resp.error.None? && resp.status.Some?
    ensures resp.data.None? ==>
      Complete(verb, path, resp, decode) == Reply(None, resp.status, Some(ErrDownloadData(verb, path, "connection timeout")))
    ensures resp.data.Some? && decode(resp.data.value).Failure? ==>
      Complete(verb, path, resp, decode) == Reply(None, resp.status, Some(ErrDecodeData(verb, path, decode(resp.data.value).error)))
    ensures resp.data.Some? && decode(resp.data.value).Success? ==>
      Complete(verb, path, resp, decode) == Reply(Some(decode(resp.data.value).value), resp.status, None)
  {
  }

  /** The triple `sendRequestForString` returns. */
  datatype TextReply = TextReply(body: string, code: Option<int>, err: Option<HttpError>)

  /** The completion handler of `sendRequestForString`: the same branches
      without decoding; the body is the UTF-8 text of the data unless
      `ignoreBody` is set, in which case it is empty but the status code is
      still reported. */
  function CompleteForString(verb: Method, path: string, resp: Response, ignoreBody: bool, utf8: seq<bv8> -> string): (r: TextReply)
    ensures r.code.Some? <==> resp.error.None? && resp.status.Some?
    ensures r.code.Some? ==> r.code == resp.status
    ensures r.err.None? <==> r.code.Some? && resp.data.Some?
    ensures r.body != "" ==> r.err.None? && !ignoreBody && r.body == utf8(resp.data.value)
    ensures r.err.None? && !ignoreBody ==> r.body == utf8(resp.data.value)
  {
    if resp.error.Some? then TextReply("", None, Some(ErrDownloadData(verb, path, resp.error.value)))
    else if resp.status.None? then TextReply("", None, Some(ErrDownloadData(verb, path, "network connection error")))
    else if resp.data.None? then TextReply("", resp.status, Some(ErrDownloadData(verb, path, "connection timeout")))
    else TextReply(if ignoreBody then "" else utf8(resp.data.value), resp.status, None)
  }

  /** The string variant fails exactly as `sendRequest` does: the same
      error for a transport failure, a non-HTTP response and a missing body,
      and the same status code, whatever the decoder would have done. */
  lemma CompleteForStringAgrees(verb: Method, path: string, resp: Response, ignoreBody: bool, utf8: seq<bv8> -> string)
    ensures var ok: Decoder<int> := (d: seq<bv8>) => Success(0);
      && CompleteForString(verb, path, resp, ignoreBody, utf8).code == Complete(verb, path, resp, ok).code
      && CompleteForString(verb, path, resp, ignoreBody, utf8).err == Complete(verb, path, resp, ok).err
  {
  }

  // ---------------------------------------------------------------------
  // Decimal rendering of `Int` in interpolations

  function DigitChar(d: nat): char
    requires d < 10
  {
    "0123456789"[d]
  }

  function NatToString(n: nat): (s: string)
    ensures |s| >= 1
    ensures forall i :: 0 <= i < |s| ==> '0' <= s[i] <= '9'
  {
    if n < 10 then [DigitChar(n)] else NatToString(n / 10) + [DigitChar(n % 10)]
  }

  // ---------------------------------------------------------------------
  // What the requests log

  /** The console lines a configured level lets through, out of
      `(level, message)` pairs logged in order. */
  function Gate(entries: seq<(LogLevel, string)>, configured: LogLevel): (lines: seq<string>)
    ensures |lines| <= |entries|
    ensures configured == Debug ==> |lines| == |entries|
  {
    if entries == [] then []
    else
      var last := entries[|entries| - 1];
      Gate(entries[..|entries| - 1], configured)
        + (if Prints(last.0, configured) then [LogLine(last.0, last.1)] else [])
  }

  /** At the release level nothing but release messages reaches the
      console. */
  lemma {:induction false} GateAtRelease(entries: seq<(LogLevel, string)>)
    requires forall i :: 0 <= i < |entries| ==> entries[i].0 != Release
    ensures Gate(entries, Release) == []
  {
    if entries != [] {
      GateAtRelease(entries[..|entries| - 1]);
    }
  }

  const ParseFailure: string := "sendRequest: failed to generate url from string: "

  /** The `(level, message)` pairs a request that reached the server with a
      body logs before decoding. */
  function DownloadLog(verb: Method, path: string, data: seq<bv8>): seq<(LogLevel, string)> {
    [(Warning, "sendRequest: " + MethodRaw(verb) + " " + path),
     (Warning, "sendRequest: complete download, data length: " + NatToString(|data|))]
  }

  /** The body, logged at debug level. */
  function BodyEntry(data: seq<bv8>, utf8: seq<bv8> -> string): (LogLevel, string) {
    (Debug, "sendRequest: response body: \n" + utf8(data))
  }

  /** Whether the completion handler gets past the three guards. */
  predicate Downloaded(resp: Response) {
    resp.error.None? && resp.status.Some? && resp.data.Some?
  }

  /** The pairs `sendRequest` logs, in order: one warning for a URL that
      does not parse, nothing when the download fails, and otherwise at
      most four lines, none of them at release level. */
  function SendRequestLog<T>(verb: Method, path: string, urlParses: bool, resp: Response,
                             decode: Decoder<T>, utf8: seq<bv8> -> string): (log: seq<(LogLevel, string)>)
    ensures !urlParses ==> log == [(Warning, ParseFailure + path)]
    ensures urlParses && !Downloaded(resp) ==> log == []
    ensures urlParses && Downloaded(resp) ==> 3 <= |log| <= 4 && log[2].0 == Debug
    ensures forall i :: 0 <= i < |log| ==> log[i].0 != Release
  {
    if !urlParses then [(Warning, ParseFailure + path)]
    else if !Downloaded(resp) then []
    else
      var data := resp.data.value;
      DownloadLog(verb, path, data) + [BodyEntry(data, utf8)]
        + (if decode(data).Failure? then [(Warning, "sendRequest: decode data error, " + decode(data).error)] else [])
  }

  /** The pairs `sendRequestForString` logs, in order: those of
      `sendRequest` without the decoding warning. */
  function SendRequestForStringLog(verb: Method, path: string, urlParses: bool, resp: Response,
                                   utf8: seq<bv8> -> string): (log: seq<(LogLevel, string)>)
    ensures !urlParses ==> log == [(Warning, ParseFailure + path)]
    ensures urlParses && !Downloaded(resp) ==> log == []
    ensures urlParses && Downloaded(resp) ==> |log| == 3 && log[2].0 == Debug
    ensures forall i :: 0 <= i < |log| ==> log[i].0 != Release
  {
    if !urlParses then [(Warning, ParseFailure + path)]
    else if !Downloaded(resp) then []
    else
      var data := resp.data.value;
      DownloadLog(verb, path, data) + [BodyEntry(data, utf8)]
  }

  /** The requests log only at warning and debug level, so at the release
      level they print nothing, and at the debug level they print every
      line. */
  lemma RequestLogsAtLevel<T>(verb: Method, path: string, urlParses: bool, resp: Response,
                              decode: Decoder<T>, utf8: seq<bv8> -> string)
    ensures Gate(SendRequestLog(verb, path, urlParses, resp, decode, utf8), Release) == []
    ensures Gate(SendRequestForStringLog(verb, path, urlParses, resp, utf8), Release) == []
    ensures |Gate(SendRequestLog(verb, path, urlParses, resp, decode, utf8), Debug)|
         == |SendRequestLog(verb, path, urlParses, resp, decode, utf8)|
  {
    GateAtRelease(SendRequestLog(verb, path, urlParses, resp, decode, utf8));
    GateAtRelease(SendRequestForStringLog(verb, path, urlParses, resp, utf8));
  }

  // ---------------------------------------------------------------------
  // The global state

  /** The static state of `Http`: the configured level (`Http.level`) and
      the lines printed to the console so far. */
  class HttpState {
    var level: LogLevel
    var console: seq<string>

    /** The initial level: debug in a debug build, release otherwise. */
    constructor (debugBuild: bool)
      ensures level == (if debugBuild then Debug else Release)
      ensures console == []
    {
      level := if debugBuild then Debug else Release;
      console := [];
    }

    method SetLogLevel(l: LogLevel)
      modifies this
      ensures level == l && console == old(console)
    {
      level := l;
    }

    method GetLogLevel() returns (l: LogLevel)
      ensures l == level
    {
      l := level;
    }

    /** `log(level:_:)`: the line is printed when the message's level is at
        or above the configured one. */
    method Log(messageLevel: LogLevel, message: string)
      modifies this
      ensures level == old(level)
      ensures console == old(console) + Gate([(messageLevel, message)], level)
    {
      if LevelRaw(messageLevel) >= LevelRaw(level) {
        console := console + [LogLine(messageLevel, message)];
      }
    }

    /** `warn(_:)`. */
    method Warn(message: string)
      modifies this
      ensures level == old(level)
      ensures console == old(console) + Gate([(Warning, message)], level)
    {
      Log(Warning, message);
    }

    /** `debug(_:)`. */
    method DebugLog(message: string)
      modifies this
      ensures level == old(level)
      ensures console == old(console) + Gate([(Debug, message)], level)
    {
      Log(Debug, message);
    }

    /** Logging one more pair extends the gated lines by that pair's. */
    static lemma GateSnoc(entries: seq<(LogLevel, string)>, e: (LogLevel, string), configured: LogLevel)
      ensures Gate(entries + [e], configured) == Gate(entries, configured) + Gate([e], configured)
    {
      assert (entries + [e])[..|entries|] == entries;
    }

    /** The three lines both requests log once a body has arrived: the
        request, the body length and (at debug level) the body. */
    method LogDownload(verb: Method, path: string, data: seq<bv8>, utf8: seq<bv8> -> string)
      modifies this
      ensures level == old(level)
      ensures console == old(console) + Gate(DownloadLog(verb, path, data) + [BodyEntry(data, utf8)], level)
    {
      var log := DownloadLog(verb, path, data);
      Warn(log[0].1);
      Warn(log[1].1);
      DebugLog(BodyEntry(data, utf8).1);
      GateSnoc([log[0]], log[1], level);
      GateSnoc(log, BodyEntry(data, utf8), level);
      assert [log[0], log[1]] == log;
    }

    /** `sendRequest`. An unparsable URL returns the parse error before
        anything is sent. With a streaming publisher the triple is empty and
        the lines arrive on the publisher (not modelled). Otherwise the
        completion handler's triple is returned, and the request, the body
        length, the body and any decoding error are logged. */
    method SendRequest<T>(verb: Method, path: string, urlParses: bool, streaming: bool, resp: Response,
                          decode: Decoder<T>, utf8: seq<bv8> -> string)
      returns (reply: Reply<T>)
      modifies this
      ensures level == old(level)
      ensures !urlParses ==> reply == Reply(None, None, Some(ErrParseURL(verb, path)))
      ensures urlParses && streaming ==> reply == Reply(None, None, None) && console == old(console)
      ensures urlParses && !streaming ==> reply == Complete(verb, path, resp, decode)
      ensures !(urlParses && streaming) ==>
        console == old(console) + Gate(SendRequestLog(verb, path, urlParses, resp, decode, utf8), level)
    {
      if !urlParses {
        Warn(ParseFailure + path);
        return Reply(None, None, Some(ErrParseURL(verb, path)));
      }
      if streaming {
        return Reply(None, None, None);
      }
      reply := Complete(verb, path, resp, decode);
      if Downloaded(resp) {
        var data := resp.data.value;
        LogDownload(verb, path, data, utf8);
        var entries := DownloadLog(verb, path, data) + [BodyEntry(data, utf8)];
        if decode(data).Failure? {
          var failure := (Warning, "sendRequest: decode data error, " + decode(data).error);
          Warn(failure.1);
          GateSnoc(entries, failure, level);
          assert SendRequestLog(verb, path, urlParses, resp, decode, utf8) == entries + [failure];
        } else {
          assert SendRequestLog(verb, path, urlParses, resp, decode, utf8) == entries;
        }
      }
    }

    /** `sendRequestForString`, with the same guards; the status code is
        reported even when `ignoreBody` drops the body. */
    method SendRequestForString(verb: Method, path: string, urlParses: bool, streaming: bool, ignoreBody: bool,
                                resp: Response, utf8: seq<bv8> -> string)
      returns (reply: TextReply)
      modifies this
      ensures level == old(level)
      ensures !urlParses ==> reply == TextReply("", None, Some(ErrParseURL(verb, path)))
      ensures urlParses && streaming ==> reply == TextReply("", None, None) && console == old(console)
      ensures urlParses && !streaming ==> reply == CompleteForString(verb, path, resp, ignoreBody, utf8)
      ensures !(urlParses && streaming) ==>
        console == old(console) + Gate(SendRequestForStringLog(verb, path, urlParses, resp, utf8), level)
    {
      if !urlParses {
        Warn(ParseFailure + path);
        return TextReply("", None, Some(ErrParseURL(verb, path)));
      }
      if streaming {
        return TextReply("", None, None);
      }
      reply := CompleteForString(verb, path, resp, ignoreBody, utf8);
      if Downloaded(resp) {
        LogDownload(verb, path, resp.data.value, utf8);
      }
    }
  }
}
