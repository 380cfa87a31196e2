/** The language-model client (`claudeService.ts`): the rate-limit gate, the
    request/response round trip with usage accounting and connection status,
    the extraction of the reply text, and the framing of a streamed reply
    into `data: ` lines.

    What the network and the platform answer is a parameter: the key from
    the system keyring (`None` when it cannot be read), the HTTP response
    or the message of the error `fetch` threw, the decoded chunks of a
    streamed body, and the reading of one stream payload as an event. The
    clock is `now` and the day `today`. */
module ClaudeService {
  import opened Wrappers
  import opened Text
  import Settings
  import opened RateLimiter

  datatype ContentBlock = ContentBlock(blockType: string, text: Option<string>)

  datatype Usage = Usage(inputTokens: int, outputTokens: int)

  /** A finished HTTP response as the client reads it: for an error, the
      message of the error object in the body, if any; for a success, the
      content blocks and the usage. */
  datatype HttpResponse = HttpResponse(
    ok: bool,
    status: nat,
    errorMessage: Option<string>,
    content: seq<ContentBlock>,
    usage: Option<Usage>)

  /** The client's view of the world: the settings store and the limiter. */
  datatype Env = Env(settings: Settings.State, limiter: Limiter)

  const KeyMissing := "API key not configured"
  const RateLimitDefault := "Rate limit exceeded"
  const BodyNotReadable := "Response body is not readable"

  // ---------------------------------------------------------------- reply text

  /** The texts of the `text` blocks, in order; a missing text is empty. */
  function TextsOf(blocks: seq<ContentBlock>): (r: seq<string>)
    ensures |r| <= |blocks|
  {
    if |blocks| == 0 then []
    else
      var rest := TextsOf(blocks[1..]);
      if blocks[0].blockType == "text" then [blocks[0].text.GetOr("")] + rest else rest
  }

  /** A block's contribution, and the blocks' texts as the concatenation
      of the contributions. */
  function TextOf(b: ContentBlock): seq<string>
  {
    if b.blockType == "text" then [b.text.GetOr("")] else []
  }

  lemma {:induction false} TextsOfAppend(a: seq<ContentBlock>, b: seq<ContentBlock>)
    ensures TextsOf(a + b) == TextsOf(a) + TextsOf(b)
    decreases |a|
  {
    if |a| == 0 {
      assert a + b == b;
    } else {
      assert (a + b)[1..] == a[1..] + b;
      TextsOfAppend(a[1..], b);
    }
  }

  /** Blocks of other types contribute nothing; each text block contributes
      its text at its place. */
  lemma TextsOfBlock(pre: seq<ContentBlock>, b: ContentBlock, post: seq<ContentBlock>)
    ensures TextsOf(pre + [b] + post) == TextsOf(pre) + TextOf(b) + TextsOf(post)
  {
    TextsOfAppend(pre + [b], post);
    TextsOfAppend(pre, [b]);
  }

  /** The reply: the texts of the `text` blocks joined by newlines. */
  function ExtractText(blocks: seq<ContentBlock>): string
  {
    Join(TextsOf(blocks), "\n")
  }

  /** When there is a text block and no text holds a newline, splitting the
      reply on newlines gives back the block texts. */
  lemma ExtractTextSplit(blocks: seq<ContentBlock>)
    requires |TextsOf(blocks)| >= 1
    requires forall i :: 0 <= i < |TextsOf(blocks)| ==> '\n' !in TextsOf(blocks)[i]
    ensures Split(ExtractText(blocks), '\n') == TextsOf(blocks)
  {
    JoinSplit(TextsOf(blocks), '\n');
  }

  // ---------------------------------------------------------------- sendMessage

  /** The message a failed response is thrown with. */
  function ErrorText(resp: HttpResponse): (r: string)
    ensures resp.errorMessage.Some? && resp.errorMessage.value != "" ==> r == resp.errorMessage.value
    ensures resp.errorMessage.None? || resp.errorMessage.value == "" ==> r == "API error: " + NatToString(resp.status)
  {
    match resp.errorMessage
    case Some(m) => if m != "" then m else "API error: " + NatToString(resp.status)
    case None => "API error: " + NatToString(resp.status)
  }

  /** The message a refusal of the gate is thrown with. */
  function RefusalText(reason: string): string
  {
    if reason != "" then reason else RateLimitDefault
  }

  /** The `catch` of the request: the connection is marked down with the
      error's message, which is rethrown. */
  function Fail(env: Env, msg: string): (r: (Env, Result<string, string>))
    ensures r.1 == Failure(msg) && r.0.limiter == env.limiter && !r.0.settings.isConnected
  {
    (env.(settings := Settings.SetConnectionStatus(env.settings, false, Some(msg))), Failure(msg))
  }

  /** `sendMessage`: the reply text, or the message of the error thrown. */
  function SendMessage(env: Env, now: int, today: string, apiKey: Option<string>, response: Result<HttpResponse, string>)
    : (r: (Env, Result<string, string>))
  {
    var s := env.settings;
    var (l1, info) := CheckRateLimit(env.limiter, s.rateLimits, s.apiUsage.totalTokens, now, today);
    if info.Refused? then (env.(limiter := l1), Failure(RefusalText(info.reason)))
    else if apiKey.None? then Fail(env.(limiter := l1), KeyMissing)
    else
      var l2 := RecordRequest(l1, now);
      match response
      case Failure(msg) => Fail(Env(s, l2), msg)
      case Success(resp) =>
        if !resp.ok then Fail(Env(s, l2), ErrorText(resp))
        else
          var s1 := if resp.usage.Some? then Settings.UpdateApiUsage(s, resp.usage.value.inputTokens + resp.usage.value.outputTokens, today) else s;
          (Env(Settings.SetConnectionStatus(s1, true, None), l2), Success(ExtractText(resp.content)))
  }

  /** The gate: a refused request fails with the limiter's reason, records
      no request and leaves the settings, including the connection status,
      alone. */
  lemma SendMessageRefused(env: Env, now: int, today: string, apiKey: Option<string>, response: Result<HttpResponse, string>)
    requires CheckRateLimit(env.limiter, env.settings.rateLimits, env.settings.apiUsage.totalTokens, now, today).1.Refused?
    ensures var check := CheckRateLimit(env.limiter, env.settings.rateLimits, env.settings.apiUsage.totalTokens, now, today);
      var r := SendMessage(env, now, today, apiKey, response);
      && r.1 == Failure(RefusalText(check.1.reason))
      && r.0 == env.(limiter := check.0)
  {
  }

  /** Past the gate: without a key the call fails before any request is
      recorded; with one, exactly one request is recorded at `now`. Every
      failure marks the connection down with its message; a success marks
      it up with no error, returns the reply text, and adds the response's
      input and output tokens to the day's usage. */
  lemma SendMessageOutcome(env: Env, now: int, today: string, apiKey: Option<string>, response: Result<HttpResponse, string>)
    requires CheckRateLimit(env.limiter, env.settings.rateLimits, env.settings.apiUsage.totalTokens, now, today).1.Proceed?
    ensures var l1 := CheckRateLimit(env.limiter, env.settings.rateLimits, env.settings.apiUsage.totalTokens, now, today).0;
      var r := SendMessage(env, now, today, apiKey, response);
      && (apiKey.None? ==> r.1 == Failure(KeyMissing) && r.0.limiter == l1)
      && (apiKey.Some? ==> r.0.limiter == RecordRequest(l1, now))
      && (r.1.Failure? ==> !r.0.settings.isConnected && r.0.settings.apiUsage == env.settings.apiUsage
                           && (r.1.error != "" ==> r.0.settings.connectionError == Some(r.1.error)))
      && (apiKey.Some? && response.Failure? ==> r.1 == Failure(response.error))
      && (apiKey.Some? && response.Success? && !response.value.ok ==> r.1 == Failure(ErrorText(response.value)))
      && (r.1.Success? <==> apiKey.Some? && response.Success? && response.value.ok)
      && (r.1.Success? ==>
            && r.1.value == ExtractText(response.value.content)
            && r.0.settings.isConnected && r.0.settings.connectionError.None?
            && (response.value.usage.Some? ==>
                  r.0.settings.apiUsage == Settings.UpdateApiUsage(env.settings,
                    response.value.usage.value.inputTokens + response.value.usage.value.outputTokens, today).apiUsage)
            && (response.value.usage.None? ==> r.0.settings.apiUsage == env.settings.apiUsage))
  {
  }

  // ---------------------------------------------------------------- streaming

  /** One decoded buffer-full: `buffer.split('\n')`, the last piece kept as
      the new buffer and the others handed on as complete lines. */
  function Feed(buffer: string, chunk: string): (r: (seq<string>, string))
    ensures '\n' !in r.1
    ensures forall i :: 0 <= i < |r.0| ==> '\n' !in r.0[i]
  {
    var parts := Split(buffer + chunk, '\n');
    (parts[..|parts| - 1], parts[|parts| - 1])
  }

  /** Framing loses nothing: the lines handed on, the newlines between them
      and the kept buffer make up the old buffer and the chunk. */
  lemma FeedFrames(buffer: string, chunk: string)
    ensures Join(Feed(buffer, chunk).0 + [Feed(buffer, chunk).1], "\n") == buffer + chunk
  {
    var parts := Split(buffer + chunk, '\n');
    assert parts[..|parts| - 1] + [parts[|parts| - 1]] == parts;
    SplitJoin(buffer + chunk, '\n');
  }

  /** The part of a stream payload the client looks at, as `JSON.parse` and
      the field accesses read it. A usage object's relevant count may be
      missing; `Unparsable` is a payload `JSON.parse` rejects. */
  datatype StreamUsage = StreamUsage(tokens: Option<int>)

  datatype StreamEvent =
    | BlockDelta(text: Option<string>)
    | MessageStart(usage: Option<StreamUsage>)
    | MessageDelta(usage: Option<StreamUsage>)
    | OtherEvent
    | Unparsable

  /** The reading state of a stream: the partial line, the lines handled so
      far, the text chunks handed to `onChunk`, the running token count,
      the settings, and whether `[DONE]` was seen. */
  datatype Stream = Stream(
    buffer: string,
    seen: seq<string>,
    chunks: seq<string>,
    totalTokens: int,
    settings: Settings.State,
    done: bool)

  const DataPrefix := "data: "
  const DoneMarker := "[DONE]"

  /** The payload of a `data: ` line. */
  function Payload(line: string): string
    requires StartsWith(line, DataPrefix)
  {
    line[|DataPrefix|..]
  }

  /** The text a line hands to `onChunk`, if any. */
  function ChunkOf(line: string, decode: string -> StreamEvent): seq<string>
  {
    if !StartsWith(line, DataPrefix) || Payload(line) == DoneMarker then []
    else match decode(Payload(line))
      case BlockDelta(Some(t)) => if t != "" then [t] else []
      case _ => []
  }

  /** The tokens a line adds to the running count. */
  function TokensOf(line: string, decode: string -> StreamEvent): int
  {
    if !StartsWith(line, DataPrefix) || Payload(line) == DoneMarker then 0
    else match decode(Payload(line))
      case MessageStart(Some(u)) => u.tokens.GetOr(0)
      case MessageDelta(Some(u)) => u.tokens.GetOr(0)
      case _ => 0
  }

  /** One complete line: lines without the `data: ` prefix are ignored;
      `[DONE]` ends the stream; a text delta is handed on; `message_start`
      adds the input tokens; `message_delta` adds the output tokens and
      records the running total as the day's usage. */
  function HandleLine(st: Stream, line: string, decode: string -> StreamEvent, today: string): (r: Stream)
    requires !st.done
  {
    var st1 := st.(seen := st.seen + [line]);
    if !StartsWith(line, DataPrefix) then st1
    else if Payload(line) == DoneMarker then st1.(done := true)
    else match decode(Payload(line))
      case BlockDelta(Some(t)) => if t != "" then st1.(chunks := st.chunks + [t]) else st1
      case MessageStart(Some(u)) => st1.(totalTokens := st.totalTokens + u.tokens.GetOr(0))
      case MessageDelta(Some(u)) =>
        var total := st.totalTokens + u.tokens.GetOr(0);
        st1.(totalTokens := total, settings := Settings.UpdateApiUsage(st.settings, total, today))
      case _ => st1
  }

  /** A `data: ` line whose payload is a `message_delta` carrying `tokens`. */
  predicate IsUsageDelta(line: string, decode: string -> StreamEvent, tokens: int)
  {
    StartsWith(line, DataPrefix) && Payload(line) != DoneMarker
    && decode(Payload(line)) == MessageDelta(Some(StreamUsage(Some(tokens))))
  }

  /** Each `message_delta` records the running total, not its own tokens:
      two deltas of `t1` and `t2` in one day add `t1` and then `t1 + t2`
      (on top of any tokens counted earlier in the stream) to the day's
      usage. */
  lemma UsageDeltasRecountTotal(st: Stream, l1: string, l2: string, decode: string -> StreamEvent,
                                today: string, t1: int, t2: int)
    requires !st.done && st.settings.apiUsage.lastResetDate == today
    requires IsUsageDelta(l1, decode, t1) && IsUsageDelta(l2, decode, t2)
    ensures var st1 := HandleLine(st, l1, decode, today);
      && !st1.done
      && var r := HandleLine(st1, l2, decode, today);
      && r.totalTokens == st.totalTokens + t1 + t2
      && r.settings.apiUsage.totalTokens
         == st.settings.apiUsage.totalTokens + (st.totalTokens + t1) + (st.totalTokens + t1 + t2)
  {
  }

  /** The lines of one buffer-full, in order, until `[DONE]`. */
  function HandleLines(st: Stream, lines: seq<string>, decode: string -> StreamEvent, today: string): (r: Stream)
    decreases |lines|
  {
    if |lines| == 0 || st.done then st
    else HandleLines(HandleLine(st, lines[0], decode, today), lines[1..], decode, today)
  }

  /** The read loop over the decoded chunks of the body. */
  function Pump(st: Stream, body: seq<string>, decode: string -> StreamEvent, today: string): (r: Stream)
    decreases |body|
  {
    if |body| == 0 || st.done then st
    else
      var (lines, rest) := Feed(st.buffer, body[0]);
      Pump(HandleLines(st.(buffer := rest), lines, decode, today), body[1..], decode, today)
  }

  /** All chunks of a body, concatenated. */
  function Concat(body: seq<string>): string
  {
    if |body| == 0 then "" else body[0] + Concat(body[1..])
  }

  /** The chunks and tokens of a run of lines. */
  function ChunksOf(lines: seq<string>, decode: string -> StreamEvent): seq<string>
  {
    if |lines| == 0 then [] else ChunkOf(lines[0], decode) + ChunksOf(lines[1..], decode)
  }

  function SumTokens(lines: seq<string>, decode: string -> StreamEvent): int
  {
    if |lines| == 0 then 0 else TokensOf(lines[0], decode) + SumTokens(lines[1..], decode)
  }

  lemma {:induction false} ChunksOfAppend(a: seq<string>, b: seq<string>, decode: string -> StreamEvent)
    ensures ChunksOf(a + b, decode) == ChunksOf(a, decode) + ChunksOf(b, decode)
    ensures SumTokens(a + b, decode) == SumTokens(a, decode) + SumTokens(b, decode)
    decreases |a|
  {
    if |a| == 0 {
      assert a + b == b;
    } else {
      assert (a + b)[1..] == a[1..] + b;
      ChunksOfAppend(a[1..], b, decode);
    }
  }

  /** What the stream has handed on is determined by the lines it has
      seen: the chunks are those of the seen lines and the count is their
      token sum. */
  ghost predicate Accounted(st: Stream, decode: string -> StreamEvent)
  {
    st.chunks == ChunksOf(st.seen, decode) && st.totalTokens == SumTokens(st.seen, decode)
  }

  lemma HandleLineAccounted(st: Stream, line: string, decode: string -> StreamEvent, today: string)
    requires !st.done && Accounted(st, decode)
    ensures Accounted(HandleLine(st, line, decode, today), decode)
    ensures HandleLine(st, line, decode, today).seen == st.seen + [line]
    ensures HandleLine(st, line, decode, today).buffer == st.buffer
  {
    ChunksOfAppend(st.seen, [line], decode);
    assert ChunksOf([line], decode) == ChunkOf(line, decode);
    assert SumTokens([line], decode) == TokensOf(line, decode);
  }

  lemma HandleLinesUnfold(st: Stream, lines: seq<string>, decode: string -> StreamEvent, today: string)
    requires |lines| > 0 && !st.done
    ensures HandleLines(st, lines, decode, today)
         == HandleLines(HandleLine(st, lines[0], decode, today), lines[1..], decode, today)
  {
  }

  /** Handling a run of lines sees a prefix of them, all of them unless
      `[DONE]` stopped it, and keeps the account. */
  lemma {:induction false} HandleLinesAccounted(st: Stream, lines: seq<string>, decode: string -> StreamEvent, today: string)
    requires Accounted(st, decode)
    ensures var r := HandleLines(st, lines, decode, today);
      && Accounted(r, decode)
      && r.buffer == st.buffer
      && (!r.done ==> r.seen == st.seen + lines)
    decreases |lines|
  {
    if |lines| > 0 && !st.done {
      var st1 := HandleLine(st, lines[0], decode, today);
      HandleLinesUnfold(st, lines, decode, today);
      HandleLineAccounted(st, lines[0], decode, today);
      HandleLinesAccounted(st1, lines[1..], decode, today);
      var r := HandleLines(st1, lines[1..], decode, today);
      if !r.done {
        assert r.seen == st.seen + [lines[0]] + lines[1..];
        assert st.seen + [lines[0]] + lines[1..] == st.seen + lines;
      }
    }
  }

  lemma PumpUnfold(st: Stream, body: seq<string>, decode: string -> StreamEvent, today: string)
    requires |body| > 0 && !st.done
    ensures var f := Feed(st.buffer, body[0]);
      Pump(st, body, decode, today)
      == Pump(HandleLines(st.(buffer := f.1), f.0, decode, today), body[1..], decode, today)
  {
  }

  /** Appending one fed chunk to what has been read: the lines handed on
      extend the seen lines and the new partial line replaces the old. */
  lemma JoinFeed(seen: seq<string>, buffer: string, chunk: string)
    ensures var f := Feed(buffer, chunk);
      Join(seen + f.0 + [f.1], "\n") == Join(seen + [buffer], "\n") + chunk
  {
    var f := Feed(buffer, chunk);
    FeedFrames(buffer, chunk);
    assert seen + f.0 + [f.1] == seen + (f.0 + [f.1]);
    JoinAppend(seen, f.0 + [f.1]);
    JoinAppend(seen, [buffer]);
    assert Join([buffer], "\n") == buffer;
  }

  /** Framing over the whole read loop: unless `[DONE]` stopped it, the
      lines seen, newline-separated, followed by the partial line, are
      exactly what was read; and what was handed on is accounted for by the
      lines seen. */
  lemma {:induction false} PumpFrames(st: Stream, body: seq<string>, decode: string -> StreamEvent, today: string)
    requires Accounted(st, decode) && !st.done
    ensures var r := Pump(st, body, decode, today);
      && Accounted(r, decode)
      && (!r.done ==> Join(r.seen + [r.buffer], "\n") == Join(st.seen + [st.buffer], "\n") + Concat(body))
    decreases |body|
  {
    if |body| > 0 {
      var f := Feed(st.buffer, body[0]);
      var st1 := HandleLines(st.(buffer := f.1), f.0, decode, today);
      PumpUnfold(st, body, decode, today);
      HandleLinesAccounted(st.(buffer := f.1), f.0, decode, today);
      if !st1.done {
        PumpFrames(st1, body[1..], decode, today);
        JoinFeed(st.seen, st.buffer, body[0]);
        assert st1.seen + [st1.buffer] == st.seen + f.0 + [f.1];
      }
    } else {
      assert Concat(body) == "";
    }
  }

  /** Joining two non-empty runs puts one separator between them. */
  lemma {:induction false} JoinAppend(a: seq<string>, b: seq<string>)
    requires |b| >= 1
    ensures Join(a + b, "\n") == Join(a, "\n") + (if |a| == 0 then "" else "\n") + Join(b, "\n")
    decreases |a|
  {
    if |a| == 0 {
      assert a + b == b;
    } else if |a| == 1 {
      assert (a + b)[1..] == b;
    } else {
      assert (a + b)[1..] == a[1..] + b;
      JoinAppend(a[1..], b);
    }
  }

  /** How a stream ends: `onComplete` after `[DONE]`, or the body ran out
      (the connection is marked up but `onComplete` is not called), or
      `onError` with a message. The chunks are what `onChunk` received. */
  datatype StreamOutcome =
    | CompletedStream(chunks: seq<string>)
    | Exhausted(chunks: seq<string>)
    | StreamError(chunks: seq<string>, message: string)

  /** A streamed response: `body` is `None` for a body without a reader and
      otherwise the decoded chunks the reader yields; `readError` is the
      message of a read that rejects after those chunks, if one does. */
  datatype StreamResponse = StreamResponse(ok: bool, status: nat, errorMessage: Option<string>,
                                           body: Option<seq<string>>, readError: Option<string>)

  /** `streamMessage`. */
  function StreamMessage(env: Env, now: int, today: string, apiKey: Option<string>,
                         response: Result<StreamResponse, string>, decode: string -> StreamEvent)
    : (r: (Env, StreamOutcome))
  {
    var s := env.settings;
    var (l1, info) := CheckRateLimit(env.limiter, s.rateLimits, s.apiUsage.totalTokens, now, today);
    if info.Refused? then (env.(limiter := l1), StreamError([], RefusalText(info.reason)))
    else if apiKey.None? then StreamFail(env.(limiter := l1), KeyMissing)
    else
      var l2 := RecordRequest(l1, now);
      match response
      case Failure(msg) => StreamFail(Env(s, l2), msg)
      case Success(resp) =>
        if !resp.ok then StreamFail(Env(s, l2), ErrorText(HttpResponse(resp.ok, resp.status, resp.errorMessage, [], None)))
        else if resp.body.None? then StreamFail(Env(s, l2), BodyNotReadable)
        else
          var st := Pump(Stream("", [], [], 0, s, false), resp.body.value, decode, today);
          if st.done then (Env(st.settings, l2), CompletedStream(st.chunks))
          else if resp.readError.Some? then
            var msg := resp.readError.value;
            (Env(Settings.SetConnectionStatus(st.settings, false, Some(msg)), l2), StreamError(st.chunks, msg))
          else (Env(Settings.SetConnectionStatus(st.settings, true, None), l2), Exhausted(st.chunks))
  }

  function StreamFail(env: Env, msg: string): (r: (Env, StreamOutcome))
    ensures r.1 == StreamError([], msg) && !r.0.settings.isConnected && r.0.limiter == env.limiter
  {
    (env.(settings := Settings.SetConnectionStatus(env.settings, false, Some(msg))), StreamError([], msg))
  }

  /** A streamed reply hands on exactly the non-empty text deltas of the
      lines it read, in order. It completes exactly when `[DONE]` was read;
      otherwise a rejected read reports its message with the chunks already
      handed on and marks the connection down, and a body that simply runs
      out marks the connection up; in both cases the lines read,
      newline-separated, and the discarded partial line make up the whole
      body. */
  lemma StreamMessageReads(env: Env, now: int, today: string, apiKey: Option<string>,
                           resp: StreamResponse, decode: string -> StreamEvent)
    requires CheckRateLimit(env.limiter, env.settings.rateLimits, env.settings.apiUsage.totalTokens, now, today).1.Proceed?
    requires apiKey.Some? && resp.ok && resp.body.Some?
    ensures var r := StreamMessage(env, now, today, apiKey, Success(resp), decode);
      var st := Pump(Stream("", [], [], 0, env.settings, false), resp.body.value, decode, today);
      && (r.1.CompletedStream? <==> st.done)
      && (r.1.StreamError? <==> !st.done && resp.readError.Some?)
      && r.1.chunks == ChunksOf(st.seen, decode)
      && st.totalTokens == SumTokens(st.seen, decode)
      && (!st.done ==> Join(st.seen + [st.buffer], "\n") == Concat(resp.body.value))
      && (r.1.Exhausted? ==> r.0.settings.isConnected)
      && (r.1.StreamError? ==> r.1.message == resp.readError.value && !r.0.settings.isConnected)
  {
    var st0 := Stream("", [], [], 0, env.settings, false);
    assert Join([""], "\n") == "";
    PumpFrames(st0, resp.body.value, decode, today);
  }

  /** Before the body is read, a streamed request fails as a plain one
      does: a refusal reports the limiter's reason and leaves the settings
      alone; a missing key, a failed fetch, an error status or a body
      without a reader reports its message, marks the connection down, and
      hands on no chunk. */
  lemma StreamMessageFails(env: Env, now: int, today: string, apiKey: Option<string>,
                           response: Result<StreamResponse, string>, decode: string -> StreamEvent)
    ensures var check := CheckRateLimit(env.limiter, env.settings.rateLimits, env.settings.apiUsage.totalTokens, now, today);
      var r := StreamMessage(env, now, today, apiKey, response, decode);
      && (check.1.Refused? ==> r == (env.(limiter := check.0), StreamError([], RefusalText(check.1.reason))))
      && (check.1.Proceed? && apiKey.None? ==> r.1 == StreamError([], KeyMissing) && !r.0.settings.isConnected)
      && (check.1.Proceed? && apiKey.Some? && response.Failure? ==>
            r.1 == StreamError([], response.error) && !r.0.settings.isConnected)
      && (check.1.Proceed? && apiKey.Some? && response.Success? && !response.value.ok ==>
            var resp := response.value;
            && r.1 == StreamError([], ErrorText(HttpResponse(false, resp.status, resp.errorMessage, [], None)))
            && !r.0.settings.isConnected)
      && (check.1.Proceed? && apiKey.Some? && response.Success? && response.value.ok && response.value.body.None? ==>
            r.1 == StreamError([], BodyNotReadable) && !r.0.settings.isConnected)
      && (!(check.1.Proceed? && apiKey.Some? && response.Success? && response.value.ok && response.value.body.Some?) ==>
            r.1.StreamError? && r.1.chunks == [] && r.0.settings.apiUsage == env.settings.apiUsage)
  {
  }
}
