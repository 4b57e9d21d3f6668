/**
 * The streaming client of `createSSEStream`: it builds one fetch request, then reads the
 * response body as decoded text chunks, frames them into lines on '\n' with a carry-over
 * buffer, and turns every complete `data: ` line into at most one callback. The callbacks
 * are recorded as a trace of events in the order they fire.
 */
module Sse {
  import opened Wrappers
  import opened Js
  import opened Text

  const DataPrefix: string := "data: "
  const DoneMarker: string := "[DONE]"
  const Newline: char := '\n'

  datatype HttpMethod = Get | Post

  /** The caller's options; `method` and `data` may be left undefined. */
  datatype Options = Options(url: string, verb: Option<HttpMethod>, data: Option<Js.Value>)

  /** What is handed to `fetch`; `body` is the value given to `JSON.stringify`. */
  datatype FetchRequest = FetchRequest(url: string, verb: HttpMethod, headers: map<string, string>, body: Option<Js.Value>)

  /** How the body reader stops: `done`, or a rejected `read()`. */
  datatype Ending = EndOfStream | ReadError

  /** The decoded text chunks the reader yields, then how it stops. */
  datatype StreamBody = StreamBody(chunks: seq<string>, ending: Ending)

  /** The settled `fetch`: rejected, or a response with its status and, when supported, a readable body. */
  datatype FetchResult = NetworkFailure | Response(ok: bool, status: int, body: Option<StreamBody>)

  /** Why `onError` was called. */
  datatype Failure = FetchRejected | HttpStatus(status: int) | StreamUnsupported | ReadFailed

  /** One callback invocation: `onMessage(content)`, `onComplete()` or `onError(cause)`. */
  datatype Event = Message(content: Js.Value) | Complete | Error(cause: Failure)

  /** The controller returned to the caller: one that cancels the reader, or one whose `cancel` does nothing. */
  datatype Controller = NoOpController | ReaderController

  /** The part of the body reader's state that `cancel` touches. */
  datatype ReaderState = ReaderState(cancelled: bool, locked: bool)

  /** What one complete line causes. */
  datatype Action = Forward(content: Js.Value) | Ignore | Finish

  /** The callbacks fired for a run of lines, and whether a `[DONE]` line stopped the run. */
  datatype Dispatch = Dispatch(events: seq<Event>, stopped: bool)

  /** The dispatch rule for one complete line. */
  function LineAction(line: string, parse: string -> Option<Js.Value>): (a: Action)
    ensures !StartsWith(line, DataPrefix) ==> a == Ignore
    ensures a == Finish <==> StartsWith(line, DataPrefix) && Trim(line[|DataPrefix|..]) == DoneMarker
    ensures a.Forward? ==> Js.Truthy(a.content)
    ensures a.Forward? ==> StartsWith(line, DataPrefix)
    ensures StartsWith(line, DataPrefix) && Trim(line[|DataPrefix|..]) != DoneMarker &&
            parse(line[|DataPrefix|..]).None? && Trim(line[|DataPrefix|..]) != "" ==>
            a == Forward(JString(line[|DataPrefix|..]))
  {
    if !StartsWith(line, DataPrefix) then Ignore
    else
      var data := line[|DataPrefix|..];
      if Trim(data) == DoneMarker then Finish else PayloadAction(data, parse(data))
  }

  /** What a `data: ` payload other than `[DONE]` causes, given what `JSON.parse` made of it. */
  function PayloadAction(data: string, parsed: Option<Js.Value>): (a: Action)
    ensures a != Finish
    ensures a.Forward? ==> Js.Truthy(a.content)
  {
    match parsed
    case Some(JObject(m)) =>
      if "content" in m && Js.Truthy(m["content"]) then Forward(m["content"]) else Ignore
    // reading `.content` of null throws, and the catch block forwards the raw text
    case Some(JNull) => if Trim(data) != "" then Forward(Js.JString(data)) else Ignore
    case Some(_) => Ignore
    case None => if Trim(data) != "" then Forward(Js.JString(data)) else Ignore
  }

  /** A `data: ` line whose payload is not `[DONE]` and parses as a JSON object forwards its `content` when truthy, and nothing otherwise. */
  lemma ObjectPayload(line: string, parse: string -> Option<Js.Value>, m: map<string, Js.Value>)
    requires StartsWith(line, DataPrefix) && Trim(line[|DataPrefix|..]) != DoneMarker
    requires parse(line[|DataPrefix|..]) == Some(JObject(m))
    ensures LineAction(line, parse) == (if "content" in m && Js.Truthy(m["content"]) then Forward(m["content"]) else Ignore)
  {
  }

  /** A payload that parses as JSON other than an object or `null` is dropped (or is `[DONE]`). */
  lemma OtherJsonPayloadDropped(line: string, parse: string -> Option<Js.Value>)
    requires StartsWith(line, DataPrefix) && Trim(line[|DataPrefix|..]) != DoneMarker
    requires parse(line[|DataPrefix|..]).Some?
    requires !parse(line[|DataPrefix|..]).value.JObject? && !parse(line[|DataPrefix|..]).value.JNull?
    ensures LineAction(line, parse) == Ignore
  {
  }

  /** A blank payload that does not parse is dropped. */
  lemma BlankPayloadDropped(line: string, parse: string -> Option<Js.Value>)
    requires StartsWith(line, DataPrefix)
    requires parse(line[|DataPrefix|..]).None? && Trim(line[|DataPrefix|..]) == ""
    ensures LineAction(line, parse) == Ignore
  {
  }

  /** The callbacks fired for a run of complete lines, processed in order until a `[DONE]` line. */
  function DispatchLines(lines: seq<string>, parse: string -> Option<Js.Value>): Dispatch
  {
    if |lines| == 0 then Dispatch([], false)
    else
      match LineAction(lines[0], parse)
      case Finish => Dispatch([Complete], true)
      case Ignore => DispatchLines(lines[1..], parse)
      case Forward(v) =>
        var rest := DispatchLines(lines[1..], parse);
        Dispatch([Message(v)] + rest.events, rest.stopped)
  }

  /** The callback fired when the reader stops without a `[DONE]` line. */
  function EndEvent(ending: Ending): Event {
    match ending
    case EndOfStream => Complete
    case ReadError => Error(ReadFailed)
  }

  /** The whole trace for a body whose decoded text is `received`. */
  function StreamOutcome(received: string, ending: Ending, parse: string -> Option<Js.Value>): seq<Event>
  {
    var d := DispatchLines(CompleteLines(received, Newline), parse);
    if d.stopped then d.events else d.events + [EndEvent(ending)]
  }

  /** All chunks received, in order. */
  function Concat(chunks: seq<string>): string
  {
    if |chunks| == 0 then "" else Concat(chunks[..|chunks| - 1]) + chunks[|chunks| - 1]
  }

  lemma {:induction false} ConcatAppend(a: seq<string>, b: seq<string>)
    ensures Concat(a + b) == Concat(a) + Concat(b)
    decreases |b|
  {
    if |b| == 0 {
      assert a + b == a;
    } else {
      var init := b[..|b| - 1];
      assert (a + b)[..|a + b| - 1] == a + init;
      assert (a + b)[|a + b| - 1] == b[|b| - 1];
      ConcatAppend(a, init);
      assert Concat(b) == Concat(init) + b[|b| - 1];
    }
  }

  /** Splitting a run of lines into two: the second part is dispatched only if the first did not stop. */
  lemma {:induction false} DispatchAppend(a: seq<string>, b: seq<string>, parse: string -> Option<Js.Value>)
    ensures DispatchLines(a + b, parse) ==
      var da := DispatchLines(a, parse);
      if da.stopped then da
      else var db := DispatchLines(b, parse); Dispatch(da.events + db.events, db.stopped)
    decreases |a|
  {
    if |a| == 0 {
      assert a + b == b;
    } else {
      assert (a + b)[0] == a[0];
      assert (a + b)[1..] == a[1..] + b;
      DispatchAppend(a[1..], b, parse);
    }
  }

  /** Every event of a run is a message, except a final `Complete` when a `[DONE]` line stopped it. */
  lemma {:induction false} DispatchShape(lines: seq<string>, parse: string -> Option<Js.Value>)
    ensures var d := DispatchLines(lines, parse);
      (d.stopped ==> |d.events| >= 1 && d.events[|d.events| - 1] == Complete) &&
      (forall i :: 0 <= i < |d.events| && !(d.stopped && i == |d.events| - 1) ==> d.events[i].Message?)
    decreases |lines|
  {
    if |lines| > 0 {
      DispatchShape(lines[1..], parse);
      var rest := DispatchLines(lines[1..], parse);
      match LineAction(lines[0], parse)
      case Finish =>
        assert DispatchLines(lines, parse).events == [Complete];
      case Ignore =>
        assert DispatchLines(lines, parse) == rest;
      case Forward(v) =>
        var d := DispatchLines(lines, parse);
        assert d.events == [Message(v)] + rest.events && d.stopped == rest.stopped;
        forall i | 0 <= i < |d.events| && !(d.stopped && i == |d.events| - 1)
          ensures d.events[i].Message?
        {
          if i > 0 {
            assert d.events[i] == rest.events[i - 1];
          }
        }
    }
  }

  /**
   * Exactly one terminal callback fires, as the last event: `onComplete` or `onError`;
   * everything before it is `onMessage`, and every forwarded content is truthy.
   */
  lemma StreamOutcomeShape(received: string, ending: Ending, parse: string -> Option<Js.Value>)
    ensures var events := StreamOutcome(received, ending, parse);
      && |events| >= 1
      && (events[|events| - 1] == Complete || events[|events| - 1].Error?)
      && (forall i :: 0 <= i < |events| - 1 ==> events[i].Message?)
  {
    DispatchShape(CompleteLines(received, Newline), parse);
  }

  /** Every `onMessage` in a trace receives truthy content. */
  predicate MessagesTruthy(events: seq<Event>) {
    forall i :: 0 <= i < |events| && events[i].Message? ==> Js.Truthy(events[i].content)
  }

  /** Every message forwarded by a run of lines carries truthy content. */
  lemma {:induction false} ForwardedContentTruthy(lines: seq<string>, parse: string -> Option<Js.Value>)
    ensures MessagesTruthy(DispatchLines(lines, parse).events)
    decreases |lines|
  {
    if |lines| > 0 {
      ForwardedContentTruthy(lines[1..], parse);
      var rest := DispatchLines(lines[1..], parse).events;
      match LineAction(lines[0], parse)
      case Finish =>
      case Ignore =>
      case Forward(v) =>
        var events := [Message(v)] + rest;
        forall i | 0 <= i < |events| && events[i].Message?
          ensures Js.Truthy(events[i].content)
        {
          if i > 0 {
            assert events[i] == rest[i - 1];
          }
        }
    }
  }

  /** `onMessage` is never called with falsy content, however the stream is cut. */
  lemma StreamMessagesTruthy(received: string, ending: Ending, parse: string -> Option<Js.Value>)
    ensures MessagesTruthy(StreamOutcome(received, ending, parse))
  {
    var events := DispatchLines(CompleteLines(received, Newline), parse).events;
    ForwardedContentTruthy(CompleteLines(received, Newline), parse);
    assert forall i :: 0 <= i < |events| ==> (events + [EndEvent(ending)])[i] == events[i];
  }

  /** A `[DONE]` line yields one `Complete` and nothing after it is dispatched. */
  lemma DoneStops(before: seq<string>, line: string, after: seq<string>, parse: string -> Option<Js.Value>)
    requires !DispatchLines(before, parse).stopped
    requires StartsWith(line, DataPrefix) && Trim(line[|DataPrefix|..]) == DoneMarker
    ensures DispatchLines(before + [line] + after, parse) ==
      Dispatch(DispatchLines(before, parse).events + [Complete], true)
  {
    DispatchAppend(before + [line], after, parse);
    DispatchAppend(before, [line], parse);
  }

  /** The lines that start with the `data: ` prefix, in order. */
  function DataLines(lines: seq<string>): (r: seq<string>)
    ensures forall l :: l in r ==> l in lines && StartsWith(l, DataPrefix)
  {
    if |lines| == 0 then []
    else
      assert forall l :: l in lines[1..] ==> l in lines;
      (if StartsWith(lines[0], DataPrefix) then [lines[0]] else []) + DataLines(lines[1..])
  }

  /** Lines without the `data: ` prefix have no effect at all. */
  lemma {:induction false} OnlyDataLinesDispatched(lines: seq<string>, parse: string -> Option<Js.Value>)
    ensures DispatchLines(lines, parse) == DispatchLines(DataLines(lines), parse)
    decreases |lines|
  {
    if |lines| > 0 {
      OnlyDataLinesDispatched(lines[1..], parse);
      if StartsWith(lines[0], DataPrefix) {
        assert DataLines(lines) == [lines[0]] + DataLines(lines[1..]);
        assert ([lines[0]] + DataLines(lines[1..]))[1..] == DataLines(lines[1..]);
      } else {
        assert DataLines(lines) == DataLines(lines[1..]);
      }
    }
  }

  /** Text after the last '\n' is never dispatched: appending an unterminated tail changes nothing. */
  lemma UnterminatedTailIgnored(lines: seq<string>, tail: string, ending: Ending, parse: string -> Option<Js.Value>)
    requires forall l :: l in lines ==> Newline !in l
    requires Newline !in tail
    ensures StreamOutcome(Terminated(lines, Newline) + tail, ending, parse) ==
            StreamOutcome(Terminated(lines, Newline), ending, parse)
  {
    SplitTerminated(lines, tail, Newline);
    SplitTerminated(lines, "", Newline);
    assert Terminated(lines, Newline) + "" == Terminated(lines, Newline);
  }

  /** Receiving more text only adds complete lines after those already complete. */
  lemma LinesGrow(head: string, more: string)
    ensures CompleteLines(head + more, Newline) ==
      CompleteLines(head, Newline) + CompleteLines(LastPiece(head, Newline) + more, Newline)
  {
    SplitAppend(head, more, Newline);
  }

  /** The text of all chunks is the text up to chunk `k` followed by the text after it. */
  lemma ConcatSplitAt(chunks: seq<string>, k: nat)
    requires k < |chunks|
    ensures Concat(chunks) == Concat(chunks[..k + 1]) + Concat(chunks[k + 1..])
  {
    assert chunks == chunks[..k + 1] + chunks[k + 1..];
    ConcatAppend(chunks[..k + 1], chunks[k + 1..]);
  }

  /** Once a run of lines stops, whatever lines follow it do not change the trace. */
  lemma StoppedPrefixDecides(all: string, done: seq<string>, later: seq<string>, ending: Ending,
                             parse: string -> Option<Js.Value>)
    requires CompleteLines(all, Newline) == done + later
    requires DispatchLines(done, parse).stopped
    ensures StreamOutcome(all, ending, parse) == DispatchLines(done, parse).events
  {
    DispatchAppend(done, later, parse);
  }

  /** The complete lines of a text begin with the complete lines of any prefix of it. */
  lemma LinesOfPrefix(all: string, head: string, tail: string, done: seq<string>, rest: seq<string>)
    requires all == head + tail
    requires CompleteLines(head, Newline) == done + rest
    ensures |done| <= |CompleteLines(all, Newline)|
    ensures CompleteLines(all, Newline) == done + CompleteLines(all, Newline)[|done|..]
  {
    LinesGrow(head, tail);
    var more := CompleteLines(LastPiece(head, Newline) + tail, Newline);
    assert CompleteLines(all, Newline) == done + (rest + more);
  }

  /** What stopping at a `[DONE]` inside chunk `k` means for the trace of all chunks. */
  lemma StopIsFinal(chunks: seq<string>, k: nat, done: seq<string>, rest: seq<string>, ending: Ending,
                    parse: string -> Option<Js.Value>)
    requires k < |chunks|
    requires CompleteLines(Concat(chunks[..k + 1]), Newline) == done + rest
    requires DispatchLines(done, parse).stopped
    ensures StreamOutcome(Concat(chunks), ending, parse) == DispatchLines(done, parse).events
    ensures |done| <= |CompleteLines(Concat(chunks), Newline)|
    ensures CompleteLines(Concat(chunks), Newline)[..|done|] == done
  {
    var all := Concat(chunks);
    ConcatSplitAt(chunks, k);
    LinesOfPrefix(all, Concat(chunks[..k + 1]), Concat(chunks[k + 1..]), done, rest);
    var later := CompleteLines(all, Newline)[|done|..];
    StoppedPrefixDecides(all, done, later, ending, parse);
  }

  /** One more chunk: the carried-over buffer plus the chunk splits into the next complete lines. */
  lemma ChunkStep(chunks: seq<string>, k: nat, processed: seq<string>, buffer: string)
    requires k < |chunks|
    requires processed == CompleteLines(Concat(chunks[..k]), Newline)
    requires buffer == LastPiece(Concat(chunks[..k]), Newline)
    ensures processed + CompleteLines(buffer + chunks[k], Newline) == CompleteLines(Concat(chunks[..k + 1]), Newline)
    ensures LastPiece(buffer + chunks[k], Newline) == LastPiece(Concat(chunks[..k + 1]), Newline)
  {
    assert Concat(chunks[..k + 1]) == Concat(chunks[..k]) + chunks[k] by {
      assert chunks[..k + 1][..k] == chunks[..k];
    }
    SplitAppend(Concat(chunks[..k]), chunks[k], Newline);
  }

  /** The callbacks so far, followed by the one `action` fires; `[DONE]` stops the run. */
  function Step(events: seq<Event>, action: Action): (d: Dispatch)
    ensures d.stopped <==> action == Finish
    ensures |d.events| == |events| + (if action == Ignore then 0 else 1)
    ensures d.events[..|events|] == events
  {
    match action
    case Forward(v) => Dispatch(events + [Message(v)], false)
    case Ignore => Dispatch(events, false)
    case Finish => Dispatch(events + [Complete], true)
  }

  /** The effect of one more line on the dispatch of the lines before it. */
  lemma LineStep(prefix: seq<string>, line: string, parse: string -> Option<Js.Value>)
    requires !DispatchLines(prefix, parse).stopped
    ensures DispatchLines(prefix + [line], parse) == Step(DispatchLines(prefix, parse).events, LineAction(line, parse))
  {
    DispatchAppend(prefix, [line], parse);
    assert [line][1..] == [];
  }

  /**
   * The body of the read loop for one complete line: the callback it fires, if any, and whether
   * it is the `[DONE]` line that ends the read.
   */
  method HandleLine(line: string, events: seq<Event>, parse: string -> Option<Js.Value>)
    returns (next: seq<Event>, finished: bool)
    ensures finished <==> LineAction(line, parse) == Finish
    ensures Dispatch(next, finished) == Step(events, LineAction(line, parse))
  {
    next, finished := events, false;
    if StartsWith(line, DataPrefix) {
      var data := line[|DataPrefix|..];
      var trimmed := Trim(data);
      if trimmed == DoneMarker {
        next, finished := events + [Complete], true;
        return;
      }
      var parsed := parse(data);
      match parsed {
        case Some(JObject(m)) =>
          if "content" in m && Js.Truthy(m["content"]) {
            next := events + [Message(m["content"])];
          }
        case Some(JNull) =>
          // reading `.content` of null throws; the catch forwards non-blank raw text
          if trimmed != "" {
            next := events + [Message(JString(data))];
          }
        case Some(_) =>
        case None =>
          if trimmed != "" {
            next := events + [Message(JString(data))];
          }
      }
      assert LineAction(line, parse) == PayloadAction(data, parsed);
    }
  }

  /** Line `j` of a read, dispatched after the lines before it. */
  lemma ChunkLineStep(processed: seq<string>, lines: seq<string>, j: nat, parse: string -> Option<Js.Value>)
    requires j < |lines|
    requires !DispatchLines(processed + lines[..j], parse).stopped
    ensures DispatchLines(processed + lines[..j + 1], parse) ==
      Step(DispatchLines(processed + lines[..j], parse).events, LineAction(lines[j], parse))
  {
    assert processed + lines[..j + 1] == (processed + lines[..j]) + [lines[j]];
    LineStep(processed + lines[..j], lines[j], parse);
  }

  /** Once the first `j` lines of a read have stopped the run, the remaining lines change nothing. */
  lemma ChunkStopped(processed: seq<string>, lines: seq<string>, j: nat, parse: string -> Option<Js.Value>)
    requires j <= |lines|
    requires DispatchLines(processed + lines[..j], parse).stopped
    ensures DispatchLines(processed + lines, parse) == DispatchLines(processed + lines[..j], parse)
  {
    assert processed + lines == (processed + lines[..j]) + lines[j..];
    DispatchAppend(processed + lines[..j], lines[j..], parse);
  }

  /**
   * The `for` loop over the complete lines of one read: lines are handled in order until one is
   * the `[DONE]` line, after which the rest of them are skipped.
   */
  method DispatchChunk(ghost processed: seq<string>, lines: seq<string>, events: seq<Event>,
                       parse: string -> Option<Js.Value>)
    returns (next: seq<Event>, finished: bool)
    requires DispatchLines(processed, parse) == Dispatch(events, false)
    ensures DispatchLines(processed + lines, parse) == Dispatch(next, finished)
  {
    next := events;
    var j := 0;
    assert processed + lines[..j] == processed;
    while j < |lines|
      invariant 0 <= j <= |lines|
      invariant DispatchLines(processed + lines[..j], parse) == Dispatch(next, false)
    {
      ChunkLineStep(processed, lines, j, parse);
      next, finished := HandleLine(lines[j], next, parse);
      if finished {
        ChunkStopped(processed, lines, j + 1, parse);
        return;
      }
      j := j + 1;
    }
    assert lines[..j] == lines;
    finished := false;
  }

  /**
   * The read loop of `createSSEStream`. Whatever the chunk boundaries, the trace equals the one
   * determined by the concatenated text; when no `[DONE]` line stops it, every complete line has
   * been processed once, in order, and the buffer holds exactly the text after the last '\n'.
   */
  method ReadStream(chunks: seq<string>, ending: Ending, parse: string -> Option<Js.Value>, reader: ReaderState)
    returns (events: seq<Event>, buffer: string, reader': ReaderState, ghost processed: seq<string>)
    ensures events == StreamOutcome(Concat(chunks), ending, parse)
    ensures |processed| <= |CompleteLines(Concat(chunks), Newline)|
    ensures CompleteLines(Concat(chunks), Newline)[..|processed|] == processed
    ensures !DispatchLines(processed, parse).stopped ==>
      && processed == CompleteLines(Concat(chunks), Newline)
      && buffer == LastPiece(Concat(chunks), Newline)
      && Terminated(processed, Newline) + buffer == Concat(chunks)
    ensures reader' == reader.(locked := false)
  {
    buffer := "";
    events := [];
    processed := [];
    var k := 0;
    while k < |chunks|
      invariant 0 <= k <= |chunks|
      invariant processed == CompleteLines(Concat(chunks[..k]), Newline)
      invariant buffer == LastPiece(Concat(chunks[..k]), Newline)
      invariant DispatchLines(processed, parse) == Dispatch(events, false)
      invariant Terminated(processed, Newline) + buffer == Concat(chunks[..k])
    {
      ChunkStep(chunks, k, processed, buffer);
      buffer := buffer + chunks[k];
      var lines := Split(buffer, Newline);
      SplitIsLinesAndLast(buffer, Newline);
      buffer := lines[|lines| - 1];  // the last, possibly incomplete, line is kept
      lines := lines[..|lines| - 1];
      var finished;
      events, finished := DispatchChunk(processed, lines, events, parse);
      if finished {
        StopIsFinal(chunks, k, processed + lines, [], ending, parse);
        processed := processed + lines;
        reader' := reader.(locked := false);  // `finally` releases the lock
        return;
      }
      processed := processed + lines;
      SplitRebuilds(Concat(chunks[..k + 1]), Newline);
      k := k + 1;
    }
    assert chunks[..k] == chunks;
    events := events + [EndEvent(ending)];
    reader' := reader.(locked := false);
  }

  /** The headers every stream request carries. */
  const BaseHeaders: map<string, string> :=
    map["Content-Type" := "application/json", "Accept" := "text/event-stream", "Cache-Control" := "no-cache"]

  /**
   * `createSSEStream`: builds the request from the options and the session token, fetches it, and
   * either reports a setup failure with a controller that does nothing, or reads the stream.
   */
  method CreateSseStream(options: Options, token: Option<string>, fetch: FetchRequest -> FetchResult,
                         parse: string -> Option<Js.Value>)
    returns (request: FetchRequest, events: seq<Event>, controller: Controller, reader: Option<ReaderState>)
    ensures request.url == options.url
    ensures request.verb == options.verb.GetOr(Post)
    ensures request.headers.Keys == BaseHeaders.Keys + (if Js.StrTruthy(token) then {"Authorization"} else {})
    ensures forall h :: h in BaseHeaders ==> h in request.headers && request.headers[h] == BaseHeaders[h]
    ensures "Authorization" in request.headers <==> Js.StrTruthy(token)
    ensures Js.StrTruthy(token) ==> request.headers["Authorization"] == "Bearer " + token.value
    ensures request.body.Some? <==> request.verb == Post && Js.OptTruthy(options.data)
    ensures request.body.Some? ==> request.body == options.data
    ensures match fetch(request)
      case NetworkFailure => events == [Error(FetchRejected)] && controller == NoOpController
      case Response(ok, status, body) =>
        if !ok then events == [Error(HttpStatus(status))] && controller == NoOpController
        else if body.None? then events == [Error(StreamUnsupported)] && controller == NoOpController
        else events == StreamOutcome(Concat(body.value.chunks), body.value.ending, parse)
             && controller == ReaderController
    ensures reader.Some? <==> controller == ReaderController
    ensures reader.Some? ==> !reader.value.locked && !reader.value.cancelled
    ensures reader.Some? ==> Cancel(controller, reader.value) == reader.value
  {
    var verb := if options.verb.Some? then options.verb.value else Post;
    var headers := BaseHeaders;
    if token.Some? && token.value != "" {
      headers := headers["Authorization" := "Bearer " + token.value];
    }
    var body: Option<Js.Value> := None;
    if verb == Post && options.data.Some? && Js.Truthy(options.data.value) {
      body := options.data;
    }
    request := FetchRequest(options.url, verb, headers, body);
    var response := fetch(request);
    reader := None;
    match response {
      case NetworkFailure =>
        events, controller := [Error(FetchRejected)], NoOpController;
      case Response(ok, status, stream) =>
        if !ok {
          events, controller := [Error(HttpStatus(status))], NoOpController;
        } else if stream.None? {
          events, controller := [Error(StreamUnsupported)], NoOpController;
        } else {
          var buffer, released;
          ghost var processed;
          // `getReader()` locks the body to the new reader
          events, buffer, released, processed :=
            ReadStream(stream.value.chunks, stream.value.ending, parse, ReaderState(false, true));
          controller, reader := ReaderController, Some(released);
        }
    }
  }

  /**
   * `controller.cancel()`: the reader controller cancels and releases a reader that still holds the
   * lock. Once the read has released it, `reader.cancel()` only returns a rejected promise and
   * `releaseLock()` does nothing. The setup-failure controller does nothing.
   */
  function Cancel(c: Controller, r: ReaderState): (r': ReaderState)
    ensures c.NoOpController? ==> r' == r
    ensures c.ReaderController? && r.locked ==> r'.cancelled && !r'.locked
    ensures !r.locked ==> r' == r
  {
    match c
    case NoOpController => r
    case ReaderController => if r.locked then ReaderState(true, false) else r
  }

  /** Cancelling twice has the effect of cancelling once. */
  lemma CancelIdempotent(c: Controller, r: ReaderState)
    ensures Cancel(c, Cancel(c, r)) == Cancel(c, r)
  {
  }
}
