/** The streaming side of `src/chat.rs`: turning one streamed chunk into a
    token, and folding the whole stream of chunks and errors into the reply
    text. The network stream is modelled as the already-received sequence of
    its items; the output callback is modelled as the log of tokens it was
    given; a panic is modelled as the terminal `Aborted` outcome. */
module Chat {
  import opened Wrappers
  import opened Strings

  /** One choice of a streamed chunk; only the content of its delta is read. */
  datatype ChoiceDelta = ChoiceDelta(content: Option<string>)

  /** One streamed chunk of a chat completion. */
  datatype StreamResponse = StreamResponse(choices: seq<ChoiceDelta>)

  /** The structured error the completion API reports inside the stream. */
  datatype ApiErrorBody = ApiErrorBody(code: Option<string>, kind: string, message: string)

  /** An error item of the stream: a structured API error, or anything else
      (transport, decoding, HTTP status) known only by its display text. */
  datatype StreamError = ApiError(body: ApiErrorBody) | OtherError(description: string)

  /** One item of the response stream. */
  datatype StreamItem = Ok(response: StreamResponse) | Err(error: StreamError)

  /** Why the program panicked while draining the stream. */
  datatype AbortReason =
    | MissingErrorCode             // `err.code.unwrap()` on an API error without a code
    | InvalidApiKey                // the dedicated message for an unauthorized request
    | Fatal(description: string)   // any other error, shown as it displays

  /** The state carried across stream items: the reply built so far, every
      token handed to the output callback, and every API error reported. */
  datatype Accumulator = Accumulator(buffer: string, sinkLog: seq<string>, reported: seq<ApiErrorBody>)

  /** How draining a stream ends: with the reply, or with a panic (and no reply). */
  datatype Outcome =
    | Completed(text: string, sinkLog: seq<string>, reported: seq<ApiErrorBody>)
    | Aborted(reason: AbortReason)

  /** The text whose presence in an error marks a rejected API key. */
  const Unauthorized: string := "401 Unauthorized"

  const Start: Accumulator := Accumulator("", [], [])

  /** A choice's content, with a missing content read as the empty string. */
  function ChoiceText(choice: ChoiceDelta): string
  {
    choice.content.GetOr("")
  }

  function ChoiceTexts(choices: seq<ChoiceDelta>): (texts: seq<string>)
    ensures |texts| == |choices|
  {
    seq(|choices|, i requires 0 <= i < |choices| => ChoiceText(choices[i]))
  }

  /** `get_token_from_response`: the contents of all choices, joined in order. */
  function GetToken(response: StreamResponse): string
  {
    Concat(ChoiceTexts(response.choices))
  }

  /** A chunk without choices yields the empty token. */
  lemma TokenOfNoChoices()
    ensures GetToken(StreamResponse([])) == ""
  {
  }

  /** A single choice yields exactly its content (or "" when it has none). */
  lemma TokenOfSingleChoice(choice: ChoiceDelta)
    ensures GetToken(StreamResponse([choice])) == ChoiceText(choice)
    ensures choice.content.Some? ==> GetToken(StreamResponse([choice])) == choice.content.value
  {
    assert ChoiceTexts([choice]) == [ChoiceText(choice)];
    ConcatSingleton(ChoiceText(choice));
  }

  /** Splitting the choices splits the token at the same place: the token is
      the in-order concatenation of the choices' contents. Together with
      `TokenOfNoChoices` and `TokenOfSingleChoice` this determines the token
      of every chunk. */
  lemma TokenOfSplitChoices(a: seq<ChoiceDelta>, b: seq<ChoiceDelta>)
    ensures GetToken(StreamResponse(a + b)) == GetToken(StreamResponse(a)) + GetToken(StreamResponse(b))
  {
    assert ChoiceTexts(a + b) == ChoiceTexts(a) + ChoiceTexts(b);
    ConcatAppend(ChoiceTexts(a), ChoiceTexts(b));
  }

  /** A choice without content contributes nothing, wherever it sits. */
  lemma EmptyChoiceContributesNothing(a: seq<ChoiceDelta>, b: seq<ChoiceDelta>)
    ensures GetToken(StreamResponse(a + [ChoiceDelta(None)] + b)) == GetToken(StreamResponse(a + b))
  {
    TokenOfSplitChoices(a + [ChoiceDelta(None)], b);
    TokenOfSplitChoices(a, [ChoiceDelta(None)]);
    TokenOfSingleChoice(ChoiceDelta(None));
    TokenOfSplitChoices(a, b);
  }

  /** An error that makes the handler panic: anything but an API error, or
      an API error whose code is absent. */
  predicate IsFatal(error: StreamError)
  {
    error.OtherError? || error.body.code.None?
  }

  predicate Aborts(item: StreamItem)
  {
    item.Err? && IsFatal(item.error)
  }

  /** The panic a fatal error causes. */
  function AbortReasonOf(error: StreamError): (reason: AbortReason)
    requires IsFatal(error)
    ensures error.ApiError? ==> reason == MissingErrorCode
    ensures error.OtherError? ==>
              (reason == InvalidApiKey <==> Contains(error.description, Unauthorized))
    ensures error.OtherError? && reason != InvalidApiKey ==> reason == Fatal(error.description)
  {
    match error
    case ApiError(_) => MissingErrorCode
    case OtherError(description) =>
      if Contains(description, Unauthorized) then InvalidApiKey else Fatal(description)
  }

  /** The closure given to `for_each`, applied to one item. A chunk's token
      goes both to the callback and to the buffer; a reportable API error is
      recorded and skipped; anything else panics. */
  function Step(acc: Accumulator, item: StreamItem): (r: Result<Accumulator, AbortReason>)
    ensures r.Failure? <==> Aborts(item)
    ensures r.Failure? ==> r.error == AbortReasonOf(item.error)
    ensures r.Success? ==> acc.sinkLog <= r.value.sinkLog && acc.reported <= r.value.reported
    ensures r.Success? ==> r.value.buffer == acc.buffer + Concat(r.value.sinkLog[|acc.sinkLog|..])
    ensures r.Success? && item.Ok? ==> r.value.sinkLog == acc.sinkLog + [GetToken(item.response)]
    ensures r.Success? && item.Ok? ==> r.value.reported == acc.reported
    ensures r.Success? && item.Err? ==>
              r.value.buffer == acc.buffer && r.value.sinkLog == acc.sinkLog
              && r.value.reported == acc.reported + [item.error.body]
  {
    match item
    case Ok(response) =>
      var token := GetToken(response);
      var next := Accumulator(acc.buffer + token, acc.sinkLog + [token], acc.reported);
      assert next.sinkLog[|acc.sinkLog|..] == [token];
      ConcatSingleton(token);
      Success(next)
    case Err(ApiError(body)) =>
      if body.code.Some? then
        var next := acc.(reported := acc.reported + [body]);
        assert next.sinkLog[|acc.sinkLog|..] == [];
        Success(next)
      else
        Failure(MissingErrorCode)
    case Err(OtherError(description)) =>
      if Contains(description, Unauthorized) then Failure(InvalidApiKey) else Failure(Fatal(description))
  }

  /** `for_each` over the stream: items are handled in arrival order, and the
      first panic ends everything. */
  function Run(acc: Accumulator, items: seq<StreamItem>): (r: Result<Accumulator, AbortReason>)
    ensures r.Success? <==> forall i :: 0 <= i < |items| ==> !Aborts(items[i])
    decreases |items|
  {
    if |items| == 0 then Success(acc)
    else
      match Step(acc, items[0])
      case Success(next) =>
        assert forall i :: 1 <= i < |items| ==> items[1..][i - 1] == items[i];
        Run(next, items[1..])
      case Failure(reason) => Failure(reason)
  }

  /** The tokens of the chunks among `items`, in arrival order: the reference
      for what the callback receives. */
  function OkTokens(items: seq<StreamItem>): seq<string>
    decreases |items|
  {
    if |items| == 0 then []
    else (if items[0].Ok? then [GetToken(items[0].response)] else []) + OkTokens(items[1..])
  }

  /** The API errors among `items`, in arrival order. */
  function ApiErrors(items: seq<StreamItem>): seq<ApiErrorBody>
    decreases |items|
  {
    if |items| == 0 then []
    else (if items[0].Err? && items[0].error.ApiError? then [items[0].error.body] else []) + ApiErrors(items[1..])
  }

  /** `process_chat_message` from the opened stream on: drain it from an
      empty buffer, and return the buffer unless something panicked. */
  function ProcessChatMessage(items: seq<StreamItem>): (r: Outcome)
    ensures r.Completed? <==> forall i :: 0 <= i < |items| ==> !Aborts(items[i])
    ensures r.Completed? ==> r.sinkLog == OkTokens(items) && r.reported == ApiErrors(items)
    ensures r.Completed? ==> r.text == Concat(r.sinkLog)
  {
    match Run(Start, items)
    case Success(acc) =>
      RunWithoutAbort(Start, items);
      Completed(acc.buffer, acc.sinkLog, acc.reported)
    case Failure(reason) => Aborted(reason)
  }

  /** The accumulator after draining `items` from `acc`, as the reference
      definitions describe it. */
  function Expected(acc: Accumulator, items: seq<StreamItem>): Accumulator
  {
    Accumulator(acc.buffer + Concat(OkTokens(items)), acc.sinkLog + OkTokens(items), acc.reported + ApiErrors(items))
  }

  /** Handling the first item of a harmless run moves the accumulator along
      the reference description. */
  lemma ExpectedAfterChunk(acc: Accumulator, items: seq<StreamItem>)
    requires |items| > 0 && items[0].Ok?
    ensures var token := GetToken(items[0].response);
      Expected(Accumulator(acc.buffer + token, acc.sinkLog + [token], acc.reported), items[1..])
      == Expected(acc, items)
  {
    var token := GetToken(items[0].response);
    var rest := OkTokens(items[1..]);
    assert OkTokens(items) == [token] + rest;
    assert ApiErrors(items) == ApiErrors(items[1..]);
    ConcatAppend([token], rest);
    ConcatSingleton(token);
    assert acc.buffer + token + Concat(rest) == acc.buffer + Concat(OkTokens(items));
    assert acc.sinkLog + [token] + rest == acc.sinkLog + OkTokens(items);
  }

  lemma ExpectedAfterApiError(acc: Accumulator, items: seq<StreamItem>)
    requires |items| > 0 && items[0].Err? && !Aborts(items[0])
    ensures Expected(Step(acc, items[0]).value, items[1..]) == Expected(acc, items)
  {
    var body := items[0].error.body;
    assert OkTokens(items) == OkTokens(items[1..]);
    assert ApiErrors(items) == [body] + ApiErrors(items[1..]);
  }

  /** Draining a stream with no fatal item: the callback sees exactly the
      chunk tokens in arrival order, the buffer gains exactly their
      concatenation, and every API error is reported once. */
  lemma {:induction false} RunWithoutAbort(acc: Accumulator, items: seq<StreamItem>)
    requires forall i :: 0 <= i < |items| ==> !Aborts(items[i])
    ensures Run(acc, items) == Success(Expected(acc, items))
    decreases |items|
  {
    if |items| == 0 {
      assert Expected(acc, items) == acc;
    } else {
      var next := Step(acc, items[0]).value;
      var rest := items[1..];
      assert forall i :: 0 <= i < |rest| ==> rest[i] == items[i + 1];
      RunWithoutAbort(next, rest);
      if items[0].Ok? {
        ExpectedAfterChunk(acc, items);
      } else {
        ExpectedAfterApiError(acc, items);
      }
    }
  }

  /** Continuing a partial run with more items. */
  function Continue(r: Result<Accumulator, AbortReason>, items: seq<StreamItem>): Result<Accumulator, AbortReason>
  {
    match r
    case Success(acc) => Run(acc, items)
    case Failure(reason) => Failure(reason)
  }

  /** Draining `xs + ys` is draining `xs` and then, unless that panicked, `ys`. */
  lemma {:induction false} RunAppend(acc: Accumulator, xs: seq<StreamItem>, ys: seq<StreamItem>)
    ensures Run(acc, xs + ys) == Continue(Run(acc, xs), ys)
    decreases |xs|
  {
    if |xs| == 0 {
      assert xs + ys == ys;
    } else {
      assert (xs + ys)[0] == xs[0];
      assert (xs + ys)[1..] == xs[1..] + ys;
      match Step(acc, xs[0])
      case Success(next) => RunAppend(next, xs[1..], ys);
      case Failure(_) =>
    }
  }

  /** A fatal item after a run of harmless ones aborts the whole stream with
      that item's reason, whatever follows it; for an error other than an API
      error the reason is the invalid-key panic exactly when its text
      contains "401 Unauthorized". */
  lemma FatalItemAborts(xs: seq<StreamItem>, error: StreamError, ys: seq<StreamItem>)
    requires IsFatal(error)
    requires forall i :: 0 <= i < |xs| ==> !Aborts(xs[i])
    ensures ProcessChatMessage(xs + [Err(error)] + ys) == Aborted(AbortReasonOf(error))
  {
    RunAppend(Start, xs + [Err(error)], ys);
    RunAppend(Start, xs, [Err(error)]);
    var acc := Run(Start, xs).value;
    assert [Err(error)][1..] == [];
  }

  /** The run with everything about reported errors forgotten. */
  function Unreported(r: Result<Accumulator, AbortReason>): Result<Accumulator, AbortReason>
  {
    match r
    case Success(acc) => Success(acc.(reported := []))
    case Failure(reason) => Failure(reason)
  }

  /** What was reported earlier never changes what happens later. */
  lemma {:induction false} RunIgnoresReported(acc: Accumulator, items: seq<StreamItem>, earlier: seq<ApiErrorBody>)
    ensures Unreported(Run(acc.(reported := earlier), items)) == Unreported(Run(acc, items))
    decreases |items|
  {
    if |items| > 0 {
      match Step(acc, items[0])
      case Success(next) =>
        var next' := Step(acc.(reported := earlier), items[0]).value;
        assert next' == next.(reported := next'.reported);
        RunIgnoresReported(next, items[1..], next'.reported);
      case Failure(_) =>
    }
  }

  /** An API error that carries a code is reported and skipped: removing it
      from the stream changes neither the outcome kind, nor the reply, nor
      the callback's tokens, nor the abort reason. */
  lemma ApiErrorIsSkipped(xs: seq<StreamItem>, body: ApiErrorBody, ys: seq<StreamItem>)
    requires body.code.Some?
    ensures Unreported(Run(Start, xs + [Err(ApiError(body))] + ys)) == Unreported(Run(Start, xs + ys))
    ensures ProcessChatMessage(xs + [Err(ApiError(body))] + ys).Completed?
        <==> ProcessChatMessage(xs + ys).Completed?
  {
    var e := Err(ApiError(body));
    RunAppend(Start, xs + [e], ys);
    RunAppend(Start, xs, [e]);
    RunAppend(Start, xs, ys);
    match Run(Start, xs)
    case Success(acc) =>
      var next := acc.(reported := acc.reported + [body]);
      assert Step(acc, e) == Success(next);
      assert [e][1..] == [];
      assert Run(acc, [e]) == Run(next, []);
      assert Run(Start, xs + [e]) == Success(next);
      RunIgnoresReported(acc, ys, acc.reported + [body]);
    case Failure(_) =>
  }

  /** The tokens of a stream of chunks only. */
  function ChunkTokens(items: seq<StreamItem>): (tokens: seq<string>)
    requires forall i :: 0 <= i < |items| ==> items[i].Ok?
    ensures |tokens| == |items|
  {
    seq(|items|, i requires 0 <= i < |items| && items[i].Ok? => GetToken(items[i].response))
  }

  /** A stream of chunks only completes with the concatenation of their tokens,
      with no separator, the callback called once per chunk with each token in
      arrival order, and nothing reported. */
  lemma ChunksOnly(items: seq<StreamItem>)
    requires forall i :: 0 <= i < |items| ==> items[i].Ok?
    ensures ProcessChatMessage(items) == Completed(Concat(ChunkTokens(items)), ChunkTokens(items), [])
  {
    ChunksOnlyTokens(items);
  }

  lemma {:induction false} ChunksOnlyTokens(items: seq<StreamItem>)
    requires forall i :: 0 <= i < |items| ==> items[i].Ok?
    ensures OkTokens(items) == ChunkTokens(items)
    ensures ApiErrors(items) == []
    decreases |items|
  {
    if |items| > 0 {
      var rest := items[1..];
      assert forall i :: 0 <= i < |rest| ==> rest[i] == items[i + 1];
      ChunksOnlyTokens(rest);
      assert ChunkTokens(items) == [GetToken(items[0].response)] + ChunkTokens(rest);
    }
  }
}
