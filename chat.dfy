/** The OpenAI chat-completions reply as both language-model calls read it
    (src/ScrapeNews.py:81-91 and src/GetWatchlist.py:74-87): the first tool
    call of the first choice carries the structured result as JSON text. */
module ChatApi {
  import opened Common

  /** The outcome of json.loads on the arguments text: a dict whose values are
      strings or JSON null (Cell.Null), or a JSONDecodeError. */
  datatype Arguments = Decoded(fields: map<string, Cell>) | Undecodable

  datatype ToolCall = ToolCall(arguments: Arguments)

  /** toolCalls is None when the message has no 'tool_calls' key. */
  datatype Message = Message(toolCalls: Option<seq<ToolCall>>)

  /** message is None when the choice has no 'message' key. */
  datatype Choice = Choice(message: Option<Message>)

  /** A decoded reply (choices is None when it has no 'choices' key), or a
      failure of the POST or of decoding the reply body, which raises. */
  datatype ChatResponse = Reply(choices: Option<seq<Choice>>) | TransportFailure

  /** The shape test both call sites make before reading the tool call. */
  predicate HasToolCalls(resp: ChatResponse) {
    && resp.Reply? && resp.choices.Some? && |resp.choices.value| > 0
    && resp.choices.value[0].message.Some?
    && resp.choices.value[0].message.value.toolCalls.Some?
  }

  function ToolCalls(resp: ChatResponse): seq<ToolCall>
    requires HasToolCalls(resp)
  {
    resp.choices.value[0].message.value.toolCalls.value
  }

  /** What reading `tool_calls[0].function.arguments` yields. */
  datatype ToolReply = Parsed(fields: map<string, Cell>) | InvalidJson | UnexpectedFormat

  /** Reads the reply: a failed POST and indexing an empty tool_calls list
      raise; a reply failing the shape test is UnexpectedFormat; otherwise the
      first tool call's arguments decide between their dict and InvalidJson. */
  function ReadToolCall(resp: ChatResponse): (r: Result<ToolReply>)
    ensures r.Err? <==> resp.TransportFailure? || (HasToolCalls(resp) && ToolCalls(resp) == [])
    ensures r == Ok(UnexpectedFormat) <==> resp.Reply? && !HasToolCalls(resp)
    ensures r == Ok(InvalidJson) <==> HasToolCalls(resp) && |ToolCalls(resp)| > 0 && ToolCalls(resp)[0].arguments.Undecodable?
    ensures r.Ok? && r.value.Parsed? <==> HasToolCalls(resp) && |ToolCalls(resp)| > 0 && ToolCalls(resp)[0].arguments.Decoded?
    ensures r.Ok? && r.value.Parsed? ==> r.value.fields == ToolCalls(resp)[0].arguments.fields
  {
    if resp.TransportFailure? then Err(ClientError)
    else if !HasToolCalls(resp) then Ok(UnexpectedFormat)
    else if ToolCalls(resp) == [] then Err(IndexError)
    else match ToolCalls(resp)[0].arguments
      case Undecodable => Ok(InvalidJson)
      case Decoded(fields) => Ok(Parsed(fields))
  }

  /** The dict `{"error": message}` both call sites return on a bad reply. */
  function ErrorDict(message: string): map<string, Cell> {
    map["error" := Text(message)]
  }

  const UnexpectedFormatMessage := "Unexpected response format from OpenAI"
  const InvalidJsonMessage := "Invalid JSON response from OpenAI"
}
