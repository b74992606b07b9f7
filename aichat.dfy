/** The `/query_rag_from_aichat` command (custom_aider/commands/aichat_commands.py): the
    argument split, the request payload, the checks on the reply, the `<context>` span,
    the formatted answer and the two chat messages it adds. The HTTP exchange itself is a
    parameter: a function from the payload sent to the reply received. */
module Aichat {
  import opened Util
  import opened Host

  const Url := "http://localhost:8000/v1/rags/search"
  const UsageText := "Usage: /query_rag_from_aichat <rag_name> <query>"
  const MissingData := "Unexpected response format - missing 'data' field"
  const NoContext := "No context found in response"
  const OpenTag := "<context>"
  const CloseTag := "</context>"

  /** The JSON body posted: `{"name": rag_name, "input": query}`. */
  datatype Payload = Payload(name: string, input: string)

  /** `args.strip().split(maxsplit=1)` when it gives exactly two parts. */
  function ParseRagArgs(args: string): (r: Option<Payload>)
    ensures r.None? <==> NoSpace(Strip(args))
    ensures r.Some? ==> WordAndRest(Strip(args), r.value.name, r.value.input)
  {
    var parts := SplitOnce(args);
    if |parts| != 2 then None else Some(Payload(parts[0], parts[1]))
  }

  /** A name and a query separated by a space are read back as they were. */
  lemma ParseRagArgsRoundTrip(name: string, query: string)
    requires name != [] && NoSpace(name)
    requires query != [] && IsStripped(query)
    ensures ParseRagArgs(name + " " + query) == Some(Payload(name, query))
  {
    SplitOnceWords(name, query);
  }

  /** Any split of the stripped args into a name, whitespace and a query is the one parsed. */
  lemma ParseRagArgsUnique(args: string, name: string, query: string)
    requires WordAndRest(Strip(args), name, query)
    ensures ParseRagArgs(args) == Some(Payload(name, query))
  {
    SplitOnceUnique(args, name, query);
  }

  // ---------------------------------------------------------------- the context span

  /** `<context>` opens at `p`, and `q` is the first `</context>` after it. */
  ghost predicate ContextSpan(data: string, p: int, q: int) {
    && OccursAt(data, OpenTag, p) && p + |OpenTag| <= q && OccursAt(data, CloseTag, q)
    && (forall j :: p + |OpenTag| <= j < q ==> !OccursAt(data, CloseTag, j))
  }

  /** `re.search(r"<context>(.*?)</context>", data, re.DOTALL)`, group 1, stripped. */
  function ExtractContext(data: string): Option<string> {
    match Find(data, OpenTag, 0)
    case None => None
    case Some(p) =>
      match Find(data, CloseTag, p + |OpenTag|)
      case None => None
      case Some(q) => Some(Strip(data[p + |OpenTag|..q]))
  }

  /** The extracted context is the stripped text between the first opening tag and the first
      closing tag after it, and there is none exactly when no opening tag has a closing tag
      after it. */
  lemma ExtractContextMeaning(data: string)
    ensures ExtractContext(data).None? <==>
              forall p, q :: OccursAt(data, OpenTag, p) && p + |OpenTag| <= q ==> !OccursAt(data, CloseTag, q)
    ensures ExtractContext(data).Some? ==>
              exists p, q :: && ContextSpan(data, p, q) && (forall j :: 0 <= j < p ==> !OccursAt(data, OpenTag, j))
                             && ExtractContext(data).value == Strip(data[p + |OpenTag|..q])
  {
    match Find(data, OpenTag, 0)
    case None =>
    case Some(p) =>
      match Find(data, CloseTag, p + |OpenTag|)
      case None =>
        forall p', q | OccursAt(data, OpenTag, p') && p' + |OpenTag| <= q ensures !OccursAt(data, CloseTag, q) {
          assert p <= p';
        }
      case Some(q) =>
        assert ContextSpan(data, p, q);
  }

  /** No character of `</context>` after the first is `<`, so two occurrences cannot overlap. */
  lemma CloseTagNoOverlap(s: string, j: int, k: int)
    requires OccursAt(s, CloseTag, j) && j < k < j + |CloseTag| && k < |s|
    ensures s[k] != '<'
  {
    assert s[j..j + |CloseTag|][k - j] == s[k];
  }

  /** Wrapping a text in the tags and extracting it gives the text back, stripped. */
  lemma ExtractContextRoundTrip(body: string, after: string)
    requires !Contains(body, CloseTag)
    ensures ExtractContext(OpenTag + body + CloseTag + after) == Some(Strip(body))
  {
    var s := OpenTag + body + CloseTag + after;
    var q := |OpenTag| + |body|;
    assert OccursAt(s, OpenTag, 0) by { assert s[..9] == OpenTag; }
    assert OccursAt(s, CloseTag, q) by { assert s[q..q + 10] == CloseTag; }
    forall j | |OpenTag| <= j < q ensures !OccursAt(s, CloseTag, j) {
      if j + |CloseTag| <= q {
        assert s[j..j + 10] == body[j - 9..j + 1];
        if OccursAt(s, CloseTag, j) {
          assert OccursAt(body, CloseTag, j - 9);
        }
      } else {
        assert s[q] == '<';
        if OccursAt(s, CloseTag, j) {
          CloseTagNoOverlap(s, j, q);
        }
      }
    }
    assert Find(s, OpenTag, 0) == Some(0);
    assert Find(s, CloseTag, |OpenTag|) == Some(q);
    assert s[|OpenTag|..q] == body;
  }

  // ---------------------------------------------------------------- the answer

  /** The five pieces of the answer joined with newlines: the heading naming the RAG, the
      query line, the "Context:" label, the context, and the closing line. */
  function FormatOutput(name: string, query: string, context: string): (r: string)
    ensures r == ("\nResults from aichat RAG '" + name + "':") + "\n" + ("\nQuery: " + query + "\n") + "\n"
                 + "Context:" + "\n" + context + "\n" + "\n--- End of results ---"
  {
    var parts := ["\nResults from aichat RAG '" + name + "':", "\nQuery: " + query + "\n", "Context:", context,
                  "\n--- End of results ---"];
    JoinFive("\n", parts[0], parts[1], parts[2], parts[3], parts[4]);
    Join("\n", parts)
  }

  /** What the server answered. */
  datatype Reply =
    | ConnectionFailed           // requests' ConnectionError
    | HttpFailed(reason: string) // raise_for_status: an error status
    | NotJson(reason: string)    // the body is not JSON (a ValueError)
    | JsonBody(body: Json)

  datatype RagOutcome =
    | UsageError                    // "Usage: ..."
    | CannotConnect                 // "Could not connect to aichat API. Is the server running?"
    | RequestFailed(reason: string) // "API request failed: ..."
    | BadResponse(message: string)  // "Error processing response: ..."
    | QueryFailed                   // "Error querying RAG: ..." (a TypeError on an odd reply)
    | Answered(output: string)


  /** The `try` block of `cmd_query_rag_from_aichat` after the request, and its handlers. */
  function RagOutcomeOf(p: Payload, reply: Reply): RagOutcome {
    match reply
    case ConnectionFailed => CannotConnect
    case HttpFailed(e) => RequestFailed(e)
    case NotJson(e) => BadResponse(e)
    case JsonBody(body) =>
      match PyIn("data", body)
      case None => QueryFailed
      case Some(false) => BadResponse(MissingData)
      case Some(true) =>
        if !body.JObject? || !body.fields["data"].JString? then QueryFailed
        else match ExtractContext(body.fields["data"].s)
          case None => BadResponse(NoContext)
          case Some(context) => Answered(FormatOutput(p.name, p.input, context))
  }

  /** An answer comes back exactly when the reply is an object whose "data" is a string holding
      a context span, and it is that context formatted; a missing "data" key and a refused
      connection each have their own outcome. */
  lemma RagOutcomeMeaning(p: Payload, reply: Reply)
    ensures var r := RagOutcomeOf(p, reply);
            && (r.Answered? <==> reply.JsonBody? && reply.body.JObject? && "data" in reply.body.fields
                                 && reply.body.fields["data"].JString? && ExtractContext(reply.body.fields["data"].s).Some?)
            && (r.Answered? ==> r.output == FormatOutput(p.name, p.input, ExtractContext(reply.body.fields["data"].s).value))
            && (reply.JsonBody? ==> (r == BadResponse(MissingData) <==> PyIn("data", reply.body) == Some(false)))
            && (r.BadResponse? && r.message != MissingData ==> reply.NotJson? || r.message == NoContext)
            && (r == CannotConnect <==> reply.ConnectionFailed?)
  {
    match reply
    case ConnectionFailed =>
    case HttpFailed(_) =>
    case NotJson(_) =>
    case JsonBody(body) =>
      match PyIn("data", body)
      case None =>
        assert !body.JObject?;
      case Some(false) =>
        assert body.JObject? ==> "data" !in body.fields;
      case Some(true) =>
        if body.JObject? {
          assert "data" in body.fields;
        }
  }

  /** `cmd_query_rag_from_aichat(args)`: a usage error without a request, or one request
      whose reply decides the outcome; a successful answer adds the user message holding
      it and the assistant's "Ok." to the current messages, and nothing else changes. */
  method QueryRagFromAichat(coder: Coder, args: string, server: Payload -> Reply)
    returns (request: Option<Payload>, outcome: RagOutcome)
    modifies coder
    ensures request == ParseRagArgs(args)
    ensures request.None? ==> outcome == UsageError
    ensures request.Some? ==> outcome == RagOutcomeOf(request.value, server(request.value))
    ensures coder.curMessages == old(coder.curMessages) +
              (if outcome.Answered? then [ChatMessage("user", outcome.output), ChatMessage("assistant", "Ok.")] else [])
    ensures coder.doneMessages == old(coder.doneMessages) && coder.chatFiles == old(coder.chatFiles)
    ensures coder.modelName == old(coder.modelName) && coder.addRequests == old(coder.addRequests)
  {
    request := ParseRagArgs(args);
    if request.None? {
      return request, UsageError;
    }
    outcome := RagOutcomeOf(request.value, server(request.value));
    if outcome.Answered? {
      coder.curMessages := coder.curMessages + [ChatMessage("user", outcome.output), ChatMessage("assistant", "Ok.")];
    }
  }

  /** `completions_query_rag_from_aichat()`: fixed RAG names, each a single token. */
  function RagCompletions(): (r: seq<string>)
    ensures forall k :: 0 <= k < |r| ==> r[k] != [] && NoSpace(r[k])
  {
    ["aichat-wiki", "documentation", "codebase"]
  }

  /** A completed name followed by a query is read as that RAG name and that query. */
  lemma CompletionParses(k: nat, query: string)
    requires k < |RagCompletions()| && query != [] && IsStripped(query)
    ensures ParseRagArgs(RagCompletions()[k] + " " + query) == Some(Payload(RagCompletions()[k], query))
  {
    ParseRagArgsRoundTrip(RagCompletions()[k], query);
  }
}
