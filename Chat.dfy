/** `ChatController.handleQuestion`: validate the request's `question`, hand a
    valid one to the interaction service, and turn the outcome into an HTTP
    response. The service is an input: `process` maps the question to the
    record it returns or to a thrown exception. */
module Chat {
  import opened Wrappers
  import opened Text
  import opened Domain

  const BadRequest: int := 400
  const Ok: int := 200

  const ErrorBody: string := "{\"error\": \"Pergunta não pode estar vazia.\"}"

  /** The text block of the `catch` branch: its one line with the common
      indentation removed, followed by the line break before the closing
      delimiter. */
  const FallbackHtml: string :=
    "<p>Desculpe, ocorreu um erro ao processar sua pergunta. Tente novamente ou reformule sua dúvida. Agradecemos sua compreensão.</p>\n"

  /** An HTTP response: a status and a body, `None` when the body is `null`. */
  datatype Response = Response(status: int, body: Option<string>)

  /** The response together with the questions handed to the interaction
      service while producing it, in call order. */
  datatype Handled = Handled(response: Response, serviceCalls: seq<string>)

  /** `request.get("question")`: `None` both when the key is absent and when
      its value is JSON `null`. */
  function QuestionOf(request: map<string, Option<string>>): Option<string> {
    if "question" in request then request["question"] else None
  }

  /** The guard `question == null || question.trim().isEmpty()`. */
  predicate Rejected(question: Option<string>) {
    question.None? || IsBlank(question.value)
  }

  /** `handleQuestion`. A missing, null, empty or blank question is refused
      with 400 and the fixed JSON error, and the service is not called.
      Otherwise the service is called exactly once, with the question as
      received (not trimmed); its record's answer is the body of a 200
      response, returned as it is; if it throws, the body is the fixed
      fallback paragraph, again with status 200. */
  function HandleQuestion(request: map<string, Option<string>>,
                          process: string -> CallResult<InteractionLog>): (r: Handled)
    ensures r.response.status == BadRequest <==> Rejected(QuestionOf(request))
    ensures r.response.status == BadRequest || r.response.status == Ok
    ensures Rejected(QuestionOf(request)) ==>
      r.serviceCalls == [] && r.response.body == Some(ErrorBody)
    ensures !Rejected(QuestionOf(request)) ==>
      var q := QuestionOf(request).value;
      && r.serviceCalls == [q]
      && (process(q).Returned? ==> r.response.body == process(q).value.answer)
      && (process(q).Threw? ==> r.response.body == Some(FallbackHtml))
  {
    var question := QuestionOf(request);
    if Rejected(question) then
      Handled(Response(BadRequest, Some(ErrorBody)), [])
    else
      match process(question.value)
      case Returned(interaction) => Handled(Response(Ok, interaction.answer), [question.value])
      case Threw => Handled(Response(Ok, Some(FallbackHtml)), [question.value])
  }

  /** The gate trims only to decide: padding a question with characters
      `trim()` removes never changes whether it is accepted, and an accepted
      question reaches the service with its padding intact. */
  lemma GateIgnoresPadding(request: map<string, Option<string>>, p: string, s: string, q: string,
                           process: string -> CallResult<InteractionLog>)
    requires AllTrimmable(p) && AllTrimmable(q)
    ensures var padded := HandleQuestion(request["question" := Some(p + s + q)], process);
      && padded.response.status == HandleQuestion(request["question" := Some(s)], process).response.status
      && (padded.response.status == Ok ==> padded.serviceCalls == [p + s + q])
  {
    TrimPadding(p, s, q);
  }
}
