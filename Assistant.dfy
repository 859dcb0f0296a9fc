/** `AiServiceSimulator.getAnswerForQuestion`: greet a blank question;
    otherwise pick knowledge-base entries, search products, build the context
    and the prompt, ask the completion service, and turn any failure into a
    fixed apology.

    The completion service (an HTTP call to OpenRouter whose JSON reply is
    parsed) is an input: `complete` maps a prompt to what came back. */
module Assistant {
  import opened Wrappers
  import opened Text
  import opened Domain
  import opened Relevance
  import opened Prompting
  import opened Scraper

  // The fixed replies are written piece by piece: the verifier reads a
  // string literal one character at a time, and short pieces keep the
  // first and last characters, which `ApologyIsTrimmed` needs, in reach.
  const Greeting: string := "Olá!" + " 😊 Como posso te ajudar hoje na SM Componentes?"
  const Apology: string :=
    "Desculpe," + " tive um probleminha técnico." + " Pode reformular sua dúvida?" + " Estou aqui para ajudar! 😊"

  /** What the completion call came back with: an HTTP status and the text at
      `choices[0].message.content` (`None` when that node is missing or
      null), or a transport failure (`IOException`, `InterruptedException`). */
  datatype CompletionReply = Reply(status: int, content: Option<string>) | TransportFailure

  predicate IsSuccess(reply: CompletionReply) {
    reply.Reply? && reply.status == 200 && reply.content.Some?
  }

  /** `callOpenRouter` from the reply on, with the `catch` of
      `getAnswerForQuestion`: the trimmed content of a successful reply, the
      apology for every failure. The answer never starts or ends with a
      character `trim()` removes, and anything but the apology comes from a
      successful reply. */
  function AnswerFrom(reply: CompletionReply): (r: string)
    ensures Trim(r) == r
    ensures IsSuccess(reply) ==> r == Trim(reply.content.value)
    ensures r != Apology ==> IsSuccess(reply)
  {
    if IsSuccess(reply) then
      TrimIdempotent(reply.content.value);
      Trim(reply.content.value)
    else
      ApologyIsTrimmed();
      Apology
  }

  lemma ApologyIsTrimmed()
    ensures Trim(Apology) == Apology
  {
    assert Apology[0] == 'D' && Apology[|Apology| - 1] == '😊';
    assert TrimStart(Apology) == Apology;
    assert TrimEnd(Apology) == Apology;
  }

  class AiServiceSimulator {
    /** The Jaro-Winkler similarity, taken as given. */
    const similarity: (string, string) -> real
    const scraper: ScraperService
    var knowledgeBase: seq<KnowledgeEntry>
    /** Every prompt sent to the completion service so far, oldest first. */
    ghost var prompts: seq<string>

    constructor(similarity: (string, string) -> real, scraper: ScraperService)
      ensures this.similarity == similarity && this.scraper == scraper
      ensures knowledgeBase == [] && prompts == []
    {
      this.similarity := similarity;
      this.scraper := scraper;
      knowledgeBase := [];
      prompts := [];
    }

    /** `init` / `loadKnowledgeBase`: `loaded` is the parsed resource, or
        `None` when reading or parsing it failed, which leaves the service
        with an empty knowledge base. */
    method Init(loaded: Option<seq<KnowledgeEntry>>)
      modifies this
      ensures knowledgeBase == loaded.GetOr([])
      ensures prompts == old(prompts)
    {
      match loaded
      case Some(entries) =>
        knowledgeBase := entries;
      case None =>
        knowledgeBase := [];
    }

    /** `getAnswerForQuestion`. A missing or blank question gets the greeting
        without touching the product cache or the completion service.
        Otherwise the answer is what the completion service makes of the
        prompt built around the relevant entries and the products found,
        after exactly one product search, which leaves the product cache and
        the fetch log as `SearchProducts` does, and exactly one prompt is
        sent. */
    method GetAnswerForQuestion(question: Option<string>, now: int, order: seq<nat>,
                                fetch: string -> Page, complete: string -> CompletionReply)
      returns (answer: string)
      requires IsIterationOrder(CategoryKeywords, order)
      modifies this, scraper
      ensures knowledgeBase == old(knowledgeBase)
      ensures question.None? || IsBlank(question.value) ==>
        && answer == Greeting
        && prompts == old(prompts)
        && scraper.cache == old(scraper.cache) && scraper.cacheExpiry == old(scraper.cacheExpiry)
        && scraper.fetched == old(scraper.fetched)
      ensures question.Some? && !IsBlank(question.value) ==>
        var q := question.value;
        var key := Normalize(q);
        var entries := FindRelevantEntries(similarity, q, knowledgeBase);
        var products := old(scraper.SearchResult(key, now, order, fetch));
        var prompt := BuildPrompt(q, ContextText(entries, products));
        && (old(scraper.IsFresh(key, now)) ==>
              scraper.cache == old(scraper.cache) && scraper.cacheExpiry == old(scraper.cacheExpiry)
              && scraper.fetched == old(scraper.fetched))
        && (!old(scraper.IsFresh(key, now)) ==>
              && scraper.cache == old(scraper.cache)[key := products]
              && scraper.cacheExpiry == old(scraper.cacheExpiry)[key := now + CacheTtlMinutes]
              && scraper.fetched == old(scraper.fetched) + PagesFetched(key, order))
        && prompts == old(prompts) + [prompt]
        && answer == AnswerFrom(complete(prompt))
    {
      if question.None? || IsBlank(question.value) {
        return Greeting;
      }
      var q := question.value;
      var entries := FindRelevantEntries(similarity, q, knowledgeBase);
      var products := scraper.SearchProducts(q, now, order, fetch);
      var context := BuildContext(entries, products);
      var prompt := BuildPrompt(q, context);
      prompts := prompts + [prompt];
      answer := AnswerFrom(complete(prompt));
    }
  }
}
