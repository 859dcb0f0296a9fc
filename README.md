# SM Componentes chat assistant — verified model

This project models the core of a Spring Boot chat backend for an electronics
shop, SM Componentes, in Dafny. A customer posts a question to
`/api/chat/question`. The request goes through four pieces of logic:

- **ChatController.** The controller refuses a missing or blank question with
  400 and a fixed JSON error. Any other question goes to the interaction
  service. The reply is the stored answer as it is, or a fixed HTML apology
  when the service throws.
- **InteractionService.** The service asks the AI service once. It then saves
  one record holding the question and the answer in the interaction
  repository.
- **AiServiceSimulator.** The AI service greets a blank question. Otherwise it:
  - picks up to three knowledge-base entries whose similarity to the question
    reaches 0.70, best first, with a stable sort
  - asks the scraper for products
  - builds a context text and a prompt
  - sends the prompt to a chat-completion service
  - returns the trimmed reply, or a fixed apology on any failure
- **SmComponentesScraperService.** The scraper lower-cases and trims the query.
  An entry younger than an hour is answered from a cache. Otherwise the
  scraper picks the category page of the first keyword the query contains and
  scrapes it. It keeps the product links whose name contains the query, and
  caches the result.

Modules, one file each:

| file | module | models |
|---|---|---|
| `Wrappers.dfy` | `Wrappers` | `Option` (a nullable reference) and `CallResult` (a call that returns or throws) |
| `Domain.dfy` | `Domain` | the records `KnowledgeEntry`, `Product` and `InteractionLog` |
| `Text.dfy` | `Text` | `String.trim`, `toLowerCase` and `contains`, and what they guarantee |
| `Relevance.dfy` | `Relevance` | `findRelevantEntriesBySimilarity` |
| `Prompting.dfy` | `Prompting` | `buildContext`, a `StringBuilder` loop proved against a text function, and `buildPrompt` |
| `Scraper.dfy` | `Scraper` | `getCategoryNameFromUrl`, `scrapeCategoryPage`, the keyword loop, and the class `ScraperService` with its two cache maps |
| `Assistant.dfy` | `Assistant` | `callOpenRouter`'s handling of the reply, and the class `AiServiceSimulator` |
| `Interactions.dfy` | `Interactions` | the class `InteractionService` over an append-only record store |
| `Chat.dfy` | `Chat` | `handleQuestion`, as a pure function from request and service outcome to response |

The world outside the core is handled through parameters. Each one is a
function the caller supplies:

- the similarity metric
- the page fetcher and HTML parser (`fetch`)
- the chat-completion service (`complete`)
- the AI service seen from `InteractionService` (`ai`)
- the interaction service seen from the controller (`process`)
- the clock (`now`, in minutes)
- the iteration order of the keyword map (`order`)

Ghost logs (`fetched`, `prompts`, `aiCalls`) and the `serviceCalls` of a
controller response record which pages were fetched and which calls were made.
The contracts use them to state "at most one fetch", "exactly one prompt" and
"never called".

Where a test and the code disagree, the model follows the code.
`ChatControllerTest.java:45-46` expects a JSON body carrying the answer and an
`interactionId`. `ChatController.java:42-45` returns the raw answer string. The
model returns the raw answer.

## Model

Paths are relative to the repository root. `AiServiceSimulator.java` is
`src/main/java/com/codigoquatro/atendimento_ai/ai/AiServiceSimulator.java`, and
the other files sit under `src/main/java/com/codigoquatro/atendimento_ai/`.

| member | source | states |
|---|---|---|
| Text.TrimShape | src/main/java/com/codigoquatro/atendimento_ai/controller/ChatController.java:31 | the result of `trim()` neither starts nor ends with a character at or below U+0020; it is empty exactly when every character of the input is one, which makes `trim().isEmpty()` mean "all white space or control characters" |
| Text.TrimIdempotent | src/main/java/com/codigoquatro/atendimento_ai/ai/AiServiceSimulator.java:216 | trimming an already trimmed reply changes nothing |
| Text.TrimPadding | src/main/java/com/codigoquatro/atendimento_ai/ai/AiServiceSimulator.java:75 | trimmable padding on either side of a question does not change its trimmed form, so it does not change whether the question is blank |
| Text.LowerTrimCommute | src/main/java/com/codigoquatro/atendimento_ai/service/SmComponentesScraperService.java:45 | lower-casing and trimming commute, because lower-casing never maps a trimmable character to a kept one or back |
| Text.NormalizeIdempotent | src/main/java/com/codigoquatro/atendimento_ai/service/SmComponentesScraperService.java:45 | a normalised query is its own normal form, so a cache key normalises to itself |
| Text.NormalizeIgnoresCaseAndPadding | src/main/java/com/codigoquatro/atendimento_ai/service/SmComponentesScraperService.java:45 | queries that differ only in letter case or trimmable padding get the same cache key |
| Relevance.Qualifying | src/main/java/com/codigoquatro/atendimento_ai/ai/AiServiceSimulator.java:111 | the filter stage keeps exactly the positions scoring at least 0.70, in knowledge-base order |
| Relevance.SortByScore | src/main/java/com/codigoquatro/atendimento_ai/ai/AiServiceSimulator.java:112 | the sort stage returns a permutation of the qualifying positions: same length, same elements with the same multiplicities |
| Relevance.SortByScoreCorrect | src/main/java/com/codigoquatro/atendimento_ai/ai/AiServiceSimulator.java:112 | the sort is a permutation that orders by descending score and keeps knowledge-base order among equal scores (stability) |
| Relevance.RelevantPositionsCorrect | src/main/java/com/codigoquatro/atendimento_ai/ai/AiServiceSimulator.java:106-115 | exactly min(3, number qualifying) positions, each qualifying, ranked; all qualifying positions when there are at most three; every qualifying position left out ranks after every one returned |
| Relevance.FindRelevantEntries | src/main/java/com/codigoquatro/atendimento_ai/ai/AiServiceSimulator.java:102-116 | `findRelevantEntriesBySimilarity` returns at most three entries, each taken from the knowledge base |
| Relevance.FindRelevantEntriesCorrect | src/main/java/com/codigoquatro/atendimento_ai/ai/AiServiceSimulator.java:102-116 | an empty knowledge base gives no entry; otherwise exactly min(3, number qualifying) entries, each from the knowledge base and scoring at least 0.70, with non-increasing scores; every qualifying entry when at most three qualify; a qualifying entry left out scores no higher than any entry returned |
| Prompting.BuildContext | src/main/java/com/codigoquatro/atendimento_ai/ai/AiServiceSimulator.java:118-151 | the builder loops leave exactly the context text: the institutional section, then the product blocks or the category links |
| Prompting.JoinedAppend | src/main/java/com/codigoquatro/atendimento_ai/ai/AiServiceSimulator.java:123-125 | appending pieces for two lists one after the other gives the pieces of the concatenated list |
| Prompting.ContextMentionsEverything | src/main/java/com/codigoquatro/atendimento_ai/ai/AiServiceSimulator.java:121-138 | every selected answer line and every product block occurs in the context |
| Prompting.InstitutionalSectionIffEntries | src/main/java/com/codigoquatro/atendimento_ai/ai/AiServiceSimulator.java:121-127 | the context opens with the institutional header exactly when there is at least one entry |
| Prompting.CategoryFallbackIffNoProducts | src/main/java/com/codigoquatro/atendimento_ai/ai/AiServiceSimulator.java:129-150 | the context ends with the category links exactly when no product was found |
| Prompting.FormatLayout | src/main/java/com/codigoquatro/atendimento_ai/ai/AiServiceSimulator.java:154-172 | `formatted` puts the five pieces (lead, context, middle, question, tail) at fixed offsets and the length is their sum |
| Prompting.FormatInjective | src/main/java/com/codigoquatro/atendimento_ai/ai/AiServiceSimulator.java:154-172 | two prompts from one template with contexts of one length are equal only if context and question both are, so the prompt determines what was put in it |
| Prompting.PromptQuotesQuestion | src/main/java/com/codigoquatro/atendimento_ai/ai/AiServiceSimulator.java:168-169 | in the prompt the question stands between two double quotes |
| Scraper.CategoryNameFromUrl | src/main/java/com/codigoquatro/atendimento_ai/service/SmComponentesScraperService.java:104-114 | `getCategoryNameFromUrl` answers "Outros" or the name paired with a fragment the URL holds |
| Scraper.CategoryNameFromUrlIsTableWalk | src/main/java/com/codigoquatro/atendimento_ai/service/SmComponentesScraperService.java:104-114 | the if-chain equals a walk over the (fragment, name) table in the chain's order |
| Scraper.FirstNamedFirstMatch | src/main/java/com/codigoquatro/atendimento_ai/service/SmComponentesScraperService.java:104-114 | the table walk answers "Outros" when no fragment occurs, and otherwise the name of the first fragment that occurs |
| Scraper.CategoryNameFromUrlFirstMatch | src/main/java/com/codigoquatro/atendimento_ai/service/SmComponentesScraperService.java:104-114 | the URL gets "Outros" exactly when it holds none of the eight fragments, and otherwise the name paired with the first fragment it holds |
| Scraper.SlugFragment | src/main/java/com/codigoquatro/atendimento_ai/service/SmComponentesScraperService.java:105-112 | a page whose slug is `categoria-` followed by a table fragment gets a real category name |
| Scraper.KeywordPagesAreNamed | src/main/java/com/codigoquatro/atendimento_ai/service/SmComponentesScraperService.java:25-38 | every page the keyword table can send a search to gets a real category name, never "Outros" |
| Scraper.ScrapeCategoryPage | src/main/java/com/codigoquatro/atendimento_ai/service/SmComponentesScraperService.java:73-102 | the loop collects, in document order, exactly the rows the filter keeps; a failed fetch gives no product |
| Scraper.ProductsFrom | src/main/java/com/codigoquatro/atendimento_ai/service/SmComponentesScraperService.java:85-94 | the row loop, with its filter (`Keeps`) and product construction (`ToProduct`), yields at most one product per row, each carrying the category name of the page |
| Scraper.ProductsFromAppend | src/main/java/com/codigoquatro/atendimento_ai/service/SmComponentesScraperService.java:85-94 | the row filter distributes over concatenation: rows are judged one by one and keep their order |
| Scraper.ProductsFromSingle | src/main/java/com/codigoquatro/atendimento_ai/service/SmComponentesScraperService.java:89-93 | one row gives a product exactly when its trimmed name is non-empty, its `href` is non-empty and its lower-cased name contains the query |
| Scraper.ScrapedProductsWellFormed | src/main/java/com/codigoquatro/atendimento_ai/service/SmComponentesScraperService.java:85-101 | every scraped product has a non-empty trimmed name containing the query once lower-cased, the page's category name, and a URL that is the base URL followed by a non-empty `href` |
| Scraper.FirstKeywordCorrect | src/main/java/com/codigoquatro/atendimento_ai/service/SmComponentesScraperService.java:58-64 | the keyword loop finds nothing exactly when no keyword in iteration order occurs; what it finds occurs and no earlier keyword does |
| Scraper.FirstKeywordNoneIff | src/main/java/com/codigoquatro/atendimento_ai/service/SmComponentesScraperService.java:58-64 | under any complete iteration order, nothing is found exactly when the query holds none of the twelve keywords |
| Scraper.FindCategoryPage | src/main/java/com/codigoquatro/atendimento_ai/service/SmComponentesScraperService.java:58-64 | the loop with `break` returns the page of the first keyword in iteration order that the query contains |
| Scraper.LookupCorrect | src/main/java/com/codigoquatro/atendimento_ai/service/SmComponentesScraperService.java:55-64 | a miss fetches at most one page; none, and finds nothing, exactly when no keyword occurs; the fetched page belongs to a keyword that occurs; every product found is well formed with a real category name |
| Scraper.ScraperService.constructor | src/main/java/com/codigoquatro/atendimento_ai/service/SmComponentesScraperService.java:40-41 | both caches start empty and agree on their keys |
| Scraper.ScraperService.SearchProducts | src/main/java/com/codigoquatro/atendimento_ai/service/SmComponentesScraperService.java:44-71 | a fresh entry is returned as stored, with no fetch and no change to either map; otherwise the lookup result is returned and stored under the normalised key, even when empty, with an expiry 60 minutes on; other keys keep their entries and the two maps keep the same keys |
| Assistant.AnswerFrom | src/main/java/com/codigoquatro/atendimento_ai/ai/AiServiceSimulator.java:205-216 | a 200 reply with content gives that content trimmed; every other reply gives the apology; the answer is always its own trimmed form |
| Assistant.ApologyIsTrimmed | src/main/java/com/codigoquatro/atendimento_ai/ai/AiServiceSimulator.java:98 | the fixed apology has no leading or trailing white space |
| Assistant.AiServiceSimulator.constructor | src/main/java/com/codigoquatro/atendimento_ai/ai/AiServiceSimulator.java:38-49 | the service starts with an empty knowledge base and the scraper it is given |
| Assistant.AiServiceSimulator.Init | src/main/java/com/codigoquatro/atendimento_ai/ai/AiServiceSimulator.java:59-71 | the knowledge base becomes the loaded list, or the empty list when loading failed |
| Assistant.AiServiceSimulator.GetAnswerForQuestion | src/main/java/com/codigoquatro/atendimento_ai/ai/AiServiceSimulator.java:74-100 | a missing or blank question gets the greeting with no search, no prompt and no change to the scraper; otherwise exactly one product search, which leaves the cache, the expiry map and the fetch log as `searchProducts` does for the normalised question, one prompt built from the relevant entries and the products found, and the answer made from the completion reply |
| Interactions.Find | src/main/java/com/codigoquatro/atendimento_ai/service/InteractionService.java:32-34 | a record is found exactly when one carries the id, and what is found is a stored record with that id |
| Interactions.InteractionService.FindById | src/main/java/com/codigoquatro/atendimento_ai/service/InteractionService.java:32-34 | `findById` finds a stored record exactly when one carries the id, and the record found carries it |
| Interactions.FindNumbered | src/main/java/com/codigoquatro/atendimento_ai/service/InteractionService.java:32-34 | in a store numbered from one, id `n` finds the `n`-th record saved, and ids outside the store find nothing |
| Interactions.FindFirst | src/main/java/com/codigoquatro/atendimento_ai/service/InteractionService.java:32-34 | a record whose id no earlier record carries is what the lookup returns |
| Interactions.FindAfterAppend | src/main/java/com/codigoquatro/atendimento_ai/service/InteractionService.java:32-34 | saving more records never changes what an id already stored finds |
| Interactions.InteractionService.constructor | src/main/java/com/codigoquatro/atendimento_ai/service/InteractionService.java:12-16 | the store starts empty |
| Interactions.InteractionService.SaveInitialInteraction | src/main/java/com/codigoquatro/atendimento_ai/service/InteractionService.java:19-22 | exactly one record is appended, with the question, no answer and the next id; it is returned and can be found by that id; the AI is not called |
| Interactions.InteractionService.ProcessQuestion | src/main/java/com/codigoquatro/atendimento_ai/service/InteractionService.java:25-29 | the AI is called exactly once with the question; on an answer exactly one record holding question and answer is appended, returned and findable by its id; on an exception nothing is appended |
| Chat.HandleQuestion | src/main/java/com/codigoquatro/atendimento_ai/controller/ChatController.java:28-54 | status 400 exactly when the question is missing, null or blank, with the fixed JSON error and no service call; otherwise one service call with the untrimmed question and status 200, the body being the record's answer or, on an exception, the fixed HTML paragraph |
| Chat.GateIgnoresPadding | src/main/java/com/codigoquatro/atendimento_ai/controller/ChatController.java:31-38 | padding a question with white space never changes whether it is accepted, and an accepted question reaches the service with its padding |

## Left out

- The HTTP call to OpenRouter is not modelled: the request body, headers, API key, model name and timeouts. The model starts from what came back, `complete(prompt)`: a status with the extracted content, or a transport failure.
- JSON parsing of the completion reply is not modelled either. A missing `choices` array, which makes the Java code throw a `NullPointerException`, is folded into "no content". Non-text content nodes are not modelled.
- Loading the knowledge base from `knowledge_base.json` is I/O. `Init` receives the parsed list, or `None` when reading or parsing failed.
- The Jaro-Winkler similarity is a parameter. Nothing is proved about the metric itself.
- Jsoup fetching and HTML selection are a parameter. `fetch` returns the title text and `href` of every product link in document order, or a failure standing for the `IOException` the scraper catches.
- Runtime exceptions other than `IOException` thrown while scraping are not modelled. So are exceptions from `buildContext` or `buildPrompt`. In the Java code the `catch (Exception e)` of `getAnswerForQuestion` would turn them into the apology.
- The iteration order of `Map.ofEntries` is unspecified in Java. It is a parameter `order`, required to be a permutation of the twelve table positions.
- Text.Lower: lower-cases only ASCII `A`-`Z` and the Latin-1 capitals U+00C0..U+00DE except U+00D7. Other scripts and special mappings of `toLowerCase()` are left out, because the shop's Portuguese text does not need them.
- Scraper.ScraperService.SearchProducts: the clock is an integer count of minutes. The Java code reads the clock twice, once to test expiry and once to set the new expiry. The model uses one reading for both.
- Scraper.FindCategoryPage: the scrape the Java loop performs before its `break` is done by `SearchProducts` right after the loop returns. The pages fetched and the results are the same.
- The threshold is the exact rational 0.70, while the Java code compares a `double` score with the `double` nearest to 0.70, which lies slightly below it. A score equal to that `double` is kept by the Java code and dropped by the model. Similarity scores are reals, not `double`s.
- `KnowledgeEntry` fields are never null in the model. In the Java code a knowledge-base item without `answer` makes `buildContext` append `- null`, and one without `question` makes the matcher throw a `NullPointerException`, which turns every non-blank question into the apology.
- Strings are sequences of Unicode code points, while Java strings are UTF-16 code units. Lengths and offsets differ for characters outside the Basic Multilingual Plane, such as the emoji in the fixed texts; `trim()` and `contains` behave the same on both.
- Concurrency is not modelled: the `ConcurrentHashMap` caches and simultaneous requests. Logging and `Thread.interrupt()` are side effects with no bearing on results, and are left out.
- The repository is modelled as a sequence whose identity column numbers records 1, 2, 3, … in save order. Save failures are not modelled, such as a database error or a null answer rejected by the `nullable = false` column. The `createdAt` timestamp is not modelled.
- `AiService.java` and `InteractionLogRepository` are not part of this model beyond their use here. The AI service is a function from question to answer or exception.
- The optional `description` and `imageUrl` of `Product` are never set by the core and are dropped.
- The web layer is not modelled: Spring routing, JSON request binding and the response content type. The controller receives the request body as a map from keys to nullable strings.
