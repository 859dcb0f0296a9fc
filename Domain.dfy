/** The plain records the core passes around. Getters, setters, JPA
    annotations and the `createdAt` timestamp are not modelled. */
module Domain {
  import opened Wrappers

  /** One curated question/answer pair of the bundled knowledge base. */
  datatype KnowledgeEntry = KnowledgeEntry(question: string, answer: string)

  /** A product row scraped from a storefront category page; the optional
      description and image URL are never set by the core and are dropped. */
  datatype Product = Product(name: string, category: string, productUrl: string)

  /** A persisted question/answer pair. `id` is `None` until the store assigns
      one; `answer` is `None` for an interaction saved before it was answered. */
  datatype InteractionLog = InteractionLog(id: Option<int>, question: string, answer: Option<string>)
}
