/** The two text builders of `AiServiceSimulator`: `buildContext`, which
    appends knowledge-base answers and scraped products (or, when no product
    was found, a fixed list of category links) to a `StringBuilder`, and
    `buildPrompt`, which drops the context and the question into a fixed
    template. */
module Prompting {
  import opened Text
  import opened Domain

  // Each header's leading emoji is written as a literal of its own, so that
  // the first character of a header is visible without walking the whole text.
  const InstitutionalHeader: string := "ℹ️" + " Informações institucionais:\n"
  const ProductsHeader: string := "🔌" + " **Produtos encontrados na SM Componentes:**\n"

  /** The block appended when no product was found. */
  const CategoryFallback: string :=
    "🔍" + " **Confira nossas categorias principais:**\n"
    + "- [Conectores Variados](https://smcomponentes.com.br/loja/categoria-conectores-variados)\n"
    + "- [Potenciômetros](https://smcomponentes.com.br/loja/categoria-potenciometros)\n"
    + "- [Áudio e Vídeo](https://smcomponentes.com.br/loja/categoria-audio-e-video)\n"
    + "- [Acessórios](https://smcomponentes.com.br/loja/categoria-acessorios)\n"

  /** `"- " + answer + "\n"` for one knowledge-base entry. */
  function AnswerLine(e: KnowledgeEntry): string {
    "- " + e.answer + "\n"
  }

  /** The `"- **%s** (%s)\n  🔗 [Ver produto](%s)\n\n"` block for one product. */
  function ProductBlock(p: Product): string {
    "- **" + p.name + "** (" + p.category + ")\n  🔗 [Ver produto](" + p.productUrl + ")\n\n"
  }

  /** The text of `items` rendered one `piece` after the other, in order: what
      a loop appending `piece(x)` for each `x` leaves in the builder. */
  function Joined<T>(piece: T -> string, items: seq<T>): string {
    if items == [] then []
    else Joined(piece, items[..|items| - 1]) + piece(items[|items| - 1])
  }

  /** The institutional section: present only for a non-empty entry list. */
  function InstitutionalSection(entries: seq<KnowledgeEntry>): string {
    if entries == [] then [] else InstitutionalHeader + Joined(AnswerLine, entries) + "\n"
  }

  /** The product section, or the category links when there is no product. */
  function ProductSection(products: seq<Product>): string {
    if products == [] then CategoryFallback else ProductsHeader + Joined(ProductBlock, products)
  }

  /** The text `buildContext` returns. */
  function ContextText(entries: seq<KnowledgeEntry>, products: seq<Product>): string {
    InstitutionalSection(entries) + ProductSection(products)
  }

  /** `buildContext`, appending piece by piece as the `StringBuilder` does. */
  method BuildContext(entries: seq<KnowledgeEntry>, products: seq<Product>) returns (context: string)
    ensures context == ContextText(entries, products)
  {
    var sb := "";
    if |entries| > 0 {
      AppendEmpty(InstitutionalHeader);
      sb := sb + InstitutionalHeader;
      for i := 0 to |entries|
        invariant sb == InstitutionalHeader + Joined(AnswerLine, entries[..i])
      {
        JoinedStep(InstitutionalHeader, AnswerLine, entries, i);
        sb := sb + AnswerLine(entries[i]);
      }
      assert entries[..|entries|] == entries;
      sb := sb + "\n";
    }
    assert sb == InstitutionalSection(entries);
    if |products| > 0 {
      ghost var head := sb + ProductsHeader;
      sb := sb + ProductsHeader;
      for i := 0 to |products|
        invariant sb == head + Joined(ProductBlock, products[..i])
      {
        JoinedStep(head, ProductBlock, products, i);
        sb := sb + ProductBlock(products[i]);
      }
      assert products[..|products|] == products;
      AppendAssoc(InstitutionalSection(entries), ProductsHeader, Joined(ProductBlock, products));
      return sb;
    }
    sb := sb + CategoryFallback;
    return sb;
  }

  /** One more piece appended after `head`, stated in the shape the loops hold. */
  lemma JoinedStep<T>(head: string, piece: T -> string, items: seq<T>, i: nat)
    requires i < |items|
    ensures head + Joined(piece, items[..i]) + piece(items[i]) == head + Joined(piece, items[..i + 1])
  {
    assert items[..i + 1][..i] == items[..i];
    AppendAssoc(head, Joined(piece, items[..i]), piece(items[i]));
  }

  lemma {:induction false} JoinedAppend<T>(piece: T -> string, a: seq<T>, b: seq<T>)
    ensures Joined(piece, a + b) == Joined(piece, a) + Joined(piece, b)
  {
    if b == [] {
      assert a + b == a;
    } else {
      assert (a + b)[..|a + b| - 1] == a + b[..|b| - 1];
      JoinedAppend(piece, a, b[..|b| - 1]);
    }
  }

  /** One piece per item, in input order: the pieces of the items before `k`,
      then the piece of item `k`, then the pieces of the rest. */
  lemma JoinedAt<T>(piece: T -> string, items: seq<T>, k: nat)
    requires k < |items|
    ensures Joined(piece, items)
         == Joined(piece, items[..k]) + piece(items[k]) + Joined(piece, items[k + 1..])
  {
    var init := items[..k + 1];
    assert items == init + items[k + 1..];
    JoinedAppend(piece, init, items[k + 1..]);
    assert init[..k] == items[..k];
  }

  /** The context mentions every entry's answer line and every product's
      block (name, category and URL). */
  lemma ContextMentionsEverything(entries: seq<KnowledgeEntry>, products: seq<Product>)
    ensures forall k :: 0 <= k < |entries| ==> Contains(ContextText(entries, products), AnswerLine(entries[k]))
    ensures forall k :: 0 <= k < |products| ==> Contains(ContextText(entries, products), ProductBlock(products[k]))
  {
    var section := InstitutionalSection(entries);
    var ctx := ContextText(entries, products);
    ContainsEachHalf(section, ProductSection(products));
    if entries != [] {
      var lines := Joined(AnswerLine, entries);
      ContainsEachHalf(InstitutionalHeader, lines);
      ContainsEachHalf(InstitutionalHeader + lines, "\n");
      ContainsTransitive(ctx, section, InstitutionalHeader + lines);
      ContainsTransitive(ctx, InstitutionalHeader + lines, lines);
      forall k | 0 <= k < |entries| ensures Contains(ctx, AnswerLine(entries[k])) {
        JoinedAt(AnswerLine, entries, k);
        ContainsInfix(Joined(AnswerLine, entries[..k]), AnswerLine(entries[k]), Joined(AnswerLine, entries[k + 1..]));
        ContainsTransitive(ctx, lines, AnswerLine(entries[k]));
      }
    }
    if products != [] {
      var blocks := Joined(ProductBlock, products);
      ContainsEachHalf(ProductsHeader, blocks);
      ContainsTransitive(ctx, ProductsHeader + blocks, blocks);
      forall k | 0 <= k < |products| ensures Contains(ctx, ProductBlock(products[k])) {
        JoinedAt(ProductBlock, products, k);
        ContainsInfix(Joined(ProductBlock, products[..k]), ProductBlock(products[k]), Joined(ProductBlock, products[k + 1..]));
        ContainsTransitive(ctx, blocks, ProductBlock(products[k]));
      }
    }
  }

  /** The context opens with the institutional header exactly when there is at
      least one knowledge-base entry. */
  lemma InstitutionalSectionIffEntries(entries: seq<KnowledgeEntry>, products: seq<Product>)
    ensures entries != [] <==> IsPrefix(InstitutionalHeader, ContextText(entries, products))
  {
    var rest := ProductSection(products);
    if entries == [] {
      AppendEmpty(rest);
      if products == [] {
        assert rest[0] == '🔍';
      } else {
        assert rest[0] == ProductsHeader[0] == '🔌';
      }
    } else {
      var lines := Joined(AnswerLine, entries);
      AppendAssoc(InstitutionalHeader + lines, "\n", rest);
      AppendAssoc(InstitutionalHeader, lines, "\n" + rest);
      PrefixOfAppend(InstitutionalHeader, lines + ("\n" + rest));
    }
  }

  /** Every product block, and so every non-empty product list, ends with a
      blank line. */
  lemma ProductBlocksEndWithBlankLine(products: seq<Product>)
    requires products != []
    ensures var blocks := Joined(ProductBlock, products);
      |blocks| >= 2 && blocks[|blocks| - 2] == '\n' && blocks[|blocks| - 1] == '\n'
  {
    var last := ProductBlock(products[|products| - 1]);
    assert last[|last| - 2] == '\n' && last[|last| - 1] == '\n';
  }

  /** A string ending in `t` has `t`'s next-to-last character there too. */
  lemma SuffixNextToLast(t: string, s: string)
    requires |t| >= 2
    ensures IsSuffix(t, s) ==> t[|t| - 2] == s[|s| - 2]
  {
    if IsSuffix(t, s) {
      assert s[|s| - |t|..][|t| - 2] == s[|s| - 2];
    }
  }

  /** The category links close the context exactly when no product was found:
      a product section always ends with a blank line, the links never do. */
  lemma CategoryFallbackIffNoProducts(entries: seq<KnowledgeEntry>, products: seq<Product>)
    ensures products == [] <==> IsSuffix(CategoryFallback, ContextText(entries, products))
  {
    var section := InstitutionalSection(entries);
    if products == [] {
      PrefixOfAppend(section, CategoryFallback);
    } else {
      var blocks := Joined(ProductBlock, products);
      ProductBlocksEndWithBlankLine(products);
      assert ContextText(entries, products)[|ContextText(entries, products)| - 2] == '\n' by {
        AppendAssoc(section, ProductsHeader, blocks);
      }
      assert CategoryFallback[|CategoryFallback| - 2] == ')';
      SuffixNextToLast(CategoryFallback, ContextText(entries, products));
    }
  }

  const PromptIntro: string :=
    "Você é um atendente especializado da **SM Componentes**, loja especializada em componentes eletrônicos como:\n"
    + "conectores, cabos, adaptadores, potenciômetros, bornes, plugs e acessórios técnicos.\n"
    + "\n"
    + "Sua missão:\n"
    + "- Responder com clareza, precisão técnica e cordialidade.\n"
    + "- Sempre que houver produtos listados acima, mencione-os com nome e link.\n"
    + "- Se não souber a resposta exata, NÃO invente. Diga: \"Vou verificar com nosso time técnico e te respondo em breve!\"\n"
    + "- Use emojis técnicos (🔌, ⚡, 📡, 🔌) com moderação.\n"
    + "- Finalize com uma chamada para ação: \"Precisa de ajuda para escolher?\", \"Quer que eu te envie o link direto?\"\n"
    + "\n"
    + "Contexto disponível:\n"

  /** What stands between the context and the question, up to the opening quote. */
  const PromptQuestionLead: string := "\n\nPergunta do cliente:\n\""

  /** What follows the question, from the closing quote on. */
  const PromptClosing: string := "\"" + "\n\nResposta (em português do Brasil, profissional e útil):\n"

  /** A text with two `%s` slots, cut at the slots: `lead`, then the first
      argument, then `middle`, then the second argument, then `tail`. */
  datatype Template = Template(lead: string, middle: string, tail: string)

  /** `String.formatted(first, second)` on a two-slot template: the arguments
      go in verbatim (a `%` inside an argument is not interpreted). */
  function Format(t: Template, first: string, second: string): string {
    t.lead + first + t.middle + second + t.tail
  }

  /** The prompt text block of `buildPrompt`, cut at its two slots. */
  const PromptTemplate: Template := Template(PromptIntro, PromptQuestionLead, PromptClosing)

  /** `buildPrompt`: the context goes in the first slot, the question in the
      second. */
  function BuildPrompt(question: string, context: string): string {
    Format(PromptTemplate, context, question)
  }

  /** Each of the five pieces of a formatted template sits at a fixed offset,
      with nothing else in between. */
  lemma FormatLayout(t: Template, first: string, second: string)
    ensures var r := Format(t, first, second);
      var at := |t.lead| + |first| + |t.middle|;
      && |r| == at + |second| + |t.tail|
      && OccursAt(r, t.lead, 0)
      && OccursAt(r, first, |t.lead|)
      && OccursAt(r, t.middle, |t.lead| + |first|)
      && OccursAt(r, second, at)
      && OccursAt(r, t.tail, at + |second|)
  {
    var r := Format(t, first, second);
    var at := |t.lead| + |first| + |t.middle|;
    assert r[at..at + |second|] == second;
  }

  /** Two texts formatted from one template with first arguments of one
      length are equal only for equal arguments: nothing of either argument
      is lost. */
  lemma FormatInjective(t: Template, a1: string, b1: string, a2: string, b2: string)
    requires |a1| == |a2| && Format(t, a1, b1) == Format(t, a2, b2)
    ensures a1 == a2 && b1 == b2
  {
    FormatLayout(t, a1, b1);
    FormatLayout(t, a2, b2);
  }

  /** In the prompt the question stands between double quotes. */
  lemma PromptQuotesQuestion(question: string, context: string)
    ensures var r := BuildPrompt(question, context);
      var at := |PromptIntro| + |context| + |PromptQuestionLead|;
      |r| > at + |question| && r[at - 1] == '"' && r[at + |question|] == '"'
  {
    var r := BuildPrompt(question, context);
    var at := |PromptIntro| + |context| + |PromptQuestionLead|;
    FormatLayout(PromptTemplate, context, question);
    assert r[at - 1] == r[|PromptIntro| + |context|..at][|PromptQuestionLead| - 1];
    assert r[at + |question|] == r[at + |question|..][0];
  }
}
