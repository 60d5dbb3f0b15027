/** Answering one chat message (`process_chat_message`): the tenant is looked
    up, context is retrieved for the message, the prompt list is assembled
    and either the language model answers or, without a usable API key or
    when the model call fails, the canned demo reply of
    `generate_demo_response` is returned. */
module Chat {
  import opened Text
  import opened Results
  import opened Tenants
  import Retrieval

  /** One entry of the prompt list sent to the model. */
  datatype Message = Message(role: string, content: string)

  /** What the model call gives back: the first choice's text, or a failure
      (a network error, or a response without choices). */
  datatype LlmOutcome = Answer(text: string) | LlmFailure

  /** The demo reply kinds, in the order `generate_demo_response` checks them. */
  datatype DemoKind = NoKnowledge | NothingRelevant | KnowledgeTrouble | Identity | Capabilities | Summary

  // ---------------------------------------------------------------------
  // Demo replies

  /** The ordered classifier: the two sentinels, then an error context,
      then "who" and "you", then "what", "do" and "you" in the lowercased
      message, else the summary of the context. */
  function DemoKindOf(message: string, context: string): DemoKind {
    var lower := Lower(message);
    if context == Retrieval.NoDocuments then NoKnowledge
    else if context == Retrieval.NoRelevant then NothingRelevant
    else if StartsWith(context, "Error") then KnowledgeTrouble
    else if Contains(lower, "who") && Contains(lower, "you") then Identity
    else if Contains(lower, "what") && Contains(lower, "do") && Contains(lower, "you") then Capabilities
    else Summary
  }

  const Greeting: string := "Hello! I'm the AI assistant for "

  /** The text after the tenant's name in each fixed reply. */
  function DemoTail(kind: DemoKind): string {
    match kind
    case NoKnowledge =>
      ". I don't have any specific information in my knowledge base yet."
        + " Is there something else I can help you with?"
    case NothingRelevant =>
      ". I searched our knowledge base but couldn't find information"
        + " relevant to your question. Can I help you with something else?"
    case KnowledgeTrouble =>
      ". I'm currently having trouble accessing my knowledge base."
        + " Is there something general I can help you with?"
    case Identity =>
      ", designed to help answer your questions using information"
        + " from our knowledge base."
    case Capabilities =>
      " using our knowledge base. You can ask me about our products,"
        + " services, or any other information you need."
    case Summary =>
      "'s information, I found some relevant details that might help: \n\n"
  }

  /** The text before the tenant's name in each reply. */
  function DemoHead(kind: DemoKind): string {
    match kind
    case Identity => "I'm an AI assistant for "
    case Capabilities => "I can help answer questions about "
    case Summary => "Based on "
    case _ => Greeting
  }

  const SummaryClose: string := "\n\nIs there anything specific you'd like to know more about?"

  /** The reply text of each kind, for the tenant called `name`; only the
      summary quotes the context. */
  function DemoText(kind: DemoKind, name: string, context: string): string {
    if kind == Summary then DemoHead(kind) + name + (DemoTail(kind) + context + SummaryClose)
    else DemoHead(kind) + name + DemoTail(kind)
  }

  /** `generate_demo_response(message, name, context)`: every reply names the
      tenant, and the summary reply quotes the context verbatim. */
  function DemoResponse(message: string, name: string, context: string): (r: string)
    ensures Contains(r, name)
    ensures DemoKindOf(message, context) == Summary ==> Contains(r, context)
  {
    var kind := DemoKindOf(message, context);
    DemoTextNamesTenant(kind, name, context);
    DemoText(kind, name, context)
  }

  lemma DemoTextNamesTenant(kind: DemoKind, name: string, context: string)
    ensures Contains(DemoText(kind, name, context), name)
    ensures kind == Summary ==> Contains(DemoText(kind, name, context), context)
  {
    if kind == Summary {
      var rest := DemoTail(kind) + context + SummaryClose;
      ContainsInfix(DemoHead(kind), name, rest);
      ContainsInfix(DemoTail(kind), context, SummaryClose);
      ContainsInSuffix(DemoHead(kind) + name, rest, context);
    } else {
      ContainsInfix(DemoHead(kind), name, DemoTail(kind));
    }
  }

  // ---------------------------------------------------------------------
  // The prompt list

  /** The fixed prose of the system message, as the eight pieces around
      its slots: the tenant's name goes between consecutive pieces except
      between `p3` and `p4`, where the retrieved context goes. */
  datatype PromptTemplate = PromptTemplate(p0: string, p1: string, p2: string, p3: string,
                                           p4: string, p5: string, p6: string, p7: string)

  /** The system message: the tenant's name six times around the retrieved
      context. */
  function SystemPrompt(t: PromptTemplate, name: string, context: string): (r: string)
    ensures Contains(r, name) && Contains(r, context)
  {
    var middle := t.p1 + name + t.p2 + name + t.p3;
    var tail := t.p4 + name + t.p5 + name + t.p6 + name + t.p7;
    ContainsInfix(t.p0, name, middle + context + tail);
    ContainsInfix(middle, context, tail);
    ContainsInSuffix(t.p0 + name, middle + context + tail, context);
    t.p0 + name + (middle + context + tail)
  }

  /** The prompt list: the system message, the stored history as role and
      content pairs, then the current message as the user's. */
  function BuildMessages(t: PromptTemplate, name: string, context: string, history: seq<Message>, userMessage: string): (r: seq<Message>)
    ensures |r| == |history| + 2
    ensures r[0].role == "system" && Contains(r[0].content, context) && Contains(r[0].content, name)
    ensures r[1..|r| - 1] == history
    ensures r[|r| - 1] == Message("user", userMessage)
  {
    [Message("system", SystemPrompt(t, name, context))] + history + [Message("user", userMessage)]
  }

  // ---------------------------------------------------------------------
  // One chat turn

  /** The API-key check: an empty key or a placeholder starting with
      "your_" means no model is called. */
  predicate UsesDemo(key: string) {
    |key| == 0 || StartsWith(key, "your_")
  }

  /** `process_chat_message`: the model is a function from the prompt list
      to its outcome; the store rows and the retrieval fault are inputs.
      `tenantRead` is `Some(text)` when reading the tenant raises, which
      nothing here catches, so the text is passed on as the error. */
  function ProcessChatMessage(userMessage: string, history: seq<Message>, tenantId: string,
                              tenants: seq<TenantRow>, tenantRead: Option<string>, docs: seq<Retrieval.DocRow>,
                              chunks: seq<Retrieval.ChunkRow>, fault: Retrieval.Fault,
                              key: string, template: PromptTemplate, llm: seq<Message> -> LlmOutcome): (r: Result<string, string>)
    ensures tenantRead.Some? ==> r == Err(tenantRead.value)
    ensures tenantRead.None? ==> (r.Err? <==> FindTenant(tenants, tenantId).None?)
    ensures tenantRead.None? && r.Err? ==> r.error == TenantNotFound
  {
    if tenantRead.Some? then Err(tenantRead.value)
    else match FindTenant(tenants, tenantId)
    case None => Err(TenantNotFound)
    case Some(tenant) =>
      var context := Retrieval.Retrieve(userMessage, tenantId, Retrieval.DefaultNumResults, docs, chunks, fault);
      var demo := DemoResponse(userMessage, tenant.name, context);
      if UsesDemo(key) then Ok(demo)
      else
        match llm(BuildMessages(template, tenant.name, context, history, userMessage))
        case Answer(text) => Ok(text)
        case LlmFailure => Ok(demo)
  }

  // ---------------------------------------------------------------------
  // Facts

  /** Once the context is a sentinel or an error, the message plays no part
      in the demo reply. */
  lemma SentinelIgnoresMessage(m1: string, m2: string, name: string, context: string)
    requires context == Retrieval.NoDocuments || context == Retrieval.NoRelevant || StartsWith(context, "Error")
    ensures DemoResponse(m1, name, context) == DemoResponse(m2, name, context)
  {
  }

  /** Past the sentinels, the demo reply depends on the message only
      through which of "who", "what", "do" and "you" its lowercased form
      contains. */
  lemma DemoReplyDependsOnWords(m1: string, m2: string, name: string, context: string)
    requires Contains(Lower(m1), "who") <==> Contains(Lower(m2), "who")
    requires Contains(Lower(m1), "what") <==> Contains(Lower(m2), "what")
    requires Contains(Lower(m1), "do") <==> Contains(Lower(m2), "do")
    requires Contains(Lower(m1), "you") <==> Contains(Lower(m2), "you")
    ensures DemoResponse(m1, name, context) == DemoResponse(m2, name, context)
  {
    assert DemoKindOf(m1, context) == DemoKindOf(m2, context);
  }

  /** "who" with "you" is checked before "what", "do" and "you": a message
      holding all four gets the identity reply, and the capabilities reply
      is chosen only for messages without "who". */
  lemma IdentityBeforeCapabilities(message: string, name: string, context: string)
    requires context != Retrieval.NoDocuments && context != Retrieval.NoRelevant && !StartsWith(context, "Error")
    ensures Contains(Lower(message), "who") && Contains(Lower(message), "you") ==>
      DemoResponse(message, name, context) == DemoText(Identity, name, context)
    ensures DemoKindOf(message, context) == Capabilities <==>
      !(Contains(Lower(message), "who") && Contains(Lower(message), "you")) &&
      Contains(Lower(message), "what") && Contains(Lower(message), "do") && Contains(Lower(message), "you")
  {
  }

  /** The retrieval failure sentinel is read as an error context, distinct
      from the other two sentinels. */
  lemma FailureSentinelIsTrouble(message: string)
    ensures DemoKindOf(message, Retrieval.RetrievalFailed) == KnowledgeTrouble
  {
    assert Retrieval.RetrievalFailed[..5] == "Error";
  }

  /** The demo reply is used exactly when the key is a placeholder or the
      model call fails; otherwise the model's text is the reply. */
  lemma ReplySource(userMessage: string, history: seq<Message>, tenantId: string,
                    tenants: seq<TenantRow>, docs: seq<Retrieval.DocRow>,
                    chunks: seq<Retrieval.ChunkRow>, fault: Retrieval.Fault,
                    key: string, template: PromptTemplate, llm: seq<Message> -> LlmOutcome, tenant: TenantRow)
    requires FindTenant(tenants, tenantId) == Some(tenant)
    ensures var context := Retrieval.Retrieve(userMessage, tenantId, Retrieval.DefaultNumResults, docs, chunks, fault);
      var prompt := BuildMessages(template, tenant.name, context, history, userMessage);
      var r := ProcessChatMessage(userMessage, history, tenantId, tenants, None, docs, chunks, fault, key, template, llm);
      && (UsesDemo(key) || llm(prompt).LlmFailure? ==> r == Ok(DemoResponse(userMessage, tenant.name, context)))
      && (!UsesDemo(key) && llm(prompt).Answer? ==> r == Ok(llm(prompt).text))
  {
  }

  /** A tenant without processed documents gets the "no knowledge" demo
      reply, whatever the message. */
  lemma DemoWithoutDocuments(userMessage: string, history: seq<Message>, tenantId: string,
                             tenants: seq<TenantRow>, docs: seq<Retrieval.DocRow>,
                             chunks: seq<Retrieval.ChunkRow>, key: string,
                             template: PromptTemplate, llm: seq<Message> -> LlmOutcome, tenant: TenantRow)
    requires FindTenant(tenants, tenantId) == Some(tenant)
    requires !Retrieval.HasProcessed(docs, tenantId) && UsesDemo(key)
    ensures ProcessChatMessage(userMessage, history, tenantId, tenants, None, docs, chunks, Retrieval.NoFault, key, template, llm)
         == Ok(DemoText(NoKnowledge, tenant.name, Retrieval.NoDocuments))
  {
  }

  /** The chat endpoint stores the user's message before it reads the
      history, so when the history ends with that message the prompt list
      carries it twice in a row. */
  lemma UserMessageTwice(t: PromptTemplate, name: string, context: string, history: seq<Message>, userMessage: string)
    requires |history| > 0 && history[|history| - 1] == Message("user", userMessage)
    ensures var r := BuildMessages(t, name, context, history, userMessage);
      r[|r| - 2] == r[|r| - 1] == Message("user", userMessage)
  {
    var r := BuildMessages(t, name, context, history, userMessage);
    assert r[|r| - 2] == r[1..|r| - 1][|history| - 1];
  }
}
