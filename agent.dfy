/**
 * The agent object: its construction (`DomainQAAgent.__init__` with `_create_agent`'s
 * prompt assembly) and its conversation memory (`achat`, `reset_memory`).
 *
 * The language model, the tools and the agent executor are not modelled: one call of
 * the executor is represented by its outcome, a parameter of `AChat`, and `AChat`
 * returns the history window it would hand to the executor.
 */
module Agent {
  import opened Wrappers
  import opened Sites
  import KnowledgeSources
  import Prompt

  /** A chat-history entry: a `HumanMessage` or an `AIMessage` with its content. */
  datatype Message = Human(content: string) | AI(content: string)

  /**
   * What one `agent_executor.ainvoke` call did: it returned a response, which has an
   * "output" entry or not, or it raised an exception with the given text.
   */
  datatype ExecutorOutcome = Returned(output: Option<string>) | Raised(message: string)

  /** The one configuration entry the modelled code reads (the others configure remote clients). */
  datatype Config = Config(maxSearchResults: Option<int>)

  /** Why the agent cannot be constructed. */
  datatype InitError = ConfigurationRequired | SchemaFailure(error: SchemaError)

  /** How many of the most recent messages are forwarded to the executor. */
  const HistoryWindow: int := 5
  const NoOutputAnswer: string := "I couldn't process your request."
  const ErrorPrefix: string := "Error: "
  const DefaultMaxSearchResults: int := 10

  /** `config.get("max_search_results", 10)`. */
  function MaxSearchResults(c: Config): int
  {
    match c.maxSearchResults
    case Some(n) => n
    case None => DefaultMaxSearchResults
  }

  /** Python's `s[start:]`: a negative start counts from the end, and both are clamped to the bounds. */
  function SliceFrom<T>(s: seq<T>, start: int): (r: seq<T>)
    ensures |r| == if start < 0 then (if -start < |s| then -start else |s|) else (if start < |s| then |s| - start else 0)
    ensures r == s[|s| - |r|..]
  {
    var b := if start < 0 then (if |s| + start < 0 then 0 else |s| + start)
             else (if start > |s| then |s| else start);
    s[b..]
  }

  /** `chat_history[-5:] if chat_history else []`: the most recent five messages, or all of them. */
  function ForwardedHistory(h: seq<Message>): (w: seq<Message>)
    ensures |w| == if |h| < HistoryWindow then |h| else HistoryWindow
    ensures w == h[|h| - |w|..]
    ensures h == [] ==> w == []
  {
    if h != [] then SliceFrom(h, -HistoryWindow) else []
  }

  /** Once five messages follow them, older messages are never forwarded again. */
  lemma ForwardedIgnoresOlder(older: seq<Message>, recent: seq<Message>)
    requires |recent| >= HistoryWindow
    ensures ForwardedHistory(older + recent) == ForwardedHistory(recent)
  {
    var h := older + recent;
    assert h[|h| - HistoryWindow..] == recent[|recent| - HistoryWindow..];
  }

  /** The history is a sequence of turns: a human message, then the answer to it. */
  ghost predicate Alternating(h: seq<Message>)
  {
    |h| % 2 == 0 && forall i :: 0 <= i < |h| ==> (h[i].Human? <==> i % 2 == 0)
  }

  /** Recording one turn keeps the history a sequence of turns. */
  lemma AlternatingAfterTurn(h: seq<Message>, question: string, answer: string)
    requires Alternating(h)
    ensures Alternating(h + [Human(question), AI(answer)])
  {
    var h' := h + [Human(question), AI(answer)];
    forall i | 0 <= i < |h'| ensures h'[i].Human? <==> i % 2 == 0 {
      if i < |h| {
        assert h'[i] == h[i];
      }
    }
  }

  /**
   * The window counts messages, not turns: once the history holds three turns or more,
   * the forwarded window opens with an answer whose question is not forwarded.
   */
  lemma {:induction false} WindowOpensWithAnswer(h: seq<Message>)
    requires Alternating(h) && |h| > HistoryWindow
    ensures ForwardedHistory(h)[0].AI?
    ensures ForwardedHistory(h)[0] == h[|h| - HistoryWindow]
  {
    var k := |h| - HistoryWindow;
    assert k % 2 == 1 by {
      assert |h| % 2 == 0;
    }
    assert ForwardedHistory(h)[0] == h[k];
  }

  class DomainQAAgent {
    /** The site rows the agent was built from. */
    const sites: seq<Row>
    /** The system message the executor's prompt was assembled with. */
    const systemPrompt: string
    /** `chat_history`: every message of every completed turn, oldest first. */
    var chatHistory: seq<Message>

    ghost predicate Valid()
      reads this
    {
      Alternating(chatHistory)
    }

    /**
     * The part of `__init__` that follows a successful load: an empty history and the
     * system prompt built from the rendered knowledge sources (`_create_agent`).
     */
    constructor (sites: seq<Row>, maxSearchResults: int, wording: Prompt.Wording)
      ensures Valid()
      ensures this.sites == sites && chatHistory == []
      ensures systemPrompt == Prompt.SystemPrompt(wording, KnowledgeSources.KnowledgeSourcesText(sites),
        KnowledgeSources.Domains(sites), maxSearchResults)
    {
      var md, domains := KnowledgeSources.BuildKnowledgeSourcesText(sites);
      this.sites := sites;
      systemPrompt := Prompt.SystemPrompt(wording, md, domains, maxSearchResults);
      chatHistory := [];
    }

    /**
     * `achat`: forward the recent window with the input; on a normal return record the
     * turn and answer with the response's "output" (or the fallback text); on an
     * exception answer with the error text and leave the history as it was.
     */
    method AChat(userInput: string, outcome: ExecutorOutcome) returns (answer: string, forwarded: seq<Message>)
      requires Valid()
      modifies this`chatHistory
      ensures Valid()
      ensures forwarded == ForwardedHistory(old(chatHistory))
      ensures outcome.Returned? ==>
        answer == (if outcome.output.Some? then outcome.output.value else NoOutputAnswer)
        && chatHistory == old(chatHistory) + [Human(userInput), AI(answer)]
      ensures outcome.Raised? ==>
        answer == ErrorPrefix + outcome.message && chatHistory == old(chatHistory)
    {
      forwarded := if chatHistory != [] then SliceFrom(chatHistory, -HistoryWindow) else [];
      match outcome {
        case Raised(message) =>
          answer := ErrorPrefix + message;
        case Returned(output) =>
          answer := match output {
            case Some(text) => text
            case None => NoOutputAnswer
          };
          AlternatingAfterTurn(chatHistory, userInput, answer);
          chatHistory := chatHistory + [Human(userInput), AI(answer)];
      }
    }

    /** `reset_memory`: the history becomes empty, whatever it held. */
    method ResetMemory()
      modifies this`chatHistory
      ensures Valid() && chatHistory == []
    {
      chatHistory := [];
    }
  }

  /**
   * `DomainQAAgent.__init__`: a missing configuration is refused first, then a table
   * that fails the schema check; otherwise the agent is built from the table's rows
   * with the configured (or default) search-result limit.
   */
  method NewDomainQAAgent(config: Option<Config>, table: Table, wording: Prompt.Wording)
    returns (r: Result<DomainQAAgent, InitError>)
    requires Rectangular(table)
    ensures config.None? ==> r == Failure(ConfigurationRequired)
    ensures config.Some? && LoadSitesData(table).Failure? ==> r == Failure(SchemaFailure(LoadSitesData(table).error))
    ensures r.Success? <==> config.Some? && LoadSitesData(table).Success?
    ensures r.Success? ==>
      fresh(r.value) && r.value.Valid() && r.value.chatHistory == []
      && HasSiteCells(table.records) && r.value.sites == SiteRows(table.records)
      && r.value.systemPrompt == Prompt.SystemPrompt(wording,
           KnowledgeSources.KnowledgeSourcesText(r.value.sites), KnowledgeSources.Domains(r.value.sites),
           MaxSearchResults(config.value))
  {
    if config.None? {
      return Failure(ConfigurationRequired);
    }
    match LoadSitesData(table) {
      case Failure(e) =>
        r := Failure(SchemaFailure(e));
      case Success(t) =>
        LoadedTableHasSiteCells(table);
        var agent := new DomainQAAgent(SiteRows(t.records), MaxSearchResults(config.value), wording);
        r := Success(agent);
    }
  }

  /**
   * A reset followed by a question: nothing said before the reset is forwarded, and a
   * normal return leaves exactly the new turn in the history.
   */
  method ResetThenAsk(agent: DomainQAAgent, userInput: string, outcome: ExecutorOutcome)
    returns (answer: string, forwarded: seq<Message>)
    requires agent.Valid()
    modifies agent`chatHistory
    ensures agent.Valid() && forwarded == []
    ensures outcome.Returned? ==> agent.chatHistory == [Human(userInput), AI(answer)]
    ensures outcome.Raised? ==> agent.chatHistory == []
  {
    agent.ResetMemory();
    answer, forwarded := agent.AChat(userInput, outcome);
  }
}
