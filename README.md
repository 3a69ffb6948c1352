# Domain-scoped Q&A agent: catalog, prompt and conversation memory

This project models the self-contained logic of `qa_agent.py`, the Q&A agent that restricts a
language-model agent to a curated catalog of documentation sites. It proves properties of the model:

- **The sites catalog** (module `Sites`, `sites.dfy`). A table is a column list and its records. The
  schema check of `load_sites_data` computes which of `site`, `domain` and `description` are missing,
  in that order. The load fails exactly when that list is non-empty; otherwise the table comes back
  unchanged.
- **Knowledge-source grouping and rendering** (module `KnowledgeSources`, `knowledge_sources.dfy`).
  `build_knowledge_sources_text` is imperative, and the model keeps its two loops. The first
  fills a domain list and a domain-to-group dictionary (`GroupByDomain`). The second accumulates
  the Markdown with `+=` (`RenderSections`). The source's second loop walks
  `domain_groups.items()`; `RenderSections` walks `domains` and looks each domain up in the
  dictionary. The order is the same, because the code inserts each key right after appending its
  domain to the list (qa_agent.py:117-119), and a Python dictionary iterates in insertion order. Each loop is a method of its own, run in sequence by
  `BuildKnowledgeSourcesText`. They are proved against specification functions that walk the rows
  one at a time. Lemmas about those functions cover the rest:
  - the domains are distinct, are exactly the rows' domains, and come in first-occurrence order;
  - every row lands in its own domain's group, in row order;
  - the groups together hold one entry per row;
  - every heading and every `- site: description` bullet occurs verbatim in the text.
- **The system prompt** (module `Prompt`, `prompt.dfy`). `create_system_prompt` is a single f-string.
  The model keeps the three values it substitutes and proves that each appears verbatim: the
  knowledge-sources text, `str(domains)` and `str(max_results)`. `str` of an integer reads back as
  the same integer.
- **Conversation memory** (module `Agent`, `agent.dfy`). `DomainQAAgent` is a class whose
  `chatHistory: seq<Message>` field its methods reassign.
  - `AChat` computes the forwarded window `chat_history[-5:]`. It then appends the human and AI
    messages, or leaves the history untouched when the executor raised.
  - `ResetMemory` empties the history.
  - The executor call is a parameter, `ExecutorOutcome`: a normal return with or without an
    `"output"` entry, or an exception with its text.
  - `NewDomainQAAgent` models the error paths of `__init__`: a missing configuration, then a failed
    schema check.

Shared pieces: `Wrappers` (`Option`, `Result`) in `wrappers.dfy`; `Text` (a string occurring inside
another) in `text.dfy`.

Three points that the code settles:

- The forwarded history is the last 5 messages of `chat_history` (qa_agent.py:256), counted as
  messages rather than question-and-answer turns. `WindowOpensWithAnswer` proves the consequence:
  once three turns are recorded, the window opens with an answer whose question is not forwarded.
- Catalog cells are not checked for emptiness (qa_agent.py:70-76 checks the column names only).
- The code renders one section per domain. A heading's text can still recur inside a description,
  so the model proves that each heading occurs, not that it occurs only once.

## Model

| member | source | states |
|---|---|---|
| `Sites.Absent` | qa_agent.py:71 | the comprehension: a column is in the result iff it is wanted and not present, and the result is no longer than the wanted list |
| `Sites.MissingColumns` | qa_agent.py:70-71 | exactly those of `site`, `domain`, `description` absent from the columns, in that order; empty iff all three are present |
| `Sites.LoadSitesData` | qa_agent.py:67-76 | fails iff a required column is absent, with the non-empty missing list; otherwise returns the table unchanged |
| `Sites.SiteRows` | qa_agent.py:115-121 | one row per record, in record order, carrying that record's site, domain and description cells |
| `Sites.LoadedTableHasSiteCells` | qa_agent.py:70-76 | every record of a rectangular table that passed the check has the three cells the agent reads |
| `KnowledgeSources.Domains` | qa_agent.py:115-119 | definition: the `domains` list after the first loop has seen the rows, a row's domain being appended when it is not yet listed; what it holds is proved by the three lemmas below |
| `KnowledgeSources.Group` | qa_agent.py:115-122 | definition: `domain_groups[d]` after the first loop, the site/description entry of each row with domain `d`, appended in row order; its meaning is proved by the group lemmas below |
| `KnowledgeSources.DomainsExactly` | qa_agent.py:115-119 | a value is in the domain list iff some row has that domain |
| `KnowledgeSources.DomainsDistinct` | qa_agent.py:117-118 | the domain list has no duplicates |
| `KnowledgeSources.DomainsInFirstOccurrenceOrder` | qa_agent.py:115-119 | earlier domains in the list have earlier first rows; every listed domain has a row |
| `KnowledgeSources.GroupAppend` | qa_agent.py:115-122 | grouping distributes over concatenation of the rows, so groups keep row order |
| `KnowledgeSources.GroupMembers` | qa_agent.py:120-122 | a group holds exactly the entries of the rows with that domain |
| `KnowledgeSources.GroupOfAbsentDomain` | qa_agent.py:117-119 | a domain that no row has gets an empty group |
| `KnowledgeSources.GroupKeepsRowOrder` | qa_agent.py:120-122 | two rows of one domain appear in its group at increasing positions |
| `KnowledgeSources.GroupsHoldEveryRowOnce` | qa_agent.py:115-122 | the group sizes over the domain list add up to the number of rows |
| `KnowledgeSources.BulletOccurs` | qa_agent.py:127-128 | each entry's bullet line occurs verbatim in its group's bullets |
| `KnowledgeSources.SectionOccurs` | qa_agent.py:125-129 | each domain's section (heading, bullets, blank line) occurs verbatim in the text |
| `KnowledgeSources.GroupOfPrefix` | qa_agent.py:120-122 | a shorter prefix of the rows has a group that is a prefix of the longer prefix's group |
| `KnowledgeSources.EveryDomainHeadingListed` | qa_agent.py:124-131 | for every row, the `## domain` heading of its domain occurs verbatim in the text |
| `KnowledgeSources.EveryRowBulletListed` | qa_agent.py:124-131 | for every row, its own `- site: description` line occurs verbatim in the text |
| `KnowledgeSources.Heading` | qa_agent.py:126 | definition: the f-string `"\n## {domain}\n\n"` |
| `KnowledgeSources.Bullet` | qa_agent.py:128 | definition: the f-string `"- {site}: {description}\n"` |
| `KnowledgeSources.Sections` | qa_agent.py:124-129 | definition: for each domain of a list, in list order, its heading, its group's bullets and an empty line |
| `KnowledgeSources.KnowledgeSourcesText` | qa_agent.py:124-131 | definition: the sections of `Domains(rows)`, the text the second loop accumulates; `SectionOccurs` and the two `Every…Listed` lemmas say what it contains |
| `KnowledgeSources.GroupByDomain` | qa_agent.py:112-122 | the first loop yields `Domains(rows)` and a dictionary keyed by exactly those domains, each mapped to its `Group` |
| `KnowledgeSources.RenderSections` | qa_agent.py:124-129 | the second loop, given that dictionary, yields the sections of the listed domains in list order |
| `KnowledgeSources.BuildKnowledgeSourcesText` | qa_agent.py:110-131 | returns `KnowledgeSourcesText(rows)` and `Domains(rows)`; the list is distinct and holds exactly the rows' domains; no rows give `""` and `[]` |
| `Prompt.IntToString` | qa_agent.py:152 | definition: Python's `str` of the `{max_results}` integer, a minus sign for a negative value, then the decimal digits without leading zeros |
| `Prompt.IntToStringRoundTrip` | qa_agent.py:152 | the rendered `max_results` has no leading zero, a sign iff negative, and reads back as the same integer |
| `Prompt.ListToString` | qa_agent.py:148 | definition: the `{domains}` substitution, `str` of a list of strings: the single-quoted items joined by `", "` between brackets |
| `Prompt.ListToStringQuotesEach` | qa_agent.py:148 | every domain appears quoted in the rendered domain list |
| `Prompt.SystemPrompt` | qa_agent.py:134-195 | definition: the f-string of `create_system_prompt`, the wording's four stretches around the knowledge-sources text, `str(domains)` and `str(max_results)` |
| `Prompt.SystemPromptEmbeds` | qa_agent.py:134-195 | the knowledge-sources text, domain list and result limit appear verbatim and in order at the positions the wording leaves |
| `Agent.MaxSearchResults` | qa_agent.py:223 | definition: `config.get("max_search_results", 10)`, the configured value when present and 10 otherwise |
| `Agent.SliceFrom` | qa_agent.py:256 | Python `s[start:]`: a suffix of `s` whose length follows the negative-index and clamping rules |
| `Agent.ForwardedHistory` | qa_agent.py:256 | the forwarded window is the last five messages, or the whole history when it is shorter, and empty for an empty history |
| `Agent.ForwardedIgnoresOlder` | qa_agent.py:256 | once five messages follow them, older messages are never forwarded |
| `Agent.AlternatingAfterTurn` | qa_agent.py:263-265 | appending a human message then an AI message keeps the history alternating in turns |
| `Agent.WindowOpensWithAnswer` | qa_agent.py:256 | with more than five messages, the window starts with an AI message (messages, not pairs, are counted) |
| `Agent.DomainQAAgent.constructor` | qa_agent.py:214-224 | empty history; system prompt built from the rendered knowledge sources, the domain list and the limit |
| `Agent.DomainQAAgent.AChat` | qa_agent.py:249-272 | forwards the window; on return appends `Human(input)`, `AI(answer)`, answer being the output or the fallback text; on exception returns `"Error: " + message`, history unchanged |
| `Agent.DomainQAAgent.ResetMemory` | qa_agent.py:274-277 | the history is empty afterwards, whatever it held, so a second reset changes nothing |
| `Agent.NewDomainQAAgent` | qa_agent.py:201-217 | fails with `ConfigurationRequired` when there is no config, else with the schema error when the load fails; otherwise a fresh agent built from the table's rows with the configured or default (10) limit |
| `Agent.ResetThenAsk` | qa_agent.py:249-277 | after a reset, the next call forwards nothing, and a normal return leaves exactly the new turn |

## Left out

- Reading the CSV file (`pd.read_csv`) is file I/O in a foreign library. The table is an in-memory
  column list with records. `NewDomainQAAgent` assumes the table is rectangular, as a data frame
  always is.
- Cells are strings. Missing values (NaN) and non-string cells of a data frame are not modelled.
- `create_llm` and `create_arcade_tools` only construct remote clients. Any failure they raise inside
  `__init__` is not modelled, and neither is the tool-description override, a plain field assignment.
- The agent executor (`_create_agent`'s LangChain agent loop) is not modelled: its iteration budget,
  parsing-error handling and tool dispatch are library behaviour. One executor call is the
  `ExecutorOutcome` parameter of `AChat`. The model does not tie that outcome to the forwarded
  window or to the input.
- The search-before-scrape ordering and the domain restriction on tool arguments are only stated in
  the prompt text. The code does not enforce them, and neither does the model.
- The natural-language wording of the system prompt and of the tool descriptions is not modelled. It
  is the `Wording` parameter of `Prompt.SystemPrompt`.
- `ListToStringQuotesEach`: Python writes `str(domains)` with `repr` quoting. The model wraps each
  domain in single quotes with no escaping, so it is only exact for domains without quotes,
  backslashes or unprintable characters.
- `MaxSearchResults`: configuration values are taken to be integers, as the `max_results: int`
  annotation of `create_system_prompt` says. A key present with a value such as `None` would be
  rendered as that value's `str` by the source, and the model has no such value.
- `async`/`await` and logging are not modelled. `logger` calls have no effect on state.
- The error text of `load_sites_data`'s `ValueError` is not modelled. The model keeps the missing list
  it reports.
