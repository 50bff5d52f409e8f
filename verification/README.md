# Medical AI Agent — a Dafny model of its control and text-handling core

The Medical AI Agent answers health questions with a supervisor routing
graph. A supervisor language model picks one of four responder agents: RAG
over PDF guidelines, SQL over a health database, web search, or plain chat.
It can also pick FINISH. Each responder appends one reply to the shared
transcript and hands control back. The final transcript is rendered as
`Agent: X\nAnswer: Y\n` or as a warning, and the chat front end parses that
text back into an agent name and an answer.

This project models that layer with immutable datatypes and pure functions.
Every language-model call, agent, vector store, search API and database is
an oracle: a total function value that returns a result or an exception
text. The model covers:

- `Outcomes` (outcomes.dfy): `Outcome<T>`, either a value or a raised
  exception's text, and `MapAll`, a loop that stops at its first exception.
- `Seqs` (seqs.dfy): `Map` and `FlatMap` over sequences. The table details, the table names and the unset-key reference list are defined through them.
- `Text` (text.dfy): the string operations the program uses.
  - `strip` (built from `lstrip` and `rstrip`) and ASCII `lower`.
  - `in`, `find` and `partition`.
  - `replace(p, "")` as `RemoveAll`.
  - `split` on one character and `join`.
- `Llm` (llm.dfy): `get_llm`, the model-family dispatch.
- `ToolsConfig` (tools_config.dfy): API-key validation as a function of the
  environment.
- `SqlTool` (sql_tool.dfy): table details, table names, statement
  splitting, per-statement execution and the error wrapper.
- `PdfRagTool` (pdf_rag_tool.dfy) and `WebSearchTool` (web_search_tool.dfy): chunk/result rendering, fallback
  messages and error strings of the two retrieval tools.
- `Supervisor` (supervisor.dfy): the six-node graph as a fuel-bounded step
  function over an explicit `State`.
- `GraphOutput` (graph_output.dfy): `custom_graph_invoke_output`.
- `AnswerView` (answer_view.dfy): the response-splitting branch of app.py,
  and the round trip between it and the formatter.

Each step of a graph run is `Step`. The supervisor consults
`oracles.decide` on the transcript. Each responder consults
`oracles.respond(member, transcript)`. Because the oracles are arbitrary,
the lemmas hold for every behaviour of the language models. LangGraph's
`recursion_limit` of 20 is fuel. A run that needs more node executions ends
in `LimitExceeded`, which the formatter catches and renders as an invocation
error. The text of that error comes from the library, so it is the parameter
`limitError`. The checkpointer's history for the fixed thread id is the
explicit input `thread`.

The graph is invoked with `recursion_limit` 20
(src/agent_graph/multiagent_supervisor.py:250). When a run reaches that
limit, LangGraph raises, and the formatter's `except` clause turns the
exception into its "Error during graph invocation" string (lines 278-279).
A run that hits the limit therefore never renders its last message
(`GraphOutput.LimitIsInvocationError`, `GraphOutput.EndlessRoutingIsError`).

## Model

| member | source | states |
|---|---|---|
| Outcomes.MapAll | src/agent_graph/sql_tool.py:156 | A loop over items either yields one result per item, each the call's result for that item, or raises an exception that one of the items raised |
| Outcomes.MapAllSnoc | src/agent_graph/sql_tool.py:156 | After a successful prefix, one more item either adds its result at the end or makes the whole loop raise that item's exception |
| Outcomes.MapAllStopsAtFailure | src/agent_graph/sql_tool.py:156 | Once an item raises, the items after it change nothing: the loop raises the same exception |
| Outcomes.MapAllFirstFailure | src/agent_graph/sql_tool.py:156 | The loop raises exactly the exception of the first item that raises |
| Outcomes.MapAllSucceeds | src/agent_graph/tavily_search_tool.py:39-42 | If every item succeeds, the loop succeeds |
| Seqs.Map | src/agent_graph/pdf_rag_tool.py:63-66 | A comprehension over the items gives one result per item, each the function applied to the item at the same position |
| Text.TrimStartShape | src/agent_graph/multiagent_supervisor.py:266 | Stripping the front removes exactly the longest all-whitespace prefix: what it removed is whitespace, and what remains is empty or starts with a non-space |
| Text.TrimEndShape | src/agent_graph/multiagent_supervisor.py:266 | Stripping the end removes exactly the longest all-whitespace suffix |
| Text.Strip | src/agent_graph/multiagent_supervisor.py:266 | `strip()` returns a stripped string no longer than its input; the result is empty exactly when the input is all whitespace |
| Text.StripPadded | app.py:69-70 | Whitespace padding on both sides of a stripped text is removed and the text itself is kept intact |
| Text.StripIdempotent | app.py:70 | Stripping twice equals stripping once, so re-stripping the formatter's already stripped answer changes nothing |
| Text.StripFixesExactlyStripped | src/agent_graph/multiagent_supervisor.py:266 | `strip()` leaves a string unchanged if and only if it has no surrounding whitespace; otherwise it makes it strictly shorter |
| Text.StripChars | src/agent_graph/sql_tool.py:155 | Stripping introduces no character that was not in the input |
| Text.TrimStartOfSpaces | src/agent_graph/multiagent_supervisor.py:266 | Whitespace in front of a text that starts with a non-space is exactly what the front strip removes |
| Text.TrimEndOfSpaces | src/agent_graph/multiagent_supervisor.py:266 | Whitespace after a text that ends with a non-space is exactly what the end strip removes |
| Text.Lower | src/agent_graph/multiagent_supervisor.py:268 | `lower()` keeps the length and lower-cases each character where it stands |
| Text.Find | app.py:68 | `find` reports a position exactly when the pattern occurs, and the pattern is at that position |
| Text.FindFirst | app.py:68 | The position `find` reports is the first occurrence: no earlier position starts the pattern |
| Text.Partition | app.py:68 | The three parts of `partition` concatenate back to the input; the middle is the separator when it occurs; the head holds no occurrence; without one the result is (s, "", "") |
| Text.RemoveAll | app.py:69 | `replace(p, "")` never lengthens the text and leaves a text without `p` unchanged |
| Text.RemoveAllAfterBarrier | app.py:69 | A character not in `p`, after a prefix without `p`, shields that prefix from the removal |
| Text.RemoveHeadBetweenBarriers | app.py:69 | In `p + a + x + b` with `a` and `b` not in `p` and no `p` in `x`, removal drops only the leading `p` |
| Text.FindAfterBarrier | app.py:68 | `find` skips a prefix without the pattern that is closed by a character outside the pattern; the position found shifts by the prefix length |
| Text.Split | src/agent_graph/sql_tool.py:155 | `split(c)` yields at least one field and no field contains `c` |
| Text.JoinSplit | src/agent_graph/sql_tool.py:155 | Joining the fields of `split(c)` with `c` gives back the input |
| Text.SplitConcat | src/agent_graph/sql_tool.py:155 | Splitting `a + c + b` gives the fields of `a` followed by the fields of `b` |
| Text.JoinAppend | src/agent_graph/pdf_rag_tool.py:63-66 | Joining one more item appends the separator and the item |
| Llm.GetLlm | src/utility.py:13-14 | An unsupported name raises "Unsupported model: " followed by the name |
| Llm.GetLlmClassification | src/utility.py:8-14 | OpenAI exactly when the name contains "gpt"; Groq exactly when it does not but contains "llama" or "mixtral"; a raise exactly when it contains none of the three |
| Llm.GptTestedFirst | src/utility.py:9-12 | "llama-gpt" selects OpenAI, because "gpt" is tested first |
| Llm.SupportedWithinLongerName | src/utility.py:9-12 | Text added around a supported name keeps it supported, and an OpenAI name keeps selecting OpenAI, because the families are matched anywhere in the name |
| Llm.UpperCaseUnsupported | src/utility.py:9-14 | Matching is case-sensitive: "GPT-4o" raises "Unsupported model: GPT-4o" |
| ToolsConfig.UnsetAmong | configs/load_tools_config.py:54-63 | Reference definition: a key is listed exactly when it is one of the given keys and is unset or empty |
| ToolsConfig.MissingKeysAreUnsetRequired | configs/load_tools_config.py:54-63 | The four checks list exactly the unset or empty keys among OPENAI, GROQ, TAVILY and PINECONE, in that fixed order |
| ToolsConfig.Validate | configs/load_tools_config.py:53-76 | A successful load implies that the four required keys and LANGCHAIN_PROJECT are set, that the project is taken from the environment, and that the LangChain key is set whenever tracing is on |
| ToolsConfig.MissingKeysFailure | configs/load_tools_config.py:65-66 | Loading raises "Missing required API keys in .env: " with the missing names joined by ", " exactly when some required key is missing |
| ToolsConfig.ValidateOutcome | configs/load_tools_config.py:53-76 | Loading succeeds exactly when the required keys, the project and (under tracing) the LangChain key are set; a missing project and a missing LangChain key each give their own message, after the missing-key check |
| ToolsConfig.OptionalKeysIrrelevant | configs/load_tools_config.py:49-63 | Changing the Google, LangChain or HuggingFace key never changes the missing-key list; changing the Google or HuggingFace key never changes the outcome |
| ToolsConfig.TracingNeedsExactTrue | configs/load_tools_config.py:74-76 | Tracing is switched on only by the exact value "true": with "True" a missing LangChain key does not stop loading |
| SqlTool.TableDetailsConcat | src/agent_graph/sql_tool.py:144-147 | The table-details text of two row lists is the concatenation of their texts, so rows contribute in order |
| SqlTool.AccumulateTableDetails | src/agent_graph/sql_tool.py:144-147 | The loop's accumulated text is the in-order concatenation of the rows' texts, and "" for no rows |
| SqlTool.GetTables | src/agent_graph/sql_tool.py:149-151 | One name per table, each the table's name, in input order |
| SqlTool.NonBlankStrippedWellFormed | src/agent_graph/sql_tool.py:155 | Fields without ';' yield only non-empty, stripped entries without ';' |
| SqlTool.StatementsWellFormed | src/agent_graph/sql_tool.py:155 | Every statement is non-empty, stripped and free of ';' |
| SqlTool.StatementsConcat | src/agent_graph/sql_tool.py:155 | Every ';' splits, so the statements of `a;b` are those of `a` followed by those of `b`, in order |
| SqlTool.NonBlankStrippedEmptyIff | src/agent_graph/sql_tool.py:155 | The comprehension keeps nothing exactly when every field is blank |
| SqlTool.FieldsBlankIff | src/agent_graph/sql_tool.py:155 | All `;`-fields are blank exactly when the text consists of whitespace and ';' only |
| SqlTool.StatementsEmptyIff | src/agent_graph/sql_tool.py:155 | No statements exactly when the code is blank or only ';' and whitespace |
| SqlTool.SplitWithoutSeparator | src/agent_graph/sql_tool.py:155 | Text without ';' splits into itself alone |
| SqlTool.SingleStatement | src/agent_graph/sql_tool.py:155 | Non-blank code without ';' is exactly one statement, the stripped code |
| SqlTool.InvokeEach | src/agent_graph/sql_tool.py:156 | The database tool is called on a prefix of the statements, in order; on success on all of them with one result each, on failure the last call made is the one that raised |
| SqlTool.ExecuteMultipleSqlQueries | src/agent_graph/sql_tool.py:153-156 | Every call is on a well-formed statement, and the calls are the statements in order, cut off where the loop stopped; on success they are all the statements, with one result per call; on failure every earlier call succeeded and the last one raised the error |
| SqlTool.AskHealthSqlNeverRaises | src/agent_graph/sql_tool.py:193-206 | Any exception anywhere in the chain becomes "Error querying SQL health database: " plus its text, including the unsupported-model error and a failing database connection |
| SqlTool.FailingStatementFails | src/agent_graph/sql_tool.py:156 | The first generated statement whose execution raises decides the answer: the SQL error prefix plus that statement's exception text |
| SqlTool.PipelineRunsEveryStatement | src/agent_graph/sql_tool.py:133-138 | When every step succeeds, each generated statement is executed once, in order, and the rephrasing chain gets all their results |
| PdfRagTool.RenderDocParts | src/agent_graph/pdf_rag_tool.py:64 | A chunk is its stripped page text followed by the line "\n(Source: " + source + ")", where the source is `source_pdf` or "Unknown" |
| PdfRagTool.JoinDocsAppend | src/agent_graph/pdf_rag_tool.py:63-66 | The context grows by "\n\n" and the rendered chunk per retrieved chunk, in retrieval order |
| PdfRagTool.AskPdfGuidelinesOutcomes | src/agent_graph/pdf_rag_tool.py:41-78 | An unsupported model gives "Error querying PDF database: Unsupported model: <name>"; a failing vector-store or embeddings construction gives the prefix plus its exception text; an empty retrieval gives "No matching content found."; otherwise the chain's answer over the joined chunks, or the error string for whatever raised |
| WebSearchTool.Field | src/agent_graph/tavily_search_tool.py:40 | Indexing a result raises exactly when the key is absent |
| WebSearchTool.RenderResultCases | src/agent_graph/tavily_search_tool.py:40 | A result renders as "{title}:\n{content}\n(Source: {url})" exactly when all three fields are present; otherwise the first missing field's KeyError is raised |
| WebSearchTool.CompleteResultsJoined | src/agent_graph/tavily_search_tool.py:39-44 | With complete results, the answer is their renderings joined by "\n\n", in the order returned |
| WebSearchTool.QueryTavilyWebSearchOutcomes | src/agent_graph/tavily_search_tool.py:33-46 | A falsy response or one without "results" gives the no-results message, an empty results list gives "", and a raised search gives "Error performing web search: " plus its text |
| WebSearchTool.IncompleteResultFails | src/agent_graph/tavily_search_tool.py:39-46 | The first incomplete result makes the tool answer with the error string of its missing field |
| Supervisor.ResponderStep | src/agent_graph/multiagent_supervisor.py:93-140 | A responder appends exactly one AI message named after itself and returns to the supervisor; the content is the agent's answer, or its node-specific error prefix plus the exception text |
| Supervisor.Target | src/agent_graph/multiagent_supervisor.py:211-213 | FINISH maps to END and nothing else does; no decision maps to the supervisor |
| Supervisor.SupervisorStep | src/agent_graph/multiagent_supervisor.py:196-219 | The supervisor appends nothing; on a decision it goes to the named node and records it in `next`; on an exception it goes to END without any update |
| Supervisor.Run | src/agent_graph/multiagent_supervisor.py:250 | A run executes at most `fuel` nodes, and one that exceeds the limit executed exactly `fuel` |
| Supervisor.RunAlternates | src/agent_graph/multiagent_supervisor.py:222-230 | The supervisor and the responders strictly alternate from the entry node on, END is never executed, and a completed run ends with the supervisor |
| Supervisor.RunStep | src/agent_graph/multiagent_supervisor.py:215 | One step puts the node in front of the rest of the trace; responders return to the supervisor, the supervisor leaves it, and only the supervisor goes to END |
| Supervisor.RunAppendsReplies | src/agent_graph/multiagent_supervisor.py:93-140 | A completed run only appends to the transcript: one message per executed responder, attributed to it, in execution order |
| Supervisor.SupervisorEndsRun | src/agent_graph/multiagent_supervisor.py:211-219 | A failed decision ends the run at once with the state unchanged; FINISH ends it and records END |
| Supervisor.OneRound | src/agent_graph/multiagent_supervisor.py:208-215 | Routing to a member runs that member once and returns control to the supervisor two steps later |
| Supervisor.RouteReplyFinish | src/agent_graph/multiagent_supervisor.py:196-230 | Route, reply, FINISH completes with exactly the reply appended and `next` set to END |
| Supervisor.RepeatedRouting | src/agent_graph/multiagent_supervisor.py:208-215 | Nothing in code forbids choosing a responder again: an oracle that always names `m` keeps bouncing between the supervisor and `m` until the step limit |
| GraphOutput.FormatMessagesCases | src/agent_graph/multiagent_supervisor.py:261-276 | Empty transcript exactly gives the empty warning; a blank or echoing last message exactly gives the echo warning; otherwise the reply is the label and stripped content of the last message |
| GraphOutput.FormatAppended | src/agent_graph/multiagent_supervisor.py:261-274 | After appended replies, the answer is attributed to the last responder, or to "Unknown" with the stripped question when no responder ran |
| GraphOutput.AnsweringAgent | src/agent_graph/multiagent_supervisor.py:257-274 | A completed run never gives the empty warning, and an answer names the last responder executed, or "Unknown" |
| GraphOutput.AnswerIsNew | src/agent_graph/multiagent_supervisor.py:266-274 | An answer is non-empty, stripped, and differs from the question under `lower()` |
| GraphOutput.ReplyShape | src/agent_graph/multiagent_supervisor.py:256-279 | The formatter never reports an empty transcript; its answers are non-empty, stripped, not the question, and attributed to a known agent name |
| GraphOutput.EchoOfOwnQuestion | src/agent_graph/multiagent_supervisor.py:266-272 | With the question as the last message, a stripped question is reported as an echo, while a padded question is "answered" by "Unknown" with the stripped question, because the echo test compares with the unstripped question |
| GraphOutput.FailedFirstDecisionEchoes | src/agent_graph/multiagent_supervisor.py:217-219 | If the first decision raises, a stripped question gets the echo warning |
| GraphOutput.FailedFirstDecisionPaddedQuestion | src/agent_graph/multiagent_supervisor.py:217-219 | If the first decision raises, a padded question comes back as an answer from "Unknown" |
| GraphOutput.UnsupportedModelEchoes | src/agent_graph/multiagent_supervisor.py:196-219 | An unsupported model name makes the supervisor fail at once, so a stripped question gets the echo warning text |
| GraphOutput.LimitIsInvocationError | src/agent_graph/multiagent_supervisor.py:278-279 | A run exceeds the step limit exactly when the output is the invocation-error string with the limit's message |
| GraphOutput.EndlessRoutingIsError | src/agent_graph/multiagent_supervisor.py:250 | An oracle that always routes to a responder makes the invocation fail with the step-limit error |
| GraphOutput.OneResponderThenFinish | src/agent_graph/multiagent_supervisor.py:274 | Route, reply and FINISH gives "Agent: <member>" with the stripped reply as the answer |
| AnswerView.SplitAtFirstAnswer | app.py:68-70 | The split is at the first "Answer:", and without one the answer part is empty and the agent part is the whole response with "Agent:" removed, stripped |
| AnswerView.FindInFormatted | app.py:68 | In the formatter's text the first "Answer:" is right after the agent line when the name holds no "Answer:" |
| AnswerView.RemoveTagFromAgentLine | app.py:69 | Removing "Agent:" from the agent line leaves " <name>\n" when the name holds no "Agent:" |
| AnswerView.SplitFormattedLines | app.py:68-70 | The formatter's text splits into its agent line and the rest of its answer line |
| AnswerView.SplitRecoversAgent | app.py:69 | The agent part of the split is the formatter's agent name when the name is stripped and holds neither tag |
| AnswerView.SplitRecoversAnswer | app.py:70 | The answer part of the split is the formatter's (stripped) answer, whatever it holds |
| AnswerView.PresentFormatted | app.py:66-72 | The formatter's answer is displayed with its agent and answer, and only the answer is spoken |
| AnswerView.PresentPassesThrough | app.py:73-75 | A response not starting with "Agent:" is displayed and spoken unchanged |
| AnswerView.OnlyAnswersTagged | app.py:67 | Of the formatter's outputs, exactly the answers start with "Agent:", so warnings and errors pass through |
| AnswerView.AgentNamesParse | src/agent_graph/multiagent_supervisor.py:143 | Every name the formatter can attribute an answer to is stripped and holds neither tag |
| AnswerView.PresentGraphOutput | app.py:66-75 | Round trip: an answer from the graph is displayed as its agent and answer and only the answer is spoken; anything else is shown and spoken as is |

## Left out

- Unicode semantics: `strip()` treats only the ASCII characters Python's `str.isspace` accepts as whitespace. `lower()` maps only A-Z.
- Language-model behaviour is not modelled. This covers `create_react_agent`, `with_structured_output(Router)` and every prompt text, the routing guidelines included. These are oracles, and the lemmas hold for all of them.
- A decision outside the `Router` literal is not modelled. `Decision` has only the five legal values.
- LangGraph internals are modelled only as far as the program relies on them. `add_messages`' replace-by-id merging is not modelled: the reducer is an append, which is what it does for the id-less messages this program creates. The exact counting of steps against `recursion_limit` and the text of the exception raised at the limit are not modelled either: fuel stands for the step limit, and `limitError` is a parameter.
- MemorySaver checkpointing is modelled only as the `thread` input: the history and `next` that the fixed thread id carries into a call. Storing the final state back is not modelled.
- Network and backends are oracles or outcome values: Pinecone, the HuggingFace embeddings, Tavily, SQLite, and the OpenAI and Groq clients. The speech calls in src/voice/speech_io.py are not part of this model.
- The Streamlit UI beyond the response-splitting branch of app.py, and the FastAPI endpoint in main.py, are not part of this model.
- YAML and dotenv reading, `os.environ` writes, `print` output and the model temperature are not modelled.
- The search client's response is modelled as one of three shapes (`SearchResponse`): falsy, a value without `"results"`, or a mapping whose `"results"` entry is a result list. The concrete return type of `TavilySearchResults` (src/agent_graph/tavily_search_tool.py:9) is not part of this model. A list response falls under the second shape, because `"results" not in` a list of dictionaries holds, so it gives the no-results message (line 36). A string response that contains `"results"` would raise a `TypeError` at `results["results"]`, which becomes the web-search error string; the model has no such shape.
- The `if not llm` test in `ask_pdf_guidelines` is not modelled as a branch, because `get_llm` returns a client or raises and never returns a falsy value.
- Message contents are modelled as strings only, so list-valued (multi-part) contents and the `isinstance(messages, list)` test are not modelled.
