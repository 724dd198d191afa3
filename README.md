# CodingCompanion message core, modelled in Dafny

CodingCompanion is a chat front end over a hosted code model. This project
models and verifies the parts of it that have behaviour worth stating:

- **The python-fence extractor.** A model answer is scanned for
  "```python … ```" fences. Each fence's inner text is collected, trimmed,
  in order. For each match, its text is removed from the prose as the prose
  then stands; afterwards every other "```" is deleted and the prose is
  trimmed. There are three copies:
  - `chat` in server/lib/huggingface.ts removes the first occurrence of each
    match's text with JavaScript's `replace`. After an earlier removal that
    occurrence can be a copy formed across the join, so a later matched
    span may survive into the prose;
  - `get_ai_response` in backend/huggingface.py and backend/app.py remove
    every occurrence of it with Python's `str.replace`, including copies
    that lie outside any match.

  `Fences` states the regex scan as functions: leftmost opener, then the
  first closer after it, then resume after the closer. The two loops
  (`HuggingFaceTs.Extract` and `HuggingFacePy.Extract`) are proved against
  those functions.
- **The in-memory message logs.** Two stores hand out counter ids:
  - the TypeScript server's `MemStorage` class (`Storage`);
  - the module globals `messages` and `message_id_counter` of the two
    FastAPI apps (`Backend.Globals`).

  Both keep the invariant that the next id is one past the number of stored
  messages, so the ids are 1..n in insertion order.
- **The request handlers over those logs.** These are the server's GET, POST
  and DELETE routes (`Routes`), and the FastAPI `get_messages`,
  `create_message` and `clear_messages` (`Backend`, `BackendApp`,
  `BackendMain`).
  - `get_messages` returns a stable newest-first sort.
  - A user message stays stored when the model call fails.
  - The 500 details the two Python apps produce read
    "Failed to get AI response: 500: …" (app.py, which wraps `str()` of its
    own HTTPException) and "Failed to get AI response: Failed to get AI
    response: …" (main.py, which wraps an exception already carrying that
    prefix).
- **The code executor's capped buffers** (`CodeExecutor`). Each stdout or
  stderr chunk is appended only while its buffer is below 1 MiB, counted in
  string length. The result is shaped on close, and a failed setup gives
  "Execution error: …".
- **`formatText`** (`MessageFormat`). It splits chat text around inline code
  spans and tags each line as a comment or as text with or without a line
  break.
- **The query-client helpers** (`QueryClient`): URL resolution, the error
  text of a failed response, the 401 decision, and when a JSON body and
  header are sent.

The hosted-model call is a `Generation` parameter (`Generated(text)` or
`GenerationFailed(reason)`). Clock readings are integer parameters.
Trim and strip share one whitespace set: space, tab, line feed, vertical
tab, form feed and carriage return. These are the ASCII characters that
JavaScript's `trim` and Python's `strip` both remove.

The reply text is used as the extractor leaves it: no further step collapses
newlines or shortens it. The executor's cap compares string lengths, not
bytes, and the last chunk accepted below the cap may overshoot it.

## Model

| member | source | states |
|---|---|---|
| Text.Trim | server/lib/huggingface.ts:47 | the trimmed string has no whitespace at either end |
| Text.TrimRemovesOnlySpace | server/lib/huggingface.ts:47 | trimming removes only whitespace and only at the two ends: the input is whitespace, then the result, then whitespace |
| Text.FindFromFindsLeftmost | server/lib/huggingface.ts:46 | the search finds the leftmost occurrence at or after the start, or reports that there is none |
| Text.ReplaceFirstAt | server/lib/huggingface.ts:48 | a string `replace` with a literal pattern deletes exactly the leftmost occurrence and keeps everything else |
| Text.ReplaceAllAt | backend/huggingface.py:46 | `str.replace(pat, "")` keeps the text before the leftmost occurrence, drops it, and carries on after it |
| Text.ReplaceAllNoOccurrence | backend/huggingface.py:46 | replacing a pattern that does not occur changes nothing |
| Text.DecimalRoundTrip | client/src/lib/queryClient.ts:6 | the decimal text of a status reads back as the same number |
| Fences.NextMatch | server/lib/huggingface.ts:41-46 | one `exec` from a start position: a match found lies inside the text at or after that position |
| Fences.Matches | backend/huggingface.py:42-44 | the `finditer` sequence from a start position: every match lies inside the text |
| Fences.NextMatchIsFence | server/lib/huggingface.ts:41 | a match is "```python", then the shortest capture, then the first "```" after the opener (the lazy `[\s\S]*?`) |
| Fences.NextMatchIsLeftmost | server/lib/huggingface.ts:41 | no opener lies between the search start and the match; no match means no opener with a later "```" is left |
| Fences.MatchesAreOrderedFences | server/lib/huggingface.ts:41-49 | the matches are fences, left to right and non-overlapping: each starts after the previous closer |
| Fences.MatchIsNextExec | server/lib/huggingface.ts:46 | the i-th match is exactly what `exec` returns when `lastIndex` is just past the previous closer |
| Fences.NoOpenerSkipped | server/lib/huggingface.ts:46 | between one resume point and the next match there is no "```python" |
| Fences.NothingAfterLastMatch | server/lib/huggingface.ts:46 | after the last match no "```python" with a later "```" remains, so the scan ends only when nothing more can match |
| Fences.InnerHasNoFence | server/lib/huggingface.ts:41 | the capture of a match holds no "```" |
| Fences.CodeBlocksHaveNoFence | backend/huggingface.py:41-45 | every extracted code block holds no "```" and is trimmed |
| Fences.ReplaceAllLeavesNoFence | server/lib/huggingface.ts:52 | deleting every "```" leaves none, even where deletion joins backticks together |
| Fences.CleanupLeavesNoFence | backend/huggingface.py:49 | the final cleanup leaves no "```" and no surrounding whitespace |
| Fences.ContentHasNoFence | server/lib/huggingface.ts:52 | the returned content of both copies contains no "```" and is trimmed |
| Fences.NoFenceNoBlocks | server/lib/huggingface.ts:41-52 | with no opener followed by a closer there are no code blocks and the content is the text with every "```" deleted, trimmed |
| Fences.FirstMatchIsFirst | server/lib/huggingface.ts:46 | the first match is a fence with no opener before it |
| Fences.FirstReplaceRemovesSpan | server/lib/huggingface.ts:48 | for the first match, first-occurrence replace removes exactly the matched span |
| Fences.FirstReplaceAllRemovesSpan | backend/huggingface.py:46 | for the first match, every-occurrence replace removes the matched span and any later copies of it |
| Fences.NoCopyAfterLastMatch | backend/huggingface.py:46 | once the last match is found, no copy of its text occurs after it |
| Fences.SingleFenceBlocks | server/lib/huggingface.ts:41-47 | a text with one match yields exactly its trimmed capture |
| Fences.SingleFenceContent | backend/huggingface.py:46 | with one match both copies delete exactly its span, so, under the one shared whitespace set, the TypeScript and Python contents agree |
| Fences.PythonFenceExample | server/lib/huggingface.ts:41-57 | "```python\nprint(1)\n```" gives code blocks ["print(1)"] and empty content |
| Fences.OtherLanguageFenceExample | server/lib/huggingface.ts:41-52 | a "```js" fence is not extracted: no code blocks, only its backticks are removed and its code stays in the content |
| HuggingFaceTs.ScanAdvance | server/lib/huggingface.ts:46-49 | one `exec` step keeps the loop invariant, and `lastIndex` strictly grows |
| HuggingFaceTs.ScanFinish | server/lib/huggingface.ts:46-52 | when `exec` finds nothing, the collected blocks are all the code blocks and the cleanup gives the content |
| HuggingFaceTs.Extract | server/lib/huggingface.ts:39-57 | the loop returns the code blocks in match order and the content with, for each match in turn, the first occurrence of its text removed from the prose as it then stands, backticks deleted, trimmed |
| HuggingFaceTs.Chat | server/lib/huggingface.ts:22-62 | a generated text yields its extraction; a failed call rejects with "Failed to get response: " and the error message |
| HuggingFacePy.HandleNext | backend/huggingface.py:44-46 | one loop iteration keeps the invariant: blocks and content reflect exactly the matches handled |
| HuggingFacePy.Extract | backend/huggingface.py:34-54 | the loop returns the code blocks in match order and the content with every copy of each span removed, backticks deleted, stripped |
| HuggingFacePy.FailureMessage | backend/huggingface.py:55-56 | the raised text is "Failed to get AI response: " followed by the original message |
| HuggingFacePy.GetAiResponse | backend/huggingface.py:12-56 | a generated text yields its extraction; a failed call raises the prefixed message |
| Messages.NumberedIdsIncrease | server/storage.ts:23-28 | ids numbered 1..n in insertion order strictly increase, so no two messages share an id |
| Backend.Globals.constructor | backend/app.py:34-35 | the globals start with no messages and counter 1 |
| Backend.ExceptionText | backend/app.py:105 | `str()` of an HTTPException is the decimal status, ": ", then the detail |
| Backend.NewestFirst | backend/app.py:73 | `sorted(..., reverse=True)` by timestamp: the view holds exactly the stored messages, as a multiset |
| Backend.NewestFirstDescends | backend/app.py:73 | the sorted view is ordered by timestamp, newest first |
| Backend.NewestFirstOrdered | backend/app.py:73 | with ids increasing in stored order, equal timestamps keep stored order (the sort is stable) |
| Backend.InsertNewestOrdered | backend/app.py:73 | inserting a later-stored message into an ordered view keeps it ordered |
| Backend.GetMessages | backend/app.py:71-73 | `get_messages` (also backend/main.py:39-41) returns a permutation of the stored messages, newest first with ties in stored order, and changes nothing |
| Backend.ClearMessages | backend/app.py:110-115 | `clear_messages` (also backend/main.py:80-85) empties the list, resets the counter to 1 and answers "success" |
| BackendApp.GetAiResponse | backend/app.py:40-69 | a generated text yields the every-occurrence extraction; a failed call raises a 500 whose detail is the error text |
| BackendApp.FailureDetail | backend/app.py:102-106 | the 500 detail reads "Failed to get AI response: 500: " and then the error text |
| BackendApp.CreateMessage | backend/app.py:75-108 | the message is stored with the counter as id; for "user" an assistant reply with the next id follows and both are returned; on failure the user message stays stored and a 500 is raised; the counter invariant holds |
| BackendMain.FailureDetail | backend/main.py:72-76 | the 500 detail carries the prefix twice, then the error text |
| BackendMain.CreateMessage | backend/main.py:43-78 | as in app.py, with the reply from backend/huggingface.py and main.py's failure detail |
| Storage.MemStorage.constructor | server/storage.ts:13-16 | a new store is empty and hands out id 1 first |
| Storage.MemStorage.GetMessages | server/storage.ts:18-20 | returns the stored messages in insertion order with ids 1..n, changing nothing |
| Storage.MemStorage.AddMessage | server/storage.ts:22-30 | the insert is stamped with the current id, pushed after the earlier messages, and the id advances by one |
| Storage.MemStorage.ClearMessages | server/storage.ts:32-35 | the store is emptied and the next message gets id 1 again |
| Routes.Parse | shared/schema.ts:13-17 | a body is accepted exactly when `role` and `content` are strings, and their values are kept |
| Routes.ParseEncode | shared/schema.ts:13-17 | a message encoded as the client sends it is accepted and read back unchanged |
| Routes.Get | server/routes.ts:9-12 | GET answers 200 with the stored messages and changes nothing |
| Routes.Post | server/routes.ts:14-46 | an invalid body gets 400 and stores nothing; a non-user message is stored and returned alone; a user message is followed by the assistant reply and both are returned; a failed chat keeps the user message and answers 500 with it |
| Routes.Delete | server/routes.ts:48-51 | DELETE empties the store, resets the id and answers 204 |
| CodeExecutor.Accumulate | server/lib/codeExecutor.ts:38-48 | a buffer after the data callbacks is always a prefix of everything its stream sent, and all of it while still below the cap |
| CodeExecutor.Collect | server/lib/codeExecutor.ts:35-48 | the data callbacks build exactly the capped buffers of the stdout and stderr chunks |
| CodeExecutor.AccumulateGrows | server/lib/codeExecutor.ts:38-48 | a buffer only grows at its end: each earlier value is a prefix of every later one |
| CodeExecutor.DroppedAtCap | server/lib/codeExecutor.ts:38-42 | once a buffer has reached 1 MiB every later chunk of that stream is dropped |
| CodeExecutor.OvershootBound | server/lib/codeExecutor.ts:39-41 | the final length is below the cap plus the length of the last chunk appended |
| CodeExecutor.StreamsIndependent | server/lib/codeExecutor.ts:44-48 | each buffer depends only on its own stream's chunks |
| CodeExecutor.CloseResult | server/lib/codeExecutor.ts:50-60 | the output is the trimmed stdout; the error is absent exactly when trimmed stderr is empty, and otherwise is that trimmed text |
| CodeExecutor.ExecuteCode | server/lib/codeExecutor.ts:16-75 | a failed setup gives empty output and "Execution error: " with the message; otherwise the shaped buffers; the time is end minus start |
| MessageFormat.SpanAtMatches | client/src/components/chat/message.tsx:16 | a code span is found at a position exactly when one starts there |
| MessageFormat.Parts | client/src/components/chat/message.tsx:16 | the capturing `split` loses nothing: the parts concatenate back to the text; they alternate between text holding no code span and a captured span (backtick, one or more non-backticks, backtick), beginning and ending with text; each span is the leftmost left to find, since no span starts in the text before it |
| MessageFormat.LeftmostSpanExample | client/src/components/chat/message.tsx:16 | "`a`b`" splits into "", "`a`" and "b`": the first span wins |
| MessageFormat.Lines | client/src/components/chat/message.tsx:26 | splitting on '\n' gives at least one line and no line holds a newline |
| MessageFormat.LinesJoin | client/src/components/chat/message.tsx:26 | joining the lines with newlines gives the part back |
| MessageFormat.FormatLines | client/src/components/chat/message.tsx:26-38 | a line is a comment exactly when its trimmed text starts with '#'; a text line gets a break exactly when it is not the last |
| MessageFormat.FormatText | client/src/components/chat/message.tsx:14-43 | one segment list per part: a code span is shown as one inline code element with the text between its backticks; a text part, empty or not, is shown line by line unless it is a non-empty run of backticks |
| MessageFormat.OnlyTicks | client/src/components/chat/message.tsx:16-17 | a part holding no code span that starts and ends with a backtick consists of backticks only |
| MessageFormat.StrayBackticks | client/src/components/chat/message.tsx:16-21 | a text part is shown other than line by line only when it is a non-empty run of backticks; then it is shown as inline code holding that run without its two end backticks, so "``" shows "" and "```" shows "`" |
| MessageFormat.EmptyTextPart | client/src/components/chat/message.tsx:24-38 | an empty text part, as before a leading span or between adjacent spans, is shown as one empty text line without a break |
| MessageFormat.CodeSpansShownAsCode | client/src/components/chat/message.tsx:16-21 | every captured span is shown as inline code whose text is non-empty and holds no backtick |
| MessageFormat.LoneBacktick | client/src/components/chat/message.tsx:17-21 | the text "`" is shown as empty inline code |
| QueryClient.FullUrl | client/src/lib/queryClient.ts:23 | the resolved URL (also at client/src/lib/queryClient.ts:46-48) ends with the given URL |
| QueryClient.FullUrlStable | client/src/lib/queryClient.ts:11-23 | a URL starting with "http" is kept and any other is put after the API base; with an absolute base the result starts with "http"; resolving again changes nothing exactly when the result starts with "http" or the base is empty, the default |
| QueryClient.ApiResult | client/src/lib/queryClient.ts:3-7 | a response passes exactly when its status is 200-299 and is then returned unchanged; otherwise the error carries the message |
| QueryClient.ErrorMessage | client/src/lib/queryClient.ts:5-6 | the error message starts with the status, which reads back from it, then ": " and the body text or, when that is empty, the status text |
| QueryClient.BuildRequest | client/src/lib/queryClient.ts:23-28 | the request goes to the resolved URL; the JSON content type and the body are present exactly when the data is truthy |
| QueryClient.QueryResult | client/src/lib/queryClient.ts:46-60 | null exactly for a 401 under "returnNull"; an error with the message exactly for any other failed status; otherwise the body |
| QueryClient.DefaultThrowsOn401 | client/src/lib/queryClient.ts:55-66 | with the default "throw" behaviour a 401 is an error whose message starts with "401: " |

## Left out

- The hosted-model calls are not modelled. This covers `hf.textGeneration`, `InferenceClient.text_generation` and the prompts built for them. Each is the `Generation` parameter.
- client/src/lib/openai.ts is not part of this model.
- `Date.now()`, `new Date()` and `datetime.utcnow()` are integer parameters.
- JavaScript `trim` and Python `strip` also remove Unicode spaces; the model uses the six ASCII whitespace characters.
- Fences.SingleFenceContent: Python's `strip` also removes U+001C to U+001F and `trim` keeps them, so for a reply ending in one of those the two copies' contents differ; the model gives both copies one whitespace set and does not capture that difference.
- Routes.Post: the handler is modelled as running alone. It awaits the model call between its two appends (server/routes.ts:21), and a POST or DELETE served meanwhile can append or clear, so the reply's id is then not the user id plus one and the two messages are not stored side by side.
- BackendApp.CreateMessage: modelled as running alone; a request served during `await get_ai_response` (backend/app.py:91) breaks the next-id and adjacency guarantees in the same way.
- BackendMain.CreateMessage: modelled as running alone; a request served during `await get_ai_response` (backend/main.py:61) breaks the next-id and adjacency guarantees in the same way.
- JavaScript string lengths count UTF-16 code units; the model counts characters.
- Routes.Parse: a `codeBlocks` value that is absent, null or not a list of strings is stored as no code blocks. The server's schema accepts any JSON value there, or none, and stores it as given.
- Routes.Post: the 400 body's list of Zod issues is not modelled.
- Routes.Post: the "An unexpected error occurred" 500 branch (server/routes.ts:41-43) is not modelled. Nothing modelled there can throw apart from validation.
- Storage.MemStorage.GetMessages returns a value. The source returns its own array, so later pushes are visible through the returned reference; that aliasing is not captured.
- Logging is not modelled: the `console.error` calls at server/lib/huggingface.ts:59, server/routes.ts:29 and server/routes.ts:42 have no counterpart.
- Backend.ExceptionText takes `str()` of an HTTPException to be "<status>: <detail>", the format of the Starlette exception class FastAPI uses. That format comes from the library, not from this repository.
- FastAPI's own request validation (the 422 answer) and response serialisation are not modelled. The Python handlers start from an already validated message.
- BackendApp.GetAiResponse: the `except` around the extraction code (backend/app.py:68-69) is modelled for the model call only. The extraction itself cannot raise.
- Python `datetime` values are integers, so `sorted` compares timestamps as integers.
- CodeExecutor.ExecuteCode does not model process spawning, the temporary file and its removal, the random file id, the spawn timeout or the kill timer. No route calls `executeCode`.
- QueryClient does not model `fetch`, the `AbortController` and its 30 s timer, `res.json()` parsing or the `QueryClient` options.
- QueryClient.BuildRequest: `Payload` numbers are integers, so `NaN` is not modelled. The body is the data itself, not its `JSON.stringify` text.
- MessageFormat.FormatLines and MessageFormat.FormatText: segments stand for the JSX elements. Keys, class names and markup are not modelled.
- The rest of the repository is outside this model:
  - the UI pages and components, and the code block and text area widgets;
  - the document processor, the logging middleware and dev.py;
  - server startup, the database, config and model declarations.
