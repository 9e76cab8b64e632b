# MediMind chat widget and backend helpers, modelled in Dafny

MediMind is a small health assistant. A browser widget (`static/js/script.js`)
shows a chat transcript, keeps at most one attached image and posts questions
to a Flask backend (`app.py`). The backend checks the request, builds a prompt
for a language model and cleans the model's answer. This project models the two
parts of that code that have behaviour worth stating:

- **The widget's session** (`widget.dfy`, module `Widget`). It is a class
  `ChatWidget` whose fields are the attachment slot (`base64Image`), the
  in-flight flag (`isWaitingForResponse`), the input text and placeholder, the
  transcript, and the request being awaited. There is one method per handler:
  image loaded, reset of the upload, add message, show and remove the typing
  placeholder, submit with its text and image flows, and the settling of a
  request. The network is not run. A submit returns the request it posts, and
  `Settle(outcome)` delivers the result later. The invariant `Valid()` says that
  a request is outstanding exactly while the flag is up. During that time the
  transcript holds exactly one placeholder, as its last entry. Otherwise it holds
  none.
- **The backend's pure helpers** (`backend.dfy`, module `Backend`):
  `clean_ai_response`, the two prompt builders, the 400 checks of `/api/chat`
  and `/api/analyze-image`, and the extraction of the base64 payload from a data
  URL (section 3 of RFC 2397).
- **Shared string operations** (`text.dfy`, module `Text`). These are Python's
  `str.replace`, `str.strip` and `str.split`, and JavaScript's `String.trim`.
  Python and JavaScript trim different whitespace sets, and both sets are
  written out.
- **Two client methods** (`Widget.TextScenario`, `Widget.ImageScenario`). They
  drive a session through a text question and through an image with no text,
  using only the method contracts. They show that the contracts fix the
  transcript and the attachment after each step.
- **Widget and backend together** (`protocol.dfy`, module `Protocol`). No request
  the widget can post is rejected with a 400, and the image the widget attaches
  reaches the model as its base64 text.

Behaviour of the code worth knowing, which the model keeps:

- The widget never looks at the HTTP status. An error body from the backend
  (`{"error": ...}` with status 400 or 500) still parses as JSON. It therefore
  counts as an answer whose `response` field is missing. The widget shows an
  empty assistant message, because setting `textContent` to `undefined` renders
  nothing. In the image flow it also clears the attachment. Only a rejected
  `fetch` or a body that is not JSON leads to the apology. `Outcome.Answered(None)`
  models this case.
- The attachment is cleared after an answered image request but kept after a
  failed one (`Settle`). The user can remove or replace the image while a
  request is outstanding, and the reset after an answer then clears whatever is
  attached at that moment.
- In the text flow the message is the trimmed input. In the image flow an empty
  query becomes "Please analyze this image", both in the user's turn and in the
  request. The empty-query 400 of `analyze_image` is therefore unreachable from
  the widget (`Protocol.ImageQueryNeverRejected`).

## Model

| member | source | states |
|---|---|---|
| `Text.Trim` | app.py:20 | The result is the slice of the input that remains after a leading and a trailing run of whitespace are dropped, and neither end of it is whitespace (`strip()` in app.py:20, `trim()` in script.js:166) |
| `Text.TrimStart` | app.py:20 | The result is the suffix of the input left after a run of whitespace, and it does not itself start with whitespace |
| `Text.TrimEnd` | app.py:20 | The result is the prefix of the input before a run of whitespace, and it does not itself end with whitespace |
| `Text.TrimOfTrimmed` | app.py:20 | Trimming a string that is already trimmed returns it unchanged |
| `Text.TrimKeepsAvoids` | app.py:20 | Trimming cannot create an occurrence of a pattern that the input does not contain |
| `Text.ReplaceAll` | app.py:20 | `str.replace` brings in no character that is in neither the input nor the replacement, and a replacement no longer than the pattern never lengthens the string |
| `Text.ReplaceAbsent` | app.py:20 | `str.replace` of a pattern that does not occur returns the input unchanged |
| `Text.Without` | app.py:20 | Deleting every occurrence of a character leaves the multiset of the input with that character's count set to zero |
| `Text.ReplaceSingleIsWithout` | app.py:20 | `replace('*', '')` deletes every asterisk and keeps all other characters in order |
| `Text.WithoutAfterPairDeletion` | app.py:20 | Running `replace('**', '')` before deleting every asterisk does not change the final result |
| `Text.Split` | app.py:103 | `str.split(sep)` gives at least one piece, and no piece contains the separator |
| `Text.JoinSplit` | app.py:103 | Joining the pieces of `split(sep)` with `sep` gives back the original string |
| `Backend.StripMarkdown` | app.py:20 | After `replace('**', '')` and `replace('*', '')` no asterisk is left, and every other character keeps its count |
| `Backend.StripMarkdownIsWithout` | app.py:20 | Together, the first two replacements delete every `*` and keep all other characters in order |
| `Backend.LiteralMarkerReplaced` | app.py:20 | After the third replacement, the four-character pattern newline, backslash, `d`, `.` occurs nowhere in the output |
| `Backend.CleanAiResponse` | app.py:19-20 | The cleaned answer has no `*`, no Python whitespace at either end, and no occurrence of the literal pattern |
| `Backend.CleanFixedPoint` | app.py:19-20 | A string without `*` or backslash and without whitespace at its ends is returned unchanged |
| `Backend.CleanIdempotent` | app.py:19-20 | Cleaning an already cleaned answer returns it unchanged |
| `Backend.CleanKeepsNumberedItem` | app.py:20 | As written, a numbered list item (newline, digit, `.`) survives cleaning unchanged |
| `Backend.CleanAiResponseIntended` | app.py:20 | Corrected cleaner: no `*`, no whitespace at either end, and no newline-digit-period marker left |
| `Backend.NumberedReplaced` | app.py:20 | No newline-digit-period marker survives the intended replacement: the replacement never creates a new one |
| `Backend.CleanIntendedBullets` | app.py:20 | The corrected cleaner turns a numbered item into a bullet item, newline then U+2022 |
| `Backend.HealthPrompt` | app.py:22-42 | The prompt starts with the fixed head, has the message verbatim right after it, and ends with the fixed guidelines tail |
| `Backend.HealthPromptRoundTrip` | app.py:22-42 | The message sits verbatim inside the health prompt and can be read back out exactly |
| `Backend.HealthPromptOfMessage` | app.py:22-42 | Any prompt from which a message can be read back is the health prompt of that message, so the builder is injective |
| `Backend.ImagePrompt` | app.py:44-65 | The prompt starts with the fixed instructions, and everything after them is the query verbatim |
| `Backend.ImagePromptEndsWithQuery` | app.py:44-65 | The image prompt ends with "For the query: " followed by the query |
| `Backend.ImagePromptRoundTrip` | app.py:44-65 | The query can be read back out of the image prompt exactly |
| `Backend.ImagePromptOfQuery` | app.py:44-65 | Any prompt from which a query can be read back is the image prompt of that query |
| `Backend.Field` | app.py:96-97 | `data.get(key, '')` (also app.py:75): the field's value when the key is present, the empty string when it is missing |
| `Backend.Chat` | app.py:72-81 | Status 400 with "No message provided" exactly when `message` is missing or empty. Otherwise the prompt carries the message verbatim |
| `Backend.AnalyzeImage` | app.py:93-114 | Status 400 with "Image and query are required" exactly when `image` or `query` is missing or empty. Otherwise the payload is taken from the image data URL, and the prompt carries the query verbatim |
| `Backend.DataUrlPayload` | app.py:103 | The payload contains no comma. A string without a comma is its own payload |
| `Backend.PayloadBetweenCommas` | app.py:103 | The payload is exactly the text between the first and second comma, or between the first comma and the end of the string |
| `Widget.ImageQuery` | static/js/script.js:227 | The image-flow query is never empty. It is the typed query whenever one was typed, and the default phrase otherwise |
| `Widget.RequestFor` | static/js/script.js:166-176 | An accepted submit takes the image flow exactly when an attachment is set. The chat message is the trimmed input, and the image request carries the attachment. The image request's query is the typed query or, when nothing was typed, the default phrase. Every such request is well formed |
| `Widget.UserTurn` | static/js/script.js:180-227 | The user's turn shows the text the request carries, and in the image flow also the image it sends |
| `Widget.Apology` | static/js/script.js:268-270 | A failed request shows one of two fixed apologies (the chat one is at script.js:217), the chat one exactly when the request was a chat request |
| `Widget.ReplyText` | static/js/script.js:203-217 | An answer is shown verbatim. A body without `response` shows an empty text. A failure shows the flow's fixed apology |
| `Widget.RemoveFirst` | static/js/script.js:155-160 | Removes exactly one placeholder when there is one, and changes nothing when there is none |
| `Widget.RemoveFirstSplit` | static/js/script.js:155-160 | When `x` first occurs between `a` and `b`, removing the first `x` gives exactly `a` followed by `b`: the first occurrence goes and the order of the rest is kept |
| `Widget.RemoveFirstAtEnd` | static/js/script.js:155-160 | Removing the only placeholder from the end gives back the entries before it |
| `Widget.ChatWidget.Accepts` | static/js/script.js:166-167 | A submit is refused while a request is outstanding, and when the trimmed input is empty and nothing is attached. An accepted submit yields a well-formed request |
| `Widget.ChatWidget.constructor` | static/js/script.js:13-14 | The session starts with no attachment, no outstanding request, and no placeholder in the transcript |
| `Widget.ChatWidget.EditInput` | static/js/script.js:166 | Typing replaces the input text and keeps the session invariant |
| `Widget.ChatWidget.ImageLoaded` | static/js/script.js:27-42 | A loaded image becomes the attachment and sets the image placeholder text. It is allowed while a request is outstanding |
| `Widget.ChatWidget.ResetImageUpload` | static/js/script.js:45-51 | The attachment is none and the placeholder is the default text whatever the prior state, so the reset is idempotent |
| `Widget.ChatWidget.AddMessage` | static/js/script.js:54-115 | Appends exactly one message with role and text. It shows an image only when the image argument is truthy |
| `Widget.ChatWidget.ShowTypingIndicator` | static/js/script.js:118-152 | Appends exactly one placeholder |
| `Widget.ChatWidget.RemoveTypingIndicator` | static/js/script.js:155-160 | Removes the first placeholder, and is a no-op when there is none |
| `Widget.ChatWidget.Submit` | static/js/script.js:163-177 | A no-op that changes nothing when a request is outstanding, or when the trimmed input is empty and nothing is attached. Otherwise it appends exactly the user's turn and one placeholder, empties the input, raises the flag, and posts the request |
| `Widget.ChatWidget.HandleTextSubmission` | static/js/script.js:180-201 | The user's turn and the posted message are both the trimmed input. The input is emptied, the placeholder is shown last, and the flag is raised |
| `Widget.ChatWidget.HandleImageSubmission` | static/js/script.js:225-249 | The user's turn and the request both carry the query or the default phrase. The turn carries the current attachment, which is also the image posted |
| `Widget.ChatWidget.Settle` | static/js/script.js:193-274 | The placeholder is replaced by the reply or the flow's apology, earlier entries are unchanged, and the flag is lowered. The attachment is cleared only when an image request was answered |
| `Protocol.Body` | static/js/script.js:195-248 | The chat body has only `message`. The image body has exactly `image` and `query` |
| `Protocol.WidgetRequestsPassValidation` | app.py:74-100 | Every well-formed widget request passes the backend's 400 checks. The message reaches the health prompt unchanged, and the query reaches the image prompt unchanged |
| `Protocol.ImageQueryNeverRejected` | static/js/script.js:247 | An accepted image submit never hits the empty-query 400 |
| `Protocol.AttachedImageReachesModel` | app.py:103 | For a `data:<type>;base64,<data>` URL, the payload handed to the model is exactly the base64 data |

## Left out

- Presentation: element classes, avatar order, inline image styles, scrolling, the preview element and the file input's value. The model keeps only each entry's role, text and optional image.
- Timestamps: `toLocaleTimeString` depends on the wall clock and the locale.
- `fetch` and JSON parsing. The outcome of a request is a parameter of `Widget.ChatWidget.Settle`. The `console.error` trace is not modelled.
- FileReader decoding. Its `onload` is the `ImageLoaded(dataUrl)` event. A `change` event without a file returns at once, and starting a read changes no modelled state, so neither is a method. A read that fails produces no event.
- Event-loop interleaving. Each handler's synchronous prefix, and the code after its `await`, is one atomic step. `Widget.ChatWidget.Settle` requires an outstanding request because only an issued request can settle.
- The page markup (`templates/index.html` is not part of this model). The session starts with an empty transcript and an empty input.
- Gemini configuration and `generate_content`, `load_dotenv`, Flask routing, CORS, `jsonify` and `render_template`. These are foreign calls, so the handlers stop at the prompt and payload they would send.
- `base64.b64decode` and `b64encode`. These are library calls, and `b64decode` without validation skips characters outside the alphabet. The model keeps only the comma split.
- The media type sent with the image: app.py:109 always labels the payload `image/jpeg`, whatever the data URL's own type. The model keeps only the payload and the prompt of the call, not this constant label.
- The catch-all 500 paths, which depend on foreign exceptions, including a body that is not a JSON object.
- Backend.Chat: request bodies are modelled as maps from field names to strings. JSON values that are not strings (numbers, `null`, lists) are not modelled, nor their truthiness or their formatting in the prompt.
- Strings are sequences of Unicode scalar values. JavaScript's UTF-16 code units, including lone surrogates, are not modelled.

## Findings

| source | as written | input that shows it | evidently intended | confidence | as-written member | corrected member |
|---|---|---|---|---|---|---|
| app.py:20 | `'\n\d.'` is an ordinary Python string, where `\d` is not an escape. The third replacement therefore looks for newline, backslash, `d`, `.`, which model output practically never contains | `"Tips:\n1. Rest"` comes back unchanged, numbered marker included | a numbered list marker (newline, a digit, a period) becomes newline and bullet, as a regular expression `\n\d\.` would do | high; not executed | `Backend.CleanKeepsNumberedItem` | `Backend.CleanAiResponseIntended` |

The handlers in this model stop before the model's answer, so neither cleaner
feeds into them. The corrected cleaner is the one whose property states the
intent: no numbered marker survives it (`Backend.NumberedReplaced`), and it
turns a numbered item into a bullet item (`Backend.CleanIntendedBullets`).
