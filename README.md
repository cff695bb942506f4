# Vietnamese translation front-end: a Dafny model of its core

The application translates typed text or the text in an uploaded image
into Vietnamese through one call to a remote generative service. Its core
is modelled here:

- the translation client (`services/geminiService.ts`): the reply
  normalisation `cleanTranslation` and the two operations `translateText`
  and `translateImage`. The remote service is an oracle parameter
  `generate: Request -> Reply`, where `Reply` is `Ok(text)` or `Fail`. Each
  operation returns the requests it sent with its outcome. That is how "no
  call on blank input" and "exactly one call" are stated.
- the ECMAScript string built-ins these use (`js_string.dfy`): `trim` over
  the WhiteSpace and LineTerminator code points of sections 12.2 and 12.3 of
  ECMA-262, `replace(/\*/g, '')`, and `split` on one character.
- the data-URL parse inside `fileToBase64`, for URLs of the form in section
  3 of RFC 2397. It gives a payload and a media type, a rejection, or a
  throw when the header has no `:`.
- the two screen controllers, as classes over their React state cells. The
  submit handler is split into `Begin` (up to the `await`) and `Complete`
  (the success, catch and finally branches). `Submit` runs both. The
  submit-button guard is a function of the state.
- the shell's mode cell, its two handlers, and the mode-to-screen selection.

Module layout: `Wrappers` (Option), `JsString`, `GeminiService`,
`TextTranslator`, `ImageTranslator`, `App`.

Three behaviours of the code that the model keeps as they are:

- Editing the text input changes only `inputText`; the shown translation
  and error stay as they were (`onChange` at
  `components/TextTranslator.tsx:56`).
- A data URL whose header has no `:` does not surface an encoding error. The
  `TypeError` at `components/ImageTranslator.tsx:36` is thrown inside the
  reader's `onload` callback, not in the promise executor. So it rejects
  nothing: the promise never settles and `isLoading` stays `true`. The model
  records this as `NeverSettles`. `Submit` then leaves the controller in
  `Awaiting()`. A browser's `readAsDataURL` always yields `data:...`, so
  this path is not reachable there.
- The handlers do not refuse a second submit while one is in flight. Only
  the button's `disabled` attribute prevents double submission. So
  `SubmitEnabled` is a guard beside the handlers, not a precondition of
  them.

## Model

| member | source | states |
|---|---|---|
| JsString.TrimStart | services/geminiService.ts:15 | the result is a suffix of the input, everything dropped is whitespace, and it does not start with whitespace |
| JsString.TrimEnd | services/geminiService.ts:15 | the result is a prefix of the input, everything dropped is whitespace, and it does not end with whitespace |
| JsString.Trim | services/geminiService.ts:15 | the result is no longer than the input, holds only characters of the input, and has no whitespace at either end |
| JsString.TrimBounds | services/geminiService.ts:15 | gives the two cut points of trim: the result is the slice between them, with only whitespace before and after |
| JsString.TrimIsSlice | services/geminiService.ts:15 | trim cuts the input into leading whitespace, the result, and trailing whitespace |
| JsString.TrimExact | services/geminiService.ts:15 | trim of whitespace + t + whitespace is t whenever t has no whitespace at its ends (with TrimIsSlice, trim is fully characterised) |
| JsString.TrimOfTrimmed | services/geminiService.ts:15 | a string with no whitespace at its ends is its own trim |
| JsString.BlankIffTrimEmpty | services/geminiService.ts:20 | the blank test (every character is ECMAScript whitespace) holds exactly when `s.trim()` is the empty string, which is what `!s.trim()` tests |
| JsString.RemoveAll | services/geminiService.ts:15 | the result contains no `*` |
| JsString.RemoveAllCounts | services/geminiService.ts:15 | every character other than `*` occurs in the result exactly as often as in the input, and `*` not at all |
| JsString.RemoveAllAppend | services/geminiService.ts:15 | removal distributes over concatenation, so kept characters stay in their order |
| JsString.RemoveAllAbsent | services/geminiService.ts:15 | a string without `*` is unchanged |
| JsString.Split | components/ImageTranslator.tsx:35 | split yields at least one piece and no piece contains the separator |
| JsString.JoinSplit | components/ImageTranslator.tsx:35 | joining the pieces with the separator gives the input back |
| JsString.SplitJoin | components/ImageTranslator.tsx:35 | splitting a join of separator-free pieces gives those pieces back |
| JsString.SplitAbsent | components/ImageTranslator.tsx:35 | a string without the separator is one piece |
| JsString.SplitAtFirst | components/ImageTranslator.tsx:35 | the first piece ends at the first separator; the rest are the pieces of what follows |
| JsString.SplitTwo | components/ImageTranslator.tsx:36 | a string with exactly one separator splits into the two parts around it |
| JsString.SplitFirstPiece | components/ImageTranslator.tsx:36 | the first piece is the text up to the first separator, if any |
| JsString.SplitByIndex | components/ImageTranslator.tsx:35-36 | split in terms of the first separator's position: the text before it, then the pieces of the text after it; one piece when there is none |
| JsString.FirstPiece | components/ImageTranslator.tsx:35 | the first piece of a split is the text before the first separator |
| GeminiService.CleanTranslation | services/geminiService.ts:14-16 | the normalised reply holds no `*` and has no whitespace at either end |
| GeminiService.CleanTranslationKeepsTheRest | services/geminiService.ts:15 | the result is a contiguous run of the star-free reply with only whitespace around it |
| GeminiService.CleanTranslationUnique | services/geminiService.ts:15 | any such clean run with whitespace around it is the result (with the previous row, a full characterisation) |
| GeminiService.CleanTranslationOfClean | services/geminiService.ts:15 | a reply that is already clean is returned verbatim |
| GeminiService.CleanTranslationIdempotent | services/geminiService.ts:15 | cleaning twice equals cleaning once |
| GeminiService.CleanTranslationOfEmphasised | services/geminiService.ts:15 | asterisks around a clean text, and whitespace around those, all disappear, since stripping precedes trimming |
| GeminiService.CleanTranslationStripsBeforeTrimming | services/geminiService.ts:15 | `" *Xin chào* "` is cleaned to `"Xin chào"` |
| GeminiService.CleanTranslationStripsEmphasis | services/geminiService.ts:15 | `"*Xin chào thế giới*"` is cleaned to `"Xin chào thế giới"` |
| GeminiService.TextPrompt | services/geminiService.ts:23 | the prompt is the fixed instruction, then `"\n\n"`, then the untrimmed source text, which can be read back from it |
| GeminiService.Settle | services/geminiService.ts:31-35 | a reply succeeds exactly when the service answered, and then with the cleaned reply text; every failure is the one fixed message |
| GeminiService.TranslateText | services/geminiService.ts:18-36 | no request iff the input is blank, and then the result is `""`; otherwise exactly one request carrying the untrimmed text; success is the cleaned reply; failure iff the service failed, always with the fixed message |
| GeminiService.TranslateImage | services/geminiService.ts:38-65 | exactly one request whose parts are the image then the fixed instruction; success is the cleaned reply; failure iff the service failed, always with the fixed message |
| GeminiService.TranslationsAreClean | services/geminiService.ts:18-65 | whatever either operation resolves with has no `*` and no whitespace at its ends |
| GeminiService.TextScenarioStripsEmphasis | services/geminiService.ts:18-36 | input `"Hello world"` with reply `"*Xin chào thế giới*"` resolves to `"Xin chào thế giới"` |
| GeminiService.ImageScenarioNoTextFound | services/geminiService.ts:48-59 | the "no text found" sentence requested by the instruction is returned verbatim |
| TextTranslator.Controller.constructor | components/TextTranslator.tsx:22-25 | all cells start empty and nothing is loading |
| TextTranslator.Controller.SubmitEnabled | components/TextTranslator.tsx:72 | the button is enabled iff nothing is loading and the trimmed input is not empty |
| TextTranslator.Controller.Edit | components/TextTranslator.tsx:56 | an edit changes `inputText` only; translation, error and loading flag are untouched |
| TextTranslator.Controller.Begin | components/TextTranslator.tsx:27-34 | blank input: the validation message, no call, loading flag and translation unchanged; otherwise the untrimmed input goes to the client, with loading set, error and translation cleared, and the button disabled |
| TextTranslator.Controller.Complete | components/TextTranslator.tsx:35-43 | success shows the returned text; failure shows the fixed message and keeps the translation; loading is off after either |
| TextTranslator.Controller.Submit | components/TextTranslator.tsx:27-44 | a blank submit sends nothing; otherwise exactly one request with the untrimmed input, then the cleaned reply with no error, or no translation with the fixed message, and loading off |
| ImageTranslator.ParseDataUrl | components/ImageTranslator.tsx:35-41 | a resolved parse has a non-empty payload with no `,` and a non-empty media type with no `;` |
| ImageTranslator.ParseDataUrlByPosition | components/ImageTranslator.tsx:35-41 | the parse equals the position-based reading: it throws iff the header before the first `,` has no `:`; the media type runs from the first `:` to the next `:` or `;`; the payload lies between the first and second `,`; it resolves only when both are non-empty |
| ImageTranslator.ParseThrowsIffNoColon | components/ImageTranslator.tsx:36 | the parse throws exactly when the header has no `:` |
| ImageTranslator.ParseRejectsMissingPayload | components/ImageTranslator.tsx:35-41 | a header with a `:` but no `,` is rejected, not thrown |
| ImageTranslator.CommaFields | components/ImageTranslator.tsx:35 | the destructured pair is the header and the text up to the second `,` |
| ImageTranslator.HeaderMediaType | components/ImageTranslator.tsx:36 | from `scheme:type;params` the media type read is `type` |
| ImageTranslator.ParseFormatted | components/ImageTranslator.tsx:32-38 | a `data:<type>;base64,<payload>` URL parses back to its payload and type, whatever follows a further `,` |
| ImageTranslator.ParseRejectsEmptyMediaType | components/ImageTranslator.tsx:36-40 | a URL with an empty media type is rejected even with a payload |
| ImageTranslator.FileToBase64 | components/ImageTranslator.tsx:29-44 | resolves iff the reader loaded and the parse succeeded, with exactly the parsed payload and media type (both non-empty); never settles iff the parse threw; a read error rejects with the reader's error; a load that is not resolved rejects with the parse message |
| ImageTranslator.EncodeAndTranslate | components/ImageTranslator.tsx:64-66 | a request is sent iff encoding resolved, and it carries the encoded payload and type; once encoded, the chain settles with the image translation's outcome (the cleaned reply, or the fixed error); an encoding rejection settles as that failure without a request; the chain never settles iff encoding never does |
| ImageTranslator.Controller.constructor | components/ImageTranslator.tsx:22-26 | no file, empty cells, nothing loading |
| ImageTranslator.Controller.SubmitEnabled | components/ImageTranslator.tsx:110 | the button is enabled iff nothing is loading and a file is chosen |
| ImageTranslator.Controller.HandleFileChange | components/ImageTranslator.tsx:46-54 | a non-empty selection takes its first file and clears translation and error; an empty one changes nothing |
| ImageTranslator.Controller.Begin | components/ImageTranslator.tsx:56-63 | no file: the validation message, no encode or call, loading and translation unchanged; otherwise the file goes to the encoder with loading set, error and translation cleared |
| ImageTranslator.Controller.Complete | components/ImageTranslator.tsx:64-73 | success shows the returned text; any failure shows the one fixed message; loading is off after either |
| ImageTranslator.Controller.Submit | components/ImageTranslator.tsx:56-74 | with no file nothing is sent; otherwise the requests are those of the encode-then-translate chain; when it settles, loading is off and the screen shows the result or the fixed message with no translation; when it never settles, the call stays in flight |
| App.RenderContent | App.tsx:65-75 | the image mode shows the image screen, the text mode the text screen, and the selection mode the selection screen |
| App.HeaderShown | App.tsx:81 | the title header is shown exactly while the selection screen is |
| App.CardMode | App.tsx:42-48 | the selection cards choose only the image or the text mode, one each |
| App.Shell.constructor | App.tsx:55 | the initial mode is the selection mode |
| App.Shell.SelectMode | App.tsx:57-59 | the mode becomes exactly the chosen one |
| App.Shell.GoBack | App.tsx:61-63 | from any mode, the mode becomes the selection mode |
| App.Shell.ChooseCard | App.tsx:38-49 | from the selection screen, a card leads to its translator screen and hides the header |

## Left out

- The `@google/genai` SDK and the network call are not modelled. The service is the oracle parameter `generate`. The request records the model name, the contents and the response format. A reply without text (`response.text` undefined) makes `cleanTranslation` throw inside the `try`, so it is folded into `Fail`.
- The `API_KEY` check at module load is a startup fault, not a per-request condition. It is left out.
- `FileReader.readAsDataURL` and its callbacks are browser I/O. Their result is the `ReadResult` parameter (the data URL, or an error).
- The code never decodes the base64 payload, so no encode/decode round trip over image bytes is stated. The round trip proved is format-then-parse of the data URL.
- `URL.createObjectURL`, the `previewUrl` cell and the preview image are a browser API and rendering.
- JSX, styling, `Spinner`, `BackButton`, `SelectionCard` and `console.error` are view code or logging.
- React's batching of setters, `useCallback` closure capture and async interleaving are not modelled. Each submit is `Begin` followed later by `Complete`, with assignments in order.
- Mounting a fresh translator screen (new, empty state) when the mode changes is React behaviour. It is not modelled; the shell and the controllers are separate objects.
- The `TranslationMode` enum's declaration file is not part of this model. `Mode` has its three values, so the switch's `default` branch has no separate case.
- Strings are sequences of code points, not UTF-16 code units. Every character these operations test is a single code unit, so the results are the same.
- `IsWhitespace` fixes the space-separator (Zs) part of the whitespace set to today's Unicode list; the other members (TAB, VT, FF, ZWNBSP and the four line terminators) are fixed by ECMA-262 itself.
