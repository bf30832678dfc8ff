# LermaBiblioChat, modelled in Dafny

LermaBiblioChat is a single-page app. The user uploads a plain-text or PDF book, and the app then
holds a conversation about it with a hosted Gemini model. This project models the three pieces
of the app that carry logic. Browser APIs, pdf.js and the Gemini client are replaced by abstract
inputs.

- **File upload** (`file_upload.dfy`, module `FileUpload`). The MIME-type dispatch sends
  `text/plain` to the text reader and `application/pdf` to the PDF reader; anything else
  is an error. The text path hands the read text to `onUpload` unchanged. The PDF path is a loop
  over pages 1..numPages: each page's item strings are joined with one space and followed by
  `"\n\n"`, and any failing page aborts the document. The component's `error` and `isReading`
  state is modelled across the `FileReader` callbacks. The file input is disabled while reading,
  but the drop zone is not. So a drop can start a second read while one is in flight, and the
  first to settle clears `isReading`. The model keeps the in-flight readers as a sequence to
  capture this.
- **Chat window** (`chat_window.dfy`, module `ChatWindow`). `initChat` builds the system
  instruction, which holds the book verbatim between `---START OF BOOK---` and
  `---END OF BOOK---`. It then opens the chat, giving a greeting, or fails, giving a connection
  error. A failure leaves whatever chat there was: none on mounting. The submit guard rejects
  blank input (by `trim`), a submit while a reply is awaited, and any submit without a chat.
  An accepted submit appends the untrimmed user message, then exactly one model message: the
  reply text or the fixed error text. Two invariants are kept:
  - `Live`: a reply is only awaited with a chat. It holds in every state.
  - `Valid`: the transcript opens with a model message, roles then alternate, and a reply is
    awaited exactly when the last message is the user's. Mounting establishes it and every
    step keeps it, except one. The app keeps the same window when it receives another book,
    since the chat window has no `key` (App.tsx:39). The new props re-run `initChat`
    (components/ChatWindow.tsx:52). A second file read that settles after the chat has appeared
    (see the drop zone above) does exactly this. If a reply is awaited at that moment, the
    transcript restarts with the new greeting, and the old reply lands right after it.
    `NewBookWhileAwaitingReply` proves this gives two model messages in a row.
- **App shell** (`app.dfy`, module `App`). Upload and reset set the two fields. The view choice
  tests `bookContent` for JavaScript truthiness, so an empty document keeps the upload view.
- `js_strings.dfy` (module `JsStrings`) models the JavaScript built-ins used: `Array.join` and
  `String.trim`. It also has `String.split`, which the app does not call; it is the reference
  partner of `join`. `wrappers.dfy` holds `Option`, standing for `null`.

The chat makes one awaited, non-streaming `chat.sendMessage` call per turn and appends the whole
reply as one model message (components/ChatWindow.tsx:68-70). There is no placeholder message
and no chunk-by-chunk update. The PDF text has `"\n\n"` after every page, including the last
(components/FileUpload.tsx:79), so a document with pages always ends with a blank line.

## Model

| member | source | states |
|---|---|---|
| FileUpload.Route | components/FileUpload.tsx:25-31 | a MIME type goes to the text reader iff it is exactly `text/plain`, to the PDF reader iff it is exactly `application/pdf`, and is unsupported otherwise |
| JsStrings.Join | components/FileUpload.tsx:78 | `Array.prototype.join` with a one-character separator; SplitJoin proves it puts exactly one separator between neighbours, and JoinLength gives its length |
| FileUpload.PageText | components/FileUpload.tsx:78 | a page's text is its item strings joined by a single `' '`; its properties are those of `JsStrings.Join` (SplitJoin, JoinAppend, JoinLength) |
| FileUpload.Concat | components/FileUpload.tsx:72-80 | the text of a document with no pages is `""` |
| FileUpload.ConcatEndsWithBreak | components/FileUpload.tsx:79 | the text of a document with at least one page ends with `"\n\n"` |
| FileUpload.ConcatAppend | components/FileUpload.tsx:74-80 | the text of a run of pages is the text of its first part followed by the text of the rest |
| FileUpload.ConcatAround | components/FileUpload.tsx:74-80 | a page between two runs of pages contributes its joined text and `"\n\n"` between their texts |
| FileUpload.PageInOrder | components/FileUpload.tsx:74-80 | page k's text and its `"\n\n"` come after every earlier page's block and before every later one's |
| FileUpload.ReadOneMorePage | components/FileUpload.tsx:74-79 | after pages 1..n-1 have been read, reading a readable page n appends exactly that page's joined items and `"\n\n"` to the text so far |
| FileUpload.AssemblePdfText | components/FileUpload.tsx:68-86 | the loop returns text iff the document opened and every page was read; that text is the in-order concatenation of each page's joined items plus `"\n\n"`; otherwise no partial text is returned |
| JsStrings.SplitJoin | components/FileUpload.tsx:78 | joining with `' '` puts exactly one space between items: splitting on `' '` gives the items back when no item holds a space |
| JsStrings.JoinAppend | components/FileUpload.tsx:78 | joining two non-empty runs of items puts one separator between the two joined runs |
| JsStrings.JoinLength | components/FileUpload.tsx:78 | a join is as long as its items plus one separator between each two neighbours |
| FileUpload.FileUpload.constructor | components/FileUpload.tsx:18-19 | the mounted component has no error, is not reading, has no read in flight and has made no upload |
| FileUpload.FileUpload.ProcessFile | components/FileUpload.tsx:22-32 | the error is cleared and then: a text read starts; or a PDF read starts when the library is loaded; or the library error is set with `isReading` and the readers untouched; or the unsupported-type error is set; `onUpload` is never called |
| FileUpload.FileUpload.ReadTxtFile | components/FileUpload.tsx:41-54 | starting a text read sets `isReading` and adds one text reader for the file |
| FileUpload.FileUpload.ReadPdfFile | components/FileUpload.tsx:57-97 | without the PDF library only the library error is set, and `isReading` and the readers are untouched; with it, `isReading` is set and one PDF reader is added |
| FileUpload.FileUpload.HandleFileChange | components/FileUpload.tsx:34-39 | with no file, or while the input is disabled by `isReading`, nothing changes; otherwise the file is processed as `processFile` does |
| FileUpload.FileUpload.HandleDrop | components/FileUpload.tsx:105-111 | with no file nothing changes; otherwise the file is processed as `processFile` does, even while another read is in flight |
| FileUpload.FileUpload.TextLoaded | components/FileUpload.tsx:45-49 | exactly one upload is recorded, of the read text unchanged and the file's name; `isReading` is cleared and the reader is gone |
| FileUpload.FileUpload.PdfLoaded | components/FileUpload.tsx:67-90 | a readable document is uploaded once, with its assembled text and the file's name; otherwise nothing is uploaded and the PDF error is set; `isReading` is cleared in both cases |
| FileUpload.FileUpload.ReadFailed | components/FileUpload.tsx:50-53 | a read error sets the read error, uploads nothing and clears `isReading` |
| JsStrings.Trim | components/ChatWindow.tsx:60 | `String.prototype.trim`; TrimEmptyIffBlank and TrimIsInfix state what it returns |
| JsStrings.TrimStart | components/ChatWindow.tsx:60 | leading-whitespace removal leaves a suffix that does not start with whitespace, and all that was removed is whitespace |
| JsStrings.TrimEnd | components/ChatWindow.tsx:60 | trailing-whitespace removal leaves a prefix that does not end with whitespace, and all that was removed is whitespace |
| JsStrings.TrimEmptyIffBlank | components/ChatWindow.tsx:60 | `s.trim()` is empty exactly when every character of `s` is whitespace |
| JsStrings.TrimIsInfix | components/ChatWindow.tsx:60 | `s.trim()` is the part of `s` between two all-whitespace runs, and it neither starts nor ends with whitespace |
| ChatWindow.SystemInstruction | components/ChatWindow.tsx:32 | the system-instruction template filled with the book; InstructionCarriesBook and InstructionInjective state its properties |
| ChatWindow.Greeting | components/ChatWindow.tsx:43 | the greeting template filled with the title; GreetingQuotesTitle states its properties |
| ChatWindow.Accepts | components/ChatWindow.tsx:60 | the submit guard `currentMessage.trim()` non-empty, not loading, chat present; AcceptsIff restates it without `trim` |
| ChatWindow.Unfill | components/ChatWindow.tsx:32 | a template's placeholder value is read back only from a string of the template's shape |
| ChatWindow.UnfillFill | components/ChatWindow.tsx:32 | filling a one-placeholder template and reading it back gives the placeholder's value |
| ChatWindow.InstructionCarriesBook | components/ChatWindow.tsx:32 | the system instruction is the fixed preamble, `---START OF BOOK---`, the full book text verbatim and `---END OF BOOK---`, and the book can be read back from it |
| ChatWindow.InstructionInjective | components/ChatWindow.tsx:32 | two different books never give the same system instruction |
| ChatWindow.GreetingQuotesTitle | components/ChatWindow.tsx:43 | the greeting holds the title between double quotes right after `I've finished reading `, and the title can be read back from it |
| ChatWindow.ReplyMessage | components/ChatWindow.tsx:68-74 | a settled request yields a model message whose text is the reply's text, or the fixed error text when the request failed |
| ChatWindow.AcceptsIff | components/ChatWindow.tsx:60 | a submit is accepted exactly when the input is not all whitespace, no reply is awaited and a chat exists |
| ChatWindow.ChatWindow.constructor | components/ChatWindow.tsx:21-52 | mounting gives `Valid`, an empty input, no wait, and then: after a successful start a chat built with `gemini-2.5-flash` and the book's system instruction, with only the greeting in the transcript; after a failed start no chat and only the connection error message |
| ChatWindow.ChatWindow.InitChat | components/ChatWindow.tsx:28-52 | on success the chat is replaced by one built with the book's system instruction and the transcript becomes only the greeting; on failure the chat is kept and the transcript becomes only the connection error; the input and the wait are kept; `Live` is kept, and `Valid` holds afterwards when no reply is awaited |
| ChatWindow.ModelTwiceBreaksAlternation | components/ChatWindow.tsx:63-74 | a transcript with two model messages in a row is not alternating |
| ChatWindow.AwaitingFirstReply | components/ChatWindow.tsx:58-65 | a fresh window on a book, given a non-blank question that is then submitted, awaits a reply |
| ChatWindow.RestartThenReply | components/ChatWindow.tsx:28-77 | re-running `initChat` while a reply is awaited, then receiving that reply, leaves exactly the new greeting followed by the reply |
| ChatWindow.NewBookWhileAwaitingReply | components/ChatWindow.tsx:28-77 | a new book arriving while a reply is awaited leaves the transcript as the new greeting followed by the old reply, which is not alternating |
| ChatWindow.ChatWindow.EditInput | components/ChatWindow.tsx:93-97 | typing changes the input only when no reply is awaited and a chat exists; `Live` and `Valid` are kept |
| ChatWindow.ChatWindow.Submit | components/ChatWindow.tsx:58-65 | a rejected submit changes nothing and sends nothing; an accepted one appends one user message with the untrimmed input, clears the input, sets `isLoading` and sends that text; the chat never changes, so without one every submit is a no-op; `Live` and `Valid` are kept |
| ChatWindow.ChatWindow.SendUserMessage | components/ChatWindow.tsx:62-65 | the accepted branch appends one user message with the untrimmed input, clears the input, sets `isLoading`, sends that text, and keeps the roles alternating |
| ChatWindow.AlternatingAppend | components/ChatWindow.tsx:63-74 | appending the message of the role whose turn it is (user after model, model after user) keeps the alternating transcript |
| ChatWindow.ChatWindow.Respond | components/ChatWindow.tsx:67-77 | exactly one model message is appended and earlier messages are kept; `isLoading` is cleared; `Live` is kept, and so is `Valid`, under which that message follows the user's |
| App.Truthy | App.tsx:26-36 | JavaScript truthiness of `string or null`; ViewFor and ShowsResetButton state what follows from it |
| App.ViewFor | App.tsx:36-40 | the chat view is shown iff `bookContent` is a non-empty string; `null` and `''` show the upload view |
| App.ShowsResetButton | App.tsx:26-33 | the "New Book" control is present exactly when the chat view is shown |
| App.App.constructor | App.tsx:6-7 | the app starts with no book, an empty title and the upload view |
| App.App.HandleBookUpload | App.tsx:9-12 | the book and title become exactly the arguments; an empty text keeps the upload view |
| App.App.HandleReset | App.tsx:14-17 | the book becomes `null` and the title `''`, which shows the upload view without the reset control |

## Left out

- `readingStatus` and its per-page "Reading page i of n..." strings: these are UI feedback only.
- `console.error` logging, JSX rendering, styles, icons, the spinner and scroll-into-view
  (components/ChatWindow.tsx:54-56).
- components/ChatMessage.tsx: it only maps the role to styling.
- `FileReader` decoding: the text a read produces is an input. The `accept=".txt,.pdf"`
  filter of the picker is presentation; the MIME check is the guard.
- pdf.js: a document is an input, either its pages' item strings or a failure. An item
  without `str` (marked content) is taken as the string `""`, which is what `join` makes of
  `undefined`.
- Interleaving during the PDF loop: the per-page awaits are merged into one atomic
  `PdfLoaded` step, so other events arriving between pages are not modelled.
- An exception thrown by `onUpload` inside the PDF `try` block is not modelled.
- The Gemini client (`GoogleGenAI`, `ai.chats.create`, `chat.sendMessage`): starting is a
  boolean input and a reply is `Answered(text)` or `RequestFailed`. A reply whose `text` is
  `undefined` is not modelled.
- React's state batching and StrictMode's double effects. A change of props re-runs `initChat` as
  the `InitChat` step. `Valid` then holds again only if no reply was awaited. If one was, only
  `Live` holds from then on.
- A file read still in flight when the upload view unmounts keeps running and may call
  `onUpload` later. In the model, the upload component and the app are separate objects, so
  this is not modelled as one connected run. The chat side of it is covered by `InitChat` and
  `NewBookWhileAwaitingReply`.
- The environment's API key: it only decides whether starting succeeds.
