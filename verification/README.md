# Video-to-Blog AI Generator — a Dafny model of its core

The application takes an uploaded video, a topic and a writing style, asks a hosted text
generator for a structured blog post (title, summary, body, key points, timestamped notes,
image suggestions), and then pulls a still from the video for each image suggestion. This
project models the parts of it that are logic rather than presentation or network calls:

- `parseTimestamp` (utils.ts): "MM:SS" or "SS" to seconds, `NaN` otherwise — module
  `TimestampParser`, on top of the JavaScript `split` and `trim` of module `JsText`;
- `extractFramesFromVideo` (utils.ts): the sequential skip-or-capture loop over the image
  suggestions, the object URL it creates and revokes, and the promise it settles — module
  `FrameExtractor`, with the browser reduced to a `Video` value (does it load, its duration,
  what each seek reports), an `ObjectUrls` registry and a `Settlement`;
- `formatBlogPostAsMarkdown` (utils.ts): the Markdown export — module `MarkdownExport`, an
  imperative method that appends the sections in order, proved equal to the trim of a
  document function whose layout is then proved section by section;
- the page of App.tsx: the topic derived from a file name and the handlers of the page as a
  class `Page.App` whose fields are the page's `useState` variables — module `Page`;
- the records of types.ts — module `Types`.

The generation service and the frame extractor are passed to the generate handler as
functions (oracles): the model says what the page does with any answer they give.
`Page.App.Valid` (not loading, no post without a file, no frames without a post that asked
for some) is the invariant of the page when each handler runs to its end before the next
one starts: the constructor establishes it and every handler preserves it. The page does
not enforce that order. The generate handler shows its post before it waits on the frame
extractor, and from then on the "Analyze Another Video" button (App.tsx:148-157) is shown
and enabled. `Page.App` therefore also models the generate handler in two steps around that
wait, and a reset between them (see "## Findings").

Two behaviours of the code are easy to miss:

- Every piece of a timestamp goes through `Number`, and JavaScript's `Number("")` is 0, so
  "" parses to 0 and "5:" to 300 (`TimestampParser.ExamplesWithEmptyPieces`).
- The catch at utils.ts:68-70 logs a failed seek and goes on, so a failed seek is meant to
  skip only its suggestion. As written, the same failure also rejects the whole extraction
  (see "## Findings").

## Model

| member | source | states |
|---|---|---|
| JsText.TrimStart | App.tsx:34 | the result is the suffix of the input after its leading whitespace; what is cut is all whitespace and the result does not start with whitespace |
| JsText.TrimEnd | utils.ts:106 | the result is the prefix of the input before its trailing whitespace; what is cut is all whitespace and the result does not end with whitespace |
| JsText.Trim | App.tsx:34 | `trim()` is no longer than its input and neither starts nor ends with whitespace; `TrimEmptyIff` and `TrimAfterFixedStart` say when it is empty and what it keeps |
| JsText.TrimEmptyIff | App.tsx:34 | `topic.trim()` is empty exactly when the topic is made of whitespace only |
| JsText.TrimEndKeepsPrefix | utils.ts:106 | trimming the end of `a + b`, where `a` ends in a non-whitespace character, keeps `a` whole |
| JsText.TrimAfterFixedStart | utils.ts:106 | trimming a text that starts with a part whose ends are not whitespace keeps that part whole at the front and removes only trailing whitespace |
| JsText.Count | utils.ts:4 | the count of a character is at most the length and is zero exactly when the character does not occur |
| JsText.Split | utils.ts:4 | `split` always yields at least one piece |
| JsText.SplitPieces | utils.ts:4 | `split` yields one more piece than there are separators, no piece holds the separator, and joining the pieces gives the string back |
| JsText.SplitJoin | utils.ts:4 | splitting the join of separator-free pieces gives those pieces back |
| TimestampParser.ToNumber | utils.ts:4 | `Number` of a token is a number exactly when the token is a digit string; the empty token is 0 |
| TimestampParser.Decimal | utils.ts:4 | the decimal spelling of a number is a non-empty digit string |
| TimestampParser.NumberOfDecimal | utils.ts:4 | `Number` reads back the decimal spelling of every natural number |
| TimestampParser.LeadingZero | utils.ts:4 | a leading zero does not change the value of a digit string |
| TimestampParser.ParseTimestamp | utils.ts:3-12 | `parseTimestamp`, `NaN` being `None`; what it gives is stated by the lemmas `MinutesAndSeconds`, `NonNumericPiece`, `ColonCount`, `WholeSeconds` and `ParsedShape` |
| TimestampParser.MinutesAndSeconds | utils.ts:4-7 | "MM:SS" with both pieces numeric parses to 60 × minutes + seconds |
| TimestampParser.NonNumericPiece | utils.ts:4-7 | "MM:SS" with a non-numeric piece parses to `NaN` |
| TimestampParser.ColonCount | utils.ts:4-11 | without a colon the whole string goes through `Number`; with two or more colons the result is `NaN` |
| TimestampParser.WholeSeconds | utils.ts:8-10 | a digit string without a colon is that many seconds |
| TimestampParser.ParsedShape | utils.ts:3-12 | a timestamp that parses has at most one colon and only digits besides it |
| TimestampParser.ExamplesThatParse | utils.ts:3-12 | "05:30" is 330 seconds and "45" is 45 |
| TimestampParser.ExampleThreePieces | utils.ts:11 | "1:2:3" is `NaN` |
| TimestampParser.ExamplesWithEmptyPieces | utils.ts:4-9 | "" is 0 and "5:" is 300, because `Number("")` is 0 |
| FrameExtractor.SettleFirstWins | utils.ts:74-79 | the first outcome wins: once settled, a promise keeps its outcome whatever `resolve` or `reject` comes later, so the resolve at utils.ts:74 after a rejection at utils.ts:79 does nothing |
| FrameExtractor.ObjectUrls.constructor | utils.ts:31 | no object URL exists yet |
| FrameExtractor.ObjectUrls.Create | utils.ts:31 | `createObjectURL` gives a fresh URL that is now alive; nothing is revoked |
| FrameExtractor.ObjectUrls.Revoke | utils.ts:73 | `revokeObjectURL` removes the URL from the live ones and logs one revocation |
| FrameExtractor.InRange | utils.ts:42-43 | a suggestion is tried exactly when its time parses and is not past the duration; `OutOfRangeNeverExtracted` states that nothing else yields a frame |
| FrameExtractor.AttemptAt | utils.ts:42-70 | a suggestion whose time is `NaN` or past the duration is skipped; a captured frame carries the suggestion's time and description |
| FrameExtractor.TrySuggestion | utils.ts:42-66 | one pass of the loop body: parse, skip, or seek and capture, agreeing with `AttemptAt` |
| FrameExtractor.FramesUpTo | utils.ts:41-71 | the first `n` suggestions give at most `n` frames |
| FrameExtractor.SeekErrorsUpTo | utils.ts:57-61 | frames and failed seeks together are at most the number of suggestions tried |
| FrameExtractor.Frames | utils.ts:38-71 | the frames of the whole loop, at most one per suggestion; `FramesAreOrderedSelection`, `CapturedIndicesMembership` and `AllSucceed` state which |
| FrameExtractor.CapturedIndicesSound | utils.ts:41-71 | each frame comes from a captured suggestion at a recorded position, and the positions strictly increase |
| FrameExtractor.CapturedIndicesComplete | utils.ts:67 | every captured suggestion has its position recorded |
| FrameExtractor.FramesAreOrderedSelection | utils.ts:41-71 | the frames are an order-preserving selection of distinct suggestions, each with its suggestion's time and description and an in-range time |
| FrameExtractor.CapturedIndicesMembership | utils.ts:41-71 | a position yields a frame exactly when its suggestion was captured |
| FrameExtractor.OutOfRangeNeverExtracted | utils.ts:43-46 | a suggestion whose time is `NaN` or past the duration never yields a frame |
| FrameExtractor.UpToDurationExtracted | utils.ts:43-67 | a suggestion whose time parses to at most the duration, the duration itself included, and whose seek succeeds always yields a frame |
| FrameExtractor.AllSucceedUpTo | utils.ts:41-67 | with usable times and successful seeks, each of the first `n` suggestions yields its frame in place |
| FrameExtractor.AllSucceed | utils.ts:41-67 | with usable times and successful seeks there is one frame per suggestion, in order |
| FrameExtractor.SeekFailureDropsOnlyItsSuggestion | utils.ts:57-70 | making one seek fail removes that suggestion's frame and no other |
| FrameExtractor.RepeatAll | utils.ts:78 | every logged revocation is of the one object URL |
| FrameExtractor.WrittenOutcome | utils.ts:18-80 | what the promise ends as, as written: the canvas error, the load error when the video does not load or a seek fails, or the frames; `ExtractFramesFromVideo` is proved to end so |
| FrameExtractor.IsolatedOutcome | utils.ts:18-80 | what the promise ends as when a failed seek only skips its suggestion; `ExtractFramesIsolated` is proved to end so |
| FrameExtractor.OnError | utils.ts:77-80 | `onerror` revokes the URL and rejects with "Failed to load video file." unless the promise is already settled |
| FrameExtractor.OnLoadedMetadata | utils.ts:34-75 | as written: without seek errors the promise resolves with the frames and the URL is revoked once; each seek error revokes it once more and the promise rejects |
| FrameExtractor.ExtractFramesFromVideo | utils.ts:14-82 | as written: no canvas context rejects and creates no URL; a video that does not load rejects with one revocation; otherwise the outcome and revocations of `OnLoadedMetadata`; no URL stays alive |
| FrameExtractor.ExtractFramesIsolated | utils.ts:14-82 | corrected: a failed seek only skips its suggestion, the promise resolves with the frames, and the URL is revoked exactly once on success and on load failure |
| FrameExtractor.WrittenAgreesWithoutSeekErrors | utils.ts:34-80 | without seek errors the code as written and the corrected version give the same outcome, and the URL is revoked exactly once |
| FrameExtractor.ExampleAttempts | utils.ts:42-66 | in the example video, the first suggestion is captured and the second seek fails |
| FrameExtractor.OneSeekErrorLosesEveryFrame | utils.ts:57-80 | as written, one failed seek loses the frame already captured, rejects the extraction and revokes the URL twice; corrected, the caller gets that frame |
| MarkdownExport.KeyPointBullets | utils.ts:95-97 | one bullet per key point |
| MarkdownExport.NoteBullets | utils.ts:101-103 | one bullet per timestamped note |
| MarkdownExport.KeyPointBulletAt | utils.ts:96 | the bullet of key point `k` is "- " + point + a line break |
| MarkdownExport.NoteBulletAt | utils.ts:102 | the bullet of note `k` is "- **" + time + "**: " + description + a line break |
| MarkdownExport.AppendKeyPoints | utils.ts:95-97 | the key point loop appends the bullets of all key points, in order |
| MarkdownExport.AppendNotes | utils.ts:101-103 | the notes loop appends the bullets of all notes, in order |
| MarkdownExport.Document | utils.ts:85-105 | the text built before the final trim; its layout is stated by `MarkdownShape`, `KeyPointInPlace` and `NoteInPlace` |
| MarkdownExport.FormatBlogPostAsMarkdown | utils.ts:84-107 | the output is the trim of the document: heading, summary, body, key points, notes |
| MarkdownExport.MarkdownShape | utils.ts:87-106 | the output starts with "# " + title and every section through the "## Timestamped Notes" heading verbatim and in order; it starts with '#', does not end in whitespace, and only trailing whitespace was cut; without notes it ends with that heading |
| MarkdownExport.KeyPointInPlace | utils.ts:94-97 | each key point's bullet appears whole, in order, right after the "## Key Points" heading and the bullets before it, in the part the output starts with |
| MarkdownExport.NoteInPlace | utils.ts:100-103 | each note's bullet appears whole, in order, right after the "## Timestamped Notes" heading and the bullets before it |
| MarkdownExport.ExampleHeading | utils.ts:87-94 | the heading of post "T", "S", "B" is "# T", a blank line, "## Summary", "S", a blank line, "B", a blank line, "## Key Points" |
| MarkdownExport.ExampleEmptyLists | utils.ts:84-106 | a post without key points or notes ends with the "## Timestamped Notes" heading |
| MarkdownExport.WithoutLists | utils.ts:84-106 | a post without key points or notes gives its heading, a blank line and the "## Timestamped Notes" heading |
| Page.LastDot | App.tsx:23 | finds the last '.' before a position, or says there is none |
| Page.StripExtension | App.tsx:23 | the result is a prefix of the name; what is removed is an extension, a '.' and one or more characters that are neither '.' nor '/' up to the end; the name is unchanged exactly when no suffix is an extension |
| Page.NoExtension | App.tsx:23 | when the last '.' is not followed by a usable extension, no suffix of the name is one |
| Page.ExtensionUnique | App.tsx:23 | a name has at most one suffix that is an extension |
| Page.UnderscoresToSpaces | App.tsx:23 | same length, every '_' becomes a space and every other character stays; no '_' is left |
| Page.TopicFromFileName | App.tsx:23 | the topic is no longer than the name and holds no '_'; `TopicDropsExtension` states what it is |
| Page.TopicDropsExtension | App.tsx:23 | the topic is the name without its extension, if it has one, with underscores turned into spaces |
| Page.ExampleTopicWithUnderscore | App.tsx:23 | "my_video.mp4" gives "my video" |
| Page.ExampleDotFile | App.tsx:23 | ".bashrc" gives the empty topic |
| Page.ExampleTwoExtensions | App.tsx:23 | "a.tar.gz" gives "a.tar" |
| Page.ExampleTrailingDot | App.tsx:23 | "notes." is left as it is |
| Page.BlankTopic | App.tsx:34 | `!videoTopic.trim()` holds exactly when the topic is whitespace only |
| Page.App.Consistent | App.tsx:16-17 | a post comes with a file set, and frames with a post that suggested images |
| Page.App.Valid | App.tsx:11-18 | idle (not loading, no message) and consistent: the invariant when every handler runs to its end before the next starts |
| Page.App.constructor | App.tsx:11-18 | no file, empty topic, Professional style, not loading, no post, frames or error |
| Page.App.HandleFileChange | App.tsx:20-27 | runs in any state, a drop being accepted even while loading: sets the file and the topic derived from its name, clears post, frames and error; nothing else changes; the page is consistent afterwards, and idle and consistent if it was idle |
| Page.App.SetVideoTopic | App.tsx:119 | sets the topic in any state; nothing else changes, so the page is valid, and consistent, exactly when it was before |
| Page.App.SetBlogStyle | App.tsx:127 | sets the style; nothing else changes, so the page is valid, and consistent, exactly when it was before |
| Page.App.StartLoading | App.tsx:39-42 | loading, with error, post and frames cleared; file, topic, style and message unchanged |
| Page.App.HandleGenerate | App.tsx:29-82 | callable whenever the page is not loading (App.tsx:131); without a file: the file error, no call, nothing else changes, so loading, message and consistency stay as they were; with a topic that is whitespace only (empty once trimmed): the topic error, no call, likewise; otherwise the generator is called with the topic and style, a failure sets the generic error and leaves no post, a post is shown and the extractor is called only when it suggests images, an extraction failure leaves no frames, and the page ends idle and consistent, whatever stale message or frames it held |
| Page.App.Generated | App.tsx:59-80 | the outcome of a generation: the calls made, the error, the post and the frames for each answer of the two services |
| Page.App.RunGeneration | App.tsx:39-81 | the generation and its outcome as above; the page stops loading and its message is cleared whatever happens |
| Page.App.GenerateUntilExtraction | App.tsx:39-66 | loading starts and the generator is called; a failure, or a post without image suggestions, ends the handler idle and consistent; otherwise the post is shown with the "Extracting keyframes..." message and the suggestions are what it waits on |
| Page.App.FinishExtraction | App.tsx:67-80 | after the extractor settles: its frames, or none on a failure; loading ends and the message is cleared; nothing else changes |
| Page.App.HandleReset | App.tsx:84-91 | no file, empty topic, no post, frames or error, not loading, so consistent; the style and the message stay, so the page is idle again only if it showed no message |
| Page.App.ResetDuringExtraction | App.tsx:61-91 | as written: a reset while the extractor runs, then a successful extraction, leaves frames with no post and no file |
| Page.App.FinishExtractionIfCurrent | App.tsx:66-80 | corrected: the extractor's result is taken only while the post and file it was made for are still shown; otherwise nothing changes, and the page stays consistent either way |
| Page.App.ResetClearingMessage | App.tsx:84-91 | corrected: the reset also clears the loading message, so the page is empty and idle from any state |
| Page.App.ResetDuringExtractionChecked | App.tsx:61-91 | corrected: a reset during extraction leaves an empty, idle, consistent page with no frames and no message |

## Left out

- JavaScript `Number` is modelled on strings of ASCII digits only. Fractions, exponents, hex, signs, `Infinity` and surrounding whitespace are floating-point behaviour and give `NaN` here.
- The video duration is a real number. A `NaN` or infinite duration is not modelled.
- The DOM and canvas work of the extractor (element setup, `drawImage`, `toDataURL`) becomes the `Video` value. The still is an opaque string.
- The canvas context check becomes the `canvasOk` parameter.
- A seek that never reports `seeked` or `error` leaves the real promise pending forever. The model assumes each seek reports one of the two.
- Events after the promise has settled are modelled only for seek reports: a later seek error still runs `onerror`, revokes the URL and leaves the promise as it was (`FrameExtractor.OnLoadedMetadata`). Other late events, such as an `error` after the resolve at utils.ts:74, are not modelled.
- The `setInterval` loading-message ticker (App.tsx:53-57, 78) is timer-driven UI and is not modelled. `RunGeneration` sets only the "Extracting keyframes..." message and the final empty message.
- `Page.App.HandleGenerate` runs as one step. The wait on the generator (App.tsx:60) is not split. The upload area's hidden input is disabled while loading (App.tsx:109, components/FileUpload.tsx:95), but a file dropped on it still reaches `handleFileChange` (components/FileUpload.tsx:44-51). A drop during that wait sets the new file and topic; the pending handler then shows the post generated for the old topic and extracts frames from the old file, which it still holds (App.tsx:61-66). So a post can sit beside a file it was not made from; `Page.App.Consistent` states only that some file is set. `Page.App.HandleFileChange`, `Page.App.SetVideoTopic` and `Page.App.SetBlogStyle` run in any state, and `Page.App.HandleGenerate` in any state that is not loading, so a topic edit or a new generation after a reset during extraction, before or after that extraction settles, is covered. The wait on the extractor is split, and the other handlers may run inside it. A generation still running when the old extraction settles is not modelled step by step: the old `finally` (App.tsx:77-80) would then end the new generation's loading early and leave the old frames beside the new post. `Page.App.FinishExtractionIfCurrent` leaves such a stale result out as well.
- Numbers are exact naturals. JavaScript's `Number` rounds a digit string above 2^53 to a double, and so may `m * 60 + s`; such timestamps are far beyond any video length.
- Strings are sequences of Unicode scalar values, while JavaScript strings are UTF-16 code units. For `trim`, `split` and `replace` on well-formed strings, as here, this makes no difference.
- The generation service (services/geminiService.ts) is a network client. Its result is the `generate` oracle, and its response is not validated.
- The optional chaining `result.imageSuggestions?.length` (App.tsx:63) guards against a missing list. A `BlogPost` always has its lists here.
- The presentation components (components/BlogDisplay.tsx, components/FileUpload.tsx, components/StyleSelector.tsx) are JSX rendering and are not part of this model.
- `console` logging, React hooks and memoisation are not modelled.
- `Page.App.HandleGenerate` models the call of the generation service with the untrimmed topic, as the code does.
- `FrameExtractor.Video` gives each suggestion one seek report by position. Two suggestions at the same time may report differently, which covers any behaviour of a real decoder.

## Findings

| source | as written | input that shows it | evidently intended | confidence | as-written member | corrected member |
|---|---|---|---|---|---|---|
| utils.ts:57-61, 77-80 | a failed seek dispatches the element's `error` event. That reaches the seek's own listener and also `video.onerror`, which is never detached after the metadata has loaded. So the whole extraction rejects with "Failed to load video file.", the frames already captured are lost, and the object URL is revoked once per failed seek and once more at the end | a 10-second video that loads, with suggestions at "1" and "2", where the second seek reports an error | the failed seek skips only its suggestion (utils.ts:68-70 logs and continues). The caller receives the other frames, and the URL is revoked exactly once | not executed | FrameExtractor.ExtractFramesFromVideo, FrameExtractor.OneSeekErrorLosesEveryFrame | FrameExtractor.ExtractFramesIsolated, FrameExtractor.SeekFailureDropsOnlyItsSuggestion |
| App.tsx:61-91, 148-157 | the post is shown before the handler waits on the frame extractor, and the "Analyze Another Video" button it comes with is enabled. A reset at that point clears the page but not the "Extracting keyframes..." message, which the next generate button shows (App.tsx:137) when that generation starts before the old extraction settles (its `finally` clears the message, App.tsx:80), and then only until the ticker first fires (App.tsx:54-55), and the extractor's result is still stored when it arrives | generate a post with image suggestions, press "Analyze Another Video" while the frames are extracted, and let the extraction succeed: frames are stored on a page with no post and no file | the reset also clears the message, a result that arrives after a reset is dropped, and the page is idle and consistent | not executed | Page.App.ResetDuringExtraction | Page.App.ResetClearingMessage, Page.App.FinishExtractionIfCurrent, Page.App.ResetDuringExtractionChecked |
