# MarkDiff: the diff-to-markup serializer and its editor state

This project models the core of a browser-based Markdown diff editor. The
user types an original and a modified text. A word-level diff library turns
the two texts into an ordered list of chunks. The serializer
`computeMarkdownDiff` folds that list into one annotated string:

- an unchanged chunk is copied verbatim;
- an added chunk is wrapped in `<mark class="bg-yellow-200 text-yellow-900 rounded px-0.5">…</mark>`;
- a removed chunk is wrapped in `<del class="bg-red-100 text-red-900 rounded px-0.5 decoration-red-500">…</del>`.

Chunk values are never escaped. Around the serializer, the editor component
has three pieces of logic:

- it hides the diff while either side is empty;
- it strips every ` class="…"` attribute before copying the diff;
- it keeps six state fields that its handlers update.

Two files:

- `diff_helper.dfy`, module `DiffHelper` (utils/diffHelper.ts).
  - `Chunk` mirrors `DiffChunk` from types.ts.
  - `Render` is the recursive specification of the output.
  - `ComputeMarkdownDiff` is the source's accumulator loop, proved equal to `Render`.
  - The word diff `Diff.diffWords` is a parameter of type `WordDiff`. Its usual promise is the
    predicate `IsWordDiffOf`: dropping the added chunks gives the old text, and dropping the
    removed chunks gives the new text. This promise is used only as a `requires` of the lemmas
    that need it; it is never proved.
- `markdiff_app.dfy`, module `MarkDiffApp` (App.tsx).
  - `DiffContent` is the empty-side guard.
  - `StripClassAttributes` is the regular-expression replacement `/ class="[^"]*"/g`. It has
    JavaScript's global-replace semantics: leftmost match first, and scanning resumes after
    each match without rescanning the removed text.
  - Class `App` holds the component's state fields: `originalText`, `modifiedText`,
    `isProcessing`, `error`, `activeTab` and `copySuccess`. Its methods are the handlers.

The asynchronous `handleAutoImprove` is split into its two state transitions:

- `StartAutoImprove` models lines 33-34 together with the button being disabled while busy
  (line 131). A click while a request is in flight changes nothing and sends nothing, so at
  most one request is ever in flight.
- `FinishAutoImprove` models the settled request (lines 36-42). Its `Outcome` is either the
  improved text or the thrown error's message. A missing message is written `""`.

The object invariant `Valid()` says two things:

- no error is shown while a request is in flight;
- a shown error is never the empty string, because the fallback message replaces it.

Where the code and its descriptions disagree, the model follows the code:

- The doc comment of `computeMarkdownDiff` says `<ins>` marks additions, but the code emits `<mark>`.
- Each wrapper carries only a class attribute; no inline style is emitted
  (utils/diffHelper.ts:23, 25).

## Model

| member | source | states |
|---|---|---|
| `DiffHelper.RenderAppend` | utils/diffHelper.ts:14-31 | Rendering is a homomorphism: the rendering of a concatenated change list is the concatenation of the two renderings. |
| `DiffHelper.RenderSplice` | utils/diffHelper.ts:16-29 | A chunk's contribution lands exactly between the renderings of the chunks before it and after it. |
| `DiffHelper.UnchangedPassesThrough` | utils/diffHelper.ts:26-27 | A chunk that is neither added nor removed contributes exactly its value, unescaped. |
| `DiffHelper.AddedIsMarked` | utils/diffHelper.ts:18-23 | An added chunk contributes exactly `<mark class="bg-yellow-200 text-yellow-900 rounded px-0.5">` + value + `</mark>`. This holds even when the chunk is also flagged removed, because `added` is tested first. |
| `DiffHelper.RemovedIsStruck` | utils/diffHelper.ts:24-25 | A removed chunk that is not added contributes exactly `<del class="bg-red-100 text-red-900 rounded px-0.5 decoration-red-500">` + value + `</del>`. |
| `DiffHelper.UnchangedOnlyIsPlainText` | utils/diffHelper.ts:16-29 | With no added or removed chunk, the output is the plain concatenation of the values, which is both the old and the new text. No wrapper is emitted. |
| `DiffHelper.RenderLength` | utils/diffHelper.ts:23-27 | The output length is the total value length, plus 66 characters per marked chunk and 77 per struck chunk. |
| `DiffHelper.ComputeMarkdownDiff` | utils/diffHelper.ts:9-32 | The accumulator loop over the chunks returned by the word diff yields exactly `Render` of those chunks. |
| `DiffHelper.OldText` | utils/diffHelper.ts:12 | The old text a change list stands for is never longer than its values together. |
| `DiffHelper.NewText` | utils/diffHelper.ts:12 | The new text a change list stands for is never longer than its values together. |
| `MarkDiffApp.DiffContent` | App.tsx:27-30 | A non-empty diff is only ever produced when both sides are non-empty. |
| `MarkDiffApp.DiffShownIffBothSidesNonEmpty` | App.tsx:27-30 | When the word diff keeps its promise, the diff is empty exactly when the original or the modified text is empty. |
| `MarkDiffApp.IndexOfQuote` | App.tsx:55 | Finds the closing quote of `[^"]*"`: the first double quote, with none before it. |
| `MarkDiffApp.StripClassAttributes` | App.tsx:55 | The class-attribute stripper never makes a string longer. |
| `MarkDiffApp.StripIdentityWithoutClassAttr` | App.tsx:55 | A string in which ` class="` never occurs is left unchanged. |
| `MarkDiffApp.StripKeepsQuoteFreePrefix` | App.tsx:55 | No match can start in quote-free text that precedes text with no quote in its first seven characters. That text is kept, and the scan goes on behind it. |
| `MarkDiffApp.StripRemovesClassAttr` | App.tsx:55 | A leftmost match ` class="` + non-quote characters + `"` is removed whole, and the scan resumes right after it. |
| `MarkDiffApp.StrippedRenderIsBare` | App.tsx:53-55 | For chunks whose values hold no `"`, stripping the rendered diff gives the same rendering with bare `<mark>`/`<del>` opening tags. |
| `MarkDiffApp.CopiedDiffIsBare` | App.tsx:50-55 | With such chunks, the stripped diff content is `""` when a side is empty. Otherwise it is the bare-tag rendering. |
| `MarkDiffApp.QuoteFreeTextsGiveQuoteFreeValues` | utils/diffHelper.ts:12-17 | When the word diff keeps its promise and never flags a chunk both added and removed, every chunk value of two texts without `"` is itself free of `"`: it is a piece of the old or of the new text. |
| `MarkDiffApp.CopiedDiffOfQuoteFreeTextsIsBare` | App.tsx:50-55 | For an original and a modified text without `"`, under the same promise, the copied text is `""` when a side is empty and otherwise the rendering with bare `<mark>`/`<del>` opening tags. |
| `MarkDiffApp.App.constructor` | App.tsx:19-24 | Initial state: both sides hold the sample text, no request is in flight, there is no error, the editor tab is open and no copy has succeeded. |
| `MarkDiffApp.App.EditOriginal` | App.tsx:146 | Typing into the original text area replaces `originalText` and nothing else. |
| `MarkDiffApp.App.EditModified` | App.tsx:169 | Typing into the modified text area replaces `modifiedText` and nothing else. |
| `MarkDiffApp.App.SelectTab` | App.tsx:82-103 | A tab button sets `activeTab` and nothing else. |
| `MarkDiffApp.App.StartAutoImprove` | App.tsx:32-36 | While busy, a click is ignored: it sends nothing and changes nothing. Otherwise `isProcessing` becomes true, `error` is cleared, the original text is sent, and no other field changes. |
| `MarkDiffApp.App.FinishAutoImprove` | App.tsx:36-43 | On success, `modifiedText` becomes the returned text, `activeTab` becomes `Diff` and `error` stays null. On failure, `modifiedText` and `activeTab` are unchanged and `error` is the message, or "Failed to generate improvements." when the message is empty. In both cases `isProcessing` ends false and `originalText` and `copySuccess` are unchanged. |
| `MarkDiffApp.App.CopyToModified` | App.tsx:46-48 | `modifiedText` becomes `originalText`, and no other field changes. |
| `MarkDiffApp.App.CopyDiff` | App.tsx:50-64 | An empty diff changes nothing and copies nothing. Otherwise the stripped diff is handed to the clipboard, and `copySuccess` is set when the clipboard accepts it. No other field changes. |

## Left out

- The word-diff algorithm `Diff.diffWords` (utils/diffHelper.ts:12) comes from a third-party
  library that is not part of this model. It is a parameter of the model. Its reconstruction
  promise is the stated assumption `IsWordDiffOf`; it is not proved behaviour.
- services/gemini.ts is not part of this model. It reads an API key from the environment and
  calls a remote service. Only its boundary remains: text in, and either improved text or an
  error message out (`Outcome`). Its own fallback to the input text on an empty answer is part
  of that service, so it is not modelled.
- components/MarkdownPreview.tsx (rendering through react-markdown) is not part of this model.
- Clipboard and timer plumbing is not modelled:
  - `navigator.clipboard.writeText` is a boolean parameter, `clipboardAccepts`. The `console.error` call on rejection is dropped.
  - The `setTimeout` that resets `copySuccess` after 2 seconds is browser timing.
- Promise semantics are not modelled. Only the ordered state transitions of `handleAutoImprove`
  are kept: start, then success or failure.
- The JSX layout, the Tailwind class strings of the page, and the tab styling are not modelled.
  The `ViewMode`, `EditorState` and `AIRequestConfig` declarations of types.ts are not used by
  this logic.
- StrippedRenderIsBare: stated only for change lists whose values hold no double quote
  (`CopiedDiffOfQuoteFreeTextsIsBare` gives this for any two texts without a double quote). Such a
  value can form a match together with a generated tag. For example, an unchanged ` class="`
  just before a marked chunk makes the stripper remove text up to the quote inside the `<mark>`
  tag.
