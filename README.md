# LangChainSample text handling, in Dafny

This project models the three text transformations that the LangChainSample
repository writes itself. It also proves what they promise.

- **`MyTextSplitter`** (`my_text_splitter.ts`) is a chunking policy. It
  splits text on a fixed separator, drops the empty fields and appends a
  fixed suffix to every remaining field. The constructor defaults both
  strings to `""`. Module `TextSplitter`, in `my_text_splitter.dfy`.
- **`MyDocumentLoader.load`** (`my_document_loader.ts`) splits the loaded
  string on `"\n"`. It makes one document per line, empty lines included,
  and each document's metadata is `{ lineNumber: i + 1 }`. Module
  `DocumentLoader`, in `my_document_loader.dfy`.
- **`AnniversaryTextSplitter.splitText`** (`rag.ts`) scans wiki-style text
  line by line:
  - a heading `== X ==` sets `title`;
  - while `title` is `<digits>月`, a line `<digits>日…` sets `day`;
  - such a line emits `"{title}{day} : {item}"` once for each
    `、`-separated item of its third space-separated token.

  Module `Rag`, in `rag.dfy`. The source is a loop that reassigns `title` and
  `day` and pushes to `anniversaries`. The model keeps that loop: the method
  `Rag.SplitText` is proved equal to the step-by-step specification
  `SplitAnniversaries`, built from `Step` and `Run`. The lemmas prove their
  properties about that specification.

Supporting modules:
- **`JsStrings`** (`js_strings.dfy`) models the JavaScript string built-ins
  the code relies on:
  - `String.prototype.split`, with a non-empty or an empty separator;
  - `Array.prototype.join`;
  - `String.prototype.trim`.
- **`Wrappers`** (`wrappers.dfy`) holds `Option` and `Result`.

Strings are `seq<char>`. The asynchronous methods are modelled as functions
of the string their promise resolves to.

A source-level throw becomes a `Failure` value:
- `AnniversaryTextSplitter.splitText` throws a `TypeError` when a qualifying
  day line has no third token, because `split(" ")[2]` is `undefined` there.
  The model returns `Failure(MissingItemsToken(line))`.
- A rejected `loadFunction` promise is passed on unchanged by `LoadFrom`.

Empty lines are kept: each empty field of `split("\n")` becomes a document
with empty content (`my_document_loader.ts:17`).

## Model

| member | source | states |
|---|---|---|
| JsStrings.Split | my_text_splitter.ts:21 | `text.split(sep)`: joining the fields with `sep` gives back the text; a non-empty separator gives at least one field, no field contains it, and every field but the last is cut at the leftmost occurrence after it (no occurrence starts inside the field and runs into the separator); the empty separator gives one field per character |
| JsStrings.SplitOn | my_document_loader.ts:17 | splitting on a non-empty separator: at least one field, none containing the separator, each but the last cut at the leftmost following occurrence, and the fields joined with the separator are the input |
| JsStrings.Chars | my_text_splitter.ts:21 | `split("")`: one field per character, field `k` being character `k`, none for the empty text; joined with `""` they are the text |
| JsStrings.SplitOverlappingSeparator | my_text_splitter.ts:21 | `"aaa".split("aa")` is `["", "a"]`: overlapping occurrences are cut leftmost first |
| JsStrings.SplitOnCharUnique | my_document_loader.ts:17 | splitting the join of separator-free parts on a one-character separator gives back exactly those parts |
| JsStrings.SplitOnCharCount | my_document_loader.ts:17 | splitting on one character gives one more field than the character's occurrences |
| JsStrings.SplitOnCount | my_text_splitter.ts:21 | splitting on a non-empty separator gives at most one more field than the separator's occurrences |
| JsStrings.SplitOnCharDistributes | my_text_splitter.ts:21 | splitting `a + c + b` on the character `c` gives the fields of `a` followed by those of `b` |
| JsStrings.Trim | rag.ts:116 | `trim()`: the result has no whitespace or line terminator at either end and is the input with such characters removed from both ends only |
| JsStrings.TrimUntrimmed | rag.ts:116 | trimming a string that has no whitespace or line terminator leaves it unchanged |
| TextSplitter.Create | my_text_splitter.ts:13-17 | an absent `fields`, separator or suffix defaults to `""`; a given one is kept |
| TextSplitter.NonEmpty | my_text_splitter.ts:22 | `filter(line => line)`: a string is kept exactly when it is among the fields and is not empty; the result is no longer than the input |
| TextSplitter.NonEmptyAppend | my_text_splitter.ts:22 | the filter keeps the order: it distributes over concatenation |
| TextSplitter.WithSuffix | my_text_splitter.ts:23 | `.map(line => line + suffix)`: definition, one output per kept field, that field followed by the suffix |
| TextSplitter.SplitText | my_text_splitter.ts:19-25 | every piece ends with the suffix and is strictly longer than it |
| TextSplitter.SplitTextFields | my_text_splitter.ts:21-23 | with the suffix removed, the pieces are exactly the non-empty separator-delimited fields, in left-to-right order and with their multiplicity; each is one of the fields and every non-empty field is one of them; a non-empty separator occurs in no piece; joining the fields reproduces the text |
| TextSplitter.SplitTextCount | my_text_splitter.ts:21-22 | a non-empty separator gives at most one more piece than its occurrences; the empty text gives no piece |
| TextSplitter.SplitTextDefaultSeparator | my_text_splitter.ts:15 | with the default separator `""`, piece `k` is character `k` of the text followed by the suffix |
| TextSplitter.SplitTextDefaultSuffix | my_text_splitter.ts:16 | with the default suffix `""`, the pieces are the non-empty fields unchanged |
| TextSplitter.SplitTextDistributes | my_text_splitter.ts:21-23 | for a one-character separator, the pieces of `a + separator + b` are the pieces of `a` followed by those of `b`; leading, trailing and doubled separators add no piece |
| TextSplitter.SplitTextSentences | __tests__/retrieval.ts:81-88 | the four-sentence text split on `。` with suffix `にゃ` gives exactly the four expected pieces |
| DocumentLoader.Numbered | my_document_loader.ts:17-20 | document `i` has the line `i` as its content and `{ lineNumber: i + 1 }` as its metadata, one document per line |
| DocumentLoader.Load | my_document_loader.ts:15-21 | there is one more document than the text has `"\n"`; document `i` carries only `lineNumber = i + 1`; no content holds `"\n"` |
| DocumentLoader.LoadFrom | my_document_loader.ts:15-21 | a rejected source is passed on unchanged; a resolved one gives exactly `Load` of its text, so everything proved of `Load` (count, line numbers, round trip, every line kept) holds of `load()`; in particular one more document than the text has `"\n"` |
| DocumentLoader.LoadRoundTrip | my_document_loader.ts:17-18 | joining the contents with `"\n"` reproduces the loaded text exactly |
| DocumentLoader.LoadKeepsEveryLine | my_document_loader.ts:17-18 | for any lines without `"\n"`, empty ones included, the contents of the documents loaded from their join are exactly those lines |
| DocumentLoader.LoadLineNumbersConsecutive | my_document_loader.ts:19 | line numbers start at 1 and go up by one from each document to the next |
| DocumentLoader.LoadEmptyText | my_document_loader.ts:17 | the empty text gives one document with empty content and line number 1 |
| DocumentLoader.LoadSixLines | __tests__/retrieval.ts:45-52 | the six-line text gives six documents, the first `今日は` with line number 1 and the last `行ったよ` with line number 6 |
| Rag.IsHeading | rag.ts:115 | `/^== (.+) ==$/`: definition, at least seven characters, starting with `== `, ending with ` ==`, and no line terminator in between |
| Rag.IsMonthTitle | rag.ts:117 | `/^\d+月$/`: definition, one or more ASCII digits followed by `月` and nothing else |
| Rag.IsDayLine | rag.ts:117 | `/^\d+日.+/`: definition by the leading digit run; DayLineMatchesPattern proves it equal to the regular expression's reading |
| Rag.HeadingTitle | rag.ts:116 | `line.split(" ")[1].trim()`: definition, defined for every heading because HeadingHasTitleToken proves the token exists |
| Rag.Entries | rag.ts:119 | the entries of one day line: one more than its items token has `、`, each starting with `title + day + " : "` |
| Rag.Step | rag.ts:115-120 | the loop body on one line: definition, with its properties in StepOnlyAppends, StepFails and StepDayLine |
| Rag.Run | rag.ts:114-121 | the loop over the lines, stopping at the first throw: definition, with its properties in RunAppend, RunOnlyAppends, RunWithoutMonth, RunFails and RunEntriesShape |
| Rag.SplitAnniversaries | rag.ts:107-123 | what `splitText` returns or throws: the scan from empty `title`, `day` and `anniversaries` over `text.split("\n")` |
| Rag.LeadingDigits | rag.ts:117 | the length of the run of ASCII digits that a string starts with: all characters before it are digits, and the one after it is not |
| Rag.DayLineMatchesPattern | rag.ts:117 | the day-line test holds exactly when `^\d+日.+` matches: some run of digits, then `日`, then a character other than a line terminator |
| Rag.HeadingIsNotDayLine | rag.ts:115-117 | a heading line never satisfies the day-line test |
| Rag.HeadingHasTitleToken | rag.ts:116 | a heading line has a second space-separated token, so `split(" ")[1]` exists |
| Rag.HeadingTitleOfPlainHeading | rag.ts:115-116 | `== X ==` with `X` free of spaces and line breaks is a heading, and it sets the title to `X` trimmed |
| Rag.StepOnlyAppends | rag.ts:114-121 | a line can only append entries; a heading changes only the title; a line that is neither a heading nor a qualifying day line changes nothing; only a qualifying day line adds entries |
| Rag.StepFails | rag.ts:119 | a line throws exactly when it is a qualifying day line with fewer than three space-separated tokens, and the error names that line |
| Rag.StepDayLine | rag.ts:118-119 | a qualifying day line sets the day to its first token and appends one entry `title + day + " : " + item` per `、`-separated item of its third token, in item order: one more entry than that token has `、` |
| Rag.RunAppend | rag.ts:107-121 | scanning two blocks of lines is scanning the first and then the second from where the first stopped: output follows input line order |
| Rag.RunOnlyAppends | rag.ts:114-121 | earlier entries are never modified by later lines |
| Rag.RunWithoutMonth | rag.ts:115-117 | starting from a non-month title, as long as no heading sets a month title (headings such as `== 概要 ==` may still change it), nothing throws, no entry is emitted and the title is never a month |
| Rag.RunFails | rag.ts:119 | a scan fails only on one of its lines that passes the day-line test, is not a heading and has fewer than three tokens |
| Rag.RunEntriesShape | rag.ts:119 | every entry emitted has three space-separated fields: a month and day, then `:`, then one item without `、` |
| Rag.SplitText | rag.ts:105-124 | the loop over the lines, reassigning the local `title`, `day` and `anniversaries` (a sequence the loop appends to), returns exactly what the line-by-line specification gives (or throws where it throws), and every entry it returns has the entry shape |
| Rag.SplitAnniversariesFebruary | rag.ts:115-119 | on an illustrative input (a `== 2月 ==` heading followed by the day line `22日 - 猫の日、忍者の日`, which is not a repository text), the scan gives `2月22日 : 猫の日` and `2月22日 : 忍者の日`, entries in the format the retriever mock at __tests__/rag.ts:26 shows |
| Rag.SplitAnniversariesMissingItems | rag.ts:119 | under `2月`, the day line `22日猫の日` has no third token and the split fails on that line |
| Rag.SplitAnniversariesOutsideMonth | rag.ts:117 | under the heading `== 概要 ==`, a day line emits nothing |

## Left out

- The LangChain chunkers used around this code are not part of this model: `CharacterTextSplitter`, `RecursiveCharacterTextSplitter`, `TokenTextSplitter`, `createDocuments` and `loadAndSplit`. Their code lives in the LangChain library.
- The base `TextSplitter` constructor that `MyTextSplitter` calls with `super(fields)` is not part of this model. Its checks of `chunkSize` and `chunkOverlap` are library code, and `splitText` never reads those fields.
- `cosineSimilarity` works on floating-point numbers and `Math.sqrt`, so it is not modelled.
- Embeddings, vector stores, retrievers, Wikipedia fetches, chat models, prompts, chains and the CSV loader are external services or I/O and are not modelled. So are the runner scripts and the console.
- DocumentLoader.LoadFrom: the promise returned by `loadFunction` is modelled by its outcome, a resolved string or a rejection. Timing and asynchrony are not modelled.
- Characters are Unicode scalar values. JavaScript strings are UTF-16 code units, so `split("")` on text outside the Basic Multilingual Plane (surrogate pairs) is not modelled. The literal texts the repository splits (retrieval.ts:28-33, retrieval.ts:80) are inside it.
- JsStrings.Split: the `limit` argument of `split` is never passed by this code and is not modelled.
- Document ids and the other optional fields of a LangChain `Document` are not modelled. The loader only sets `pageContent` and `metadata`.
- Rag.SplitText: the method returns the entries directly, not wrapped in a `Promise`. The `TypeError` that `splitText` throws synchronously is returned as a `Failure` value.
- Rag.SplitText: `anniversaries` is a local array that `push` grows in place; the model appends to a local sequence instead. Nothing else can see the array, so no aliasing is lost.
