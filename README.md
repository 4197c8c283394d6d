# Loan-agreement clause analysis: a Dafny model

The backend of this student loan-agreement checker takes the text of an uploaded
PDF. It asks Gemini to pick out clauses against a CUAD-inspired loan checklist,
then post-processes the JSON answer. This project models the deterministic core
of `backend/functions/index.js` and proves properties of it:

- **The checklist** `CUAD_LOAN_CHECKLIST`: six category names, each with a
  description (`Prompt.LoanChecklist`).
- **The prompt template.** The checklist is rendered as `- name: description`
  lines joined by a line feed. The first 15000 UTF-16 code units of the document
  text are embedded after fixed instructions (module `Prompt`).
- **`processClausesWithWarnings`.** Its first pass keeps the first clause object
  of each category in a dictionary. Its second pass takes the dictionary's values
  and stamps each one in place with a status:
  - `INFO` unless it is a dated "Expiration Date" clause;
  - otherwise `EXPIRED`, `URGENT` or `ACTIVE`, chosen by the whole days left
    until the expiry, rounded up;
  - `EXPIRED` and `URGENT` also write a warning.

  The value-level rules are in module `Clauses`. The in-place procedure over
  objects is in module `ClauseProcessing`.
- **The error path of `analyzeWithGemini`.** If generation, JSON parsing or
  post-processing fails, the result is a single error whose message is
  `"AI failed to parse legal clauses: "` followed by the cause's message
  (module `Analysis`).

Modelling choices:

- **Strings** are JavaScript strings: sequences of UTF-16 code units
  (`JsStrings.JsString`). `substring` and `.length` therefore count code units, as
  the engine does. `Bmp` spells a constant that uses only Basic Multilingual
  Plane characters. `DecimalString` is `String(n)` for a natural number
  `n` below 10^21 (from there on JavaScript writes an exponent); the code only
  renders day counts from 0 to 60.
- **Clause objects** are instances of the class `ClauseProcessing.ClauseRecord`.
  The post-processor writes their `status` and `warning` fields in place and
  returns the same objects.
  - `status` is `None` until it is written. The four `Status` values are
    written as the strings `StatusText` gives.
  - `date_found` becomes a `DateFound`:
    - `Missing`: absent or falsy;
    - `Timestamp(ms)`: a value `new Date` reads as the time value `ms`;
    - `Invalid`: a truthy value it cannot read. The time value is then NaN. Both
      comparisons against NaN are false, so the code reaches its last branch,
      `ACTIVE`. `StampFor` models exactly that branch.
- **The clock** read `new Date()` is the parameter `today`, an integer count of
  milliseconds, like every time value.
- **The dictionary** `uniqueCategories` is a `map` plus the order in which its
  own properties were created. It is written `{}`, so it inherits
  Object.prototype, and a lookup such as `uniqueCategories["constructor"]`
  returns an inherited function, which is truthy. The model therefore takes the
  inherited names as a parameter `inherited`. The post-processor passes
  `PropertyKeys.ObjectPrototypeNames`, as the code does (see "## Findings").
- **Key order.** `Object.values` lists own properties in ordinary own-key order:
  - first the array-index keys (canonical decimals up to 2^32 − 2), in
    ascending numeric order;
  - then every other key, in creation order.

  This is `PropertyKeys.OwnKeyOrder`. `Object.entries` on the checklist uses the
  same order.
- **Checklist constants.** Each checklist description is written as a
  concatenation of shorter literals; the texts are the same.
- **Generation and parsing** are parameters of `Analysis.AnalyzeWithGemini`:
  - `generate` stands for `generateContent` followed by `response.text()`;
  - `parse` stands for `JSON.parse`, together with the shape the post-processor
    reads.

  Either one returns `Failure(message)` when the step it stands for throws.

## Model

| member | source | states |
|---|---|---|
| Prompt.ChecklistEntriesInWrittenOrder | backend/functions/index.js:22-29 | `Prompt.LoanChecklist` holds the six entries of `CUAD_LOAN_CHECKLIST` as written. None of its names is an array index, so `Object.entries` lists the checklist in the order its properties are written. |
| Prompt.LoanChecklistSingleLine | backend/functions/index.js:22-29 | No checklist name or description contains a line feed. |
| Prompt.LoanChecklistLines | backend/functions/index.js:22-29 | Splitting the rendered loan checklist at line feeds gives exactly its six bullets, in written order. |
| Prompt.Bullet | backend/functions/index.js:88 | The bullet `- ${k}: ${v}` of one entry: it starts with `- `, then the name, then `: `, and the description ends the line, so it is four code units longer than name and description together. |
| Prompt.ChecklistSection | backend/functions/index.js:88 | The `.map(...).join("\n")` of the checklist. It has no contract of its own; `Prompt.ChecklistLines` and `Prompt.LoanChecklistLines` state its lines. |
| JsStrings.Join | backend/functions/index.js:88 | `Array.prototype.join`: the parts with the separator between each two. It has no contract of its own; `JsStrings.SplitJoin` states that splitting gives the parts back. |
| Prompt.ChecklistLines | backend/functions/index.js:88 | For any non-empty checklist whose entries are single lines, the joined section splits at line feeds back into its bullets, in order. |
| JsStrings.SplitJoin | backend/functions/index.js:88 | Splitting a `join` of line-feed-free parts at the separator gives back the parts. |
| Prompt.Excerpt | backend/functions/index.js:97 | `text.substring(0, 15000)` is a prefix of the text. Its length is the text's length, capped at 15000. |
| Prompt.ExcerptIgnoresTail | backend/functions/index.js:97 | Nothing after the first 15000 code units reaches the prompt. |
| Prompt.ExcerptIdempotent | backend/functions/index.js:97 | Cutting an excerpt again changes nothing. |
| Prompt.BuildPrompt | backend/functions/index.js:85-98 | The prompt is a fixed prefix, then the excerpt, then a closing line feed. The prefix holds the instructions and the rendered checklist and is the same for every document. The prompt's length is the prefix length + excerpt length + 1. |
| Prompt.PromptRoundTrip | backend/functions/index.js:85-98 | The excerpt can be read back out of the prompt at a fixed offset. |
| Prompt.SamePromptIffSameExcerpt | backend/functions/index.js:85-98 | Two documents give the same prompt if and only if their excerpts are equal. |
| Prompt.PromptBounded | backend/functions/index.js:97 | However long the document, the prompt is at most the fixed prefix + 15000 + 1 code units. |
| ClauseProcessing.FillTable | backend/functions/index.js:39-46 | The `forEach` pass. It stores a category exactly when it is neither stored yet nor inherited, so the dictionary's keys are `Firsts`. Each stored value is the first clause object with that category. |
| Clauses.Firsts | backend/functions/index.js:42-46 | The categories stored are exactly those that occur and are not inherited, each once, and there are no more of them than input clauses. |
| Clauses.FirstsInFirstOccurrenceOrder | backend/functions/index.js:42-46 | Categories are stored in the order of their first occurrence. |
| Clauses.Kept | backend/functions/index.js:42-49 | The categories `Object.values` lists. Each is a category of the input that is not inherited, none is listed twice, and there are at most as many as inputs. |
| Clauses.KeptKeys | backend/functions/index.js:39-49 | With the `{}` the code uses: exactly the categories that are not Object.prototype names, each once. |
| Clauses.KeptOrder | backend/functions/index.js:49 | Output order: array-index categories first, in strictly ascending numeric order, then all the others, in first-occurrence order. |
| Clauses.KeptInFirstOccurrenceOrder | backend/functions/index.js:41-49 | When no category is integer-like, the output lists categories in the order of their first occurrence. |
| PropertyKeys.OwnKeyOrder | backend/functions/index.js:49 | Own-key order of a dictionary's keys: a permutation of them, array indices ascending first, then the other keys in creation order. |
| Clauses.NoClausesNoKeys | backend/functions/index.js:39-49 | An empty input gives an empty output. |
| Clauses.RepeatedCategoryKeptOnce | backend/functions/index.js:42-46 | A category that is not inherited and is named twice is kept once. |
| Clauses.AllInheritedDropped | backend/functions/index.js:43-44 | If every input category is an inherited name, nothing is kept. |
| Clauses.InheritedCategoryDropped | backend/functions/index.js:39-46 | The code as written: a lone clause whose category is an Object.prototype name, such as "constructor", is dropped. |
| Clauses.KeptKeysNullPrototype | backend/functions/index.js:39-49 | The intended rule, with a dictionary that inherits nothing: every category is kept, each once. |
| Clauses.NullPrototypeKeepsLoneCategory | backend/functions/index.js:39-46 | Under the intended rule, a lone clause is kept whatever its category. |
| Clauses.KeptKeysWithoutInheritedNames | backend/functions/index.js:39-49 | The written rule and the intended rule agree on every input that has no Object.prototype name as a category. |
| ClauseProcessing.Deduplicate | backend/functions/index.js:39-49 | The dictionary pass followed by `Object.values`. The result is a deduplication of the input: the categories of `Kept`, each one's object being the first input object with that category. The results are input objects and pairwise distinct. |
| ClauseProcessing.DeduplicationBounds | backend/functions/index.js:39-49 | A deduplication is no longer than its input. It lists each category at most once and has exactly the non-inherited categories. An empty input gives an empty output. |
| ClauseProcessing.LaterDuplicateDiscarded | backend/functions/index.js:41-46 | For an input of two clause objects with the same category, the output holds only the first, whatever the second carries (dates included). |
| Clauses.CeilDiv | backend/functions/index.js:54 | `Math.ceil(a / b)` for b > 0 is the unique q with (q − 1)·b < a ≤ q·b. |
| Clauses.DiffDays | backend/functions/index.js:53-54 | `diffDays` is the day count d with (d − 1)·86400000 < expiry − today ≤ d·86400000, i.e. the millisecond difference in days, rounded up. |
| Clauses.StampFor | backend/functions/index.js:50-64 | Each status, as an if-and-only-if: INFO when the category is not "Expiration Date" or the date is missing; EXPIRED when the expiry is at least a day past; URGENT when it is less than a day past and at most 60 days ahead; ACTIVE when it is further ahead or the date is unreadable. Warning "⚠️ Policy ended." for EXPIRED and "⚠️ Ends in d days!" (with 0 ≤ d ≤ 60) for URGENT; no warning written for INFO or ACTIVE. |
| Clauses.StatusTextInjective | backend/functions/index.js:50-63 | The four status strings are pairwise different. |
| Clauses.StatusText | backend/functions/index.js:50-63 | The strings "INFO", "EXPIRED", "URGENT" and "ACTIVE" written into `status`. It has no contract of its own; `Clauses.StatusTextInjective` states that they are pairwise different. |
| Clauses.StatusBoundaries | backend/functions/index.js:56-64 | 60 and 0 days ahead are URGENT, 61 days ahead is ACTIVE, and one day past is EXPIRED. |
| Clauses.BoundaryWarnings | backend/functions/index.js:56-61 | The warnings at those boundaries are "Ends in 60 days!", "Ends in 0 days!" and "Policy ended.". |
| Clauses.PartialDaysRoundUp | backend/functions/index.js:54-64 | Day counts round up: one millisecond beyond 60 days is ACTIVE, and one millisecond past the expiry is still URGENT with "Ends in 0 days!". |
| Clauses.UrgentWarningDays | backend/functions/index.js:61 | An URGENT warning is the prefix, then a string of digits whose value is `diffDays`, then " days!". |
| Clauses.EndsInWarning | backend/functions/index.js:61 | The template `⚠️ Ends in ${diffDays} days!`. It has no contract of its own; `Clauses.UrgentWarningDays` states its prefix, digits and suffix. |
| JsStrings.DecimalString | backend/functions/index.js:61 | `${diffDays}` for 0 ≤ diffDays ≤ 60, the only values rendered (and for every n below 10^21): a canonical decimal numeral (digits only, no leading zero unless it is "0"); `JsStrings.DecimalValueOfString` reads it back as the number. |
| JsStrings.DecimalValueOfString | backend/functions/index.js:61 | Reading the decimal digits of `String(n)` back gives n. |
| ClauseProcessing.StampClause | backend/functions/index.js:50-65 | The `map` callback on one clause. Its status becomes the one `StampFor` gives. Its warning becomes `StampFor`'s warning where one is written, and otherwise keeps its old value. No other field is written. |
| ClauseProcessing.StampAll | backend/functions/index.js:49-67 | Every kept object is stamped, and the categories are unchanged. No input object has a field other than status and warning changed, and objects that were not kept are not touched at all. |
| ClauseProcessing.ProcessClausesWithWarnings | backend/functions/index.js:37-68 | The returned objects are a deduplication of the input under the `{}` dictionary, and they are input objects. Each is stamped for `today`. No payload field of any input object changes, and discarded objects keep their status and warning. |
| Analysis.WrapError | backend/functions/index.js:112 | The message of the rethrown error is the prefix "AI failed to parse legal clauses: " followed by the cause's message. |
| Analysis.UnwrapWrapError | backend/functions/index.js:112 | The cause's message can be read back from the wrapped message. |
| Analysis.WrapErrorInjective | backend/functions/index.js:112 | Two causes give the same wrapped message if and only if their messages are equal. |
| Analysis.ParsedReply | backend/functions/index.js:101-107 | The reply to the prompt built from the text, then `JSON.parse` of it; the first failure is passed on. It has no contract of its own; `Analysis.AnalyzeWithGemini` states how its outcome decides the result. |
| Analysis.AnalyzeWithGemini | backend/functions/index.js:100-113 | If generation or parsing fails, the result is that failure's message, wrapped. Otherwise the result is success, with the post-processed clauses: a stamped deduplication of the parsed objects, as `ProcessClausesWithWarnings` guarantees. |

## Left out

- HTTP, Express, busboy and Firebase plumbing (lines 1-12 and 116-159): I/O and event callbacks. This includes the 400 answer for an upload with no file data (line 128), which happens before any analysis, and the response built at lines 139-144.
- PDF text extraction with `pdf-parse` (line 133): a foreign library. The document text is an input.
- Gemini client setup, model options and `generateContent` (lines 32, 74-83 and 100-106): a network call into an unseen library. They are the `generate` parameter.
- `console.error` (line 111): logging only.
- The CSV existence check and dotenv (lines 9 and 14-20): configuration side effects only. `backend/test-upload.js` is an HTTP test driver and is not part of this model.
- JSON.parse: its internals are left out. `parse` returns either the clause objects or the message of the error thrown. That error is the `SyntaxError` of `JSON.parse` (line 107), or a `TypeError` of the post-processor: `clauses.forEach` when the answer is not an array (line 42), or `item.category` on a `null` element (line 43).
- Answers with primitive elements: an array holding numbers, strings or booleans, such as `[1]`, goes through without an error. Each primitive is stored under the key "undefined", and the writes to `status` are ignored. Falsy primitives such as `[false, false]` are even overwritten, so first-wins does not hold for them. `parse` yields clause objects only, so the model does not represent such answers.
- Analysis.AnalyzeWithGemini: the post-processor's own exceptions are left out; the `TypeError` of reading `category` from `null` is assumed to be reported by `parse`, so post-processing itself never fails.
- ClauseRecord: categories are strings. A non-string category would be converted with `ToString` to form its dictionary key, and this is not modelled.
- ClauseRecord: `status` holds `None` or one of the four statuses, and `warning` holds `None` or a string. A `status` or `warning` that the answer already carried with another value, such as a number for `warning`, cannot be represented, so "discarded objects keep their status and warning" is shown only for those values.
- ClauseRecord: fields other than category, clause, explanation, risk level, date, status and warning are not modelled. The post-processor never touches such fields.
- `new Date(string)` parsing: left out. `DateFound` carries its outcome: missing, a time value, or NaN.
- Floating-point arithmetic: the model computes `Math.ceil((expiry - today) / 86400000)` as exact integer ceiling division. They agree, by the following argument, which is not proved in the model:
  - suppose the two time values are less than 2^53 milliseconds apart;
  - then the subtraction is exact and the quotient is below 2^27 in magnitude;
  - the rounding error of the division is below 2^-27;
  - a non-integer quotient lies at least 1/86400000 from every integer, which is farther than that error;
  - so the rounded quotient never crosses an integer, and both ceilings are equal.
- Strings with characters outside the Basic Multilingual Plane are not needed for any constant. `Bmp` therefore builds each constant from one code unit per character. The documents and answers themselves are arbitrary code-unit sequences.

## Findings

| source | as written | input that shows it | evidently intended | confidence | as-written member | corrected member |
|---|---|---|---|---|---|---|
| backend/functions/index.js:39-46 | `uniqueCategories` is `{}`, so `!uniqueCategories[item.category]` is false for every name Object.prototype provides, and such a category is never stored | `[{category: "constructor", ...}]` (likewise "toString", "valueOf", "__proto__") gives `[]` | every category is kept once, e.g. with `Object.create(null)` or a `Map` | not executed; low impact, since such categories are unlikely from the checklist | Clauses.InheritedCategoryDropped | Clauses.NullPrototypeKeepsLoneCategory |

`ClauseProcessing.Deduplicate` takes the inherited names as a parameter:

- `ProcessClausesWithWarnings` passes `ObjectPrototypeNames`, so it matches the code as written.
- Passing the empty set gives the corrected rule, `Clauses.KeptKeysNullPrototype`.
- `Clauses.KeptKeysWithoutInheritedNames` proves that the two rules agree on every input without such a category.
