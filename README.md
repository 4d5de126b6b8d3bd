# Ice-breaker command and lint-config flattening, modelled in Dafny

The extension lets a user pick an ice-breaker question style and a creativity level.
It sends a templated prompt to a text-generation service and shows the answer. The
answer is also copied to the clipboard. This project models the logic behind that:

- **Creativity stepper** (`creativity.dfy`, module `Creativity`). There is a fixed,
  ordered list of four levels, `["low", "medium", "high", "maximum"]`. "More Creative"
  and "Less Creative" look the current level up with `indexOf` and read the
  neighbouring entry. When that read yields `undefined`, the level stays. Levels are
  strings, as in the source. The JavaScript lookup rules are written out: -1 for a
  missing value, and `undefined` for a read outside the array.
- **Style catalog** (`question_styles.dfy`, module `QuestionStyles`). The four styles
  in display order: Introspective, Light-hearted, Thought-provoking, Funny.
- **Prompt builder** (`prompt.dfy`, module `Prompt`). The instruction text. The
  lower-cased style name goes into its first sentence. Four interpolation slots follow;
  each holds one style's clause exactly when the selected style equals that style's
  name, case-sensitively.
- **Session state machine** (`session.dfy`, module `Session`). The four state variables
  are `creativityLevel`, `question`, `selectedQuestionStyle` and `isLoading`. Each
  handler is an atomic transition that also returns the host calls it makes: the
  generation request, the clipboard copy and the toasts. The generation request is
  opaque. Its outcome arrives later as an event carrying either the generated text or
  an error message. `Run` applies a sequence of events. `Possible` says which sequences
  can happen: a user action only when the interface offers it, a reply only while a
  request is outstanding.
- **The command object** (`component.dfy`, class `Component.Command`). The same four
  fields, updated in place by methods named after the source's handlers, plus a log of
  host calls. Each method is proved to perform the `Session` transition of its handler.
  Each method also keeps the invariant that the creativity level is on the scale.
- **`flattenConfig`** (`flatten_config.dfy`, module `EslintConfig`). It builds a new
  list from the shared lint configuration. Array entries are replaced by their
  elements; other entries are kept. A `for` loop proves the method equal to `Flat`,
  the concatenation of the entries' contributions.

Three behaviours of the code are worth stating plainly:

- Choosing a style does not clear an earlier question.
- Nothing limits the requests in flight to one (`Session.RequestsCanOverlap`).
- A reply that arrives after "Start over" is still applied. `Session.LateAnswerAfterStartOver`
  exhibits this: the answer is stored as the question while the style list is shown.
  `Session.StaleQuestionUnderNewStyle` shows the next style then displays that stale
  question. `Session.NoOrphanWithoutLateAnswer` proves that such a late answer is the
  only way to reach that state.

## Model

| member | source | states |
|---|---|---|
| `Creativity.IndexOf` | src/ice-breaker.tsx:136 | `indexOf`: -1 exactly when the value is absent; otherwise the first position holding it |
| `Creativity.ContinuumDistinct` | src/ice-breaker.tsx:37 | the four levels are pairwise different |
| `Creativity.RankOf` | src/ice-breaker.tsx:145 | looking up the level at position i finds position i |
| `Creativity.IncreaseSteps` | src/ice-breaker.tsx:144-151 | "More Creative" moves to the next level; at "maximum" the level is unchanged (no wrap, no error) |
| `Creativity.LowerSteps` | src/ice-breaker.tsx:135-142 | "Less Creative" moves to the previous level; at "low" the level is unchanged |
| `Creativity.BoundariesClamp` | src/ice-breaker.tsx:135-151 | increase("maximum") = "maximum" and lower("low") = "low" |
| `Creativity.StepsStayOnScale` | src/ice-breaker.tsx:135-151 | stepping either way from a level on the scale stays on the scale |
| `Creativity.StepsMoveRankByOne` | src/ice-breaker.tsx:135-151 | the position moves by exactly one, saturating at both ends |
| `Creativity.StepsRoundTrip` | src/ice-breaker.tsx:135-151 | lower(increase(l)) = l for l ≠ "maximum", and increase(lower(l)) = l for l ≠ "low" |
| `Creativity.StepsOffScale` | src/ice-breaker.tsx:144-151 | as written, a level not on the scale steps up to "low" and cannot step down |
| `QuestionStyles.CatalogNames` | src/ice-breaker.tsx:22-35 | the catalog is Introspective, Light-hearted, Thought-provoking, Funny in this order; names are non-empty and distinct |
| `QuestionStyles.CatalogNameNonEmpty` | src/ice-breaker.tsx:22-35 | no catalog name is the empty "no style" value |
| `Prompt.ToLowerCase` | src/ice-breaker.tsx:50 | same length, each character lower-cased, no upper-case ASCII letter left |
| `Prompt.ToLowerCaseIdempotent` | src/ice-breaker.tsx:50 | lower-casing twice equals lower-casing once |
| `Prompt.PromptFrame` | src/ice-breaker.tsx:49-64 | the prompt contains "Generate a " + lower-cased style + " ice-breaker question" and ends with "Please provide just the question without any additional explanation or context." |
| `Prompt.ClauseSelection` | src/ice-breaker.tsx:59-62 | the clause block contains the clause of a known style name exactly when the selected style equals that name, so at most one clause appears, it is the mapped one, and an unknown style gets none |
| `Prompt.CatalogHasClauses` | src/ice-breaker.tsx:59-62 | every catalog style has a clause, and every style with a clause is in the catalog |
| `Prompt.PromptHoldsBlock` | src/ice-breaker.tsx:49-64 | the four clause slots are part of the prompt that is sent |
| `Prompt.PromptCarriesClause` | src/ice-breaker.tsx:49-64 | the prompt sent for a style with a clause contains that clause |
| `Prompt.FunnyPrompt` | src/ice-breaker.tsx:50-59 | the prompt sent for "Funny" asks for a "funny ice-breaker question" and contains the humour clause |
| `Session.Clear` | src/ice-breaker.tsx:90-103 | "Start over" leaves question "", style "", not loading, and the creativity unchanged |
| `Session.ScreenSwitch` | src/ice-breaker.tsx:82-127 | only "Start over" (always back to the list) and choosing a style (the list only for the empty style) switch screens; every other event keeps the screen shown |
| `Session.AskQuestionKeepsQuestion` | src/ice-breaker.tsx:45-66 | `askQuestion` sets loading, keeps the question, style and creativity, and sends exactly one request: the selected style's prompt at the current creativity |
| `Session.ReplySettles` | src/ice-breaker.tsx:67-79 | any reply clears loading; an answer becomes the question, is copied once and announced once as a success; an error keeps the question and is announced with its message; no new request |
| `Session.ChoosingAStyle` | src/ice-breaker.tsx:82-88 | choosing sets the selected style; a change to a non-empty style issues exactly that style's request, otherwise none; the question is kept |
| `Session.ChoosingFromCatalog` | src/ice-breaker.tsx:105-117 | from the list, choosing a catalog style shows the question screen, sets loading and sends exactly one request, whose prompt contains that style's clause |
| `Session.AdjustingCreativity` | src/ice-breaker.tsx:135-151 | the creativity actions change only the creativity and send no request |
| `Session.StepCreativity` | src/ice-breaker.tsx:45-151 | one event changes the creativity only through "More Creative" (one step up) and "Less Creative" (one step down) |
| `Session.CreativityStaysOnScale` | src/ice-breaker.tsx:36-40 | from a level on the scale, every run of events keeps the creativity on the scale |
| `Session.InitialCreativity` | src/ice-breaker.tsx:36-40 | a session starts at "high", which is on the scale |
| `Session.OnlyButtonsChangeCreativity` | src/ice-breaker.tsx:90-103 | runs without the two creativity actions keep the creativity; in particular clearing never changes it |
| `Session.NoOrphanWithoutLateAnswer` | src/ice-breaker.tsx:67-103 | as long as no answer arrives while the style list is shown, an empty selection goes with an empty question |
| `Session.LateAnswerAfterStartOver` | src/ice-breaker.tsx:67-103 | choose, start over, then the answer arrives: a possible run ending with no style selected but the answer stored as the question |
| `Session.StaleQuestionUnderNewStyle` | src/ice-breaker.tsx:82-88 | after that late answer, choosing any style shows the stale question under the new style while loading |
| `Session.RequestsCanOverlap` | src/ice-breaker.tsx:45-48 | choosing a style then "Generate New" is possible and sends two requests, both outstanding |
| `Session.FirstAnswer` | src/ice-breaker.tsx:67-74 | choose a style and get an answer: request at "high", copy once, one success toast, the answer shown under the style, not loading |
| `Session.FirstFailure` | src/ice-breaker.tsx:76-79 | choose a style and get an error: not loading, question still "", one failure toast carrying the error's message |
| `Component.Command.constructor` | src/ice-breaker.tsx:40-43 | creativity "high", question "", no style, not loading, no host calls |
| `Component.Command.AskQuestion` | src/ice-breaker.tsx:45-66 | performs `Session.AskQuestion`: loading set, question kept, the request appended to the host calls |
| `Component.Command.OnAnswer` | src/ice-breaker.tsx:67-74 | performs `Session.OnAnswer`: question is the answer, not loading, copy and success toast appended |
| `Component.Command.OnError` | src/ice-breaker.tsx:76-79 | performs `Session.OnError`: not loading, question kept, failure toast appended |
| `Component.Command.ClearQuestion` | src/ice-breaker.tsx:90-93 | performs `Session.ClearQuestion` |
| `Component.Command.ClearQuestionStyle` | src/ice-breaker.tsx:95-98 | performs `Session.ClearQuestionStyle` |
| `Component.Command.Clear` | src/ice-breaker.tsx:100-103 | performs `Session.Clear`: question and style empty, not loading, creativity unchanged |
| `Component.Command.SetSelectedQuestionStyle` | src/ice-breaker.tsx:82-88 | performs `Session.SetSelectedQuestionStyle`: the setter, then the effect that asks for a changed, non-empty style |
| `Component.Command.IncreaseCreativityLevel` | src/ice-breaker.tsx:144-151 | performs `Session.IncreaseCreativityLevel` by lookup and neighbour read, keeping the level on the scale |
| `Component.Command.LowerCreativityLevel` | src/ice-breaker.tsx:135-142 | performs `Session.LowerCreativityLevel` by lookup and neighbour read, keeping the level on the scale |
| `Component.Command.Handle` | src/ice-breaker.tsx:153-164 | each event goes to its handler, and the object moves as `Session.Step` says |
| `EslintConfig.FlattenConfig` | eslint.config.js:4-14 | the result built entry by entry equals `Flat(config)` |
| `EslintConfig.FlatAppend` | eslint.config.js:6-12 | flattening a concatenation is the concatenation of the flattenings |
| `EslintConfig.FlatLength` | eslint.config.js:4-14 | the result's length is the sum of each entry's length (arrays) or 1 (other entries) |
| `EslintConfig.FlatPositions` | eslint.config.js:6-12 | element j of entry i's contribution sits at position offset(i) + j: array elements in order, other entries as themselves, entries in input order |
| `EslintConfig.OnlyOneLevel` | eslint.config.js:7-8 | an array nested inside an array entry arrives as one unchanged element |
| `EslintConfig.FlatWithoutArrays` | eslint.config.js:10-11 | without array entries the result equals the input |
| `EslintConfig.FlatSingleArray` | eslint.config.js:7-8 | a single array entry flattens to its elements |

## Left out

- Rendering is left out: the list and detail views, the markdown text, metadata tags, icons, colours and keyboard shortcuts (src/ice-breaker.tsx:105-176). Only which screen is shown is modelled (`Session.ViewOf`).
- `AI.ask` is an external network call. It is modelled only as an `Ask` call in the host-call log plus a later reply event carrying text or an error.
- `Clipboard.copy` and `showToast` are external. The model records that they are called, with their arguments, and nothing more.
- A rejection from `Clipboard.copy` or `showToast` inside the success continuation falls through to `.catch`, which would add a failure toast after a success. This is not modelled, because those host calls are taken to succeed.
- Prompt.ClauseSelection: the "no other clause" direction is proved on the clause block, not on the whole prompt text. The guideline list before it also has dash-led lines. For the prompt as a whole, only the presence of the selected clause is proved (`Prompt.PromptCarriesClause`).
- React scheduling is not modelled. Each handler is one atomic update. The effect that watches the selected style runs right after the setter and sees whether the value changed.
- Promise interleaving is modelled only as the order of events in a run.
- `Prompt.ToLowerCase`: lower-cases only the ASCII letters A-Z; `toLowerCase` also maps non-ASCII letters. The catalog names are ASCII.
- Creativity levels are strings. The host's creativity type also allows "none" and numbers, which this command never stores.
- `require("@raycast/eslint-config")` and `module.exports` are foreign modules (eslint.config.js:1, 16). `FlattenConfig` takes the list as a parameter.
- `EslintConfig.FlattenConfig`: input and result are sequence values. The input is therefore unchanged and the result is new by construction. Object identity, and the sharing of nested arrays between input and result, is not modelled.
