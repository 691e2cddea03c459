# AI UML generator: the generation pipeline and its page state, in Dafny

The generator turns a prose description and a diagram type into PlantUML code. It does this in four steps:

1. It builds a prompt and sends it to a language model.
2. It extracts the first ```` ```plantuml ```` block from the model's reply.
3. It shows the diagram through the PlantUML server, at a URL made from the encoded code.
4. It keeps the page's state: the description, the editor's code, the "generating" flag and the chosen diagram type.

This project models those steps and proves what each one promises.

Files and modules:

- `wrappers.dfy`, module `Wrappers`: `Option`, which stands for `T | null`, and `Result`, which stands for a value or a thrown error.
- `js_text.dfy`, module `JsText`: JavaScript's `String.prototype.trim` and a first-occurrence search. Whitespace is ECMAScript's WhiteSpace and LineTerminator set.
- `uml_action.dfy`, module `UmlAction`: the server action. This covers the prompt, `extractPlantUMLCode` and `generateUMLAction`. The regular expression ```` /```plantuml([\s\S]*?)```/ ```` is modelled without regular expressions. `MatchAt` and `IsRegexMatch` state what it matches: the leftmost start, then the shortest capture. The lemmas prove that the extractor returns exactly that match.
- `uml_viewer.dfy`, module `UmlViewer`: the rendering URL and the choice between spinner, image and placeholder. Class `Viewer` holds the viewer's state and the effect that recomputes the URL when the code changes.
- `uml_page.dfy`, module `UmlPage`: class `UmlGenerator` holds the page's state. Its methods are the handlers that change that state.

Things the model makes explicit:

- **The leftmost match is the first opener.** A match at a later opener would have a closing fence that also closes the first opener, so the regular expression's match always starts at the first ```` ```plantuml ````. If that opener has no closing fence, nothing matches.
- **Empty versus whitespace-only.** The source tests `match[1]` for truthiness before trimming. An empty capture therefore yields `null`, and a whitespace-only capture yields `""`.
- **`null` reaches the page.** The `as string` cast in `generateUML` hides that the action can return `null`. The editor's code is therefore `Option<string>`, and the viewer shows the placeholder for it.
- **The viewer's hooks belong to the page.** `renderUML` calls `UMLViewer` as a plain function, so the viewer's state and effect run as part of the page, twice per render, with identical values. The model keeps one `Viewer` object inside the page for both.

Further facts of the code that the model keeps:

- The diagram type is any string.
- The generation status is the single boolean `isGenerating`.
- Zooming and panning have no bounds in this code.
- The displayed URL lags the code by one commit, because the effect runs after the render.

## Model

| member | source | states |
|---|---|---|
| `JsText.Trim` | actions/uml.action.ts:32 | the result has no leading or trailing whitespace; it is the slice of the input left after removing the whitespace around it; it is empty exactly when the input is all whitespace |
| `JsText.TrimUnique` | actions/uml.action.ts:32 | any trimmed slice of the input that has only whitespace around it is the result of `trim`, so the description above determines `trim` completely |
| `JsText.TrimIdempotent` | actions/uml.action.ts:32 | trimming an already trimmed string changes nothing |
| `JsText.IndexOf` | actions/uml.action.ts:29-30 | the result is an occurrence of the pattern at or after the start index, and no earlier occurrence exists at or after that index; `None` means there is no occurrence at or after the start index |
| `UmlAction.CaptureResult` | actions/uml.action.ts:31-34 | an empty capture gives `null`; any other capture gives its trimmed text, which is `""` exactly when the capture is all whitespace |
| `UmlAction.ExtractPlantUmlCode` | actions/uml.action.ts:28-35 | a returned string has no leading or trailing whitespace and never contains a three-backtick fence |
| `UmlAction.ExtractFollowsRegex` | actions/uml.action.ts:29-32 | for the leftmost, shortest match of the regular expression, the result is the trimmed capture, or `null` when the capture is empty |
| `UmlAction.ExtractAbsent` | actions/uml.action.ts:30-34 | when the regular expression matches nowhere, the result is `null` and nothing is thrown |
| `UmlAction.RegexMatchExists` | actions/uml.action.ts:29-30 | whenever some opener is followed by a closing fence, a leftmost, shortest match exists, so the two lemmas above cover every reply |
| `UmlAction.ExtractIgnoresLaterText` | actions/uml.action.ts:29-30 | once a reply holds a complete block, appending any text to it (other fenced blocks included) leaves the result unchanged |
| `UmlAction.OpenerNoOverlap` | actions/uml.action.ts:29 | two occurrences of the opener never overlap |
| `UmlAction.ExtractSingleBlock` | actions/uml.action.ts:29-32 | prose without an opener, then one block whose payload holds no fence and does not end in a backtick, then any text: the result is the payload's capture result |
| `UmlAction.FirstBlockWins` | actions/uml.action.ts:29-32 | with two blocks in a reply, the result comes from the first block alone |
| `UmlAction.ExtractClassDiagramReply` | actions/uml.action.ts:28-33 | "Here you go:" followed by a block holding a three-line class diagram yields exactly those three lines |
| `UmlAction.ExtractRefusal` | actions/uml.action.ts:30-34 | the reply "I cannot generate a diagram for that." yields `null` |
| `UmlAction.Prompt` | actions/uml.action.ts:12-14 | the prompt is the fixed text, then the diagram type, the story text, the description, the instructions and the serialised templates, each at a known position and copied verbatim |
| `UmlAction.PromptMentionsInputs` | actions/uml.action.ts:12-14 | the prompt contains the diagram type and, after it, the description |
| `UmlAction.PromptDeterminesInputs` | actions/uml.action.ts:12-14 | two requests whose diagram types and template texts have the same lengths give the same prompt only if all their inputs are equal |
| `UmlAction.GenerateUmlAction` | actions/uml.action.ts:8-25 | the model is asked with exactly the prompt; a reply gives the extractor's result on it, and a model error is rethrown with its cause unchanged |
| `UmlAction.GenerateClassDiagram` | actions/uml.action.ts:8-20 | end to end: a "class" request about customers and orders, answered with a fenced class diagram, returns that diagram's code, and the prompt names both "class" and the description |
| `UmlViewer.ImageUrl` | components/UMLViewer.tsx:19-21 | the URL is the PlantUML SVG endpoint followed by the encoder's output for the code |
| `UmlViewer.TokenOf` | components/UMLViewer.tsx:19-21 | a URL yields a token exactly when it starts with the endpoint, and the endpoint followed by the token rebuilds the URL |
| `UmlViewer.TokenOfImageUrl` | components/UMLViewer.tsx:19-21 | every rendering URL yields back the encoder's output for its code |
| `UmlViewer.ImageUrlSameIffSameToken` | components/UMLViewer.tsx:19-21 | two codes give the same URL exactly when the encoder gives them the same token, so the URL depends on the code alone |
| `UmlViewer.Render` | components/UMLViewer.tsx:32-76 | while generating, the spinner is shown whatever the code; otherwise the image is shown exactly when the code is a non-empty string, and "No diagram available" is shown for `null` or empty code; the image shown is the stored URL |
| `UmlViewer.Viewer.constructor` | components/UMLViewer.tsx:16 | the stored URL starts empty and the effect has not yet run |
| `UmlViewer.Viewer.Commit` | components/UMLViewer.tsx:17-27 | the effect runs on the first commit and whenever the code differs from the code of its last run; when it runs, the stored URL and the URL passed to `setImage` are the same URL for the current code; when it does not run, nothing changes; afterwards the stored URL always belongs to the current code |
| `UmlPage.UmlGenerator.constructor` | app/page.tsx:45-53 | initial state: empty description, empty code, not generating, diagram type "class", no image, and a viewer whose effect has not yet run |
| `UmlPage.UmlGenerator.Mount` | app/page.tsx:55-60 | on mount, the code becomes the class template when the editor is attached; nothing else changes |
| `UmlPage.UmlGenerator.CommitViewer` | components/UMLViewer.tsx:17-27 | after the viewer's effect, the effect's last code is the current code and the viewer's URL belongs to it; the page's `image` takes the same URL when the effect ran and is unchanged otherwise, so a second commit with the same code changes nothing; the page's `image` and the viewer's URL stay equal; the other page fields are unchanged |
| `UmlPage.UmlGenerator.Shown` | app/page.tsx:88-90 | what `renderUML` displays: the spinner exactly while generating; otherwise the image exactly when the code is a non-empty string, with the viewer's stored URL as its source, and the placeholder for `null` or empty code |
| `UmlPage.PreviewShowsCurrentCode` | app/page.tsx:88-90 | once the viewer's effect has run for the current code, the image in the preview is that code's rendering URL and equals the page's `image` |
| `UmlPage.UmlGenerator.SetDescription` | app/page.tsx:197 | typing replaces the description and nothing else |
| `UmlPage.UmlGenerator.EditCode` | app/page.tsx:337 | editing replaces the code and nothing else |
| `UmlPage.UmlGenerator.HandleTemplateChange` | app/page.tsx:91-93 | only the diagram type changes |
| `UmlPage.UmlGenerator.GenerateEnabled` | app/page.tsx:203 | the Generate button is enabled exactly when no generation runs and the description is not all whitespace |
| `UmlPage.UmlGenerator.StatusLabel` | app/page.tsx:355 | the label is "Generating..." exactly when a generation runs, and "Ready" otherwise |
| `UmlPage.UmlGenerator.BeginGenerate` | app/page.tsx:72-77 | for an all-whitespace description, nothing changes and no request is made; otherwise the flag is raised and the request carries the current description and diagram type |
| `UmlPage.UmlGenerator.SettleGenerate` | app/page.tsx:77-84 | on success the code becomes the action's result, `null` included; on failure the code is kept and the failure alert is raised; the flag is cleared in both cases |
| `UmlPage.UmlGenerator.GenerateUml` | app/page.tsx:72-85 | the whole handler: for a blank description, no state changes; otherwise the flag ends cleared, the code follows the action's outcome, and the alert appears exactly on failure |
| `UmlPage.GeneratingAgreement` | app/page.tsx:355-359 | while generating, the button is disabled; the label reads "Generating..." exactly when the preview shows the spinner |

## Left out

- The language model call (`@google/generative-ai`, the API key and the model name) is network I/O. It is a parameter `model` that returns either a reply text or an error.
- The internals of `plantuml-encoder` (compression and its 64-character alphabet) come from a library that is not part of this model. The encoder is a parameter that can be any total function. Only its determinism follows, because it is a function.
- The template tables `templates` and `diagramTemplates` come from a file that is not part of this model. The class template and the serialised templates are string parameters.
- Zoom, pan and reset are delegated entirely to `react-zoom-pan-pinch`. The visible code sets no step factor and no scale bounds, so there is nothing to model.
- The `try`/`catch` around the viewer's JSX and its "Error generating diagram" fallback are not modelled. Building JSX does not throw in this code.
- Dark mode, copy to clipboard with its timer, SVG download through `fetch`, the tabs and the layout are page plumbing that does not feed the pipeline. `console.error` logging is left out too.
- Overlapping `generateUML` calls are a concurrency matter. The model runs one call at a time: `GenerateUml` starts and settles one request, and `BeginGenerate`/`SettleGenerate` expose the state in between.
- React's scheduling is reduced to explicit steps. A render is a read of the state (`Shown`, `StatusLabel`), and a commit runs the effects (`Mount`, `CommitViewer`). The two identical viewer instances produced by calling `UMLViewer` as a function are folded into one.
- Strings are sequences of Unicode characters, whereas JavaScript strings are UTF-16 code units. Every character that `trim` and the fences involve lies in the Basic Multilingual Plane, where the two agree.
