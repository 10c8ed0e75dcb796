# Volar quick-start compiler patch and document links, in Dafny

This project models two pieces of Volar:

1. **The compiler patch.** `runTsc` (`packages/typescript/lib/quickstart/runTsc.ts`) rewrites the TypeScript compiler's source text before loading it.
   - `transformTscContent` applies a fixed chain of find-and-replace steps.
   - Three extension tables get extra entries.
   - The table of extensions to remove on output is extended.
   - A `changeExtension` wrapper is inserted for the extensions that are supported but not removed.
   - `createProgram` is always renamed to `_createProgram` behind a `proxyCreateProgram` binding.
   - Each step goes through `replace`, which throws `Search string not found: …` when the step leaves the text unchanged.
2. **Document links.** The document-link request of the language service (`packages/language-service/lib/languageFeatures/documentLinks.ts`) does four things:
   - It wraps each service link's `data` in an envelope.
   - It projects links from embedded files back to the source file, dropping those that do not map.
   - It adds a link over the source range of every mapping that is flagged `displayWithLink`, covers a non-empty range and belongs to a map made from the source file's current snapshot.
   - It returns the service links followed by those fictitious links.

## Files

- `wrappers.dfy` (module `Wrappers`): `Option` and `Result`, where a `Failure` is a thrown error.
- `text_pattern.dfy` (module `TextPattern`): the regular expressions the patch searches with.
  - Each is a literal head followed by nothing, by `.*(?=;)`, or by `.+` and a closing literal.
  - `FirstMatch` locates the match JavaScript's `String.prototype.replace` replaces: leftmost start, then greedy end, where `.` excludes line terminators.
  - `ReplaceFirstLiteral` is `s.replace('lit', …)` with a string pattern.
- `json_string.dfy` (module `JsonString`): `JSON.stringify` of a string and the decoder it round-trips with. The patch uses it to embed file paths and a regex source.
- `tsc_patch.dfy` (module `TscPatch`): option normalisation, rendering of extension lists, `replace`, the steps of `transformTscContent` and the imperative method itself. It also covers the meaning of the inserted `changeExtension` routine.
- `document_links.dfy` (module `DocumentLinks`): the envelope, the per-service callback with its in-place wrapping loop, projection, `getFictitiousLinks` with its three nested loops (the inner two as the methods `AppendEntryLinks` and `AppendMappingLinks`), and the final concatenation.

`TransformTscContent` threads the text through the steps the way the source reassigns `tsc`. It is proved equal to `RunSteps(tsc, Plan(…))`. `Plan` is the list of (pattern, edit) steps the options call for, in order. The lemmas about `Plan`, `Replace` and the step effects then say what the rewriting does. `GetFictitiousLinks` builds its result by appending inside three nested loops; the inner two are the methods `AppendEntryLinks` and `AppendMappingLinks`. It is proved equal to `FictitiousLinks`, a function defined one file, one map and one mapping at a time. Membership and order lemmas say which links that function yields.

## Model

| member | source | states |
|---|---|---|
| TscPatch.NormalizeOptions | packages/typescript/lib/quickstart/runTsc.ts:40-49 | a plain array becomes the supported extensions with nothing to remove; the object form is taken field by field |
| TscPatch.ListOptionsPatchEveryExtension | packages/typescript/lib/quickstart/runTsc.ts:42-45 | with the array form, every listed extension needs the `changeExtension` patch |
| TscPatch.NeededPatchExtensionsMembers | packages/typescript/lib/quickstart/runTsc.ts:83 | an extension needs the patch exactly when it is supported and not in the removal list |
| TscPatch.NeededPatchExtensionsAppend | packages/typescript/lib/quickstart/runTsc.ts:83 | the filter distributes over concatenation, so kept extensions stay in their original order |
| TscPatch.NothingRemovedKeepsAll | packages/typescript/lib/quickstart/runTsc.ts:83 | with an empty removal list the needed list is the supported list itself |
| TscPatch.NeededPatchExtensions | packages/typescript/lib/quickstart/runTsc.ts:83 | the filter never yields more extensions than are supported |
| TscPatch.RenderExtensions | packages/typescript/lib/quickstart/runTsc.ts:87-99 | the rendered list (as on lines 87, 94 and 99) is empty exactly when there are no extensions |
| TscPatch.RenderParseRoundTrip | packages/typescript/lib/quickstart/runTsc.ts:87 | the rendered list (quoted items joined by `, `) reads back as exactly the original extensions, in order, when each is plain: no double quote, backslash, line feed or carriage return, so each generated literal denotes its extension |
| TscPatch.ReplaceThrowsIffUnchanged | packages/typescript/lib/quickstart/runTsc.ts:128-136 | `replace` throws exactly when replacing the first match leaves the text unchanged; the message is `Search string not found: ` plus the quoted regex source; otherwise it returns the rewritten text |
| TscPatch.Replace | packages/typescript/lib/quickstart/runTsc.ts:128-136 | a throw carries the not-found message for the pattern; a result is returned only when the pattern is found and the text has changed |
| TscPatch.ReplaceFirst | packages/typescript/lib/quickstart/runTsc.ts:130 | without a match the text is returned as is; with a match, an edit that adds text makes the result longer |
| TscPatch.ApplyEdit | packages/typescript/lib/quickstart/runTsc.ts:88-116 | each edit the rewriting uses (append a suffix, or prefix and rename) lengthens the matched text when it adds a non-empty piece |
| TscPatch.NotFoundMessage | packages/typescript/lib/quickstart/runTsc.ts:133 | the message is `Search string not found: ` followed by a JSON string literal that reads back as the regex source |
| TscPatch.SpliceUnchanged | packages/typescript/lib/quickstart/runTsc.ts:132 | splicing an edit over a match leaves the text unchanged exactly when the edit equals the matched text |
| TscPatch.ReplaceFailsIffNotFound | packages/typescript/lib/quickstart/runTsc.ts:130-133 | for the edits the patch uses, which always add text, `replace` throws exactly when the pattern has no match |
| TscPatch.ReplaceAt | packages/typescript/lib/quickstart/runTsc.ts:130-135 | only the first match is replaced: the result is the text before it, the edited match, then the text after it |
| TscPatch.AppendStepEffect | packages/typescript/lib/quickstart/runTsc.ts:88-90 | a step of the form `s => s + suffix` puts the suffix right after the first match and changes nothing else |
| TscPatch.DeclaredNameFirst | packages/typescript/lib/quickstart/runTsc.ts:104 | in a match starting `function <name>`, the first occurrence of the name is the declared one, right after `function ` |
| TscPatch.RenameInDeclaration | packages/typescript/lib/quickstart/runTsc.ts:100-104 | the prefix-and-rename edit yields the prefix, then `function _` and the rest of the match |
| TscPatch.RenameStepEffect | packages/typescript/lib/quickstart/runTsc.ts:100-104 | a prefix-and-rename step puts the prefix immediately before the declaration and renames it to `_<name>`, leaving the rest of the text alone |
| TscPatch.NamesRenamable | packages/typescript/lib/quickstart/runTsc.ts:100 | `createProgram` and `changeExtension` start their patterns after `function ` and cannot be found inside that keyword |
| TscPatch.CreateProgramStepEffect | packages/typescript/lib/quickstart/runTsc.ts:108-117 | when `function createProgram(…) {` is found, the `var createProgram = require(…).proxyCreateProgram(…);` binding is placed immediately before the declaration, which becomes `_createProgram` |
| TscPatch.ChangeExtensionStepEffect | packages/typescript/lib/quickstart/runTsc.ts:98-105 | when `function changeExtension(` is found, the wrapper listing the needed extensions is placed before it, and it becomes `_changeExtension` |
| TscPatch.RunSteps | packages/typescript/lib/quickstart/runTsc.ts:88-116 | when the chain throws, the error is the not-found message of one of its steps' patterns |
| TscPatch.RunStepsCons | packages/typescript/lib/quickstart/runTsc.ts:88-116 | the chain performs its first step, then the rest on that step's result, stopping at a throw |
| TscPatch.RunStepsAppend | packages/typescript/lib/quickstart/runTsc.ts:88-116 | running two step lists one after the other is running their concatenation |
| TscPatch.PatchExtensionTables | packages/typescript/lib/quickstart/runTsc.ts:86-91 | the three table replacements are made, in order, exactly when extra supported extensions are given |
| TscPatch.PatchExtensionsToRemove | packages/typescript/lib/quickstart/runTsc.ts:93-96 | the `extensionsToRemove` replacement is made exactly when extensions to remove are given |
| TscPatch.PatchChangeExtension | packages/typescript/lib/quickstart/runTsc.ts:98-105 | the `changeExtension` replacement is made exactly when some extension needs it |
| TscPatch.PatchCreateProgram | packages/typescript/lib/quickstart/runTsc.ts:108-117 | the `createProgram` replacement is always made |
| TscPatch.TransformTscContent | packages/typescript/lib/quickstart/runTsc.ts:75-120 | the text after every reassignment of `tsc`, or the first error thrown, is what running the planned steps in order gives; a missing `typescriptObject` takes the eval-proxy default |
| TscPatch.SearchesAppend | packages/typescript/lib/quickstart/runTsc.ts:86-117 | a pattern is searched for by two step lists together exactly when one of them searches for it |
| TscPatch.TableSteps | packages/typescript/lib/quickstart/runTsc.ts:86-91 | three steps when extra supported extensions are given, none otherwise |
| TscPatch.RemoveSteps | packages/typescript/lib/quickstart/runTsc.ts:93-96 | one step when extensions to remove are given, none otherwise |
| TscPatch.ChangeExtensionSteps | packages/typescript/lib/quickstart/runTsc.ts:98-105 | one step when some extension needs the wrapper, none otherwise |
| TscPatch.CreateProgramStep | packages/typescript/lib/quickstart/runTsc.ts:108-117 | the `createProgram` step always inserts text |
| TscPatch.Plan | packages/typescript/lib/quickstart/runTsc.ts:86-117 | between one and six steps: at most three tables, one removal, one wrapper, and always `createProgram` |
| TscPatch.PlanStepsInsert | packages/typescript/lib/quickstart/runTsc.ts:88-116 | every planned step adds text where its pattern matches, so each `replace` throws exactly when its pattern is missing |
| TscPatch.WrapperDeclaresChangeExtension | packages/typescript/lib/quickstart/runTsc.ts:100-104 | the inserted routine declares `function changeExtension` itself and tests the rendered extension list |
| TscPatch.BindingRequiresProxyApi | packages/typescript/lib/quickstart/runTsc.ts:109-115 | the binding's first `require` holds a literal that reads back as `proxyApiPath`, and the binding ends with `);` and a newline |
| TscPatch.TableStepsShape | packages/typescript/lib/quickstart/runTsc.ts:86-91 | no table steps without extra supported extensions; otherwise `supportedTSExtensions`, `supportedJSExtensions` and `allSupportedExtensions`, in that order, each with the `.map((group, i) => … splice(0, 0, exts) …)` suffix appended |
| TscPatch.PlanStartsWithTables | packages/typescript/lib/quickstart/runTsc.ts:86-91 | the table steps come first |
| TscPatch.PlanEndsWithCreateProgram | packages/typescript/lib/quickstart/runTsc.ts:108-117 | the `createProgram` step always comes last |
| TscPatch.PlanRemovesIffExtensionsToRemove | packages/typescript/lib/quickstart/runTsc.ts:93-96 | `extensionsToRemove` is patched exactly when the removal list is non-empty |
| TscPatch.PlanWrapsIffNeeded | packages/typescript/lib/quickstart/runTsc.ts:98-105 | `changeExtension` is patched exactly when some supported extension is not in the removal list |
| TscPatch.PlanPatchesTablesIff | packages/typescript/lib/quickstart/runTsc.ts:86-91 | each of `supportedTSExtensions`, `supportedJSExtensions` and `allSupportedExtensions` is patched exactly when extra supported extensions are given |
| TscPatch.EmptyOptionsPlan | packages/typescript/lib/quickstart/runTsc.ts:86-117 | with both lists empty, only the `createProgram` step remains |
| TscPatch.MissingCreateProgramThrows | packages/typescript/lib/quickstart/runTsc.ts:108-117 | with both lists empty, a text without a `function createProgram(…) {` declaration makes the rewriting throw the not-found message for that regex |
| TscPatch.SingleStepNotFound | packages/typescript/lib/quickstart/runTsc.ts:133 | a step whose pattern is not found throws its not-found message |
| TscPatch.SomeEndsWithExists | packages/typescript/lib/quickstart/runTsc.ts:101 | `[…].some(ext => path.endsWith(ext))` holds exactly when some listed extension ends the path |
| TscPatch.WrappedChangeExtension | packages/typescript/lib/quickstart/runTsc.ts:100-104 | a path ending in a listed extension gets `newExtension` appended; a path ending in none goes to the compiler's own routine |
| TscPatch.PatchedChangeExtension | packages/typescript/lib/quickstart/runTsc.ts:98-105 | with no extension needing the wrapper, `changeExtension` is the compiler's own routine |
| TscPatch.PatchedChangeExtensionSpec | packages/typescript/lib/quickstart/runTsc.ts:98-105 | for plain extensions, in the rewritten compiler a path ending in a supported extension that is not removed gets `newExtension` appended; every other path goes to the compiler's own routine |
| TscPatch.SupportedExtensionKeptInOutputName | packages/typescript/lib/quickstart/runTsc.ts:97-103 | with `.foo` supported, `basename.foo` becomes `basename.foo.d.ts` |
| TscPatch.RemovedExtensionLeftToCompiler | packages/typescript/lib/quickstart/runTsc.ts:92-105 | with `.foo` both supported and removed, the compiler's own `changeExtension` decides |
| TextPattern.FirstMatchSpec | packages/typescript/lib/quickstart/runTsc.ts:130 | the located match is a match, no match starts earlier and none at that start ends later; nothing is located only when nothing matches |
| TextPattern.FirstMatchIs | packages/typescript/lib/quickstart/runTsc.ts:130 | the leftmost-longest match is the one located |
| TextPattern.FirstMatchUnique | packages/typescript/lib/quickstart/runTsc.ts:130 | there is at most one leftmost-longest match |
| TextPattern.FirstMatch | packages/typescript/lib/quickstart/runTsc.ts:130 | a located match starts with the pattern's literal head and ends within the text, no earlier than the head's end |
| TextPattern.MatchEndAtSpec | packages/typescript/lib/quickstart/runTsc.ts:88-108 | at a given start, the end taken is the greedy one: `.*(?=;)` runs to the last `;` on the line, and `.+) {` to the last `) {` on the line |
| TextPattern.FirstMatchFromSpec | packages/typescript/lib/quickstart/runTsc.ts:130 | scanning forward from an offset finds the first start at which the pattern matches, with its greedy end |
| TextPattern.LineEndSpec | packages/typescript/lib/quickstart/runTsc.ts:88 | `.` runs up to the first line terminator (`\n`, `\r`, U+2028, U+2029) |
| TextPattern.LastSemicolonSpec | packages/typescript/lib/quickstart/runTsc.ts:88 | the lookahead `(?=;)` is satisfied at the last semicolon of the stretch and at no later offset |
| TextPattern.LastOccurrenceSpec | packages/typescript/lib/quickstart/runTsc.ts:108 | the closing `) {` is taken at its last occurrence in the stretch |
| TextPattern.ReplaceFirstLiteralAt | packages/typescript/lib/quickstart/runTsc.ts:104 | `s.replace('name', '_name')` replaces the first occurrence only |
| TextPattern.ReplaceFirstLiteral | packages/typescript/lib/quickstart/runTsc.ts:104-116 | (the renames on lines 104 and 116) without an occurrence of the needle the string is unchanged; otherwise exactly one occurrence is replaced, changing the length by the difference |
| JsonString.QuoteRoundTrip | packages/typescript/lib/quickstart/runTsc.ts:109 | `JSON.parse(JSON.stringify(s))` is `s`: the embedded path literal denotes exactly the path |
| JsonString.EscapeAllDecodes | packages/typescript/lib/quickstart/runTsc.ts:113 | the escaped body of a string literal decodes to the string |
| JsonString.Quote | packages/typescript/lib/quickstart/runTsc.ts:109-113 | `JSON.stringify` of a string (also used on line 133) is a literal of at least two characters, opening and closing with a double quote |
| DocumentLinks.IndexOf | packages/language-service/lib/languageFeatures/documentLinks.ts:36 | `services.indexOf(service)` is -1 exactly when the service is not listed, and otherwise the first position holding it |
| DocumentLinks.Wrap | packages/language-service/lib/languageFeatures/documentLinks.ts:31-37 | the envelope holds the request uri, the service's index and the link's previous data, and unwrapping gives back the service's link unchanged |
| DocumentLinks.ServiceCallback | packages/language-service/lib/languageFeatures/documentLinks.ts:23-41 | with cancellation already requested, nothing is returned and no link is touched; otherwise every link of the service has its data wrapped in place, and the same array is returned |
| DocumentLinks.ProjectLink | packages/language-service/lib/languageFeatures/documentLinks.ts:42-59 | without a map a link is kept as is; with a map it is dropped exactly when its range does not map back; a kept link has the mapped range, the same tooltip and data, and a transformed target only when the target is truthy |
| DocumentLinks.ProjectLinks | packages/language-service/lib/languageFeatures/documentLinks.ts:42-60 | projection never adds links, and without a map returns every link unchanged, in order |
| DocumentLinks.ProjectLinksAppend | packages/language-service/lib/languageFeatures/documentLinks.ts:42-60 | projection works link by link, so surviving links keep their relative order |
| DocumentLinks.ProjectLinksMembers | packages/language-service/lib/languageFeatures/documentLinks.ts:42-60 | a link is in the result exactly when it is the projection of some input link |
| DocumentLinks.PresentMembers | packages/language-service/lib/languageFeatures/documentLinks.ts:60 | `filter(notEmpty)` keeps exactly the present values |
| DocumentLinks.PresentAppend | packages/language-service/lib/languageFeatures/documentLinks.ts:60 | `filter(notEmpty)` keeps order |
| DocumentLinks.PresentAllSome | packages/language-service/lib/languageFeatures/documentLinks.ts:60 | when nothing is missing, `filter(notEmpty)` drops nothing |
| DocumentLinks.Present | packages/language-service/lib/languageFeatures/documentLinks.ts:60 | `filter(notEmpty)` never adds values, and keeps none when all are missing |
| DocumentLinks.FlatMembers | packages/language-service/lib/languageFeatures/documentLinks.ts:61 | `arr.flat()` holds exactly the links of the per-file results |
| DocumentLinks.Flat | packages/language-service/lib/languageFeatures/documentLinks.ts:61 | every per-file result is contained, with multiplicity, in the flattened list |
| DocumentLinks.FlatAppend | packages/language-service/lib/languageFeatures/documentLinks.ts:61 | `arr.flat()` keeps the per-file results in order: the results of earlier files come before those of later ones |
| DocumentLinks.FlatSingle | packages/language-service/lib/languageFeatures/documentLinks.ts:61 | a single per-file result is flattened to itself |
| DocumentLinks.FictitiousLinks | packages/language-service/lib/languageFeatures/documentLinks.ts:72-74 | without a source file, or without a root, there are no fictitious links |
| DocumentLinks.GetFictitiousLinks | packages/language-service/lib/languageFeatures/documentLinks.ts:69-101 | the links the three nested loops push are the fictitious links, in embedded-file, then map, then mapping order |
| DocumentLinks.AppendEntryLinks | packages/language-service/lib/languageFeatures/documentLinks.ts:77-95 | the middle loop pushes the links of one embedded file's current-snapshot maps, in map order |
| DocumentLinks.AppendMappingLinks | packages/language-service/lib/languageFeatures/documentLinks.ts:79-94 | the innermost loop pushes one link per shown mapping, in mapping order |
| DocumentLinks.MappingLinks | packages/language-service/lib/languageFeatures/documentLinks.ts:79-94 | a map yields at most one link per mapping, and every link targets the request uri |
| DocumentLinks.EntryLinks | packages/language-service/lib/languageFeatures/documentLinks.ts:77-95 | every link targets the request uri; maps made from other snapshots yield none |
| DocumentLinks.FileLinks | packages/language-service/lib/languageFeatures/documentLinks.ts:76-97 | every fictitious link of the embedded files targets the request uri |
| DocumentLinks.MappingLinksMembers | packages/language-service/lib/languageFeatures/documentLinks.ts:79-93 | a map's links are exactly those of its mappings flagged `displayWithLink` with a non-empty source range |
| DocumentLinks.EntryLinksMembers | packages/language-service/lib/languageFeatures/documentLinks.ts:77-95 | only maps made from the source file's current snapshot contribute |
| DocumentLinks.FileLinksMembers | packages/language-service/lib/languageFeatures/documentLinks.ts:76-97 | the links of the embedded files are exactly those of the shown mappings of their current-snapshot maps |
| DocumentLinks.FictitiousLinksMembers | packages/language-service/lib/languageFeatures/documentLinks.ts:69-101 | soundness and completeness: each fictitious link spans `positionAt(start)` to `positionAt(end)` of a shown mapping of a current-snapshot map and targets the request uri, and each such mapping yields one |
| DocumentLinks.StaleMapsContributeNothing | packages/language-service/lib/languageFeatures/documentLinks.ts:78 | when no map was made from the current snapshot, there is no fictitious link |
| DocumentLinks.MappingLinksAppend | packages/language-service/lib/languageFeatures/documentLinks.ts:79-94 | links follow the mappings' order |
| DocumentLinks.EntryLinksAppend | packages/language-service/lib/languageFeatures/documentLinks.ts:77-95 | links follow the maps' order: the links of earlier maps come before those of later ones |
| DocumentLinks.FileLinksAppend | packages/language-service/lib/languageFeatures/documentLinks.ts:76-97 | links follow the embedded files' order |
| DocumentLinks.MappingLinksShown | packages/language-service/lib/languageFeatures/documentLinks.ts:79-94 | when every mapping is shown, each yields exactly one link, in order |
| DocumentLinks.ProvideDocumentLinks | packages/language-service/lib/languageFeatures/documentLinks.ts:62-67 | the result is the service-derived links (none when the worker gives nothing) followed by the fictitious links, with nothing removed |

## Left out

- The monkey-patching of `fs.readFileSync` and the `require(tscPath)` call are left out. So are `require.cache` eviction, `require.resolve` and the shim resolution (runTsc.ts lines 19-38 and 51-61). They are process-global I/O and module-loader state. Only the normalisation of the options they pass on is modelled.
- `isMainTsc` and the shim handling it guards are left out (runTsc.ts lines 29-38). When the text read lacks a `version` declaration, it is taken as the TypeScript 5.7+ shim. The real module path is extracted from its `module.exports = require(…)` line and that file is read instead. Without such a line, `Failed to locate tsc module path from shim` is thrown. `transformTscContent` then runs on whichever text was read (line 51), and that call is what is modelled. The rest is file I/O and regular expressions over a file read from disk.
- `getLanguagePluginsFile` is a plain parameter. Its default `__filename` is the module's own path, which the model has no notion of.
- `proxyCreateProgram`, the `eval` proxy object and the compiler's own `_changeExtension` are not modelled. They are foreign code: the first two appear only as the text inserted into the compiler, and `_changeExtension` is the parameter `original`.
- TextPattern.FirstMatch: regular expressions are not interpreted in general. Only the three shapes the patch uses are modelled, each with JavaScript's match order.
- JsonString.Unquote: strings are sequences of Unicode scalar values. Surrogate pairs and lone surrogates never arise, and `\u` escapes of surrogates are rejected rather than paired.
- TscPatch.Replace compares the matched text with its edit instead of comparing the whole text before and after. TscPatch.ReplaceThrowsIffUnchanged proves the two comparisons agree.
- TscPatch.RenderParseRoundTrip: stated only for plain extensions, with no double quote, backslash, line feed or carriage return. In the generated array literal a double quote ends the string early, a line feed or carriage return makes it fail to parse, and a backslash starts an escape. U+2028 and U+2029 are allowed, as string literals hold them as themselves.
- TscPatch.PatchedChangeExtension: the rewritten `changeExtension` is stated only for plain extensions. For other extensions JavaScript would read escapes in the generated literal, or fail to parse it; the model does not interpret such a literal and returns None.
- `documentFeatureWorker` is a parameter: its result is `pluginLinks`. It chooses the embedded files, calls the per-service callback and the projection for each one, and combines the results with `Flat`. Its file predicate `!!file.capabilities.documentSymbol` (documentLinks.ts line 22), which picks the embedded files it visits, is part of that parameter and is not modelled.
- `transformDocumentLinkTarget`, `forEachEmbeddedFile`, `getMaps`, `toSourceRange` and the document's `positionAt` are given as functions. `context.documents.get` is not modelled: `positionAt` is the function of the document it returns.
- DocumentLinks.ServiceCallback: the provider's result is a parameter, so the model cannot show that the provider is not called after cancellation. It shows only that nothing is returned and nothing is changed.
- `async`/`await` and the cancellation token's concurrency are left out. Cancellation is a boolean read once, at the start of the callback.
- DocumentLinks.ServiceCallback: links are values in an array whose elements are overwritten. A link object that occurs twice in the service's list would be wrapped twice in JavaScript; the model does not capture that aliasing.
- Link fields other than range, target, tooltip and data are not modelled. The spread `{...link, range}` keeps all of them, as it keeps the tooltip and data here.
