# zuix-cli page compiler and Eleventy rebuild hooks, modelled in Dafny

This project models the core of the zuix.js command-line tool:

- **The page compiler (`commands/compile-page.js`).**
  - `compilePage` reads a page from the base folder.
  - For an `.html` page, `generateApp` runs the resource walk `createBundle`. The walk inlines `<script src>` and stylesheet `<link>` resources. It collects the views, styles and controllers that zuix components reference through `data-ui-include` / `z-include` / `data-ui-load` / `z-load`, recursing into each fetched view.
  - `generateApp` then merges the controllers and styles into one component bundle, with one item per key, and marks the statistics.
  - The page is minified when asked, and written back only when the content changed or the output is another file.
  - Component references are resolved by `resolveAppPath`, which handles library aliases starting with `@`, URLs and local paths. Script and stylesheet references are resolved by `resolveResourcePath`.
- **The identifier helpers of `common/utils.js`:** `hyphensToCamelCase` and `classNameFromHyphens`.
- **The Eleventy starter.**
  - The `unpre` paired shortcode (`starters/eleventy/eleventy-config.js`).
  - The incremental-rebuild bookkeeping of `starters/eleventy/.eleventy.js`: the `rebuildAll` flag and the `changedFiles` / `postProcessFiles` queues, driven by the `beforeWatch`, `transform` and `afterBuild` events.

The model has two layers:

- **Specification functions on values.**
  - `BundleSpec` holds the walk: one function per step of `createBundle`, mutually recursive over nested views.
  - `AppSpec` holds `generateApp` and `compilePage`.
  - `Rebuild` holds the Eleventy handlers.
- **Imperative code that mirrors the source's shared state.**
  - `Bundler.Compiler` is a class whose fields are the module variables of `compile-page.js`: the options, the four bundle lists, `stats` and `hasErrors`, plus the resource store.
  - `Rebuild.Rebuilder` is a class whose fields are the handlers' module variables.
  - Every method is proved to leave exactly the state, and return exactly the value, that the specification function gives.
  - Every loop of the source is a `while` loop with its invariants: `isBundled`, `getBundleItem`, the alias lookup, the slash stripping, the `forEach` walks, the merge loops and `Array.prototype.find`.
- **Properties.** The lemmas in `BundleProps`, `AppSpec`, `Paths`, `Identifiers`, `Shortcodes` and `Rebuild` state the properties.

Everything the code cannot see or does not control is a parameter:

- **Node's path functions.** `path.join`, `url.resolve`, `path.dirname` and `path.resolve` are uninterpreted.
- **The DOM.** The JSDOM parser, the serialiser, the markup of a bundled view's body and the HTML minifier are uninterpreted.
- **The file system and the network.** Both are one map from path or URL to content. A missing key stands for a failed read or a non-200 response.
- **Recursion depth.** A depth bound stands for the JavaScript call stack. When it runs out, the call throws, which is what an include cycle leads to.

Points where the code's behaviour is easy to misread:

- **When the page is written.** The page is written when its content changed *or* the output path differs from the input (commands/compile-page.js:520). It is not written only when the content changed.
- **What the bundle holds.** Bundle items carry only `controller` and `css` parts.
- **What the code does not have.** There is no remote-fetch cache, no asset mirroring and no `zuix.load` / `zuix.using` scanning. These exist only as a TODO.
- **The exit code.** It comes from the logger's error count, not from the `hasErrors` flag.

## Model

| member | source | states |
|---|---|---|
| Paths.IsUrlMeans | commands/compile-page.js:266-268 | a reference is a URL exactly when `://` occurs but not at index 0, or it starts with `//` |
| Paths.UrlHasSlash | commands/compile-page.js:266-268 | every URL contains a `/`, so an alias with no `/` is never a URL |
| Paths.AliasFrom | commands/compile-page.js:222-227 | the index found is the first alias key equal to the reference or a `key/` prefix of it; none found means no key applies |
| Paths.StripLeadingSlashes | commands/compile-page.js:240 | the result is a suffix of the input that does not start with `/`, and everything dropped was `/` |
| Paths.LookupLibraryPath | commands/compile-page.js:218-233 | the `for…in` search stopping at the first matching key gives the library base: the first matching alias, a string `libraryPath`, or `LIBRARY_PATH_DEFAULT` |
| Paths.DropLeadingSlashes | commands/compile-page.js:240 | the `while` loop removes exactly the leading slashes |
| Paths.ResolveAppPath | commands/compile-page.js:213-252 | the imperative `resolveAppPath` returns exactly the resolution `AppPath` describes |
| Paths.UrlPassesThrough | commands/compile-page.js:215-251 | a URL is returned unchanged with `lib = false` |
| Paths.LocalReference | commands/compile-page.js:246 | a non-URL, non-`@` reference gives `lib = false` and `join(basePath, resourcePath or '', ref)` |
| Paths.AliasWithoutSegment | commands/compile-page.js:234-244 | an `@` reference without `/` resolves to exactly the library base, with `lib = true` |
| Paths.AliasWithSegment | commands/compile-page.js:236-244 | an `@lib/rest` reference is `url.resolve(base, rest)`; when that is rooted at `/`, all its leading slashes are dropped and it is joined onto the base path |
| Paths.FirstAliasWins | commands/compile-page.js:222-227 | the base is the value of the first key in enumeration order that applies |
| Paths.NoAliasDefault | commands/compile-page.js:218-227 | with no matching key the default library URL is kept |
| Paths.ResourcePathIndependentOfPage | commands/compile-page.js:254-264 | URL and `/`-rooted script and stylesheet references do not depend on the page; URLs pass through unchanged |
| BundleProps.FetchMeaning | commands/compile-page.js:270-301 | a protocol-relative URL is fetched with `https:`; the content is returned exactly when the store has it; `hasErrors` is set only by a reported failure |
| BundleProps.FetchExtends | commands/compile-page.js:270-301 | a fetch returns the stored content or null, records exactly one fetch and changes no bundle list |
| BundleProps.ReferenceRules | commands/compile-page.js:145-156 | include attributes take precedence over load attributes, `data-ui-` over `z-`, and empty values fall through; a controller is expected only for a load without a `view` attribute |
| BundleProps.SkippedElement | commands/compile-page.js:132-161 | an element under `<pre>`, or one naming an inline view of the page, is skipped with nothing fetched or added |
| BundleProps.NullReferenceThrows | commands/compile-page.js:146-163 | an element with no usable reference (no `z-load` either) makes the walk throw |
| BundleProps.BundledControllerSkipped | commands/compile-page.js:165-168 | a component whose controller is already bundled is skipped whole: no `.js`, `.html` or `.css` fetch |
| BundleProps.BundledViewSkipped | commands/compile-page.js:179-183 | an already bundled view adds no view or style; at most the controller fetch happens |
| BundleProps.ViewFetchReports | commands/compile-page.js:184 | the `.html` fetch of a new view reports failure exactly when no controller is expected |
| BundleProps.ControllerStepExtends | commands/compile-page.js:165-177 | the controller step only appends, reports its `.js` failure, and keeps controller paths unique |
| BundleProps.StyleStepExtends | commands/compile-page.js:196-206 | the style step only appends and never reports a missing `.css` |
| BundleProps.ScriptsExtend | commands/compile-page.js:89-108 | the script pass only appends assets and reports every failed script fetch |
| BundleProps.LinksExtend | commands/compile-page.js:111-125 | the stylesheet pass only appends assets and reports every failed stylesheet fetch |
| BundleProps.CreateBundleExtends | commands/compile-page.js:82-211 | a whole walk, nested views included, only grows the lists and the fetch record. `hasErrors` ends set exactly when it was set or a new fetch reported a failure. Script, stylesheet and controller fetches report, style fetches never do, and controller paths stay unique |
| BundleProps.WalkElementsExtend | commands/compile-page.js:131-207 | the same for the element loop, which stops at a throwing element |
| BundleProps.StepElementExtends | commands/compile-page.js:131-207 | the same for one element |
| BundleProps.ComponentStepExtends | commands/compile-page.js:163-206 | the same for one component reference |
| BundleProps.ViewStepExtends | commands/compile-page.js:178-206 | the same for the view and style of a component |
| BundleProps.NestedViewExtends | commands/compile-page.js:185-206 | the same for a fetched view bundled recursively before it is added |
| BundleProps.ViewTailExtends | commands/compile-page.js:186-206 | adding a view after its nested walk, then its style, extends the walk |
| BundleProps.AddViewExtends | commands/compile-page.js:189-194 | an unwrapped view is not listed; any other is appended, and nothing is fetched |
| BundleProps.ExtendsTrans | commands/compile-page.js:82-211 | walk steps compose: growth, error flag and report rule carry over |
| BundleProps.FailureConcat | commands/compile-page.js:283-294 | a reported failure in a concatenated fetch record is one in either part |
| Bundler.IsBundled | commands/compile-page.js:303-310 | returns the first entry with exactly that path, or nothing when no entry has it |
| Bundler.GetBundleItem | commands/compile-page.js:312-332 | returns the bundle unchanged with the index of the first item for the id, or the bundle with exactly one fresh item appended |
| Bundler.KeyOf | commands/compile-page.js:345-346 | the bundle key is the resolved path of a library reference and the reference itself otherwise |
| Bundler.BuildViewsMarkup | commands/compile-page.js:343-348 | the appended view markup is one block per bundled view, in order, keyed by its bundle key |
| Bundler.MergeEntries | commands/compile-page.js:352-367 | the controller and style loops set each entry's part on the item for its key |
| Bundler.Compiler.FetchResource | commands/compile-page.js:270-301 | reads the store, records the fetch and sets `hasErrors` as `FetchSpec` states |
| Bundler.Compiler.BundleScripts | commands/compile-page.js:89-108 | the script pass leaves the state `ScriptsSpec` gives |
| Bundler.Compiler.BundleLinks | commands/compile-page.js:111-125 | the stylesheet pass leaves the state `LinksSpec` gives |
| Bundler.Compiler.CreateBundle | commands/compile-page.js:82-211 | the imperative walk leaves the state, and completes or throws, as `CreateBundleSpec` does |
| Bundler.Compiler.BundleComponents | commands/compile-page.js:128-209 | the element loop as `WalkElements` |
| Bundler.Compiler.BundleElement | commands/compile-page.js:131-163 | one element as `StepElement` |
| Bundler.Compiler.BundleComponent | commands/compile-page.js:163-206 | one component as `ComponentStep` |
| Bundler.Compiler.BundleView | commands/compile-page.js:178-206 | the view and style as `ViewStep` |
| Bundler.Compiler.BundleNestedView | commands/compile-page.js:185-206 | the nested bundle of a fetched view as `NestedView` |
| Bundler.Compiler.BundleStyle | commands/compile-page.js:196-206 | the style fetch as `StyleStep` |
| Bundler.Compiler.MarkStat | commands/compile-page.js:349-350 | `stats[path]` is created when missing and gets the flag |
| Bundler.Compiler.MarkPaths | commands/compile-page.js:349-395 | every path is marked in order |
| Bundler.Compiler.MarkBundled | commands/compile-page.js:342-396 | the statistics after a finished walk, under the `bundle` switches |
| Bundler.Compiler.ComposePage | commands/compile-page.js:342-400 | the serialised page carries the views and the merged bundle only when zuix bundling is on; a page without `<html` is a fragment |
| Bundler.Compiler.GenerateApp | commands/compile-page.js:334-404 | clears the four lists, walks, and returns the result, state and statistics `GenerateSpec` gives |
| Bundler.Compiler.Render | commands/compile-page.js:431-470 | resets the statistics, bundles an `.html` page and minifies it when enabled, or keeps any other file, as `RenderSpec` gives |
| Bundler.Compiler.WriteOutput | commands/compile-page.js:519-526 | writes the output file exactly as `WriteSpec` gives |
| Bundler.Compiler.CompilePage | commands/compile-page.js:406-530 | reads, bundles, minifies and writes exactly as `CompileSpec` gives |
| AppSpec.WithFlag | commands/compile-page.js:349-350 | setting a flag sets it and keeps every other flag |
| AppSpec.MarkAllMeans | commands/compile-page.js:349-366 | after marking, a key has statistics exactly when it had them or was marked; a marked key has the flag; other flags are unchanged |
| AppSpec.MarkAllSnoc | commands/compile-page.js:344-351 | marking one more key is one more `stats[k] = stats[k] \|\| {}` step |
| AppSpec.PathsOfBundled | commands/compile-page.js:303-310 | a path is among a list's paths exactly when `isBundled` finds it |
| AppSpec.StatsReportComponents | commands/compile-page.js:342-367 | from empty statistics, a key has the view, controller or css flag exactly when a view, controller or style was bundled under it |
| AppSpec.WithPart | commands/compile-page.js:357-364 | setting the controller or css of an item keeps its id and its other part |
| AppSpec.FindItem | commands/compile-page.js:316-321 | finds the first item with the id, or reports that none has it |
| AppSpec.Keyed | commands/compile-page.js:355-363 | each entry is filed under its bundle key, content unchanged |
| AppSpec.SetPartFacts | commands/compile-page.js:312-364 | one `getBundleItem(..).part = content` keeps ids unique, sets the part on the item for the id and keeps every other item in place |
| AppSpec.MergeFacts | commands/compile-page.js:353-367 | after a merge loop ids are unique, and a key's part is the content of the last entry with that key. Keys with no entry keep their item |
| AppSpec.ItemsMeaning | commands/compile-page.js:352-367 | the bundle has one item per key. An item exists exactly when some controller or style has that key, and it holds the last such controller and style |
| AppSpec.LastForMeans | commands/compile-page.js:353-367 | the surviving content for a key is that of the last entry whose reference resolves to it |
| AppSpec.ViewBlockLayout | commands/compile-page.js:347-348 | a view block opens with the `<!--{[` comment holding the view's reference, then the `z-view` attribute holding its key, then its content on lines of its own before the closing `</div>`; each part is found again at its offset |
| AppSpec.ViewsMarkupPrefix | commands/compile-page.js:344-351 | the markup of the first i+1 views is that of the first i followed by the block of view i |
| AppSpec.MergePrefix | commands/compile-page.js:353-367 | merging i+1 entries is merging i, then setting the part for entry i on its item |
| AppSpec.ViewsMarkupEmpty | commands/compile-page.js:370 | nothing is appended exactly when no view was bundled |
| AppSpec.Cleared | commands/compile-page.js:336-339 | `generateApp` starts from four empty lists and keeps the error flag |
| AppSpec.GenerateUnchanged | commands/compile-page.js:397-402 | when nothing was bundled the content is returned unchanged; otherwise the re-serialised page is |
| AppSpec.WriteSpecRule | commands/compile-page.js:519-526 | the final write finishes normally and writes exactly when the content changed or the output is another file, and nothing else |
| AppSpec.CompileReadFailure | commands/compile-page.js:413-422 | an unreadable input sets the error flag, returns -1 and writes nothing |
| AppSpec.CompileWriteRule | commands/compile-page.js:519-526 | the store changes only by the output file, which is written exactly when the content changed or it is not the input file |
| AppSpec.CompileCopiesOtherFiles | commands/compile-page.js:436-526 | a non-`.html` page is copied verbatim and written only to another file |
| AppSpec.CompileInPlace | commands/compile-page.js:424-427 | with no output given, the output is the input |
| AppSpec.CompileSkipsUnchanged | commands/compile-page.js:520-526 | an unminified `.html` page with nothing bundled, compiled in place, is skipped |
| Identifiers.Replacement | common/utils.js:137-138 | a lower-case letter after `-` is upper-cased; a digit, `_` or `$` becomes `_` and itself; `-` becomes `__` |
| Identifiers.HyphenLetter | common/utils.js:136-138 | `-` before a lower-case letter becomes that letter upper-cased |
| Identifiers.HyphenOther | common/utils.js:136-138 | `-` before a digit, `_` or `$` becomes `_` plus it; `--` becomes `__` |
| Identifiers.PlainPrefix | common/utils.js:136 | text without hyphens is copied unchanged |
| Identifiers.DoubleHyphenExample | common/utils.js:136-138 | matches do not overlap: `a--b` gives `a__b` |
| Identifiers.NoMatchUnchanged | common/utils.js:136-139 | a string in which no hyphen starts a match is returned unchanged |
| Identifiers.NotLonger | common/utils.js:136-139 | the result is never longer than the input |
| Identifiers.ResultHasNoMatch | common/utils.js:136-139 | no match is left in the result |
| Identifiers.Idempotent | common/utils.js:135-140 | converting twice is converting once |
| Identifiers.BaseName | common/utils.js:142 | `basename(s + '.js', '.js')` contains no `/` |
| Identifiers.LastSegment | common/utils.js:142 | the text after the last `/` is a slash-free suffix |
| Identifiers.ClassNameOfLastSegment | common/utils.js:141-145 | the class name depends only on the last path segment |
| Identifiers.ClassNameShape | common/utils.js:141-145 | the class name is the camel-cased base name with its first character replaced by that character's upper case, which may be several characters; with an ASCII first character the length is kept, only the first character changes, and it is no lower-case letter |
| Identifiers.SharpSName | common/utils.js:135-143 | `ß-x` camel-cases to `ßX` |
| Identifiers.SharpSExample | common/utils.js:141-145 | when `ß` upper-cases to `SS`, `ß-x` gives `SSX`, one character longer than its camel-cased name |
| Shortcodes.SubstringFrom | starters/eleventy/eleventy-config.js:31-32 | `substring(start)` clamps its start and returns a suffix |
| Shortcodes.SubstringTo | starters/eleventy/eleventy-config.js:33 | `substring(0, end)` clamps its end and returns a prefix |
| Shortcodes.BodyIsSlice | starters/eleventy/eleventy-config.js:31-33 | the three substring steps cut out one contiguous slice of the input |
| Shortcodes.TrimmedSlice | starters/eleventy/eleventy-config.js:34 | trimming a slice of the input leaves a slice of the input with no white space at either end |
| Shortcodes.UnpreIsSlice | starters/eleventy/eleventy-config.js:30-35 | the result is a slice of the input with no white space at either end |
| Shortcodes.NoClosingFence | starters/eleventy/eleventy-config.js:33-34 | with no fence after the opening line the result is empty |
| Shortcodes.NoFenceAfterOpening | starters/eleventy/eleventy-config.js:31-32 | when no fence follows the first one, none is left after the opening line is dropped |
| Shortcodes.AtMostOneFence | starters/eleventy/eleventy-config.js:31-34 | text with at most one fence yields the empty string |
| Shortcodes.OpeningFenceDropped | starters/eleventy/eleventy-config.js:31 | the first step removes a leading fence and nothing else |
| Shortcodes.HeaderLineDropped | starters/eleventy/eleventy-config.js:32 | the second step removes a header line without a newline of its own, and its newline |
| Shortcodes.ClosingFenceDropped | starters/eleventy/eleventy-config.js:33 | the third step removes a trailing fence and nothing else |
| Shortcodes.FencedBlock | starters/eleventy/eleventy-config.js:30-35 | a fenced block with a one-line header yields its body, trimmed |
| Rebuild.FindSame | starters/eleventy/.eleventy.js:121 | `find` returns a value exactly when some changed file resolves to the input path, and it is the first such |
| Rebuild.FindUnder | starters/eleventy/.eleventy.js:142-143 | `find` returns a value exactly when some changed file resolves under the folder |
| Rebuild.TruthyWithoutEmpty | starters/eleventy/.eleventy.js:121-144 | without empty names, the truthiness tests mean "some file matches" |
| Rebuild.RelativeOutput | starters/eleventy/.eleventy.js:126-130 | the build-folder prefix and one separator are stripped when present |
| Rebuild.CallsMade | starters/eleventy/.eleventy.js:152-158 | the compiler is called for a prefix of the queue: every call but the last returns, and the calls stop early only at one that throws |
| Rebuild.CallsMadeStop | starters/eleventy/.eleventy.js:152-158 | the calls end right after the first one that throws, or at the end of the queue when none does |
| Rebuild.AfterBuildOutcome | starters/eleventy/.eleventy.js:150-172 | when no compilation throws, every queued file is compiled, the queue is emptied and the full rebuild turned off; when one throws, the calls stop there and the flag and the queue are kept |
| Rebuild.CallsFor | starters/eleventy/.eleventy.js:152-158 | one compile call per queued file, in order, input and output the same file |
| Rebuild.BeforeWatchMeans | starters/eleventy/.eleventy.js:135-149 | a template or data change forces a full rebuild with no changed files; otherwise exactly the changed list is kept and the flag is untouched |
| Rebuild.QueuedIff | starters/eleventy/.eleventy.js:121-131 | a page is queued exactly when a full rebuild is on or its input is among the changed files, and its output is an `.html` file |
| Rebuild.QueuedEntry | starters/eleventy/.eleventy.js:125-131 | a queued entry is the relative output file with the build folder as base |
| Rebuild.TransformAppends | starters/eleventy/.eleventy.js:118-134 | a transform appends at most one entry and changes nothing else |
| Rebuild.UnchangedPageSkipped | starters/eleventy/.eleventy.js:121-122 | in incremental mode an unchanged page is not queued |
| Rebuild.IncrementalQueue | starters/eleventy/.eleventy.js:121-148 | after a plain `beforeWatch` in incremental mode, exactly the changed `.html` pages are queued |
| Rebuild.HtmlPages | starters/eleventy/.eleventy.js:124 | the selected pages all have a non-empty `.html` output |
| Rebuild.EntriesIndex | starters/eleventy/.eleventy.js:125-131 | the i-th queue entry is the entry of the i-th page |
| Rebuild.FullRebuildStep | starters/eleventy/.eleventy.js:121-131 | in full-rebuild mode one transform queues the page exactly when its output is `.html` |
| Rebuild.FullRebuildQueuesEveryPage | starters/eleventy/.eleventy.js:118-134 | in full-rebuild mode a build's transforms queue exactly its `.html` pages, in render order |
| Rebuild.FullCycle | starters/eleventy/.eleventy.js:118-172 | a full cycle queues every `.html` page once, in order, compiled onto itself; it ends in incremental mode with an empty queue when no compilation throws, and otherwise keeps the full rebuild and the queue |
| Rebuild.Rebuilder.constructor | starters/eleventy/.eleventy.js:28-31 | full rebuild on, both queues empty |
| Rebuild.Rebuilder.FindResolvedUnder | starters/eleventy/.eleventy.js:142-143 | the `find` loop returns the first changed file under the folder |
| Rebuild.Rebuilder.FindResolvedSame | starters/eleventy/.eleventy.js:121 | the `find` loop returns the first changed file resolving to the input |
| Rebuild.Rebuilder.BeforeWatch | starters/eleventy/.eleventy.js:135-149 | the handler leaves the state `BeforeWatchSpec` gives |
| Rebuild.Rebuilder.Transform | starters/eleventy/.eleventy.js:118-134 | returns the content unchanged and leaves the state `TransformSpec` gives |
| Rebuild.Rebuilder.AfterBuild | starters/eleventy/.eleventy.js:150-172 | makes one compile call per queued file in order up to the first that throws; reports whether all returned, and leaves the state `AfterBuildSpec` gives |

## Left out

- **DOM rewriting is not modelled.** This covers `el.innerHTML` / `removeAttribute` on inlined scripts, `outerHTML` replacement of stylesheets and unwrapped views, the `<style>` inserted into `<head>` for unwrapped views, and the markup appended to the body. The page handed to the serialiser is an abstract `Page` value: the source, the fragment flag, the inlined assets, the view markup and the component bundle. The serialiser and JSON stringification are uninterpreted.
- **A bundled view's markup is a function of its fetched source only.** In the code it is the body of the nested document after the nested walk rewrote it.
- **`item.count++` on an already bundled view is not modelled.** The count is never read.
- **CSS selectors are not quoted.** The inline-view query concatenates the reference into a selector. It is modelled as an attribute-value comparison, so references containing `"` are not faithful.
- **Logging is not modelled.** This covers the `tlog` output, the statistics print-out, and `process.exitCode`, which comes from the logger's error count. `compilePage` returns a `CompileResult`: read failure (-1), an exception, or normal completion with or without a write.
- **I/O and collaborators are not modelled.** Node's `path` / `url` semantics are uninterpreted, and `fs`, `sync-request` and `mkdirp` are one resource map. `html-minifier` is an uninterpreted function, and its options object is not passed.
- **The options are replaced, not merged.** `Object.assign(options, opts)` merges into module-wide defaults. The model replaces the options and assumes `options.build.bundle` is an object.
- **Strings are sequences of characters.** UTF-8 decoding is not modelled. The upper case of a class name's first character (`String.prototype.toUpperCase`) is a parameter; the hyphen replacement upper-cases only `a`-`z`, which is all its pattern can match.
- Bundler.Compiler.FetchResource: a network transport failure is not modelled. `request('GET', path)` (commands/compile-page.js:278) is outside any `try`, so a DNS error or a refused connection throws out of `fetchResource`, `createBundle` and `compilePage`. The model treats every unavailable URL like a non-200 response: no content, and the error flag when the caller reports errors.
- **The fuel bound does not measure the real stack.** A depth bound stands for the call stack: running out of depth is the `RangeError` an include cycle causes, but a real stack may run out at another depth.
- BundleProps.CreateBundleExtends: bundled content is not proved equal to the store content. `BundleProps.CreateBundleExtends` shows that each collected view, style and controller was appended by the walk. It does not state that the collected content equals the store's content for that reference's resolved path.
- Bundler.Compiler.MarkBundled: statistics are marked in separate passes. The view, controller and style loops mark statistics in the same pass as they build the markup and the bundle. The model runs a separate marking pass after them. Neither pass reads what the other writes, so the resulting statistics and output are the same.
- Rebuild.Rebuilder.AfterBuild: the compiler is not run. This covers the Eleventy wiring, LESS, ESLint, terser, BrowserSync, the load-time `copyFolder` and the service-worker step. `zuixCompile` is an external call recorded as a `CompileCall`, and its options other than `baseFolder` are not modelled. Whether a call throws is a parameter.
- Rebuild.Rebuilder.AfterBuild: the handler is modelled as one atomic step. In the source, `rebuildAll` is cleared only after `await generateServiceWorker()` (starters/eleventy/.eleventy.js:160-170). Another handler may run in between, and a rejected service-worker promise leaves `rebuildAll` set although the queue is already empty. Neither is modelled.
- **Other files are not part of this model.** This covers the CLI dispatch (`zuix.js`, `index.js`), project scaffolding (`commands/new-project.js`), template generation (`commands/generate.js`, `commands/generate-page.js`), the remaining `common/utils.js` helpers (`copyFolder`, `generateAppConfig`, `generateServiceWorker`, `wrapDom`, `wrapCss`), and the default configuration data.
