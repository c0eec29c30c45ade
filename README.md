# es6-debug-server: the request engine in Dafny

es6-debug-server serves ES modules from a script root folder to a browser.
It rewrites each non-relative ("bare") import of a served script to a path
that a resolver chooses. This project models the engine behind that
(`lib/server.ts` with its helper `lib/util.ts`) and proves properties of it:

- **Path checks.** `create` refuses a script root folder that is not a "nice" absolute path. `handleRequest` refuses a URI by a different, weaker set of rules.
  - Module `PathRules` models the checks; the `Message` function gives the exact error texts.
- **Routing.** A URI under `/<virtualRootFolder>/` starts a read of the path after that prefix. Any other valid URI is redirected into the virtual root.
  - Module `Routing`.
- **Import resolution.** `resolveAllImports` resolves each distinct specifier once, fails as a whole on the first failure, and expands the results back to the original order.
  - Module `Resolve`; the de-duplication (`dedupeStringArray`) is in module `Util`.
- **Code rewriting.** `rewriteCode` sorts the replacements by descending start offset and splices them in from the back.
  - Module `Rewrite`.
- **The request engine.** Module `Engine` holds two classes:
  - `Server` owns the configuration and `requestCounter`.
  - `Request` owns the `canceled` flag, the phase the request is in, and the callbacks fired so far.
  - The two places where the handler waits are resumed with supplied outcomes: the read result goes to `OnReadSettled`, and `OnResolveSettled` follows the resolution.
  - The pure functions `AfterRead` and `AfterResolve` specify the two steps. `FileRequestCallbacks` composes them.
- **JavaScript built-ins.** Module `Js` holds the ones the code relies on:
  - `split("/")` and its inverse `Join`;
  - `startsWith`, `endsWith` and `includes("//")`;
  - `substring`, with its clamping and its argument swap;
  - `Error` with a cause and a read error code;
  - the outcome of a promise, `Settled`.

Effects are parameters:
- The reader's result is passed to `Request.OnReadSettled`.
- The analyzer and the resolver are function-valued fields of `Engine.Config`.
- The three `pathe` functions are the function-valued fields of `Resolve.PathLib`.

A thrown error in an async function is a rejected promise (`Rejected`). A `.then` chain that rejects with nobody listening leaves the request in phase `Crashed`, having fired no callback.

## Model

| member | source | states |
|---|---|---|
| Util.Dedupe | lib/util.ts:13-23 | the de-duplicated list has no duplicates and exactly the elements of the input |
| Util.DedupeStringArray | lib/util.ts:13-23 | the `forEach` loop that appends unseen items computes `Dedupe`: no duplicates, the same elements as the input |
| Util.DedupeKeepsFirstOccurrenceOrder | lib/util.ts:16-20 | the output lists elements in the order of their first occurrence in the input |
| Util.DedupeLength | lib/util.ts:13-23 | output length is at most input length; equal exactly when the input has no duplicates, and then the output is the input |
| Util.DedupeIdempotent | lib/util.ts:13-23 | de-duplicating twice equals de-duplicating once; the empty list stays empty |
| PathRules.FirstViolated | lib/server.ts:49-71 | a failure names a rule the path breaks with every earlier rule kept; success exactly when no rule is broken |
| PathRules.Message | lib/server.ts:53-69 | the text thrown for a broken rule always begins with the checked name and " must "; the case per rule is the source's wording, also used for the URI at lines 210-220 and 328 |
| PathRules.CheckNiceAbsolutePath | lib/server.ts:49-71 | assertNiceAbsolutePath: a failure names a rule the path really breaks, never the leading "//" rule of the URI check; `RootCheckIsFirstViolated` states that it is the first of the five rules broken |
| PathRules.CheckUri | lib/server.ts:209-222 | the URI checks: a failure names a rule the URI really breaks, and only "//", no leading "/" or a ".." part; `UriCheckIsFirstViolated` states that it is the first of these broken |
| PathRules.RootCheckIsFirstViolated | lib/server.ts:49-71 | the root check fails on the first broken rule in the order: not starting with "/", "//", a "." part, a ".." part, a trailing "/" |
| PathRules.UriCheckIsFirstViolated | lib/server.ts:209-222 | the URI check fails on the first broken rule in the order: "//", not starting with "/", a ".." part |
| PathRules.UriCheckDiffersFromRootCheck | lib/server.ts:209-222 | a "." part passes the URI check but fails the root check |
| PathRules.UriCheckAllowsTrailingSlash | lib/server.ts:209-222 | a trailing "/" passes the URI check but fails the root check |
| PathRules.UriCheckTestsDoubleSlashFirst | lib/server.ts:209-222 | "a//b" is a "//" error for a URI but a "must start with /" error for the root |
| PathRules.CheckOfParts | lib/server.ts:60-70 | for "/" followed by separator-free, non-empty parts, the root check rejects a "." part, then a ".." part, then an empty last part, and accepts otherwise |
| PathRules.SegmentsMakeNicePath | lib/server.ts:49-71 | "/" followed by one or more segments, none empty, ".", ".." or containing "/", passes the root check |
| PathRules.NicePathIsSegments | lib/server.ts:49-71 | conversely every accepted root is "/" followed by such segments |
| PathRules.NicePathIsValidUri | lib/server.ts:49-71 | every accepted root also passes the URI checks |
| PathRules.RootRejectsNotAbsolute | test/server/index.ts:127-139 | "my/script/root" fails with the "must start with /" rule |
| PathRules.RootRejectsTrailingSlash | test/server/index.ts:141-153 | "/my/script/root/" fails with the "must not end with /" rule |
| PathRules.RootRejectsDotSegment | test/server/index.ts:155-167 | "/my/./script/root" fails with the "must not contain ." rule |
| PathRules.RootRejectsDotDotSegment | test/server/index.ts:169-181 | "/my/../script/root" fails with the "must not contain .." rule |
| PathRules.RootRejectsDoubleSlash | test/server/index.ts:183-195 | "/my//script/root" fails with the "must not contain //" rule |
| Routing.RouteRequest | lib/server.ts:209-334 | a URI is refused exactly when the URI check fails, with that rule's message; redirected exactly when valid and outside the root prefix, to "/" + root + scriptRootFolder + "/" + uri[1..]; otherwise read at "/" + the rest after the prefix |
| Routing.RootPrefix | lib/server.ts:182 | `/${virtualRootFolder}/`: the folder name between a leading and a trailing "/" |
| Routing.FilePathIsClean | lib/server.ts:224-231 | the read path is the URI's tail from the "/" ending the prefix; it starts with "/" and has no "//" and no ".." part |
| Routing.RedirectTargetIsValidUri | lib/server.ts:326-334 | with a well-formed virtual root and an accepted script root, the redirect target of a valid URI is a valid URI |
| Routing.RedirectLeadsIntoRoot | lib/server.ts:326-334 | requesting the redirect target reads scriptRootFolder + "/" + uri[1..]: a redirect never loops |
| Routing.RedirectScenario | test/server/index.ts:8-40 | "/ui/index.js" with root "$root" and script root "/my/script/root" redirects to "/$root/my/script/root/ui/index.js" |
| Resolve.FirstFailing | lib/server.ts:126-128 | the index of the first specifier whose resolution fails in the given way, or none when none does |
| Resolve.DefaultImportResolverAsWritten | lib/server.ts:38-47 | the default resolver rejects exactly the specifiers that start with neither "./" nor "../"; any other specifier resolves to the join of the importer's directory and the specifier |
| Resolve.IsRelative | lib/server.ts:39 | a relative specifier starts with "./" or "../", so it begins with "." and never with "/" |
| Resolve.DefaultImportResolver | lib/server.ts:38-47 | the default resolver as the result type intends it: it always fulfils, with an error result exactly for a bare specifier and the join of the importer's directory and the specifier otherwise |
| Resolve.FirstFailingOfDedupe | lib/server.ts:111-128 | de-duplicating the specifiers does not change whether one fails, nor which specifier fails first |
| Resolve.ResolveAll | lib/server.ts:110-154 | rejects exactly when some specifier's resolution rejects, with that reason; an error result comes from some specifier; succeeds exactly when all resolve, then with one path per specifier, in order, equal for equal specifiers |
| Resolve.AllResolved | lib/server.ts:136-148 | when every distinct specifier resolves, looking each original specifier up in the map from specifier to path gives the result |
| Resolve.ResolveAllImports | lib/server.ts:110-154 | the loops over the distinct specifiers and the map they build compute `ResolveAll`; the resolver is called exactly once per distinct specifier, in first-occurrence order, whatever the outcome |
| Resolve.DefaultResolverAsWrittenRejectsBare | lib/server.ts:38-47 | with the default resolver as written, resolution rejects exactly when some specifier does not start with "./" or "../", with the "only relative imports" error |
| Resolve.DefaultResolverFailsOnBare | lib/server.ts:38-47 | with the corrected default resolver, resolution never rejects; it gives that error result exactly when some specifier is bare, and otherwise joins each specifier onto the importer's directory |
| Rewrite.SortByFromDescending | lib/server.ts:166-168 | the sorted replacements are a permutation of the input, ordered by descending `from` |
| Rewrite.Splice | lib/server.ts:173-176 | one step of the loop: for an in-bounds range, the code before `from`, the replacement text, then the code from `to` on |
| Rewrite.FoldApply | lib/server.ts:172-177 | the forEach: each replacement spliced into the result of the ones before it; one replacement gives one splice |
| Rewrite.RewriteResult | lib/server.ts:164-180 | rewriteCode's result: with no replacements the code comes back unchanged; `RewriteIsSplice` states what it computes otherwise |
| Rewrite.SortedDisjointUnique | lib/server.ts:166-168 | two sorted permutations of the same disjoint replacements are equal |
| Rewrite.FoldApplyIsSpliced | lib/server.ts:172-177 | splicing back to front over ranges that lie below each other replaces each range of the original code by its text |
| Rewrite.SplicedLength | lib/server.ts:172-177 | the result's length is the code's plus, for each replacement, its text's length minus its range's length |
| Rewrite.RewriteIsSplice | lib/server.ts:166-177 | for in-bounds, non-overlapping ranges the rewrite replaces each range of the original code by its text |
| Rewrite.RewriteIsOrderIndependent | lib/server.ts:166-177 | for such ranges every permutation of the replacement list gives the same code |
| Rewrite.InsertionsAtStart | lib/server.ts:166-177 | two insertions at offset 0 land in the reverse of their list order |
| Rewrite.InsertionsAtSameOffsetDependOnOrder | lib/server.ts:166-177 | inserting "a" then "b" at offset 0 of "x" gives "bax" |
| Rewrite.InsertionsAtSameOffsetSwapped | lib/server.ts:166-177 | the same insertions listed as "b" then "a" give "abx": the result depends on the list order |
| Rewrite.EmptyRangeBeforeSameStartIsLost | lib/server.ts:166-177 | "A" inserted at 1 and "B" replacing [1,2) of "xyz", in that order, give "xByz": the insertion is lost |
| Rewrite.SameStartIsNotWellFormed | lib/server.ts:166-177 | that input is not well formed, because its two ranges start at the same offset |
| Rewrite.RewriteCode | lib/server.ts:164-180 | the loop computes the sorted splice; no replacements leave the code unchanged; in-bounds, non-overlapping ranges give the splice of the original code |
| Engine.BareImports | lib/server.ts:266-268 | an import is kept exactly when its specifier starts with neither "./" nor "../"; none is added |
| Engine.BareImportsSingleton | lib/server.ts:266-268 | a single import is kept exactly when it is bare |
| Engine.BareImportsAppend | lib/server.ts:266-268 | the filter of a concatenation is the concatenation of the filters; with the singleton case, every bare import is kept once, in its original order, and nothing else |
| Engine.Specifiers | lib/server.ts:274-276 | the specifiers of the imports to rewrite, one per import, in the same order |
| Engine.NoBareImports | lib/server.ts:266-268 | a script whose imports are all relative has nothing to rewrite |
| Engine.TargetPath | lib/server.ts:291-297 | a resolved path that is not absolute is written as it is; an absolute one is made relative to the importer's directory |
| Engine.Quote | lib/server.ts:300 | the target in double quotes: two characters longer, and stripping the quotes gives the target back |
| Engine.Replacements | lib/server.ts:289-303 | one replacement per bare import: replacement k covers the range of bare import k |
| Engine.ReplacementsCoverBareImports | lib/server.ts:289-303 | there are as many replacements as bare imports; replacement k carries the range of the k-th bare import, which is a non-relative import of the script, and every non-relative import has a replacement |
| Engine.CreateReadError | lib/server.ts:73-77 | the error carries the given message, cause and read error code |
| Engine.ReadFailure | lib/server.ts:250 | the internal error for a read error has that read error as its cause and no read error code of its own |
| Engine.AfterRead | lib/server.ts:235-277 | the read step crashes exactly when the read rejects, and goes on to resolve exactly when an uncanceled read and the analysis both succeed. Otherwise an uncanceled read fires exactly one callback and ends the request; a canceled one fires none |
| Engine.AfterResolve | lib/server.ts:279-314 | the resolution step always ends the request. It fires exactly one callback, the content or an internal error, when the request is not canceled and the resolution does not reject, and none otherwise |
| Engine.FileRequestCallbacks | lib/server.ts:235-315 | a request for a file fires at most one callback in all |
| Engine.ExactlyOneCallback | lib/server.ts:235-315 | a request for a file fires exactly one callback exactly when the read fulfils, the request is not canceled before a checkpoint it reaches, and the resolution, if reached, does not reject |
| Engine.AnalyzerErrorIsInternal | lib/server.ts:256-262 | an analysis error fires only the internal-error callback, with that error |
| Engine.ServesRewrittenImports | lib/server.ts:272-314 | a successful resolution serves "text/javascript": the read code with each bare import's range replaced by the quoted target of the path the resolver gave for it |
| Engine.ReplacementsSplice | lib/server.ts:289-306 | for in-bounds, non-overlapping ranges the served code is the splice of the original code, each bare import's range replaced by its quoted target |
| Engine.NotFoundIff | lib/server.ts:241-248 | the not-found callback fires exactly for a read error tagged FILE_NOT_FOUND |
| Engine.OtherReadErrorIsInternal | lib/server.ts:241-251 | any other read error fires only the internal-error callback, whose error has the read error as its cause |
| Engine.CanceledIsSilent | lib/server.ts:237-281 | a request canceled before the read settles fires nothing; one canceled before the resolution settles fires nothing once the read succeeded |
| Engine.RejectionIsSilent | lib/server.ts:235-277 | a rejected read or a rejected resolution fires no callback |
| Engine.ResolutionFailure | lib/server.ts:283-287 | an error result from the resolution fires the internal-error callback with that error |
| Engine.ServedVerbatimWithoutBareImports | test/server/index.ts:42-84 | a script whose imports are all relative is served as "text/javascript" exactly as read |
| Engine.DefaultResolverAsWrittenLeavesRequestUnanswered | lib/server.ts:38-47 | with the default resolver as written, a script with a bare import gets no callback at all |
| Engine.DefaultResolverReportsBareImports | lib/server.ts:38-47 | with the corrected default resolver, the same script gets the internal-error callback with the "only relative imports" error |
| Engine.UntaggedNotFoundIsInternal | test/server/index.ts:94-101 | a read error without a read error code, as the not-found test builds it, fires the internal-error callback |
| Engine.TaggedNotFoundIsNotFound | lib/server.ts:73-77 | the same error built with createReadError and FILE_NOT_FOUND fires the not-found callback |
| Engine.Request.constructor | lib/server.ts:207 | a new request is not canceled, and has the given phase and callbacks |
| Engine.Request.Cancel | lib/server.ts:317-319 | cancel only sets the flag |
| Engine.Request.OnReadSettled | lib/server.ts:235-277 | the read handler moves the request as `AfterRead` says and appends its callback, keeping at most one callback and none while waiting |
| Engine.Request.OnResolveSettled | lib/server.ts:272-314 | resolution, replacement and rewrite move the request as `AfterResolve` says, keeping the same invariant |
| Engine.Server.constructor | lib/server.ts:184 | a new server has the given configuration and a request counter of 0 |
| Engine.Server.HandleRequest | lib/server.ts:186-339 | the counter grows by exactly 1 on every call; an invalid URI rejects; a redirect returns a finished request that fired only the redirect; a file URI returns a request waiting on the read of that path, nothing fired |
| Engine.Create | lib/server.ts:79-104 | creation fails exactly when the script root fails its check, with "scriptRootFolder" and that rule's message; otherwise the defaults "$root" and the default resolver as written (which throws on a bare specifier) apply and the counter starts at 0 |

## Left out

- Logging: `lib/log.ts` and every logger call only write diagnostics. This includes line 310, which logs the arity of `rewriteCode`.
- `lib/analyzer.ts` is not part of this model. The analyzer is the `analyzeCode` field of `Engine.Config`.
- Engine.Create: takes the analyzer as a required argument, because the default analyzer is not part of this model.
- The `pathe` functions `join`, `dirname` and `relative` are uninterpreted fields of `Resolve.PathLib`. No property of path arithmetic is claimed.
- The reader `tryReadScriptAsString` is not called. Its outcome is the argument of `Request.OnReadSettled`.
  - A reader that throws synchronously, instead of returning a rejected promise, is not modelled.
  - An analyzer or a pathe function that throws is not modelled either.
- `Promise.all` runs the resolver calls concurrently and rejects with whichever rejection comes first in time. The model resolves them one after another and takes the first rejection in list order.
- Engine.Request.OnResolveSettled: runs the resolution itself. In the source it starts when the read handler reaches line 272, so a cancellation between those two moments has the same effect in both.
- The loop at lib/server.ts:99-104, which rejects a ".." part, cannot fire after the root check. It is not modelled as code; `Engine.Create` ensures that an accepted root has no ".." part.
- The `cancel` returned for a redirect does nothing. In the model, `Request.Cancel` on a finished request sets a flag that nothing reads.
- Rewrite.RewriteIsOrderIndependent: assumes pairwise distinct `from` offsets, besides in-bounds, non-overlapping ranges. Two empty ranges at the same offset tie under the stable sort, so their list order matters (`Rewrite.InsertionsAtSameOffsetDependOnOrder`, `Rewrite.InsertionsAtSameOffsetSwapped`).
- Rewrite.RewriteIsSplice: requires every two ranges to start at different offsets, not only to be in bounds and non-overlapping. An empty range listed before a non-empty range at the same offset is lost (`Rewrite.EmptyRangeBeforeSameStartIsLost`, `Rewrite.SameStartIsNotWellFormed`). The imports the analyzer reports never share a start offset.
- Strings are sequences of Dafny `char`, which stand for the UTF-16 code units that JavaScript's `length` and `substring` and the analyzer's ranges count. Surrogate pairs and the difference between code units and Unicode scalar values are not modelled.
- Offsets and the request counter are unbounded integers. JavaScript numbers lose precision above 2^53, which is not modelled.
- An `Error`'s stack and any property other than message, cause and read error code are not modelled.

## Findings

| source | as written | input that shows it | evidently intended | confidence | as-written member | corrected member |
|---|---|---|---|---|---|---|
| lib/server.ts:38-47 | the default resolver throws for a specifier that starts with neither "./" nor "../". The throw rejects `Promise.all`, then `resolveAllImports`, then the read handler, so no callback fires | a server created without `resolveImportPath`, serving a script that contains `import x from "lib"` | return an error result, as the resolver's `TMaybeError` result type provides, so the request ends in the internal-error callback | not executed | Engine.DefaultResolverAsWrittenLeavesRequestUnanswered | Engine.DefaultResolverReportsBareImports |
| test/server/index.ts:94-101 | the not-found test's reader returns an error with a `code` property. The server dispatches on `readErrorCode`, so that error leads to the internal-error callback, which the test treats as a failure | the test's own reader, returning `{ code: FILE_NOT_FOUND, message: "file not found" }` | build the error with `createReadError` (lib/server.ts:73-77), which sets `readErrorCode` | not executed | Engine.UntaggedNotFoundIsInternal | Engine.TaggedNotFoundIsNotFound |
