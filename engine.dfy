/** The request engine of lib/server.ts: `create` (lines 79-104), the request
    counter (184, 202-203) and `handleRequest` (186-339). A request is a
    state machine: its two suspensions, the read of the script and the
    resolution of its imports, are resumed by the caller, and a `canceled`
    flag set in between is checked after each. */
module Engine {
  import opened Js
  import opened Util
  import opened PathRules
  import opened Resolve
  import opened Rewrite
  import opened Routing

  /** One import found by the code analyzer: its specifier and the range of
      its string literal in the code. */
  datatype ImportStatement = ImportStatement(value: string, range: Range)

  /** The `analyzeCode` capability: the imports of a script, or an error. */
  type Analyzer = string -> MaybeError<seq<ImportStatement>, Error>

  /** The options of `create` once its defaults are applied. */
  datatype Config = Config(
    virtualRootFolder: string,
    scriptRootFolder: string,
    analyzeCode: Analyzer,
    resolveImportPath: Resolver,
    paths: PathLib)

  /** The four callbacks a caller of handleRequest supplies. */
  datatype Callback =
    | HandleContent(contentType: string, content: string)
    | HandleRedirect(uri: string)
    | HandleFileNotFound
    | HandleInternalError(error: Error)

  /** How a call of `tryReadScriptAsString` ends. */
  type ReadOutcome = Settled<MaybeError<string, Error>>

  /** createReadError (lib/server.ts:73-77): an error tagged with its read error code. */
  function CreateReadError(code: ReadErrorCode, message: string, cause: Option<Error>): (e: Error)
    ensures e.readErrorCode == Some(code) && e.message == message && e.cause == cause
  {
    Error(message, cause, Some(code))
  }

  /** The imports to rewrite: those whose specifier does not start with "./"
      or "../", in their original order (lib/server.ts:266-268). */
  function BareImports(imports: seq<ImportStatement>): (bare: seq<ImportStatement>)
    ensures forall x :: x in bare <==> x in imports && !IsRelative(x.value)
    ensures |bare| <= |imports|
  {
    if |imports| == 0 then []
    else
      assert forall x :: x in imports <==> x == imports[0] || x in imports[1..] by {
        assert imports == [imports[0]] + imports[1..];
      }
      (if IsRelative(imports[0].value) then [] else [imports[0]]) + BareImports(imports[1..])
  }

  /** The filter keeps a single import exactly when it is bare. */
  lemma BareImportsSingleton(x: ImportStatement)
    ensures BareImports([x]) == if IsRelative(x.value) then [] else [x]
  {
    assert [x][1..] == [];
  }

  /** The filter distributes over concatenation, so with BareImportsSingleton
      it keeps every bare import once, in its original order, and nothing else. */
  lemma {:induction false} BareImportsAppend(a: seq<ImportStatement>, b: seq<ImportStatement>)
    ensures BareImports(a + b) == BareImports(a) + BareImports(b)
  {
    if |a| == 0 {
      assert a + b == b;
    } else {
      var head := if IsRelative(a[0].value) then [] else [a[0]];
      assert (a + b)[0] == a[0];
      assert (a + b)[1..] == a[1..] + b;
      calc {
        BareImports(a + b);
        head + BareImports(a[1..] + b);
        { BareImportsAppend(a[1..], b); }
        head + (BareImports(a[1..]) + BareImports(b));
        BareImports(a) + BareImports(b);
      }
    }
  }

  /** `importsToRewrite.map((imp) => imp.value)` */
  function Specifiers(imports: seq<ImportStatement>): (specs: seq<string>)
    ensures |specs| == |imports|
    ensures forall k :: 0 <= k < |imports| ==> specs[k] == imports[k].value
  {
    seq(|imports|, i requires 0 <= i < |imports| => imports[i].value)
  }

  /** The path written into the code for a resolved import: an absolute path
      is made relative to the importer's directory (lib/server.ts:293-297). */
  function TargetPath(paths: PathLib, importer: string, resolved: string): (target: string)
    ensures !StartsWith(resolved, "/") ==> target == resolved
  {
    if StartsWith(resolved, "/") then paths.relative(paths.dirname(importer), resolved) else resolved
  }

  /** The import's text in double quotes (lib/server.ts:300). */
  function Quote(s: string): (q: string)
    ensures |q| == |s| + 2 && q[0] == '"' && q[|q| - 1] == '"' && q[1..|q| - 1] == s
  {
    "\"" + s + "\""
  }

  /** One replacement per import to rewrite: its range, and the quoted target
      path of its resolution (lib/server.ts:289-303). */
  function Replacements(paths: PathLib, importer: string, bare: seq<ImportStatement>, resolved: seq<string>): (rs: seq<Replacement>)
    requires |resolved| == |bare|
    ensures |rs| == |bare| && forall k :: 0 <= k < |bare| ==> rs[k].range == bare[k].range
  {
    seq(|bare|, i requires 0 <= i < |bare| => Replacement(Quote(TargetPath(paths, importer, resolved[i])), bare[i].range))
  }

  /** The replacements are exactly the bare imports' ranges: replacement k
      carries the range of the k-th bare import, which is a non-relative
      import of the script, and every non-relative import has one. */
  lemma ReplacementsCoverBareImports(paths: PathLib, importer: string, imports: seq<ImportStatement>, resolved: seq<string>)
    requires |resolved| == |BareImports(imports)|
    ensures var bare := BareImports(imports);
      var rs := Replacements(paths, importer, bare, resolved);
      |rs| == |bare| &&
      (forall k :: 0 <= k < |rs| ==> rs[k].range == bare[k].range && bare[k] in imports && !IsRelative(bare[k].value)) &&
      (forall i :: 0 <= i < |imports| && !IsRelative(imports[i].value) ==>
        exists k :: 0 <= k < |rs| && rs[k].range == imports[i].range)
  {
    var bare := BareImports(imports);
    var rs := Replacements(paths, importer, bare, resolved);
    forall k | 0 <= k < |rs|
      ensures bare[k] in imports && !IsRelative(bare[k].value)
    {
      assert bare[k] in bare;
    }
    forall i | 0 <= i < |imports| && !IsRelative(imports[i].value)
      ensures exists k :: 0 <= k < |rs| && rs[k].range == imports[i].range
    {
      assert imports[i] in bare;
      var k :| 0 <= k < |bare| && bare[k] == imports[i];
      assert rs[k].range == imports[i].range;
    }
  }

  /** Where a request is. */
  datatype Phase =
    | Reading(filePath: string)                                            // awaiting the reader
    | Resolving(filePath: string, content: string, bare: seq<ImportStatement>)  // awaiting resolveAllImports
    | Finished                                                             // the handler has returned
    | Crashed(reason: Error)                                               // the `.then` chain rejected; nothing more happens

  /** A step of a request: its next phase and the callbacks the step fires. */
  datatype Transition = Transition(next: Phase, emitted: seq<Callback>)

  /** The internal error for a read error (lib/server.ts:250). */
  function ReadFailure(uri: string, filePath: string, readError: Error): (e: Error)
    ensures e.cause == Some(readError) && e.readErrorCode == None
  {
    Error("failed to read file \"" + filePath + "\" resolved from \"" + uri + "\"", Some(readError), None)
  }

  /** The `.then` handler of the read up to the await of the resolution
      (lib/server.ts:235-277). A rejected read never runs the handler. */
  function AfterRead(config: Config, uri: string, filePath: string, canceled: bool, read: ReadOutcome): (t: Transition)
    ensures |t.emitted| <= 1
    ensures t.emitted != [] ==> t.next == Finished
    ensures t.next.Resolving? ==> t.emitted == [] && t.next.filePath == filePath
    ensures t.next.Reading? == false
    ensures t.next.Crashed? <==> read.Rejected?
    ensures t.next.Resolving? <==> read.Fulfilled? && !canceled && read.value.Ok? && config.analyzeCode(read.value.value).Ok?
    ensures |t.emitted| == 1 <==> read.Fulfilled? && !canceled && !t.next.Resolving?
  {
    match read
    case Rejected(reason) => Transition(Crashed(reason), [])
    case Fulfilled(result) =>
      if canceled then Transition(Finished, [])
      else
        match result
        case Err(readError) =>
          if readError.readErrorCode == Some(FileNotFound) then Transition(Finished, [HandleFileNotFound])
          else Transition(Finished, [HandleInternalError(ReadFailure(uri, filePath, readError))])
        case Ok(content) =>
          match config.analyzeCode(content)
          case Err(e) => Transition(Finished, [HandleInternalError(e)])
          case Ok(imports) => Transition(Resolving(filePath, content, BareImports(imports)), [])
  }

  /** The handler after the await of resolveAllImports (lib/server.ts:279-314).
      A rejected resolution rethrows before the `canceled` check. */
  function AfterResolve(config: Config, canceled: bool, filePath: string, content: string, bare: seq<ImportStatement>): (t: Transition)
    ensures |t.emitted| <= 1
    ensures t.next == Finished || t.next.Crashed?
    ensures t.emitted != [] ==> t.next == Finished && (t.emitted[0].HandleContent? || t.emitted[0].HandleInternalError?)
    ensures |t.emitted| == 1 <==> !canceled && !ResolveAll(config.resolveImportPath, filePath, Specifiers(bare)).Rejected?
  {
    match ResolveAll(config.resolveImportPath, filePath, Specifiers(bare))
    case Rejected(reason) => Transition(Crashed(reason), [])
    case Fulfilled(result) =>
      if canceled then Transition(Finished, [])
      else
        match result
        case Err(e) => Transition(Finished, [HandleInternalError(e)])
        case Ok(resolved) =>
          var rewritten := RewriteResult(content, Replacements(config.paths, filePath, bare, resolved));
          Transition(Finished, [HandleContent("text/javascript", rewritten)])
  }

  /** Every callback a request routed to `filePath` fires, given how the read
      ends and whether the request was canceled before each checkpoint: never
      more than one. */
  function FileRequestCallbacks(config: Config, uri: string, filePath: string, read: ReadOutcome,
                                canceledAtRead: bool, canceledAtResolve: bool): (fired: seq<Callback>)
    ensures |fired| <= 1
  {
    var t := AfterRead(config, uri, filePath, canceledAtRead, read);
    match t.next
    case Resolving(_, content, bare) => AfterResolve(config, canceledAtResolve, filePath, content, bare).emitted
    case _ => t.emitted
  }

  /** Exactly one callback fires unless the request is canceled before a
      checkpoint it reaches, or the read or the resolution rejects. */
  lemma ExactlyOneCallback(config: Config, uri: string, filePath: string, read: ReadOutcome,
                           canceledAtRead: bool, canceledAtResolve: bool)
    ensures |FileRequestCallbacks(config, uri, filePath, read, canceledAtRead, canceledAtResolve)| == 1 <==>
      !canceledAtRead && read.Fulfilled? &&
      (var t := AfterRead(config, uri, filePath, false, read);
       t.next.Resolving? ==>
         !canceledAtResolve && !ResolveAll(config.resolveImportPath, filePath, Specifiers(t.next.bare)).Rejected?)
  {
    var t := AfterRead(config, uri, filePath, canceledAtRead, read);
    if !canceledAtRead {
      assert t == AfterRead(config, uri, filePath, false, read);
    }
  }

  /** An analysis error fires only the internal-error callback, with that error. */
  lemma AnalyzerErrorIsInternal(config: Config, uri: string, filePath: string, content: string, e: Error, canceledAtResolve: bool)
    requires config.analyzeCode(content) == Err(e)
    ensures FileRequestCallbacks(config, uri, filePath, Fulfilled(Ok(content)), false, canceledAtResolve) == [HandleInternalError(e)]
  {
  }

  /** A successful resolution serves the read code with every bare import's
      range replaced by the quoted target of that import's resolved path
      (ReplacementsSplice gives that text as a splice of the original code). */
  lemma ServesRewrittenImports(config: Config, uri: string, filePath: string, content: string,
                               imports: seq<ImportStatement>, resolved: seq<string>)
    requires config.analyzeCode(content) == Ok(imports)
    requires ResolveAll(config.resolveImportPath, filePath, Specifiers(BareImports(imports))) == Fulfilled(Ok(resolved))
    ensures |resolved| == |BareImports(imports)|
    ensures forall k :: 0 <= k < |BareImports(imports)| ==>
      config.resolveImportPath(filePath, BareImports(imports)[k].value) == Fulfilled(Ok(resolved[k]))
    ensures forall k :: 0 <= k < |BareImports(imports)| ==>
      Replacements(config.paths, filePath, BareImports(imports), resolved)[k] ==
        Replacement(Quote(TargetPath(config.paths, filePath, resolved[k])), BareImports(imports)[k].range)
    ensures FileRequestCallbacks(config, uri, filePath, Fulfilled(Ok(content)), false, false) ==
      [HandleContent("text/javascript", RewriteResult(content, Replacements(config.paths, filePath, BareImports(imports), resolved)))]
  {
    var bare := BareImports(imports);
    ResolvedEach(config.resolveImportPath, filePath, bare, resolved);
    ServedContent(config, uri, filePath, content, imports, resolved);
  }

  /** For in-bounds ranges that do not overlap, the replacements rewrite the
      code into the splice of its original text. */
  lemma ReplacementsSplice(paths: PathLib, importer: string, content: string,
                           bare: seq<ImportStatement>, resolved: seq<string>)
    requires |resolved| == |bare|
    ensures var rs := Replacements(paths, importer, bare, resolved);
      WellFormed(content, rs) ==>
        ChainedBelow(SortByFromDescending(rs), |content|) &&
        RewriteResult(content, rs) == SplicedDesc(content, SortByFromDescending(rs))
  {
    var rs := Replacements(paths, importer, bare, resolved);
    if WellFormed(content, rs) {
      RewriteIsSplice(content, rs);
    }
  }

  /** The content served after a fulfilled resolution is the rewritten code.
      The last ensures of ServesRewrittenImports, proved on its own here so
      that each of the two proofs stays small. */
  lemma ServedContent(config: Config, uri: string, filePath: string, content: string,
                      imports: seq<ImportStatement>, resolved: seq<string>)
    requires config.analyzeCode(content) == Ok(imports)
    requires ResolveAll(config.resolveImportPath, filePath, Specifiers(BareImports(imports))) == Fulfilled(Ok(resolved))
    ensures FileRequestCallbacks(config, uri, filePath, Fulfilled(Ok(content)), false, false) ==
      [HandleContent("text/javascript", RewriteResult(content, Replacements(config.paths, filePath, BareImports(imports), resolved)))]
  {
    ResolvedEach(config.resolveImportPath, filePath, BareImports(imports), resolved);
  }

  /** A fulfilled resolution gives each bare import the path the resolver
      returned for its specifier. */
  lemma ResolvedEach(resolve: Resolver, filePath: string, bare: seq<ImportStatement>, resolved: seq<string>)
    requires ResolveAll(resolve, filePath, Specifiers(bare)) == Fulfilled(Ok(resolved))
    ensures |resolved| == |bare|
    ensures forall k :: 0 <= k < |bare| ==> resolve(filePath, bare[k].value) == Fulfilled(Ok(resolved[k]))
  {
    assert |Specifiers(bare)| == |bare|;
    forall k | 0 <= k < |bare|
      ensures resolve(filePath, bare[k].value) == Fulfilled(Ok(resolved[k]))
    {
      assert Specifiers(bare)[k] == bare[k].value;
    }
  }

  /** The not-found callback fires exactly for a read error tagged FILE_NOT_FOUND. */
  lemma NotFoundIff(config: Config, uri: string, filePath: string, read: ReadOutcome, canceledAtResolve: bool)
    ensures FileRequestCallbacks(config, uri, filePath, read, false, canceledAtResolve) == [HandleFileNotFound] <==>
      read.Fulfilled? && read.value.Err? && read.value.error.readErrorCode == Some(FileNotFound)
  {
  }

  /** Any other read error fires only the internal-error callback, with the
      read error as its cause. */
  lemma OtherReadErrorIsInternal(config: Config, uri: string, filePath: string, readError: Error, canceledAtResolve: bool)
    requires readError.readErrorCode != Some(FileNotFound)
    ensures FileRequestCallbacks(config, uri, filePath, Fulfilled(Err(readError)), false, canceledAtResolve) ==
      [HandleInternalError(ReadFailure(uri, filePath, readError))]
    ensures ReadFailure(uri, filePath, readError).cause == Some(readError)
  {
  }

  /** A request canceled before the read settles fires nothing; one canceled
      before the resolution settles fires nothing once it got that far. */
  lemma CanceledIsSilent(config: Config, uri: string, filePath: string, read: ReadOutcome, canceledAtResolve: bool)
    ensures FileRequestCallbacks(config, uri, filePath, read, true, canceledAtResolve) == []
    ensures AfterRead(config, uri, filePath, false, read).next.Resolving? ==>
      FileRequestCallbacks(config, uri, filePath, read, false, true) == []
  {
  }

  /** A rejected read or a rejected resolution fires nothing: the handler's
      promise rejects instead. */
  lemma RejectionIsSilent(config: Config, uri: string, filePath: string, read: ReadOutcome, canceledAtRead: bool, canceledAtResolve: bool)
    requires read.Rejected? ||
      (var t := AfterRead(config, uri, filePath, canceledAtRead, read);
       t.next.Resolving? && ResolveAll(config.resolveImportPath, filePath, Specifiers(t.next.bare)).Rejected?)
    ensures FileRequestCallbacks(config, uri, filePath, read, canceledAtRead, canceledAtResolve) == []
  {
  }

  /** A script whose imports are all relative has none to rewrite. */
  lemma {:induction false} NoBareImports(imports: seq<ImportStatement>)
    requires forall i :: 0 <= i < |imports| ==> IsRelative(imports[i].value)
    ensures BareImports(imports) == []
  {
    if |imports| > 0 {
      NoBareImports(imports[1..]);
    }
  }

  /** A script without bare imports is served exactly as read. */
  lemma ServedVerbatimWithoutBareImports(config: Config, uri: string, filePath: string, content: string, imports: seq<ImportStatement>)
    requires config.analyzeCode(content) == Ok(imports)
    requires forall i :: 0 <= i < |imports| ==> IsRelative(imports[i].value)
    ensures FileRequestCallbacks(config, uri, filePath, Fulfilled(Ok(content)), false, false) ==
      [HandleContent("text/javascript", content)]
  {
    var bare := BareImports(imports);
    NoBareImports(imports);
    assert Specifiers(bare) == [];
    var resolution := ResolveAll(config.resolveImportPath, filePath, []);
    assert resolution.Fulfilled? && resolution.value.Ok? && resolution.value.value == [];
    assert Replacements(config.paths, filePath, bare, []) == [];
    assert SortByFromDescending([]) == [];
  }

  /** A resolution that fails with an error result fires the internal-error
      callback with that error, and a resolution that rejects fires nothing. */
  lemma ResolutionFailure(config: Config, uri: string, filePath: string, content: string, imports: seq<ImportStatement>)
    requires config.analyzeCode(content) == Ok(imports)
    ensures var resolution := ResolveAll(config.resolveImportPath, filePath, Specifiers(BareImports(imports)));
      (resolution.Fulfilled? && resolution.value.Err? ==>
        FileRequestCallbacks(config, uri, filePath, Fulfilled(Ok(content)), false, false) == [HandleInternalError(resolution.value.error)]) &&
      (resolution.Rejected? ==> FileRequestCallbacks(config, uri, filePath, Fulfilled(Ok(content)), false, false) == [])
  {
  }

  /** With the default resolver as written, a script with a bare import gets
      no answer at all: the resolver throws, the resolution rejects and no
      callback fires, although the request is not canceled. */
  lemma DefaultResolverAsWrittenLeavesRequestUnanswered(
    virtualRootFolder: string, scriptRootFolder: string, analyzeCode: Analyzer, paths: PathLib,
    uri: string, filePath: string, content: string, imports: seq<ImportStatement>)
    requires analyzeCode(content) == Ok(imports)
    requires exists i :: 0 <= i < |imports| && !IsRelative(imports[i].value)
    ensures var config := Config(virtualRootFolder, scriptRootFolder, analyzeCode, DefaultImportResolverAsWritten(paths), paths);
      FileRequestCallbacks(config, uri, filePath, Fulfilled(Ok(content)), false, false) == []
  {
    var bare := BareImports(imports);
    var i :| 0 <= i < |imports| && !IsRelative(imports[i].value);
    assert imports[i] in bare;
    var k :| 0 <= k < |bare| && bare[k] == imports[i];
    DefaultResolverAsWrittenRejectsBare(paths, filePath, Specifiers(bare));
    assert Specifiers(bare)[k] == imports[i].value;
  }

  /** With the corrected default resolver the same script gets the
      internal-error callback with the "only relative imports" error. */
  lemma DefaultResolverReportsBareImports(
    virtualRootFolder: string, scriptRootFolder: string, analyzeCode: Analyzer, paths: PathLib,
    uri: string, filePath: string, content: string, imports: seq<ImportStatement>)
    requires analyzeCode(content) == Ok(imports)
    requires exists i :: 0 <= i < |imports| && !IsRelative(imports[i].value)
    ensures var config := Config(virtualRootFolder, scriptRootFolder, analyzeCode, DefaultImportResolver(paths), paths);
      FileRequestCallbacks(config, uri, filePath, Fulfilled(Ok(content)), false, false) ==
        [HandleInternalError(Plain(UnsupportedMessage))]
  {
    var bare := BareImports(imports);
    var i :| 0 <= i < |imports| && !IsRelative(imports[i].value);
    assert imports[i] in bare;
    var k :| 0 <= k < |bare| && bare[k] == imports[i];
    DefaultResolverFailsOnBare(paths, filePath, Specifiers(bare));
    assert Specifiers(bare)[k] == imports[i].value;
  }

  /** The not-found test builds its read error with a `code` property, which
      the server does not look at: that error has no read error code, so the
      request fires the internal-error callback, not the not-found one. */
  lemma UntaggedNotFoundIsInternal(config: Config, uri: string, filePath: string)
    ensures var untagged := Error("file not found", None, None);
      FileRequestCallbacks(config, uri, filePath, Fulfilled(Err(untagged)), false, false) ==
        [HandleInternalError(ReadFailure(uri, filePath, untagged))]
  {
  }

  /** The same read error built with createReadError fires the not-found callback. */
  lemma TaggedNotFoundIsNotFound(config: Config, uri: string, filePath: string)
    ensures FileRequestCallbacks(config, uri, filePath,
      Fulfilled(Err(CreateReadError(FileNotFound, "file not found", None))), false, false) == [HandleFileNotFound]
  {
  }

  /** One call of handleRequest: its callbacks so far, its phase and its
      cancellation flag. */
  class Request {
    const id: nat
    const uri: string
    const config: Config
    var canceled: bool
    var phase: Phase
    var fired: seq<Callback>

    /** At most one callback, and none while the request still waits. */
    ghost predicate Valid()
      reads this
    {
      |fired| <= 1 && ((phase.Reading? || phase.Resolving?) ==> fired == [])
    }

    constructor (id: nat, uri: string, config: Config, phase: Phase, fired: seq<Callback>)
      requires |fired| <= 1 && ((phase.Reading? || phase.Resolving?) ==> fired == [])
      ensures this.id == id && this.uri == uri && this.config == config
      ensures this.phase == phase && this.fired == fired && !canceled
      ensures Valid()
    {
      this.id := id;
      this.uri := uri;
      this.config := config;
      this.phase := phase;
      this.fired := fired;
      canceled := false;
    }

    /** `cancel` (lib/server.ts:317-319): only sets the flag. */
    method Cancel()
      modifies this
      ensures canceled && phase == old(phase) && fired == old(fired)
    {
      canceled := true;
    }

    /** The reader's promise settles (lib/server.ts:235-277). */
    method OnReadSettled(read: ReadOutcome)
      requires Valid() && phase.Reading?
      modifies this
      ensures var t := AfterRead(config, uri, old(phase).filePath, old(canceled), read);
        phase == t.next && fired == old(fired) + t.emitted
      ensures canceled == old(canceled) && Valid()
    {
      var filePath := phase.filePath;
      if read.Rejected? {
        phase := Crashed(read.reason);
        return;
      }
      if canceled {
        phase := Finished;
        return;
      }
      var result := read.value;
      if result.Err? {
        var readError := result.error;
        if readError.readErrorCode == Some(FileNotFound) {
          fired := fired + [HandleFileNotFound];
        } else {
          fired := fired + [HandleInternalError(ReadFailure(uri, filePath, readError))];
        }
        phase := Finished;
        return;
      }
      var content := result.value;
      var analyzeResult := config.analyzeCode(content);
      if analyzeResult.Err? {
        fired := fired + [HandleInternalError(analyzeResult.error)];
        phase := Finished;
        return;
      }
      var importsToRewrite := BareImports(analyzeResult.value);
      phase := Resolving(filePath, content, importsToRewrite);
    }

    /** The await of resolveAllImports returns (lib/server.ts:272-314). The
        resolution is computed here, as the caller's resolver is a function
        of its arguments. */
    method OnResolveSettled()
      requires Valid() && phase.Resolving?
      modifies this
      ensures var t := AfterResolve(config, old(canceled), old(phase).filePath, old(phase).content, old(phase).bare);
        phase == t.next && fired == old(fired) + t.emitted
      ensures canceled == old(canceled) && Valid()
    {
      var filePath, content, bare := phase.filePath, phase.content, phase.bare;
      ghost var calls;
      var outcome;
      outcome, calls := ResolveAllImports(config.resolveImportPath, filePath, Specifiers(bare));
      if outcome.Rejected? {
        phase := Crashed(outcome.reason);
        return;
      }
      if canceled {
        phase := Finished;
        return;
      }
      if outcome.value.Err? {
        fired := fired + [HandleInternalError(outcome.value.error)];
        phase := Finished;
        return;
      }
      var resolved := outcome.value.value;
      var replacements := Replacements(config.paths, filePath, bare, resolved);
      var rewrittenCode := RewriteCode(content, replacements);
      fired := fired + [HandleContent("text/javascript", rewrittenCode)];
      phase := Finished;
    }
  }

  /** The object `create` returns: its configuration and its request counter. */
  class Server {
    const config: Config
    var requestCounter: nat

    constructor (config: Config)
      requires CheckNiceAbsolutePath(config.scriptRootFolder) == Pass
      ensures this.config == config && requestCounter == 0
    {
      this.config := config;
      requestCounter := 0;
    }

    /** handleRequest up to its first suspension: count the request, check
        and route the URI, fire the redirect or start the read. An invalid
        URI rejects the returned promise, after the counter has moved. */
    method HandleRequest(uri: string) returns (outcome: Settled<Request>)
      modifies this
      ensures requestCounter == old(requestCounter) + 1
      ensures match RouteRequest(config.virtualRootFolder, config.scriptRootFolder, uri)
        case Invalid(error) => outcome == Rejected(error)
        case RedirectTo(target) =>
          outcome.Fulfilled? && fresh(outcome.value) && outcome.value.id == old(requestCounter) &&
          outcome.value.uri == uri && outcome.value.config == config && !outcome.value.canceled &&
          outcome.value.phase == Finished && outcome.value.fired == [HandleRedirect(target)] && outcome.value.Valid()
        case ReadFile(filePath) =>
          outcome.Fulfilled? && fresh(outcome.value) && outcome.value.id == old(requestCounter) &&
          outcome.value.uri == uri && outcome.value.config == config && !outcome.value.canceled &&
          outcome.value.phase == Reading(filePath) && outcome.value.fired == [] && outcome.value.Valid()
    {
      var requestId := requestCounter;
      requestCounter := requestCounter + 1;
      match RouteRequest(config.virtualRootFolder, config.scriptRootFolder, uri)
      case Invalid(error) =>
        outcome := Rejected(error);
      case RedirectTo(target) =>
        var request := new Request(requestId, uri, config, Finished, [HandleRedirect(target)]);
        outcome := Fulfilled(request);
      case ReadFile(filePath) =>
        var request := new Request(requestId, uri, config, Reading(filePath), []);
        outcome := Fulfilled(request);
    }
  }

  /** The virtual root folder when none is given. */
  const DefaultVirtualRootFolder := "$root"

  /** create (lib/server.ts:79-104): apply the defaults, refuse a script root
      folder that is not a nice absolute path with the first broken rule's
      message, and start the counter at 0. The default analyzer is not part
      of this model, so an analyzer is always given. */
  method Create(virtualRootFolder: Option<string>, scriptRootFolder: string, analyzeCode: Analyzer,
                resolveImportPath: Option<Resolver>, paths: PathLib) returns (created: MaybeError<Server, Error>)
    ensures created.Err? <==> CheckNiceAbsolutePath(scriptRootFolder).Fail?
    ensures created.Err? ==> created.error == Plain(Message("scriptRootFolder", CheckNiceAbsolutePath(scriptRootFolder).error))
    ensures created.Ok? ==> ".." !in Split(scriptRootFolder)
    ensures created.Ok? ==>
      fresh(created.value) && created.value.requestCounter == 0 &&
      created.value.config == Config(
        if virtualRootFolder.Some? then virtualRootFolder.value else DefaultVirtualRootFolder,
        scriptRootFolder,
        analyzeCode,
        if resolveImportPath.Some? then resolveImportPath.value else DefaultImportResolverAsWritten(paths),
        paths)
  {
    var check := CheckNiceAbsolutePath(scriptRootFolder);
    if check.Fail? {
      return Err(Plain(Message("scriptRootFolder", check.error)));
    }
    var config := Config(
      if virtualRootFolder.Some? then virtualRootFolder.value else DefaultVirtualRootFolder,
      scriptRootFolder,
      analyzeCode,
      if resolveImportPath.Some? then resolveImportPath.value else DefaultImportResolverAsWritten(paths),
      paths);
    var server := new Server(config);
    created := Ok(server);
  }
}
