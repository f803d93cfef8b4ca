/**
 * The incremental-rebuild bookkeeping of the Eleventy starter
 * (`starters/eleventy/.eleventy.js`): a `rebuildAll` flag and two queues,
 * driven by the `beforeWatch`, `transform` and `afterBuild` events. The
 * transitions are first stated as functions on a `Watch` value, then the
 * `Rebuilder` class performs them in place and is proved to follow them.
 * Node's `path.resolve` and `path.join` are left uninterpreted; a call of
 * the page compiler is recorded, not performed.
 */
module Rebuild {
  import opened Base
  import opened Strings

  /** Node's `path.resolve` (one argument) and `path.join`, whose semantics are not modelled. */
  datatype NodePath = NodePath(resolve: string -> string, join: seq<string> -> string)

  /**
   * The `zuix` configuration as far as the handlers read it: the `build`
   * folders, and the `baseFolder` key of the configuration itself, which the
   * spread `...zuixConfig` lets override the queued one.
   */
  datatype Config = Config(input: string, output: string, dataFolder: string, includesFolder: string, baseFolder: Option<string>)

  /** An entry of `postProcessFiles`. */
  datatype PostProcess = PostProcess(file: string, baseFolder: string)

  /** A call `zuixCompile(input, output, { baseFolder, ...zuixConfig })`. */
  datatype CompileCall = CompileCall(input: string, output: string, baseFolder: string)

  /** The module state: the flag and the two queues. */
  datatype Watch = Watch(rebuildAll: bool, changedFiles: seq<string>, postProcessFiles: seq<PostProcess>)

  /** The state when the configuration is loaded. */
  const Initial: Watch := Watch(true, [], [])

  /** JavaScript truthiness of what `Array.prototype.find` returns on a list of strings: a found, non-empty string. */
  predicate Truthy(found: Option<string>) {
    found.Some? && found.value != ""
  }

  /** `list.find(f => path.resolve(f) === path.resolve(target))`. */
  function FindSame(resolve: string -> string, list: seq<string>, target: string): (r: Option<string>)
    ensures r.Some? <==> exists f :: f in list && resolve(f) == resolve(target)
    ensures r.Some? ==> exists i :: (0 <= i < |list| && list[i] == r.value &&
      forall j :: 0 <= j < i ==> resolve(list[j]) != resolve(target))
  {
    if list == [] then None
    else if resolve(list[0]) == resolve(target) then Some(list[0])
    else
      var r := FindSame(resolve, list[1..], target);
      assert forall f :: f in list[1..] ==> f in list;
      assert r.Some? ==> exists i :: (0 <= i < |list| && list[i] == r.value &&
        forall j :: 0 <= j < i ==> resolve(list[j]) != resolve(target)) by {
        if r.Some? {
          var i :| 0 <= i < |list[1..]| && list[1..][i] == r.value &&
            (forall j :: 0 <= j < i ==> resolve(list[1..][j]) != resolve(target));
          assert list[i + 1] == r.value;
          forall j | 0 <= j < i + 1 ensures resolve(list[j]) != resolve(target) {
            if j > 0 { assert list[j] == list[1..][j - 1]; }
          }
        }
      }
      r
  }

  /** `list.find(f => path.resolve(f).startsWith(folder))`. */
  function FindUnder(resolve: string -> string, list: seq<string>, folder: string): (r: Option<string>)
    ensures r.Some? <==> exists f :: f in list && StartsWith(resolve(f), folder)
    ensures r.Some? ==> r.value in list && StartsWith(resolve(r.value), folder)
  {
    if list == [] then None
    else if StartsWith(resolve(list[0]), folder) then Some(list[0])
    else
      var r := FindUnder(resolve, list[1..], folder);
      assert forall f :: f in list[1..] ==> f in list;
      r
  }

  /** A list with no empty string finds a truthy value exactly when some element matches. */
  lemma TruthyWithoutEmpty(resolve: string -> string, list: seq<string>, target: string, folder: string)
    requires "" !in list
    ensures Truthy(FindSame(resolve, list, target)) <==> exists f :: f in list && resolve(f) == resolve(target)
    ensures Truthy(FindUnder(resolve, list, folder)) <==> exists f :: f in list && StartsWith(resolve(f), folder)
  {
    var r := FindSame(resolve, list, target);
    if r.Some? {
      var i :| 0 <= i < |list| && list[i] == r.value && (forall j :: 0 <= j < i ==> resolve(list[j]) != resolve(target));
    }
  }

  /** The absolute data and includes folders `beforeWatch` compares changed files against. */
  function DataFolder(paths: NodePath, config: Config): string {
    paths.join([paths.resolve(config.input), config.dataFolder])
  }

  function IncludesFolder(paths: NodePath, config: Config): string {
    paths.join([paths.resolve(config.input), config.includesFolder])
  }

  /** A changed file that lies under the includes or the data folder forces a full rebuild. */
  predicate TemplateOrDataChanged(paths: NodePath, config: Config, cf: seq<string>) {
    Truthy(FindUnder(paths.resolve, cf, IncludesFolder(paths, config))) ||
    Truthy(FindUnder(paths.resolve, cf, DataFolder(paths, config)))
  }

  /** The `beforeWatch` handler on the changed files `cf`. */
  function BeforeWatchSpec(paths: NodePath, config: Config, s: Watch, cf: seq<string>): Watch {
    if TemplateOrDataChanged(paths, config, cf) then s.(rebuildAll := true, changedFiles := [])
    else s.(changedFiles := cf)
  }

  /** The output file relative to the build folder: the folder prefix and one separator dropped when present. */
  function RelativeOutput(paths: NodePath, config: Config, outputPath: string): (r: string)
    ensures var file := paths.resolve(outputPath); var base := paths.resolve(config.output);
      (!StartsWith(file, base) ==> r == file) &&
      (StartsWith(file, base) && |file| > |base| ==> file == base + [file[|base|]] + r) &&
      (StartsWith(file, base) && |file| == |base| ==> r == "")
  {
    var file := paths.resolve(outputPath);
    var base := paths.resolve(config.output);
    if StartsWith(file, base) then
      if |base| + 1 <= |file| then file[|base| + 1..] else ""
    else file
  }

  /** What the `transform` handler queues for a page, if anything. */
  function Queued(paths: NodePath, config: Config, s: Watch, inputPath: string, outputPath: Option<string>): Option<PostProcess> {
    var hasChanged := FindSame(paths.resolve, s.changedFiles, inputPath);
    if !s.rebuildAll && !Truthy(hasChanged) then None
    else if Truthy(outputPath) && EndsWith(outputPath.value, ".html") then
      Some(PostProcess(RelativeOutput(paths, config, outputPath.value), config.output))
    else None
  }

  /** The `transform` handler for a page rendered from `inputPath` to `outputPath`. */
  function TransformSpec(paths: NodePath, config: Config, s: Watch, inputPath: string, outputPath: Option<string>): Watch {
    var q := Queued(paths, config, s, inputPath, outputPath);
    if q.Some? then s.(postProcessFiles := s.postProcessFiles + [q.value]) else s
  }

  /** The page compiler call for a queued file: input and output are the same file. */
  function CallFor(config: Config, pf: PostProcess): CompileCall {
    CompileCall(pf.file, pf.file, config.baseFolder.GetOr(pf.baseFolder))
  }

  /** The compiler calls `afterBuild` makes for a queue, in queue order. */
  function CallsFor(config: Config, queue: seq<PostProcess>): (r: seq<CompileCall>)
    ensures |r| == |queue|
    ensures forall i :: 0 <= i < |queue| ==> r[i] == CallFor(config, queue[i])
  {
    seq(|queue|, i requires 0 <= i < |queue| => CallFor(config, queue[i]))
  }

  /**
   * Whether a compiler call throws. The page compiler throws on a component
   * reference that is null, on a nested view without an app configuration and
   * on an include cycle; which calls do depends on files the handlers cannot
   * see, so it is a parameter.
   */
  type Throws = CompileCall -> bool

  /** How many queued files `afterBuild` hands to the compiler: up to and including the first call that throws. */
  function CallsMade(config: Config, threw: Throws, queue: seq<PostProcess>): (k: nat)
    ensures k <= |queue|
    ensures forall i :: 0 <= i < k - 1 ==> !threw(CallFor(config, queue[i]))
    ensures k == |queue| || (0 < k && threw(CallFor(config, queue[k - 1])))
  {
    if queue == [] then 0
    else if threw(CallFor(config, queue[0])) then 1
    else 1 + CallsMade(config, threw, queue[1..])
  }

  /** Whether some queued file's compilation throws. */
  predicate AnyThrows(config: Config, threw: Throws, queue: seq<PostProcess>) {
    exists i :: 0 <= i < |queue| && threw(CallFor(config, queue[i]))
  }

  /**
   * The `afterBuild` handler: when every compilation returns, the queue is
   * emptied and incremental mode restored; an exception out of the compiler
   * leaves the handler before either, so the state is as it was.
   */
  function AfterBuildSpec(config: Config, threw: Throws, s: Watch): Watch {
    if AnyThrows(config, threw, s.postProcessFiles) then s else Watch(false, s.changedFiles, [])
  }

  /** The calls stop right after the first one that throws, or at the end of the queue when none does. */
  lemma {:induction false} CallsMadeStop(config: Config, threw: Throws, queue: seq<PostProcess>, i: nat)
    requires i <= |queue|
    requires forall j :: 0 <= j < i ==> !threw(CallFor(config, queue[j]))
    requires i == |queue| || threw(CallFor(config, queue[i]))
    ensures CallsMade(config, threw, queue) == if i == |queue| then i else i + 1
  {
    if queue != [] && !threw(CallFor(config, queue[0])) {
      assert i > 0;
      forall j | 0 <= j < i - 1 ensures !threw(CallFor(config, queue[1..][j])) {
        assert queue[1..][j] == queue[j + 1];
      }
      CallsMadeStop(config, threw, queue[1..], i - 1);
    }
  }

  /**
   * When every compilation returns, all queued files are compiled, the queue is
   * emptied and incremental mode restored; when one throws, the calls stop
   * there and the flag and the queue stay as they were.
   */
  lemma AfterBuildOutcome(config: Config, threw: Throws, s: Watch)
    ensures var k := CallsMade(config, threw, s.postProcessFiles); var t := AfterBuildSpec(config, threw, s);
      (!AnyThrows(config, threw, s.postProcessFiles) ==> k == |s.postProcessFiles| && t == Watch(false, s.changedFiles, [])) &&
      (AnyThrows(config, threw, s.postProcessFiles) ==>
        0 < k <= |s.postProcessFiles| && threw(CallFor(config, s.postProcessFiles[k - 1])) && t == s)
  {
  }

  // ----- properties of the transitions -----

  /** `beforeWatch` forces a full rebuild with no changed files exactly when a template or data file changed, and otherwise records exactly the changed list and keeps the flag. */
  lemma BeforeWatchMeans(paths: NodePath, config: Config, s: Watch, cf: seq<string>)
    ensures var t := BeforeWatchSpec(paths, config, s, cf);
      t.postProcessFiles == s.postProcessFiles &&
      (TemplateOrDataChanged(paths, config, cf) ==> t.rebuildAll && t.changedFiles == []) &&
      (!TemplateOrDataChanged(paths, config, cf) ==> t.rebuildAll == s.rebuildAll && t.changedFiles == cf)
  {
  }

  /** A page is queued exactly when a full rebuild is on or its input is among the changed files, and its output is an `.html` file. */
  lemma QueuedIff(paths: NodePath, config: Config, s: Watch, inputPath: string, outputPath: Option<string>)
    requires "" !in s.changedFiles
    ensures Queued(paths, config, s, inputPath, outputPath).Some? <==>
      (s.rebuildAll || exists f :: f in s.changedFiles && paths.resolve(f) == paths.resolve(inputPath)) &&
      outputPath.Some? && outputPath.value != "" && EndsWith(outputPath.value, ".html")
  {
    TruthyWithoutEmpty(paths.resolve, s.changedFiles, inputPath, "");
  }

  /** A queued entry names the output file relative to the build folder, with the configured build folder as its base. */
  lemma QueuedEntry(paths: NodePath, config: Config, s: Watch, inputPath: string, outputPath: Option<string>)
    requires Queued(paths, config, s, inputPath, outputPath).Some?
    ensures var q := Queued(paths, config, s, inputPath, outputPath).value;
      q.baseFolder == config.output && outputPath.Some? &&
      q.file == RelativeOutput(paths, config, outputPath.value)
  {
  }

  /** A transform appends at most one entry and never touches the flag or the changed files. */
  lemma TransformAppends(paths: NodePath, config: Config, s: Watch, inputPath: string, outputPath: Option<string>)
    ensures var t := TransformSpec(paths, config, s, inputPath, outputPath);
      t.rebuildAll == s.rebuildAll && t.changedFiles == s.changedFiles &&
      s.postProcessFiles <= t.postProcessFiles && |t.postProcessFiles| <= |s.postProcessFiles| + 1
  {
  }

  /** In incremental mode a page whose input did not change is never queued, whatever its output. */
  lemma UnchangedPageSkipped(paths: NodePath, config: Config, s: Watch, inputPath: string, outputPath: Option<string>)
    requires !s.rebuildAll
    requires forall f :: f in s.changedFiles ==> paths.resolve(f) != paths.resolve(inputPath)
    ensures TransformSpec(paths, config, s, inputPath, outputPath) == s
  {
  }

  /** In incremental mode, after a `beforeWatch` that touched no template or data file, a page is queued exactly when its input is among the changed files and its output is an `.html` file. */
  lemma IncrementalQueue(paths: NodePath, config: Config, s: Watch, cf: seq<string>, inputPath: string, outputPath: Option<string>)
    requires !s.rebuildAll && "" !in cf && !TemplateOrDataChanged(paths, config, cf)
    ensures var t := BeforeWatchSpec(paths, config, s, cf);
      Queued(paths, config, t, inputPath, outputPath).Some? <==>
        (exists f :: f in cf && paths.resolve(f) == paths.resolve(inputPath)) &&
        Truthy(outputPath) && EndsWith(outputPath.value, ".html")
  {
    QueuedIff(paths, config, BeforeWatchSpec(paths, config, s, cf), inputPath, outputPath);
  }

  /** The transforms of a build, in order. */
  datatype Render = Render(inputPath: string, outputPath: Option<string>)

  function TransformAll(paths: NodePath, config: Config, s: Watch, pages: seq<Render>): Watch
    decreases |pages|
  {
    if pages == [] then s
    else TransformAll(paths, config, TransformSpec(paths, config, s, pages[0].inputPath, pages[0].outputPath), pages[1..])
  }

  /** The pages of a build whose output is an `.html` file. */
  function HtmlPages(pages: seq<Render>): (r: seq<Render>)
    ensures |r| <= |pages|
    ensures forall i :: 0 <= i < |r| ==> r[i].outputPath.Some? && r[i].outputPath.value != "" && EndsWith(r[i].outputPath.value, ".html")
  {
    if pages == [] then []
    else if Truthy(pages[0].outputPath) && EndsWith(pages[0].outputPath.value, ".html") then [pages[0]] + HtmlPages(pages[1..])
    else HtmlPages(pages[1..])
  }

  /** The queue entry `transform` makes for a page with an output path. */
  function EntryOf(paths: NodePath, config: Config, p: Render): PostProcess
    requires p.outputPath.Some?
  {
    PostProcess(RelativeOutput(paths, config, p.outputPath.value), config.output)
  }

  /** The queue entries for `.html` pages, in order. */
  function Entries(paths: NodePath, config: Config, pages: seq<Render>): (r: seq<PostProcess>)
    requires forall i :: 0 <= i < |pages| ==> pages[i].outputPath.Some?
    ensures |r| == |pages|
  {
    if pages == [] then [] else [EntryOf(paths, config, pages[0])] + Entries(paths, config, pages[1..])
  }

  /** The `i`-th entry is the entry of the `i`-th page. */
  lemma {:induction false} EntriesIndex(paths: NodePath, config: Config, pages: seq<Render>, i: nat)
    requires forall k :: 0 <= k < |pages| ==> pages[k].outputPath.Some?
    requires i < |pages|
    ensures Entries(paths, config, pages)[i] == EntryOf(paths, config, pages[i])
    decreases i
  {
    if i > 0 {
      EntriesIndex(paths, config, pages[1..], i - 1);
    }
  }

  /** During a full rebuild one transform queues the page exactly when its output is an `.html` file. */
  lemma FullRebuildStep(paths: NodePath, config: Config, s: Watch, p: Render)
    requires s.rebuildAll
    ensures var t := TransformSpec(paths, config, s, p.inputPath, p.outputPath);
      t.rebuildAll && t.changedFiles == s.changedFiles &&
      t.postProcessFiles == s.postProcessFiles +
        if Truthy(p.outputPath) && EndsWith(p.outputPath.value, ".html") then [EntryOf(paths, config, p)] else []
  {
  }

  /**
   * During a full rebuild the transforms of a build queue exactly the `.html`
   * pages, in render order, after whatever was queued before; the flag and the
   * changed files stay as they were.
   */
  lemma {:induction false} FullRebuildQueuesEveryPage(paths: NodePath, config: Config, s: Watch, pages: seq<Render>)
    requires s.rebuildAll
    ensures var t := TransformAll(paths, config, s, pages);
      t.rebuildAll && t.changedFiles == s.changedFiles &&
      t.postProcessFiles == s.postProcessFiles + Entries(paths, config, HtmlPages(pages))
    decreases |pages|
  {
    if pages != [] {
      var p := pages[0];
      var s1 := TransformSpec(paths, config, s, p.inputPath, p.outputPath);
      FullRebuildStep(paths, config, s, p);
      FullRebuildQueuesEveryPage(paths, config, s1, pages[1..]);
      assert TransformAll(paths, config, s, pages) == TransformAll(paths, config, s1, pages[1..]);
      var rest := HtmlPages(pages[1..]);
      if Truthy(p.outputPath) && EndsWith(p.outputPath.value, ".html") {
        assert HtmlPages(pages) == [p] + rest;
        assert ([p] + rest)[1..] == rest;
      } else {
        assert HtmlPages(pages) == rest;
      }
    }
  }

  /**
   * A complete cycle in full-rebuild mode: every `.html` page of the build is
   * compiled onto itself, in render order, and the handlers end in incremental
   * mode with an empty queue.
   */
  lemma FullCycle(paths: NodePath, config: Config, threw: Throws, s: Watch, pages: seq<Render>)
    requires s.rebuildAll && s.postProcessFiles == []
    ensures var t := TransformAll(paths, config, s, pages);
      var html := HtmlPages(pages);
      var calls := CallsFor(config, t.postProcessFiles);
      |calls| == |html| &&
      (forall i :: 0 <= i < |html| ==>
        calls[i].input == calls[i].output == RelativeOutput(paths, config, html[i].outputPath.value) &&
        calls[i].baseFolder == config.baseFolder.GetOr(config.output)) &&
      ((forall i :: 0 <= i < |calls| ==> !threw(calls[i])) ==> AfterBuildSpec(config, threw, t) == Watch(false, s.changedFiles, [])) &&
      ((exists i :: 0 <= i < |calls| && threw(calls[i])) ==> AfterBuildSpec(config, threw, t) == t)
  {
    FullRebuildQueuesEveryPage(paths, config, s, pages);
    var html := HtmlPages(pages);
    forall i | 0 <= i < |html| ensures Entries(paths, config, html)[i] == EntryOf(paths, config, html[i]) {
      EntriesIndex(paths, config, html, i);
    }
  }

  /** The state of the handlers, updated in place as the module-level variables are. */
  class Rebuilder {
    const paths: NodePath
    const config: Config
    var rebuildAll: bool
    var changedFiles: seq<string>
    var postProcessFiles: seq<PostProcess>

    /** The variables as a `Watch` value. */
    function State(): Watch
      reads this`rebuildAll, this`changedFiles, this`postProcessFiles
    {
      Watch(rebuildAll, changedFiles, postProcessFiles)
    }

    /** Loading the configuration: full rebuild on, both queues empty. */
    constructor(paths: NodePath, config: Config)
      ensures this.paths == paths && this.config == config
      ensures State() == Initial
    {
      this.paths := paths;
      this.config := config;
      rebuildAll := true;
      changedFiles := [];
      postProcessFiles := [];
    }

    /** `Array.prototype.find` over `list` with the test `path.resolve(f).startsWith(folder)`. */
    method FindResolvedUnder(list: seq<string>, folder: string) returns (r: Option<string>)
      ensures r == FindUnder(paths.resolve, list, folder)
    {
      var i := 0;
      while i < |list|
        invariant 0 <= i <= |list|
        invariant FindUnder(paths.resolve, list[i..], folder) == FindUnder(paths.resolve, list, folder)
      {
        assert list[i..][1..] == list[i + 1..];
        if StartsWith(paths.resolve(list[i]), folder) {
          return Some(list[i]);
        }
        i := i + 1;
      }
      return None;
    }

    /** `Array.prototype.find` over `list` with the test `path.resolve(f) === path.resolve(target)`. */
    method FindResolvedSame(list: seq<string>, target: string) returns (r: Option<string>)
      ensures r == FindSame(paths.resolve, list, target)
    {
      var i := 0;
      while i < |list|
        invariant 0 <= i <= |list|
        invariant FindSame(paths.resolve, list[i..], target) == FindSame(paths.resolve, list, target)
      {
        assert list[i..][1..] == list[i + 1..];
        if paths.resolve(list[i]) == paths.resolve(target) {
          return Some(list[i]);
        }
        i := i + 1;
      }
      return None;
    }

    /** The `beforeWatch` handler. */
    method BeforeWatch(cf: seq<string>)
      modifies this`rebuildAll, this`changedFiles
      ensures State() == BeforeWatchSpec(paths, config, old(State()), cf)
    {
      changedFiles := [];
      var baseFolder := paths.resolve(config.input);
      var dataFolder := paths.join([baseFolder, config.dataFolder]);
      var includesFolder := paths.join([baseFolder, config.includesFolder]);
      var templateChanged := FindResolvedUnder(cf, includesFolder);
      var dataChanged := FindResolvedUnder(cf, dataFolder);
      if Truthy(templateChanged) || Truthy(dataChanged) {
        rebuildAll := true;
        return;
      }
      changedFiles := changedFiles + cf;
    }

    /** The `transform` handler: returns the content unchanged and may queue the page for compilation. */
    method Transform(content: string, inputPath: string, outputPath: Option<string>) returns (r: string)
      modifies this`postProcessFiles
      ensures r == content
      ensures State() == TransformSpec(paths, config, old(State()), inputPath, outputPath)
    {
      var hasChanged := FindResolvedSame(changedFiles, inputPath);
      if !rebuildAll && !Truthy(hasChanged) {
        return content;
      }
      if Truthy(outputPath) && EndsWith(outputPath.value, ".html") {
        var file := paths.resolve(outputPath.value);
        var baseFolder := paths.resolve(config.output);
        if StartsWith(file, baseFolder) {
          file := if |baseFolder| + 1 <= |file| then file[|baseFolder| + 1..] else "";
        }
        postProcessFiles := postProcessFiles + [PostProcess(file, config.output)];
      }
      return content;
    }

    /**
     * The `afterBuild` handler: one compiler call per queued file, in order;
     * then the queue is emptied and incremental mode restored. A call that
     * throws ends the handler at once (`completed` is false).
     */
    method AfterBuild(threw: Throws) returns (calls: seq<CompileCall>, completed: bool)
      modifies this`postProcessFiles, this`rebuildAll
      ensures calls == CallsFor(config, old(postProcessFiles)[..CallsMade(config, threw, old(postProcessFiles))])
      ensures completed <==> !AnyThrows(config, threw, old(postProcessFiles))
      ensures State() == AfterBuildSpec(config, threw, old(State()))
    {
      calls := [];
      var i := 0;
      while i < |postProcessFiles|
        invariant 0 <= i <= |postProcessFiles|
        invariant calls == CallsFor(config, postProcessFiles[..i])
        invariant forall j :: 0 <= j < i ==> !threw(CallFor(config, postProcessFiles[j]))
      {
        var pf := postProcessFiles[i];
        var call := CompileCall(pf.file, pf.file, config.baseFolder.GetOr(pf.baseFolder));
        calls := calls + [call];
        assert postProcessFiles[..i + 1] == postProcessFiles[..i] + [pf];
        if threw(call) {
          CallsMadeStop(config, threw, postProcessFiles, i);
          return calls, false;
        }
        i := i + 1;
      }
      CallsMadeStop(config, threw, postProcessFiles, i);
      assert postProcessFiles[..i] == postProcessFiles;
      postProcessFiles := [];
      if rebuildAll {
        rebuildAll := false;
      }
      return calls, true;
    }
  }
}
