/**
 * The module state of `commands/compile-page.js` and the functions that update
 * it: the four `zuixBundle` lists, `stats`, `hasErrors`, the options object
 * and the file system, with `fetchResource`, `createBundle`, `generateApp` and
 * `compilePage` as methods. Each method is proved to leave the state its
 * specification function in `BundleSpec` or `AppSpec` describes.
 */
module Bundler {
  import opened Base
  import opened Strings
  import opened Paths
  import opened BundleSpec
  import opened AppSpec

  /** `isBundled(list, path)`: the first entry with that path, or None for `false`. */
  method IsBundled(list: seq<Entry>, path: string) returns (r: Option<Entry>)
    ensures r.Some? <==> Bundled(list, path)
    ensures r.Some? ==> exists i :: (0 <= i < |list| && list[i] == r.value && list[i].path == path &&
      forall j :: 0 <= j < i ==> list[j].path != path)
  {
    var i := 0;
    while i < |list|
      invariant 0 <= i <= |list|
      invariant forall j :: 0 <= j < i ==> list[j].path != path
    {
      if list[i].path == path {
        return Some(list[i]);
      }
      i := i + 1;
    }
    return None;
  }

  /**
   * `getBundleItem(bundle, id)`: the bundle with an item for `id` and that
   * item's index; the first item with the id is returned, and a fresh one is
   * appended only when there is none.
   */
  method GetBundleItem(bundle: seq<ResourceItem>, id: string) returns (r: seq<ResourceItem>, index: nat)
    ensures r == WithItem(bundle, id) && index == ItemIndex(bundle, id)
    ensures index < |r| && r[index].componentId == id && forall j :: 0 <= j < index ==> r[j].componentId != id
    ensures FindItem(bundle, id).Some? ==> r == bundle
    ensures FindItem(bundle, id).None? ==> r == bundle + [ResourceItem(id, None, None)] && index == |bundle|
  {
    var i := 0;
    while i < |bundle|
      invariant 0 <= i <= |bundle|
      invariant forall j :: 0 <= j < i ==> bundle[j].componentId != id
    {
      if bundle[i].componentId == id {
        return bundle, i;
      }
      i := i + 1;
    }
    r, index := bundle + [ResourceItem(id, None, None)], |bundle|;
  }

  /** The key a bundled component is filed under (`resolveAppPath('/', path)`). */
  method KeyOf(ops: PathOps, app: Option<AppConfig>, path: string) returns (key: string)
    ensures key == BundleKey(ops, app, path)
  {
    var resolved := ResolveAppPath(ops, app, "/", path);
    key := if resolved.lib then resolved.path else path;
  }

  /** The markup of the view loop of `generateApp`: one block per view, keyed by its resolved path. */
  method BuildViewsMarkup(ops: PathOps, app: Option<AppConfig>, vs: seq<Entry>) returns (markup: string)
    ensures markup == ViewsMarkup(Keyed(ops, app, vs), vs)
  {
    markup := "";
    ghost var keyed := Keyed(ops, app, vs);
    var i := 0;
    while i < |vs|
      invariant 0 <= i <= |vs|
      invariant markup == ViewsMarkup(keyed[..i], vs[..i])
    {
      var key := KeyOf(ops, app, vs[i].path);
      ViewsMarkupPrefix(keyed, vs, i);
      markup := markup + ViewBlock(key, vs[i]);
      i := i + 1;
    }
    assert vs[..i] == vs && keyed[..i] == keyed;
  }

  /** A controller or style loop of `generateApp`: each entry's content set as `part` of the item for its resolved path. */
  method MergeEntries(ops: PathOps, app: Option<AppConfig>, bundle: seq<ResourceItem>, list: seq<Entry>, part: Part) returns (r: seq<ResourceItem>)
    ensures r == Merge(bundle, Keyed(ops, app, list), part)
  {
    r := bundle;
    ghost var keyed := Keyed(ops, app, list);
    var i := 0;
    while i < |list|
      invariant 0 <= i <= |list|
      invariant r == Merge(bundle, keyed[..i], part)
    {
      var key := KeyOf(ops, app, list[i].path);
      var b, index := GetBundleItem(r, key);
      MergePrefix(bundle, keyed, part, i);
      r := b[index := WithPart(b[index], part, list[i].content)];
      i := i + 1;
    }
    assert keyed[..i] == keyed;
  }

  /** The state of one compiler instance (the module-level variables of the source file). */
  class Compiler {
    const host: Host
    /** How many nested `createBundle` calls the call stack holds before it overflows. */
    const stackDepth: nat
    var options: Options
    /** The file system and the network: path or URL to content. */
    var files: map<string, string>
    var views: seq<Entry>
    var styles: seq<Entry>
    var controllers: seq<Entry>
    var assets: seq<Asset>
    var stats: map<string, Stat>
    var hasErrors: bool
    /** Every `fetchResource` call so far. */
    ghost var log: seq<Fetch>

    constructor (host: Host, stackDepth: nat, options: Options, files: map<string, string>)
      ensures this.host == host && this.stackDepth == stackDepth && this.options == options && this.files == files
      ensures views == [] && styles == [] && controllers == [] && assets == [] && stats == map[] && !hasErrors && log == []
    {
      this.host := host;
      this.stackDepth := stackDepth;
      this.options := options;
      this.files := files;
      views, styles, controllers, assets := [], [], [], [];
      stats := map[];
      hasErrors := false;
      log := [];
    }

    function CurrentEnv(): Env
      reads this`options, this`files
    {
      Env(host, options, files)
    }

    ghost function State(): Walk
      reads this`views, this`styles, this`controllers, this`assets, this`hasErrors, this`log
    {
      Walk(views, styles, controllers, assets, hasErrors, log)
    }

    /** `fetchResource(path, reportError)`. */
    method FetchResource(path: string, reportError: bool, ghost kind: FetchKind) returns (content: Option<string>)
      modifies this`hasErrors, this`log
      ensures Read(content, State()) == FetchSpec(CurrentEnv(), old(State()), path, reportError, kind)
    {
      var key := path;
      if IsUrl(path) && StartsWith(path, "//") {
        key := "https:" + path;
      }
      log := log + [Fetch(key, reportError, kind)];
      if key in files {
        content := Some(files[key]);
      } else {
        content := None;
        if reportError {
          hasErrors := true;
        }
      }
    }

    /** The `script[src]` loop of `createBundle`. */
    method BundleScripts(els: seq<Element>, fileName: string)
      modifies this`assets, this`hasErrors, this`log
      ensures State() == ScriptsSpec(CurrentEnv(), old(State()), els, fileName)
    {
      var i := 0;
      while i < |els|
        invariant 0 <= i <= |els|
        invariant ScriptsSpec(CurrentEnv(), old(State()), els, fileName) == ScriptsSpec(CurrentEnv(), State(), els[i..], fileName)
      {
        var e := els[i];
        ghost var before := State();
        if e.tag == "script" && "src" in e.attrs && "defer" !in e.attrs {
          var src := e.attrs["src"];
          var text := FetchResource(ResourceFilePath(host.paths, options.baseFolder, fileName, src), true, ScriptFetch);
          if text.Some? {
            assets := assets + [Asset(src, WrapRaw(text.value), ScriptAsset)];
          }
        }
        assert State() == ScriptStep(CurrentEnv(), before, e, fileName);
        assert els[i..][1..] == els[i + 1..];
        i := i + 1;
      }
    }

    /** The `link[rel="stylesheet"][href]` loop of `createBundle`. */
    method BundleLinks(els: seq<Element>, fileName: string)
      modifies this`assets, this`hasErrors, this`log
      ensures State() == LinksSpec(CurrentEnv(), old(State()), els, fileName)
    {
      var i := 0;
      while i < |els|
        invariant 0 <= i <= |els|
        invariant LinksSpec(CurrentEnv(), old(State()), els, fileName) == LinksSpec(CurrentEnv(), State(), els[i..], fileName)
      {
        var e := els[i];
        ghost var before := State();
        if e.tag == "link" && Attr(e, "rel") == Some("stylesheet") && "href" in e.attrs {
          var href := e.attrs["href"];
          var text := FetchResource(ResourceFilePath(host.paths, options.baseFolder, fileName, href), true, StylesheetFetch);
          if text.Some? {
            assets := assets + [Asset(href, text.value, StyleAsset)];
          }
        }
        assert State() == LinkStep(CurrentEnv(), before, e, fileName);
        assert els[i..][1..] == els[i + 1..];
        i := i + 1;
      }
    }

    /** `createBundle(content, fileName)` with `depth` nested calls left; false when it throws. */
    method CreateBundle(content: string, fileName: string, depth: nat) returns (completed: bool)
      modifies this`views, this`styles, this`controllers, this`assets, this`hasErrors, this`log
      ensures Outcome(State(), completed) == CreateBundleSpec(CurrentEnv(), old(State()), content, fileName, depth)
      decreases depth, 5
    {
      var doc := host.parse(content);
      if Truthy(options.bundleJs) {
        BundleScripts(doc.elements, fileName);
      }
      if Truthy(options.bundleCss) {
        BundleLinks(doc.elements, fileName);
      }
      completed := true;
      if options.bundleZuix != Some(false) {
        completed := BundleComponents(doc, depth);
      }
    }

    /** The `forEach` over the component elements; an element that throws ends it. */
    method BundleComponents(doc: Document, depth: nat) returns (completed: bool)
      modifies this`views, this`styles, this`controllers, this`assets, this`hasErrors, this`log
      ensures Outcome(State(), completed) == WalkElements(CurrentEnv(), old(State()), doc, doc.elements, depth)
      decreases depth, 4
    {
      var els := doc.elements;
      var i := 0;
      while i < |els|
        invariant 0 <= i <= |els|
        invariant WalkElements(CurrentEnv(), old(State()), doc, els, depth) == WalkElements(CurrentEnv(), State(), doc, els[i..], depth)
      {
        assert els[i..][1..] == els[i + 1..];
        var ok := BundleElement(doc, els[i], depth);
        if !ok {
          return false;
        }
        i := i + 1;
      }
      return true;
    }

    /** One component element: skipped under `<pre>` and for inline views; a missing reference throws. */
    method BundleElement(doc: Document, e: Element, depth: nat) returns (completed: bool)
      modifies this`views, this`styles, this`controllers, this`assets, this`hasErrors, this`log
      ensures Outcome(State(), completed) == StepElement(CurrentEnv(), old(State()), doc, e, depth)
      decreases depth, 3
    {
      if !Selected(e) || e.underPre {
        return true;
      }
      var ref := Reference(e);
      if IsInlineView(doc, if ref.Some? then ref.value.0 else "null") {
        return true;
      }
      if ref.None? {
        return false;
      }
      completed := BundleComponent(e, ref.value.0, ref.value.1, depth);
    }

    /** The controller of a component reference, then its view. */
    method BundleComponent(e: Element, ref: string, hasJsFile: bool, depth: nat) returns (completed: bool)
      modifies this`views, this`styles, this`controllers, this`assets, this`hasErrors, this`log
      ensures Outcome(State(), completed) == ComponentStep(CurrentEnv(), old(State()), e, ref, hasJsFile, depth)
      decreases depth, 2
    {
      var resolved := ResolveAppPath(host.paths, options.app, options.baseFolder, ref);
      var filePath := resolved.path;
      if hasJsFile {
        var bundled := IsBundled(controllers, ref);
        if bundled.Some? {
          return true;
        }
        var js := FetchResource(filePath + ".js", true, ControllerFetch);
        if js.Some? {
          controllers := controllers + [Entry(ref, js.value)];
        }
      }
      completed := BundleView(e, ref, hasJsFile, filePath, depth);
    }

    /** The view of a component: nothing when already bundled, else fetched, nested-bundled and added, then its style. */
    method BundleView(e: Element, ref: string, hasJsFile: bool, filePath: string, depth: nat) returns (completed: bool)
      requires filePath == ComponentPath(CurrentEnv(), ref)
      modifies this`views, this`styles, this`controllers, this`assets, this`hasErrors, this`log
      ensures Outcome(State(), completed) == ViewStep(CurrentEnv(), old(State()), e, ref, hasJsFile, depth)
      decreases depth, 1
    {
      var item := IsBundled(views, ref);
      if item.Some? {
        return true;
      }
      var html := FetchResource(filePath + ".html", !hasJsFile, ViewFetch);
      if html.None? {
        BundleStyle(e, ref, filePath);
        return true;
      }
      completed := BundleNestedView(e, ref, html.value, filePath, depth);
    }

    /** A fetched view: its own resources are bundled first, then it is added and its style fetched. */
    method BundleNestedView(e: Element, ref: string, html: string, filePath: string, depth: nat) returns (completed: bool)
      requires filePath == ComponentPath(CurrentEnv(), ref)
      modifies this`views, this`styles, this`controllers, this`assets, this`hasErrors, this`log
      ensures Outcome(State(), completed) == NestedView(CurrentEnv(), old(State()), e, ref, html, depth)
      decreases depth, 0
    {
      if options.app.None? || depth == 0 {
        return false;
      }
      var name := host.paths.join([options.baseFolder, options.app.value.resourcePath, filePath + ".html"]);
      var ok := CreateBundle(html, name, depth - 1);
      if !ok {
        return false;
      }
      if !Unwrap(e) {
        views := views + [Entry(ref, host.viewMarkup(html))];
      }
      BundleStyle(e, ref, filePath);
      return true;
    }

    /** The style of a component: fetched without reporting, added unless the element is unwrapped. */
    method BundleStyle(e: Element, ref: string, filePath: string)
      modifies this`styles, this`hasErrors, this`log
      ensures State() == StyleStep(CurrentEnv(), old(State()), e, ref, filePath)
    {
      var css := FetchResource(filePath + ".css", false, StyleFetch);
      if css.Some? && !Unwrap(e) {
        styles := styles + [Entry(ref, css.value)];
      }
    }

    /** `stats[path] = stats[path] || {}; stats[path].<flag> = true`. */
    method MarkStat(path: string, flag: StatFlag)
      modifies this`stats
      ensures stats == Mark(old(stats), path, flag)
    {
      var s := if path in stats then stats[path] else NoStat;
      stats := stats[path := WithFlag(s, flag)];
    }

    /** The stats marks of a `generateApp` loop: every path marked with `flag`, in order. */
    method MarkPaths(paths: seq<string>, flag: StatFlag)
      modifies this`stats
      ensures stats == MarkAll(old(stats), paths, flag)
    {
      var i := 0;
      while i < |paths|
        invariant 0 <= i <= |paths|
        invariant stats == MarkAll(old(stats), paths[..i], flag)
      {
        MarkStat(paths[i], flag);
        MarkAllSnoc(old(stats), paths[..i], paths[i], flag);
        assert paths[..i + 1] == paths[..i] + [paths[i]];
        i := i + 1;
      }
      assert paths[..i] == paths;
    }

    /** The statistics loops of `generateApp`, under the `bundle` switches. */
    method MarkBundled()
      modifies this`stats
      ensures stats == StatsAfter(options, old(stats), State())
    {
      if options.bundleZuix != Some(false) {
        MarkPaths(PathsOf(views), ViewFlag);
        MarkPaths(PathsOf(controllers), ControllerFlag);
        MarkPaths(PathsOf(styles), CssFlag);
      }
      if options.bundleJs != Some(false) {
        MarkPaths(AssetPaths(assets), ScriptFlag);
      }
      if options.bundleCss != Some(false) {
        MarkPaths(AssetPaths(assets), StyleFlag);
      }
    }

    /** The page `generateApp` hands to the serialiser: the view markup and the resource items, under the `zuix` switch. */
    method ComposePage(content: string) returns (page: Page)
      ensures page == PageOf(CurrentEnv(), content, State())
    {
      var bundleViews := "";
      var items: seq<ResourceItem> := [];
      if options.bundleZuix != Some(false) {
        bundleViews := BuildViewsMarkup(host.paths, options.app, views);
        items := MergeEntries(host.paths, options.app, items, controllers, ControllerPart);
        items := MergeEntries(host.paths, options.app, items, styles, CssPart);
      }
      var fragment := IndexOf(content, "<html") < 0 && IndexOf(content, "<HTML") < 0;
      page := Page(content, fragment, assets, bundleViews, items);
    }

    /** `generateApp(content, fileName)`: None when `createBundle` throws. */
    method GenerateApp(content: string, fileName: string) returns (r: Option<string>)
      modifies this`views, this`styles, this`controllers, this`assets, this`hasErrors, this`log, this`stats
      ensures var g := GenerateSpec(CurrentEnv(), old(State()), old(stats), content, fileName, stackDepth);
        r == g.content && State() == g.walk && stats == g.stats
    {
      views, styles, controllers, assets := [], [], [], [];
      assert State() == Cleared(old(State()));
      var completed := CreateBundle(content, fileName, stackDepth);
      if !completed {
        return None;
      }
      MarkBundled();
      if |views| > 0 || |styles| > 0 || |controllers| > 0 || |assets| > 0 {
        var page := ComposePage(content);
        r := Some(host.serialize(page));
      } else {
        r := Some(content);
      }
    }

    /** The middle of `compilePage`: bundle an `.html` page with fresh statistics and minify it when asked. */
    method Render(content: string, rel: string, output: string) returns (r: Option<string>)
      modifies this`views, this`styles, this`controllers, this`assets, this`hasErrors, this`log, this`stats
      ensures var g := RenderSpec(CurrentEnv(), old(State()), content, rel, output, stackDepth);
        r == g.content && State() == g.walk && stats == g.stats
    {
      stats := map[];
      if !EndsWith(rel, ".html") {
        return Some(content);
      }
      r := GenerateApp(content, output);
      if r.Some? && options.minify.MinifyOn? && !options.minify.disable {
        r := Some(host.minify(r.value));
      }
    }

    /** The final write of `compilePage`: the output file, when the content changed or it is another file. */
    method WriteOutput(inputFile: string, outputFile: string, initial: string, content: string) returns (r: CompileResult)
      modifies this`files
      ensures var c := WriteSpec(old(files), inputFile, outputFile, initial, content, State(), stats);
        r == c.result && files == c.files
    {
      if content != initial || inputFile != outputFile {
        files := files[outputFile := content];
        return Finished(true);
      }
      return Finished(false);
    }

    /**
     * `compilePage(rel, out, opts)`: read the page from the base folder, bundle
     * an `.html` page, minify it when asked, and write the output (by default
     * the input) when the content changed or the output is another file.
     */
    method CompilePage(rel: string, out: Option<string>, opts: Options) returns (r: CompileResult)
      modifies this
      ensures options == opts
      ensures var c := CompileSpec(host, opts, old(files), old(State()), old(stats), stackDepth, rel, out);
        r == c.result && files == c.files && State() == c.walk && stats == c.stats
    {
      options := opts;
      var inputFile := host.paths.join([options.baseFolder, rel]);
      if inputFile !in files {
        hasErrors := true;
        return ReadFailed;
      }
      var initial := files[inputFile];
      var output := if out.Some? then out.value else rel;
      hasErrors := false;
      var content := Render(initial, rel, output);
      if content.None? {
        return Threw;
      }
      var outputFile := host.paths.join([options.baseFolder, output]);
      r := WriteOutput(inputFile, outputFile, initial, content.value);
    }
  }
}
