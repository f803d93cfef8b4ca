/**
 * Properties of the resource walk of `createBundle` (module `BundleSpec`):
 * what a walk may and may not change, when the error flag is raised, that a
 * controller is never bundled twice, and what happens to skipped and duplicate
 * elements.
 */
module BundleProps {
  import opened Base
  import opened Strings
  import opened Paths
  import opened BundleSpec

  /** Among the fetches `fs`, some reported its failure (the path is not in the store). */
  predicate ReportedFailure(env: Env, fs: seq<Fetch>) {
    exists i :: 0 <= i < |fs| && fs[i].reportError && fs[i].path !in env.files
  }

  /** Controllers, scripts and stylesheets are fetched reporting errors; component styles never are. */
  predicate ReportRule(fs: seq<Fetch>) {
    forall i :: 0 <= i < |fs| ==>
      (fs[i].kind == StyleFetch ==> !fs[i].reportError) &&
      (fs[i].kind != StyleFetch && fs[i].kind != ViewFetch ==> fs[i].reportError)
  }

  /** No two entries share a path. */
  predicate UniquePaths(list: seq<Entry>) {
    forall i, j :: 0 <= i < j < |list| ==> list[i].path != list[j].path
  }

  /**
   * `w2` is `w1` after some part of a walk: every list and the fetch record only
   * grew, the error flag is set exactly when it was set before or a new fetch
   * reported a failure, the new fetches follow the report rule, and unique
   * controller paths stay so.
   */
  predicate Extends(env: Env, w1: Walk, w2: Walk) {
    w1.views <= w2.views && w1.styles <= w2.styles && w1.controllers <= w2.controllers &&
    w1.assets <= w2.assets && w1.log <= w2.log &&
    (w2.hasErrors <==> w1.hasErrors || ReportedFailure(env, w2.log[|w1.log|..])) &&
    ReportRule(w2.log[|w1.log|..]) &&
    (UniquePaths(w1.controllers) ==> UniquePaths(w2.controllers))
  }

  lemma ExtendsRefl(env: Env, w: Walk)
    ensures Extends(env, w, w)
  {
    assert w.log[|w.log|..] == [];
  }

  lemma FailureConcat(env: Env, a: seq<Fetch>, b: seq<Fetch>)
    ensures ReportedFailure(env, a + b) <==> ReportedFailure(env, a) || ReportedFailure(env, b)
  {
    if ReportedFailure(env, b) {
      var i :| 0 <= i < |b| && b[i].reportError && b[i].path !in env.files;
      assert (a + b)[|a| + i] == b[i];
    }
    if ReportedFailure(env, a) {
      var i :| 0 <= i < |a| && a[i].reportError && a[i].path !in env.files;
      assert (a + b)[i] == a[i];
    }
    if ReportedFailure(env, a + b) {
      var i :| 0 <= i < |a + b| && (a + b)[i].reportError && (a + b)[i].path !in env.files;
      if i >= |a| {
        assert b[i - |a|] == (a + b)[i];
      } else {
        assert a[i] == (a + b)[i];
      }
    }
  }

  lemma RuleConcat(a: seq<Fetch>, b: seq<Fetch>)
    requires ReportRule(a) && ReportRule(b)
    ensures ReportRule(a + b)
  {
    forall i | 0 <= i < |a + b| ensures (a + b)[i] == if i < |a| then a[i] else b[i - |a|] { }
  }

  lemma ExtendsTrans(env: Env, w1: Walk, w2: Walk, w3: Walk)
    requires Extends(env, w1, w2) && Extends(env, w2, w3)
    ensures Extends(env, w1, w3)
  {
    var a, b := w2.log[|w1.log|..], w3.log[|w2.log|..];
    assert w3.log[|w1.log|..] == a + b;
    FailureConcat(env, a, b);
    RuleConcat(a, b);
  }

  /** A fetch that follows the report rule extends the walk. */
  lemma FetchExtends(env: Env, w: Walk, path: string, reportError: bool, kind: FetchKind)
    requires kind == StyleFetch ==> !reportError
    requires kind != StyleFetch && kind != ViewFetch ==> reportError
    ensures Extends(env, w, FetchSpec(env, w, path, reportError, kind).walk)
    ensures var r := FetchSpec(env, w, path, reportError, kind); var w1 := r.walk;
      (r.content.Some? <==> FetchKey(path) in env.files) &&
      (r.content.Some? ==> r.content.value == env.files[FetchKey(path)]) &&
      w1.views == w.views && w1.styles == w.styles && w1.controllers == w.controllers && w1.assets == w.assets &&
      w1.log == w.log + [Fetch(FetchKey(path), reportError, kind)]
  {
    var w1 := FetchSpec(env, w, path, reportError, kind).walk;
    var f := Fetch(FetchKey(path), reportError, kind);
    assert w1.log[|w.log|..] == [f];
    assert ReportedFailure(env, [f]) <==> reportError && FetchKey(path) !in env.files by {
      if reportError && FetchKey(path) !in env.files {
        assert [f][0] == f;
      }
    }
  }

  /** Adding a controller whose path is not yet bundled keeps controller paths unique. */
  lemma ControllerStepExtends(env: Env, w: Walk, ref: string)
    requires !Bundled(w.controllers, ref)
    ensures Extends(env, w, ControllerStep(env, w, ref, ComponentPath(env, ref)))
  {
    var filePath := ComponentPath(env, ref);
    FetchExtends(env, w, filePath + ".js", true, ControllerFetch);
    var r := FetchSpec(env, w, filePath + ".js", true, ControllerFetch);
    var js, w1 := r.content, r.walk;
    if js.Some? {
      var w2 := w1.(controllers := w1.controllers + [Entry(ref, js.value)]);
      assert w2.log[|w.log|..] == w1.log[|w.log|..];
    }
  }

  lemma StyleStepExtends(env: Env, w: Walk, e: Element, ref: string)
    ensures Extends(env, w, StyleStep(env, w, e, ref, ComponentPath(env, ref)))
  {
    var filePath := ComponentPath(env, ref);
    FetchExtends(env, w, filePath + ".css", false, StyleFetch);
    var r := FetchSpec(env, w, filePath + ".css", false, StyleFetch);
    var css, w1 := r.content, r.walk;
    if css.Some? && !Unwrap(e) {
      var w2 := w1.(styles := w1.styles + [Entry(ref, css.value)]);
      assert w2.log[|w.log|..] == w1.log[|w.log|..];
    }
  }

  lemma {:induction false} ScriptsExtend(env: Env, w: Walk, els: seq<Element>, fileName: string)
    ensures Extends(env, w, ScriptsSpec(env, w, els, fileName))
    decreases |els|
  {
    if els == [] {
      ExtendsRefl(env, w);
    } else {
      var e := els[0];
      var w1 := ScriptStep(env, w, e, fileName);
      if e.tag != "script" || "src" !in e.attrs || "defer" in e.attrs {
        ExtendsRefl(env, w);
      } else {
        var path := ResourceFilePath(env.host.paths, env.options.baseFolder, fileName, e.attrs["src"]);
        FetchExtends(env, w, path, true, ScriptFetch);
        var w0 := FetchSpec(env, w, path, true, ScriptFetch).walk;
        assert w1.log == w0.log;
      }
      ScriptsExtend(env, w1, els[1..], fileName);
      ExtendsTrans(env, w, w1, ScriptsSpec(env, w1, els[1..], fileName));
    }
  }

  lemma {:induction false} LinksExtend(env: Env, w: Walk, els: seq<Element>, fileName: string)
    ensures Extends(env, w, LinksSpec(env, w, els, fileName))
    decreases |els|
  {
    if els == [] {
      ExtendsRefl(env, w);
    } else {
      var e := els[0];
      var w1 := LinkStep(env, w, e, fileName);
      if e.tag != "link" || Attr(e, "rel") != Some("stylesheet") || "href" !in e.attrs {
        ExtendsRefl(env, w);
      } else {
        var path := ResourceFilePath(env.host.paths, env.options.baseFolder, fileName, e.attrs["href"]);
        FetchExtends(env, w, path, true, StylesheetFetch);
        var w0 := FetchSpec(env, w, path, true, StylesheetFetch).walk;
        assert w1.log == w0.log;
      }
      LinksExtend(env, w1, els[1..], fileName);
      ExtendsTrans(env, w, w1, LinksSpec(env, w1, els[1..], fileName));
    }
  }

  /** A whole `createBundle` call, nested calls included, extends the walk. */
  lemma {:induction false} CreateBundleExtends(env: Env, w: Walk, content: string, fileName: string, depth: nat)
    ensures Extends(env, w, CreateBundleSpec(env, w, content, fileName, depth).walk)
    decreases depth, 6
  {
    var doc := env.host.parse(content);
    var w1 := if Truthy(env.options.bundleJs) then ScriptsSpec(env, w, doc.elements, fileName) else w;
    var w2 := if Truthy(env.options.bundleCss) then LinksSpec(env, w1, doc.elements, fileName) else w1;
    if Truthy(env.options.bundleJs) { ScriptsExtend(env, w, doc.elements, fileName); } else { ExtendsRefl(env, w); }
    if Truthy(env.options.bundleCss) { LinksExtend(env, w1, doc.elements, fileName); } else { ExtendsRefl(env, w1); }
    ExtendsTrans(env, w, w1, w2);
    if env.options.bundleZuix != Some(false) {
      WalkElementsExtend(env, w2, doc, doc.elements, depth);
      ExtendsTrans(env, w, w2, WalkElements(env, w2, doc, doc.elements, depth).walk);
    }
  }

  lemma {:induction false} WalkElementsExtend(env: Env, w: Walk, doc: Document, els: seq<Element>, depth: nat)
    ensures Extends(env, w, WalkElements(env, w, doc, els, depth).walk)
    decreases depth, 5, |els|
  {
    if els == [] {
      ExtendsRefl(env, w);
    } else {
      var first := StepElement(env, w, doc, els[0], depth);
      StepElementExtends(env, w, doc, els[0], depth);
      if first.completed {
        WalkElementsExtend(env, first.walk, doc, els[1..], depth);
        ExtendsTrans(env, w, first.walk, WalkElements(env, first.walk, doc, els[1..], depth).walk);
      }
    }
  }

  lemma {:induction false} StepElementExtends(env: Env, w: Walk, doc: Document, e: Element, depth: nat)
    ensures Extends(env, w, StepElement(env, w, doc, e, depth).walk)
    decreases depth, 4
  {
    var ref := Reference(e);
    if !Selected(e) || e.underPre || IsInlineView(doc, if ref.Some? then ref.value.0 else "null") || ref.None? {
      ExtendsRefl(env, w);
    } else {
      ComponentStepExtends(env, w, e, ref.value.0, ref.value.1, depth);
    }
  }

  lemma {:induction false} ComponentStepExtends(env: Env, w: Walk, e: Element, ref: string, hasJsFile: bool, depth: nat)
    ensures Extends(env, w, ComponentStep(env, w, e, ref, hasJsFile, depth).walk)
    decreases depth, 3
  {
    if hasJsFile && Bundled(w.controllers, ref) {
      ExtendsRefl(env, w);
    } else {
      var w1 := if hasJsFile then ControllerStep(env, w, ref, ComponentPath(env, ref)) else w;
      if hasJsFile { ControllerStepExtends(env, w, ref); } else { ExtendsRefl(env, w); }
      ViewStepExtends(env, w1, e, ref, hasJsFile, depth);
      ExtendsTrans(env, w, w1, ViewStep(env, w1, e, ref, hasJsFile, depth).walk);
    }
  }

  lemma {:induction false} ViewStepExtends(env: Env, w: Walk, e: Element, ref: string, hasJsFile: bool, depth: nat)
    ensures Extends(env, w, ViewStep(env, w, e, ref, hasJsFile, depth).walk)
    decreases depth, 2
  {
    if Bundled(w.views, ref) {
      ExtendsRefl(env, w);
    } else {
      var filePath := ComponentPath(env, ref);
      var r := FetchSpec(env, w, filePath + ".html", !hasJsFile, ViewFetch);
      var html, w1 := r.content, r.walk;
      FetchExtends(env, w, filePath + ".html", !hasJsFile, ViewFetch);
      if html.None? {
        StyleStepExtends(env, w1, e, ref);
        ExtendsTrans(env, w, w1, StyleStep(env, w1, e, ref, filePath));
      } else {
        NestedViewExtends(env, w1, e, ref, html.value, depth);
        ExtendsTrans(env, w, w1, NestedView(env, w1, e, ref, html.value, depth).walk);
      }
    }
  }

  lemma {:induction false} NestedViewExtends(env: Env, w: Walk, e: Element, ref: string, html: string, depth: nat)
    ensures Extends(env, w, NestedView(env, w, e, ref, html, depth).walk)
    decreases depth, 0
  {
    var name := ViewFileName(env, ComponentPath(env, ref));
    if name.None? || depth == 0 {
      ExtendsRefl(env, w);
    } else {
      var r := CreateBundleSpec(env, w, html, name.value, depth - 1);
      CreateBundleExtends(env, w, html, name.value, depth - 1);
      if r.completed {
        ViewTailExtends(env, w, r.walk, e, ref, html);
      }
    }
  }

  lemma ViewTailExtends(env: Env, w: Walk, w1: Walk, e: Element, ref: string, html: string)
    requires Extends(env, w, w1)
    ensures Extends(env, w, StyleStep(env, AddView(env, w1, e, ref, html), e, ref, ComponentPath(env, ref)))
  {
    var w2 := AddView(env, w1, e, ref, html);
    AddViewExtends(env, w1, e, ref, html);
    StyleStepExtends(env, w2, e, ref);
    ExtendsTrans(env, w1, w2, StyleStep(env, w2, e, ref, ComponentPath(env, ref)));
    ExtendsTrans(env, w, w1, StyleStep(env, w2, e, ref, ComponentPath(env, ref)));
  }

  lemma AddViewExtends(env: Env, w: Walk, e: Element, ref: string, html: string)
    ensures Extends(env, w, AddView(env, w, e, ref, html))
  {
    var w1 := AddView(env, w, e, ref, html);
    assert w1.log[|w.log|..] == [];
  }

  // ----- single steps -----

  /** `fetchResource` reads the path (a protocol-relative URL over `https:`), returns its content when present, and sets the error flag only for a reported failure. */
  lemma FetchMeaning(env: Env, w: Walk, path: string, reportError: bool, kind: FetchKind)
    ensures StartsWith(path, "//") ==> FetchKey(path) == "https:" + path
    ensures !StartsWith(path, "//") ==> FetchKey(path) == path
    ensures var r := FetchSpec(env, w, path, reportError, kind);
      (r.content.Some? <==> FetchKey(path) in env.files) &&
      (r.content.Some? ==> r.content.value == env.files[FetchKey(path)]) &&
      r.walk.hasErrors == (w.hasErrors || (reportError && FetchKey(path) !in env.files))
  {
  }

  /**
   * The reference of a selected element: the first non-empty include attribute
   * (`data-ui-include`, then `z-include`), else the `data-ui-load` value when
   * non-empty, else `z-load` whatever its value; a controller is expected
   * exactly for a load reference on an element without a `view` attribute.
   */
  lemma ReferenceRules(e: Element)
    ensures !Blank(Attr(e, "data-ui-include")) ==> Reference(e) == Some((e.attrs["data-ui-include"], false))
    ensures Blank(Attr(e, "data-ui-include")) && !Blank(Attr(e, "z-include")) ==>
      Reference(e) == Some((e.attrs["z-include"], false))
    ensures Blank(Attr(e, "data-ui-include")) && Blank(Attr(e, "z-include")) ==>
      (!Blank(Attr(e, "data-ui-load")) ==> Reference(e) == Some((e.attrs["data-ui-load"], "view" !in e.attrs))) &&
      (Blank(Attr(e, "data-ui-load")) && "z-load" in e.attrs ==> Reference(e) == Some((e.attrs["z-load"], "view" !in e.attrs))) &&
      (Blank(Attr(e, "data-ui-load")) && "z-load" !in e.attrs ==> Reference(e).None?)
    ensures Reference(e).Some? && Reference(e).value.1 ==> "view" !in e.attrs
  {
  }

  /** An element under `<pre>`, or whose reference names an inline view of the page, is skipped: nothing is fetched or added. */
  lemma SkippedElement(env: Env, w: Walk, doc: Document, e: Element, depth: nat)
    requires e.underPre || (Reference(e).Some? && IsInlineView(doc, Reference(e).value.0))
    ensures StepElement(env, w, doc, e, depth) == Outcome(w, true)
  {
  }

  /** An element with no usable reference that is not skipped makes the walk throw (`isUrl(null)`). */
  lemma NullReferenceThrows(env: Env, w: Walk, doc: Document, e: Element, depth: nat)
    requires Selected(e) && !e.underPre && Reference(e).None? && !IsInlineView(doc, "null")
    ensures !StepElement(env, w, doc, e, depth).completed
  {
  }

  /** A component whose controller is already bundled is skipped whole: no `.js`, `.html` or `.css` fetch. */
  lemma BundledControllerSkipped(env: Env, w: Walk, doc: Document, e: Element, depth: nat)
    requires Selected(e) && !e.underPre && Reference(e).Some? && !IsInlineView(doc, Reference(e).value.0)
    requires Reference(e).value.1 && Bundled(w.controllers, Reference(e).value.0)
    ensures StepElement(env, w, doc, e, depth) == Outcome(w, true)
  {
  }

  /** A view that is already bundled is not added again, and neither its view nor its style is fetched. */
  lemma BundledViewSkipped(env: Env, w: Walk, e: Element, ref: string, hasJsFile: bool, depth: nat)
    requires Bundled(w.views, ref)
    ensures var o := ComponentStep(env, w, e, ref, hasJsFile, depth);
      o.completed && o.walk.views == w.views && o.walk.styles == w.styles &&
      (!hasJsFile || Bundled(w.controllers, ref) ==> o.walk == w) &&
      (hasJsFile && !Bundled(w.controllers, ref) ==> o.walk == ControllerStep(env, w, ref, ComponentPath(env, ref)))
  {
    if hasJsFile && !Bundled(w.controllers, ref) {
      var w1 := ControllerStep(env, w, ref, ComponentPath(env, ref));
      assert w1.views == w.views;
      assert Bundled(w1.views, ref);
    }
  }

  /** The view fetch of a new view reports its failure exactly when no controller is expected. */
  lemma ViewFetchReports(env: Env, w: Walk, e: Element, ref: string, hasJsFile: bool, depth: nat)
    requires !Bundled(w.views, ref)
    ensures var o := ViewStep(env, w, e, ref, hasJsFile, depth);
      |o.walk.log| > |w.log| &&
      o.walk.log[|w.log|] == Fetch(FetchKey(ComponentPath(env, ref) + ".html"), !hasJsFile, ViewFetch)
  {
    var filePath := ComponentPath(env, ref);
    var r := FetchSpec(env, w, filePath + ".html", !hasJsFile, ViewFetch);
    FetchExtends(env, w, filePath + ".html", !hasJsFile, ViewFetch);
    var o := ViewStep(env, w, e, ref, hasJsFile, depth);
    if r.content.None? {
      StyleStepExtends(env, r.walk, e, ref);
    } else {
      NestedViewExtends(env, r.walk, e, ref, r.content.value, depth);
    }
    assert r.walk.log <= o.walk.log;
    assert o.walk.log[|w.log|] == r.walk.log[|w.log|];
  }
}
