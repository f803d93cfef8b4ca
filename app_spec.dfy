/**
 * What `generateApp` and `compilePage` in `commands/compile-page.js` make of a
 * finished walk: the per-page statistics, the merged component bundle
 * (`getBundleItem`), the view markup appended to the page, the page content
 * returned, and the write rule of `compilePage`. The class in `bundler.dfy`
 * computes the same values with loops and is proved equal to these functions.
 */
module AppSpec {
  import opened Base
  import opened Strings
  import opened Paths
  import opened BundleSpec

  // ----- statistics -----

  /** `stats[path]`: which bundle outputs a resource took part in. */
  datatype Stat = Stat(view: bool, css: bool, controller: bool, script: bool, style: bool)

  datatype StatFlag = ViewFlag | CssFlag | ControllerFlag | ScriptFlag | StyleFlag

  /** The `{}` a resource's statistics start from. */
  const NoStat := Stat(false, false, false, false, false)

  function Flag(s: Stat, f: StatFlag): bool {
    match f
    case ViewFlag => s.view
    case CssFlag => s.css
    case ControllerFlag => s.controller
    case ScriptFlag => s.script
    case StyleFlag => s.style
  }

  function WithFlag(s: Stat, f: StatFlag): (r: Stat)
    ensures Flag(r, f)
    ensures forall g :: g != f ==> Flag(r, g) == Flag(s, g)
  {
    match f
    case ViewFlag => s.(view := true)
    case CssFlag => s.(css := true)
    case ControllerFlag => s.(controller := true)
    case ScriptFlag => s.(script := true)
    case StyleFlag => s.(style := true)
  }

  /** `stats[key] = stats[key] || {}; stats[key].<f> = true`. */
  function Mark(stats: map<string, Stat>, key: string, f: StatFlag): map<string, Stat> {
    stats[key := WithFlag(if key in stats then stats[key] else NoStat, f)]
  }

  /** `Mark` applied for each key in order. */
  function MarkAll(stats: map<string, Stat>, keys: seq<string>, f: StatFlag): map<string, Stat>
    decreases |keys|
  {
    if keys == [] then stats else Mark(MarkAll(stats, keys[..|keys| - 1], f), keys[|keys| - 1], f)
  }

  /**
   * After marking `keys` with `f`, a key has statistics exactly when it had
   * some or is among `keys`; its `f` flag is set exactly when it was set or the
   * key is among `keys`; every other flag is what it was (unset for a new key).
   */
  lemma {:induction false} MarkAllMeans(stats: map<string, Stat>, keys: seq<string>, f: StatFlag, k: string)
    ensures k in MarkAll(stats, keys, f) <==> k in stats || k in keys
    ensures k in MarkAll(stats, keys, f) ==>
      (Flag(MarkAll(stats, keys, f)[k], f) <==> (k in stats && Flag(stats[k], f)) || k in keys)
    ensures forall g :: g != f && k in MarkAll(stats, keys, f) ==>
      Flag(MarkAll(stats, keys, f)[k], g) == (k in stats && Flag(stats[k], g))
    decreases |keys|
  {
    if keys != [] {
      var init := keys[..|keys| - 1];
      MarkAllMeans(stats, init, f, k);
      assert keys == init + [keys[|keys| - 1]];
    }
  }

  lemma MarkAllSnoc(stats: map<string, Stat>, keys: seq<string>, k: string, f: StatFlag)
    ensures MarkAll(stats, keys + [k], f) == Mark(MarkAll(stats, keys, f), k, f)
  {
    assert (keys + [k])[..|keys|] == keys;
  }

  function PathsOf(list: seq<Entry>): (r: seq<string>)
    ensures |r| == |list| && forall i :: 0 <= i < |list| ==> r[i] == list[i].path
  {
    seq(|list|, i requires 0 <= i < |list| => list[i].path)
  }

  function AssetPaths(assets: seq<Asset>): (r: seq<string>)
    ensures |r| == |assets| && forall i :: 0 <= i < |assets| ==> r[i] == assets[i].path
  {
    seq(|assets|, i requires 0 <= i < |assets| => assets[i].path)
  }

  lemma PathsOfBundled(list: seq<Entry>, k: string)
    ensures k in PathsOf(list) <==> Bundled(list, k)
  {
    if Bundled(list, k) {
      var i :| 0 <= i < |list| && list[i].path == k;
      assert PathsOf(list)[i] == k;
    }
  }

  /**
   * The statistics `generateApp` leaves: views, controllers and styles when
   * components are bundled, then every asset as a script unless scripts are
   * switched off and as a style unless stylesheets are switched off.
   */
  function StatsAfter(options: Options, stats: map<string, Stat>, w: Walk): map<string, Stat> {
    var s1 := if options.bundleZuix != Some(false) then
      MarkAll(MarkAll(MarkAll(stats, PathsOf(w.views), ViewFlag), PathsOf(w.controllers), ControllerFlag), PathsOf(w.styles), CssFlag)
      else stats;
    var s2 := if options.bundleJs != Some(false) then MarkAll(s1, AssetPaths(w.assets), ScriptFlag) else s1;
    if options.bundleCss != Some(false) then MarkAll(s2, AssetPaths(w.assets), StyleFlag) else s2
  }

  /** Starting from no statistics, a view is reported exactly for the bundled views, a controller and a style likewise. */
  lemma StatsReportComponents(options: Options, w: Walk, k: string)
    requires options.bundleZuix != Some(false)
    ensures var s := StatsAfter(options, map[], w);
      (Bundled(w.views, k) || Bundled(w.controllers, k) || Bundled(w.styles, k) ==> k in s) &&
      (k in s ==> (s[k].view <==> Bundled(w.views, k))) &&
      (k in s ==> (s[k].controller <==> Bundled(w.controllers, k))) &&
      (k in s ==> (s[k].css <==> Bundled(w.styles, k)))
  {
    var s0: map<string, Stat> := map[];
    var a := MarkAll(s0, PathsOf(w.views), ViewFlag);
    var b := MarkAll(a, PathsOf(w.controllers), ControllerFlag);
    var c := MarkAll(b, PathsOf(w.styles), CssFlag);
    var d := if options.bundleJs != Some(false) then MarkAll(c, AssetPaths(w.assets), ScriptFlag) else c;
    var e := if options.bundleCss != Some(false) then MarkAll(d, AssetPaths(w.assets), StyleFlag) else d;
    assert e == StatsAfter(options, s0, w);
    PathsOfBundled(w.views, k);
    PathsOfBundled(w.controllers, k);
    PathsOfBundled(w.styles, k);
    MarkAllMeans(s0, PathsOf(w.views), ViewFlag, k);
    MarkAllMeans(a, PathsOf(w.controllers), ControllerFlag, k);
    MarkAllMeans(b, PathsOf(w.styles), CssFlag, k);
    MarkAllMeans(c, AssetPaths(w.assets), ScriptFlag, k);
    MarkAllMeans(d, AssetPaths(w.assets), StyleFlag, k);
    if k in e {
      assert Flag(e[k], ViewFlag) == e[k].view && Flag(e[k], ControllerFlag) == e[k].controller && Flag(e[k], CssFlag) == e[k].css;
      assert Flag(e[k], ViewFlag) == (k in d && Flag(d[k], ViewFlag));
    }
  }

  // ----- the component bundle -----

  /** The id a component is bundled under: the resolved location of a library component, the reference itself otherwise. */
  function BundleKey(ops: PathOps, app: Option<AppConfig>, ref: string): string {
    var r := AppPath(ops, app, "/", ref);
    if r.lib then r.path else ref
  }

  datatype Part = ControllerPart | CssPart

  function PartOf(item: ResourceItem, part: Part): Option<string> {
    match part
    case ControllerPart => item.controller
    case CssPart => item.css
  }

  function WithPart(item: ResourceItem, part: Part, content: string): (r: ResourceItem)
    ensures r.componentId == item.componentId && PartOf(r, part) == Some(content)
    ensures forall q :: q != part ==> PartOf(r, q) == PartOf(item, q)
  {
    match part
    case ControllerPart => item.(controller := Some(content))
    case CssPart => item.(css := Some(content))
  }

  /** The index of the first item with id `id` at or after `from`. */
  function FindItemFrom(bundle: seq<ResourceItem>, id: string, from: nat): (r: Option<nat>)
    decreases |bundle| - from
    ensures r.Some? ==> (from <= r.value < |bundle| && bundle[r.value].componentId == id &&
      forall j :: from <= j < r.value ==> bundle[j].componentId != id)
    ensures r.None? ==> forall j :: from <= j < |bundle| ==> bundle[j].componentId != id
  {
    if from >= |bundle| then None
    else if bundle[from].componentId == id then Some(from)
    else FindItemFrom(bundle, id, from + 1)
  }

  function FindItem(bundle: seq<ResourceItem>, id: string): (r: Option<nat>)
    ensures r.Some? ==> (r.value < |bundle| && bundle[r.value].componentId == id &&
      forall j :: 0 <= j < r.value ==> bundle[j].componentId != id)
    ensures r.None? ==> forall j :: 0 <= j < |bundle| ==> bundle[j].componentId != id
  {
    FindItemFrom(bundle, id, 0)
  }

  /** `getBundleItem(bundle, id)`: the bundle, with a fresh item for `id` appended when it has none. */
  function WithItem(bundle: seq<ResourceItem>, id: string): seq<ResourceItem> {
    if FindItem(bundle, id).Some? then bundle else bundle + [ResourceItem(id, None, None)]
  }

  /** The index of the item `getBundleItem(bundle, id)` returns. */
  function ItemIndex(bundle: seq<ResourceItem>, id: string): nat {
    match FindItem(bundle, id)
    case Some(i) => i
    case None => |bundle|
  }

  /** `getBundleItem(bundle, id).<part> = content`. */
  function SetPart(bundle: seq<ResourceItem>, id: string, part: Part, content: string): seq<ResourceItem> {
    var b := WithItem(bundle, id);
    var i := ItemIndex(bundle, id);
    b[i := WithPart(b[i], part, content)]
  }

  /** The entries of `list` filed under their keys. */
  function Keyed(ops: PathOps, app: Option<AppConfig>, list: seq<Entry>): (r: seq<Entry>)
    ensures |r| == |list| && forall i :: 0 <= i < |list| ==> r[i] == Entry(BundleKey(ops, app, list[i].path), list[i].content)
  {
    seq(|list|, i requires 0 <= i < |list| => Entry(BundleKey(ops, app, list[i].path), list[i].content))
  }

  /** The `forEach` over a keyed controller or style list, setting each entry's part on the item for its key. */
  function Merge(bundle: seq<ResourceItem>, keyed: seq<Entry>, part: Part): seq<ResourceItem>
    decreases |keyed|
  {
    if keyed == [] then bundle
    else
      var last := keyed[|keyed| - 1];
      SetPart(Merge(bundle, keyed[..|keyed| - 1], part), last.path, part, last.content)
  }

  /** Merging the first `i + 1` entries is merging the first `i`, then setting the part for entry `i`. */
  lemma MergePrefix(bundle: seq<ResourceItem>, keyed: seq<Entry>, part: Part, i: nat)
    requires i < |keyed|
    ensures Merge(bundle, keyed[..i + 1], part) == SetPart(Merge(bundle, keyed[..i], part), keyed[i].path, part, keyed[i].content)
  {
    assert keyed[..i + 1][..i] == keyed[..i];
  }

  /** The component bundle of a finished walk: controllers first, then styles. */
  function Items(ops: PathOps, app: Option<AppConfig>, w: Walk): seq<ResourceItem> {
    Merge(Merge([], Keyed(ops, app, w.controllers), ControllerPart), Keyed(ops, app, w.styles), CssPart)
  }

  predicate UniqueIds(bundle: seq<ResourceItem>) {
    forall i, j :: 0 <= i < j < |bundle| ==> bundle[i].componentId != bundle[j].componentId
  }

  /** The content of the last entry of `list` whose key is `id`. */
  function LastFor(keyed: seq<Entry>, id: string): Option<string>
    decreases |keyed|
  {
    if keyed == [] then None
    else if keyed[|keyed| - 1].path == id then Some(keyed[|keyed| - 1].content)
    else LastFor(keyed[..|keyed| - 1], id)
  }

  /**
   * One `getBundleItem(...).<part> = content`: ids stay unique, the item for
   * `id` holds `content` and keeps its other part, and every other id keeps its
   * position and item.
   */
  lemma SetPartFacts(bundle: seq<ResourceItem>, id: string, part: Part, content: string, x: string)
    requires UniqueIds(bundle)
    ensures var r := SetPart(bundle, id, part, content);
      UniqueIds(r) && FindItem(r, id) == Some(ItemIndex(bundle, id)) &&
      PartOf(r[ItemIndex(bundle, id)], part) == Some(content) &&
      (forall q :: q != part ==> (PartOf(r[ItemIndex(bundle, id)], q) ==
        if FindItem(bundle, id).Some? then PartOf(bundle[ItemIndex(bundle, id)], q) else None)) &&
      (x != id ==> (FindItem(r, x) == FindItem(bundle, x) &&
        (FindItem(bundle, x).Some? ==> r[FindItem(bundle, x).value] == bundle[FindItem(bundle, x).value])))
  {
    var r := SetPart(bundle, id, part, content);
    var i := ItemIndex(bundle, id);
    var b := WithItem(bundle, id);
    assert |r| == |b| && r[i].componentId == id;
    forall j | 0 <= j < |r| && j != i ensures r[j] == b[j] && r[j].componentId != id {
      if j < |bundle| {
        assert b[j] == bundle[j];
      }
    }
    assert FindItem(r, id) == Some(i);
    if x != id {
      var fb, fr := FindItem(bundle, x), FindItem(r, x);
      forall j | 0 <= j < |r| ensures r[j].componentId == x <==> j < |bundle| && bundle[j].componentId == x {
        if j < |bundle| && j != i {
          assert b[j] == bundle[j];
        }
      }
      if fr.Some? {
        assert fb.Some? && fb.value <= fr.value;
      }
      if fb.Some? {
        assert fr.Some? && fr.value <= fb.value;
      }
    }
  }

  /**
   * Merging a list into a bundle with unique ids: ids stay unique; an id that
   * some entry's key equals ends with an item whose part is the content of the
   * last such entry; every other id keeps its item, or still has none; the
   * other part of an item is never changed.
   */
  lemma {:induction false} MergeFacts(bundle: seq<ResourceItem>, keyed: seq<Entry>, part: Part, id: string)
    requires UniqueIds(bundle)
    ensures var r := Merge(bundle, keyed, part);
      UniqueIds(r) &&
      (LastFor(keyed, id).Some? ==> (FindItem(r, id).Some? &&
        PartOf(r[FindItem(r, id).value], part) == LastFor(keyed, id) &&
        forall q :: q != part ==> (PartOf(r[FindItem(r, id).value], q) ==
          if FindItem(bundle, id).Some? then PartOf(bundle[FindItem(bundle, id).value], q) else None))) &&
      (LastFor(keyed, id).None? ==> (FindItem(r, id) == FindItem(bundle, id) &&
        (FindItem(bundle, id).Some? ==> r[FindItem(bundle, id).value] == bundle[FindItem(bundle, id).value])))
    decreases |keyed|
  {
    if keyed != [] {
      var init := keyed[..|keyed| - 1];
      var last := keyed[|keyed| - 1];
      var m := Merge(bundle, init, part);
      MergeFacts(bundle, init, part, id);
      SetPartFacts(m, last.path, part, last.content, id);
      if last.path != id {
        assert LastFor(keyed, id) == LastFor(init, id);
      } else {
        MergeFacts(bundle, init, part, last.path);
      }
    }
  }

  /**
   * The component bundle has one item per key: an item for `id` exists exactly
   * when some controller or style has that key, and its controller and css are
   * those of the last controller and the last style with that key.
   */
  lemma ItemsMeaning(ops: PathOps, app: Option<AppConfig>, w: Walk, id: string)
    ensures var items := Items(ops, app, w);
      var cs, ss := Keyed(ops, app, w.controllers), Keyed(ops, app, w.styles);
      UniqueIds(items) &&
      (FindItem(items, id).Some? <==> LastFor(cs, id).Some? || LastFor(ss, id).Some?) &&
      (FindItem(items, id).Some? ==>
        items[FindItem(items, id).value].controller == LastFor(cs, id) &&
        items[FindItem(items, id).value].css == LastFor(ss, id))
  {
    var empty: seq<ResourceItem> := [];
    var cs, ss := Keyed(ops, app, w.controllers), Keyed(ops, app, w.styles);
    var c := Merge(empty, cs, ControllerPart);
    var items := Items(ops, app, w);
    MergeFacts(empty, cs, ControllerPart, id);
    MergeFacts(c, ss, CssPart, id);
    var fc := FindItem(c, id);
    assert fc.Some? <==> LastFor(cs, id).Some?;
    assert fc.Some? ==> (PartOf(c[fc.value], ControllerPart) == LastFor(cs, id) &&
      PartOf(c[fc.value], CssPart) == None);
    var fi := FindItem(items, id);
    if LastFor(ss, id).Some? {
      assert fi.Some? && PartOf(items[fi.value], CssPart) == LastFor(ss, id);
      assert PartOf(items[fi.value], ControllerPart) == LastFor(cs, id);
    } else {
      assert fi == fc;
    }
  }

  /** `LastFor` on a keyed list: the content of the last entry whose reference has key `id`, if any. */
  lemma LastForMeans(ops: PathOps, app: Option<AppConfig>, list: seq<Entry>, id: string)
    ensures var l := LastFor(Keyed(ops, app, list), id);
      (l.None? <==> forall i :: 0 <= i < |list| ==> BundleKey(ops, app, list[i].path) != id) &&
      (l.Some? ==> exists i :: (0 <= i < |list| && BundleKey(ops, app, list[i].path) == id && l.value == list[i].content &&
        forall j :: i < j < |list| ==> BundleKey(ops, app, list[j].path) != id))
  {
    LastForIndex(Keyed(ops, app, list), id);
  }

  lemma {:induction false} LastForIndex(keyed: seq<Entry>, id: string)
    ensures var l := LastFor(keyed, id);
      (l.None? <==> forall i :: 0 <= i < |keyed| ==> keyed[i].path != id) &&
      (l.Some? ==> exists i :: (0 <= i < |keyed| && keyed[i] == Entry(id, l.value) &&
        forall j :: i < j < |keyed| ==> keyed[j].path != id))
    decreases |keyed|
  {
    if keyed != [] {
      var init := keyed[..|keyed| - 1];
      LastForIndex(init, id);
      if keyed[|keyed| - 1].path != id {
        var l := LastFor(init, id);
        if l.Some? {
          var i :| 0 <= i < |init| && init[i] == Entry(id, l.value) && forall j :: i < j < |init| ==> init[j].path != id;
          assert keyed[i] == init[i];
        }
      }
    }
  }

  // ----- the appended views -----

  /** The fixed text of a view block around its reference, its key and its content. */
  const ViewOpen: string := "\n<!--{["
  const ViewAttr: string := "]}-->\n<div z-view=\""
  const ViewBody: string := "\">\n"
  const ViewClose: string := "\n</div>"

  /**
   * One bundled view as appended to the page body: a comment naming its
   * reference, then a `z-view` wrapper named by its key around its content on
   * lines of its own.
   */
  function ViewBlock(key: string, v: Entry): (r: string)
    ensures |r| == |v.path| + |key| + |v.content| + 36
  {
    ViewOpen + v.path + ViewAttr + key + ViewBody + v.content + ViewClose
  }

  /** A slice within the first part of a concatenation is a slice of that part. */
  lemma InFront(u: string, w: string, i: nat, j: nat)
    requires i <= j <= |u|
    ensures (u + w)[i..j] == u[i..j]
  {
    assert forall n :: i <= n < j ==> (u + w)[n] == u[n];
  }

  /** The second part of a concatenation is the slice after the first. */
  lemma Back(u: string, w: string)
    ensures (u + w)[|u|..] == w && (u + w)[|u|..|u| + |w|] == w
  {
  }

  /** Each of seven concatenated parts is found again at its offset. */
  lemma Parts(a: string, p: string, b: string, k: string, c: string, x: string, d: string)
    ensures var r := a + p + b + k + c + x + d; var o1 := |a| + |p|; var o2 := o1 + |b| + |k|;
      StartsWith(r, a) && r[|a|..o1] == p && r[o1..o1 + |b|] == b && r[o1 + |b|..o2] == k &&
      r[o2..o2 + |c|] == c && r[o2 + |c|..|r| - |d|] == x && EndsWith(r, d)
  {
    var x1 := a + p;
    var x2 := x1 + b;
    var x3 := x2 + k;
    var x4 := x3 + c;
    var x5 := x4 + x;
    var r := x5 + d;
    Back(x5, d);
    Back(x4, x); InFront(x5, d, |x4|, |x5|);
    Back(x3, c); InFront(x4, x, |x3|, |x4|); InFront(x5, d, |x3|, |x4|);
    Back(x2, k); InFront(x3, c, |x2|, |x3|); InFront(x4, x, |x2|, |x3|); InFront(x5, d, |x2|, |x3|);
    Back(x1, b); InFront(x2, k, |x1|, |x2|); InFront(x3, c, |x1|, |x2|); InFront(x4, x, |x1|, |x2|); InFront(x5, d, |x1|, |x2|);
    Back(a, p); InFront(x1, b, |a|, |x1|); InFront(x2, k, |a|, |x1|); InFront(x3, c, |a|, |x1|); InFront(x4, x, |a|, |x1|); InFront(x5, d, |a|, |x1|);
    InFront(a, p, 0, |a|); InFront(x1, b, 0, |a|); InFront(x2, k, 0, |a|); InFront(x3, c, 0, |a|); InFront(x4, x, 0, |a|); InFront(x5, d, 0, |a|);
  }

  /**
   * The layout of a view block: the reference inside the `<!--{[...]}-->`
   * comment, the key as the `z-view` attribute value and the content on lines
   * of its own inside the `div`, each found again at its offset.
   */
  lemma ViewBlockLayout(key: string, v: Entry)
    ensures var r := ViewBlock(key, v); var o1 := |ViewOpen| + |v.path|; var o2 := o1 + |ViewAttr| + |key|;
      StartsWith(r, ViewOpen) && r[|ViewOpen|..o1] == v.path &&
      r[o1..o1 + |ViewAttr|] == ViewAttr && r[o1 + |ViewAttr|..o2] == key &&
      r[o2..o2 + |ViewBody|] == ViewBody && r[o2 + |ViewBody|..|r| - |ViewClose|] == v.content &&
      EndsWith(r, ViewClose)
  {
    Parts(ViewOpen, v.path, ViewAttr, key, ViewBody, v.content, ViewClose);
  }

  /** `bundleViews`: the blocks of all bundled views in order. */
  function ViewsMarkup(keyed: seq<Entry>, views: seq<Entry>): string
    requires |keyed| == |views|
    decreases |views|
  {
    if views == [] then ""
    else ViewsMarkup(keyed[..|views| - 1], views[..|views| - 1]) + ViewBlock(keyed[|views| - 1].path, views[|views| - 1])
  }

  /** The markup of the first `i + 1` views is that of the first `i` followed by the block of view `i`. */
  lemma ViewsMarkupPrefix(keyed: seq<Entry>, views: seq<Entry>, i: nat)
    requires |keyed| == |views| && i < |views|
    ensures ViewsMarkup(keyed[..i + 1], views[..i + 1]) == ViewsMarkup(keyed[..i], views[..i]) + ViewBlock(keyed[i].path, views[i])
  {
    assert views[..i + 1][..i] == views[..i];
    assert keyed[..i + 1][..i] == keyed[..i];
  }

  /** Nothing is appended (`bundleViews.length > 0` fails) exactly when no view was bundled. */
  lemma ViewsMarkupEmpty(keyed: seq<Entry>, views: seq<Entry>)
    requires |keyed| == |views|
    ensures ViewsMarkup(keyed, views) == [] <==> views == []
  {
  }

  // ----- generateApp -----

  /** Something was bundled: the content is re-serialised. */
  predicate Processed(w: Walk) {
    |w.views| > 0 || |w.styles| > 0 || |w.controllers| > 0 || |w.assets| > 0
  }

  /** Neither `<html` nor `<HTML` occurs: the content is a fragment and only its body is emitted. */
  predicate IsFragment(content: string) {
    IndexOf(content, "<html") < 0 && IndexOf(content, "<HTML") < 0
  }

  /** The page handed to the serialiser after a finished walk. */
  function PageOf(env: Env, content: string, w: Walk): Page {
    var zuix := env.options.bundleZuix != Some(false);
    Page(content, IsFragment(content), w.assets,
      if zuix then ViewsMarkup(Keyed(env.host.paths, env.options.app, w.views), w.views) else "",
      if zuix then Items(env.host.paths, env.options.app, w) else [])
  }

  /** The lists emptied at the start of `generateApp`. */
  function Cleared(w: Walk): (r: Walk)
    ensures r.views == [] && r.styles == [] && r.controllers == [] && r.assets == []
    ensures r.hasErrors == w.hasErrors && r.log == w.log
  {
    w.(views := [], styles := [], controllers := [], assets := [])
  }

  /** What `generateApp` returns (None: it threw), the walk it leaves and the statistics. */
  datatype Generated = Generated(content: Option<string>, walk: Walk, stats: map<string, Stat>)

  function GenerateSpec(env: Env, w: Walk, stats: map<string, Stat>, content: string, fileName: string, depth: nat): Generated {
    var o := CreateBundleSpec(env, Cleared(w), content, fileName, depth);
    if !o.completed then Generated(None, o.walk, stats)
    else
      var out := if Processed(o.walk) then env.host.serialize(PageOf(env, content, o.walk)) else content;
      Generated(Some(out), o.walk, StatsAfter(env.options, stats, o.walk))
  }

  /** A page in which nothing was bundled comes back unchanged; one in which something was is re-serialised. */
  lemma GenerateUnchanged(env: Env, w: Walk, stats: map<string, Stat>, content: string, fileName: string, depth: nat)
    ensures var g := GenerateSpec(env, w, stats, content, fileName, depth);
      g.content.Some? ==>
        (!Processed(g.walk) ==> g.content.value == content) &&
        (Processed(g.walk) ==> g.content.value == env.host.serialize(PageOf(env, content, g.walk)))
  {
  }

  // ----- compilePage -----

  /** How `compilePage` ends: -1 after an unreadable input, an exception out of the bundler, or normally (with or without a write). */
  datatype CompileResult = ReadFailed | Threw | Finished(written: bool)

  /** The result, the store afterwards, the walk (error flag and fetch record) and the statistics. */
  datatype Compiled = Compiled(result: CompileResult, files: map<string, string>, walk: Walk, stats: map<string, Stat>)

  /** `minify != null && minify !== false && minify.disable !== true`. */
  predicate MinifyEnabled(m: MinifyOption) {
    m.MinifyOn? && !m.disable
  }

  /** The write at the end of `compilePage`: only when the content changed or the output is another file. */
  function WriteSpec(files: map<string, string>, inputFile: string, outputFile: string, initial: string, content: string,
                     w: Walk, stats: map<string, Stat>): Compiled
  {
    if content != initial || inputFile != outputFile then Compiled(Finished(true), files[outputFile := content], w, stats)
    else Compiled(Finished(false), files, w, stats)
  }

  /** The final write finishes normally; it writes the output exactly when the content changed or the output is another file. */
  lemma WriteSpecRule(files: map<string, string>, inputFile: string, outputFile: string, initial: string, content: string,
                      w: Walk, stats: map<string, Stat>)
    ensures var c := WriteSpec(files, inputFile, outputFile, initial, content, w, stats);
      c.result.Finished? && c.walk == w && c.stats == stats &&
      (c.result.written <==> content != initial || inputFile != outputFile) &&
      (c.result.written ==> c.files == files[outputFile := content]) &&
      (!c.result.written ==> c.files == files)
  {
  }

  /**
   * What `compilePage` makes of the content it read: an `.html` page is
   * bundled (with fresh statistics) and, when asked, minified; any other file
   * is kept as it is. No content: the bundler threw.
   */
  function RenderSpec(env: Env, w: Walk, content: string, rel: string, output: string, depth: nat): Generated {
    if EndsWith(rel, ".html") then
      var g := GenerateSpec(env, w, map[], content, output, depth);
      if g.content.None? then g
      else g.(content := Some(if MinifyEnabled(env.options.minify) then env.host.minify(g.content.value) else g.content.value))
    else Generated(Some(content), w, map[])
  }

  /**
   * `compilePage(rel, out, options)`: the page is read from the base folder; an
   * `.html` page is bundled and, when asked, minified; the result is written
   * to the output (by default the input) under the base folder.
   */
  function CompileSpec(host: Host, options: Options, files: map<string, string>, w: Walk, stats: map<string, Stat>,
                       depth: nat, rel: string, out: Option<string>): Compiled
  {
    var inputFile := host.paths.join([options.baseFolder, rel]);
    if inputFile !in files then Compiled(ReadFailed, files, w.(hasErrors := true), stats)
    else
      var initial := files[inputFile];
      var output := out.GetOr(rel);
      var outputFile := host.paths.join([options.baseFolder, output]);
      var g := RenderSpec(Env(host, options, files), w.(hasErrors := false), initial, rel, output, depth);
      if g.content.None? then Compiled(Threw, files, g.walk, g.stats)
      else WriteSpec(files, inputFile, outputFile, initial, g.content.value, g.walk, g.stats)
  }

  /** An unreadable input sets the error flag, returns -1 and writes nothing. */
  lemma CompileReadFailure(host: Host, options: Options, files: map<string, string>, w: Walk, stats: map<string, Stat>,
                           depth: nat, rel: string, out: Option<string>)
    requires host.paths.join([options.baseFolder, rel]) !in files
    ensures var c := CompileSpec(host, options, files, w, stats, depth, rel, out);
      c.result == ReadFailed && c.files == files && c.walk.hasErrors && c.stats == stats
  {
  }

  /**
   * The store changes only by a write of the output file, and the output file
   * is written exactly when the content changed or it is not the input file;
   * an exception writes nothing.
   */
  lemma CompileWriteRule(host: Host, options: Options, files: map<string, string>, w: Walk, stats: map<string, Stat>,
                         depth: nat, rel: string, out: Option<string>)
    ensures var c := CompileSpec(host, options, files, w, stats, depth, rel, out);
      var inputFile := host.paths.join([options.baseFolder, rel]);
      var outputFile := host.paths.join([options.baseFolder, out.GetOr(rel)]);
      (c.result.Finished? <==> inputFile in files && c.result != Threw) &&
      (c.result.Finished? && c.result.written ==> (c.files == files[outputFile := c.files[outputFile]] &&
        (c.files[outputFile] != files[inputFile] || inputFile != outputFile))) &&
      (!(c.result.Finished? && c.result.written) ==> c.files == files)
  {
    var inputFile := host.paths.join([options.baseFolder, rel]);
    var outputFile := host.paths.join([options.baseFolder, out.GetOr(rel)]);
    if inputFile in files {
      var initial := files[inputFile];
      var g := RenderSpec(Env(host, options, files), w.(hasErrors := false), initial, rel, out.GetOr(rel), depth);
      if g.content.Some? {
        WriteSpecRule(files, inputFile, outputFile, initial, g.content.value, g.walk, g.stats);
      }
    }
  }

  /** A page that is not `.html` is copied verbatim; it is written only when the output is another file. */
  lemma CompileCopiesOtherFiles(host: Host, options: Options, files: map<string, string>, w: Walk, stats: map<string, Stat>,
                                depth: nat, rel: string, out: Option<string>)
    requires !EndsWith(rel, ".html")
    requires host.paths.join([options.baseFolder, rel]) in files
    ensures var c := CompileSpec(host, options, files, w, stats, depth, rel, out);
      var inputFile := host.paths.join([options.baseFolder, rel]);
      var outputFile := host.paths.join([options.baseFolder, out.GetOr(rel)]);
      c.result == Finished(inputFile != outputFile) && !c.walk.hasErrors && c.stats == map[] &&
      c.files == files[outputFile := files[inputFile]]
  {
  }

  /** With no output given, the page is compiled in place: the output is the input. */
  lemma CompileInPlace(host: Host, options: Options, files: map<string, string>, w: Walk, stats: map<string, Stat>,
                       depth: nat, rel: string)
    ensures CompileSpec(host, options, files, w, stats, depth, rel, None) == CompileSpec(host, options, files, w, stats, depth, rel, Some(rel))
  {
  }

  /** An `.html` page compiled in place, with nothing bundled and no minifier, is skipped: the store is unchanged. */
  lemma CompileSkipsUnchanged(host: Host, options: Options, files: map<string, string>, w: Walk, stats: map<string, Stat>,
                              depth: nat, rel: string)
    requires EndsWith(rel, ".html") && !MinifyEnabled(options.minify)
    requires host.paths.join([options.baseFolder, rel]) in files
    requires var g := GenerateSpec(Env(host, options, files), w.(hasErrors := false), map[],
      files[host.paths.join([options.baseFolder, rel])], rel, depth);
      g.content.Some? && !Processed(g.walk)
    ensures var c := CompileSpec(host, options, files, w, stats, depth, rel, None);
      c.result == Finished(false) && c.files == files
  {
  }
}
