/**
 * Path resolution of `commands/compile-page.js`: which references are URLs, how a
 * component reference (possibly a library alias starting with `@`) becomes a file
 * path or URL, and how `<script src>` / `<link href>` references are resolved.
 * Node's `path.join`, `path.dirname` and `url.resolve` are left uninterpreted.
 */
module Paths {
  import opened Base
  import opened Strings

  /** Node's `path.join` (variadic), `url.resolve` and `path.dirname`, whose semantics are not modelled. */
  datatype PathOps = PathOps(
    join: seq<string> -> string,
    resolveUrl: (string, string) -> string,
    dirname: string -> string)

  /** The `app.libraryPath` setting, by its JavaScript type: an object mapping aliases to base URLs (keys in enumeration order), a string, or anything else. */
  datatype LibraryPath =
    | AliasTable(aliases: seq<(string, string)>)
    | SingleLibrary(url: string)
    | NoLibraryPath

  /** The `app` section of the options. */
  datatype AppConfig = AppConfig(resourcePath: string, libraryPath: LibraryPath)

  /** The result of `resolveAppPath`: whether the reference was a library alias, and the path. */
  datatype Resolved = Resolved(lib: bool, path: string)

  const LibraryPathDefault: string := "https://zuixjs.github.io/zkit/lib"

  /** `isUrl`: the first `://` is not at the very start, or the string starts with `//`. */
  predicate IsUrl(s: string) {
    IndexOf(s, "://") > 0 || StartsWith(s, "//")
  }

  /** A reference is a URL exactly when it contains `://` but does not begin with it, or it begins with `//`. */
  lemma IsUrlMeans(s: string)
    ensures IsUrl(s) <==> ((exists i :: OccursAt(s, "://", i)) && !OccursAt(s, "://", 0)) || StartsWith(s, "//")
  {
    var k := IndexOf(s, "://");
    if k == -1 {
      assert forall i :: !OccursAt(s, "://", i);
    } else {
      assert OccursAt(s, "://", k);
    }
  }

  /** Every URL contains a slash. */
  lemma UrlHasSlash(s: string)
    requires IsUrl(s)
    ensures '/' in s
  {
    var k := IndexOf(s, "://");
    if k > 0 {
      assert s[k + 1] == "://"[1];
    } else {
      assert s[0] == "//"[0];
    }
  }

  /** Alias key `k` applies to reference `ref`: `ref` is `k` itself or starts with `k + '/'`. */
  predicate AliasMatches(k: string, ref: string) {
    ref == k || StartsWith(ref, k + "/")
  }

  /** Index of the first entry of `aliases`, from `from` on, whose key applies to `ref`. */
  function AliasFrom(aliases: seq<(string, string)>, ref: string, from: nat): (r: Option<nat>)
    decreases |aliases| - from
    ensures r.Some? ==> (from <= r.value < |aliases| && AliasMatches(aliases[r.value].0, ref)
      && forall j :: from <= j < r.value ==> !AliasMatches(aliases[j].0, ref))
    ensures r.None? ==> forall j :: from <= j < |aliases| ==> !AliasMatches(aliases[j].0, ref)
  {
    if from >= |aliases| then None
    else if AliasMatches(aliases[from].0, ref) then Some(from)
    else AliasFrom(aliases, ref, from + 1)
  }

  /** The library base URL an alias reference resolves against. */
  function LibraryBase(app: Option<AppConfig>, ref: string): string {
    if app.None? then LibraryPathDefault
    else match app.value.libraryPath
      case AliasTable(t) =>
        var i := AliasFrom(t, ref, 0);
        if i.Some? then t[i.value].1 else LibraryPathDefault
      case SingleLibrary(u) => u
      case NoLibraryPath => LibraryPathDefault
  }

  /** `config ? config.resourcePath : ''`. */
  function ResourcePath(app: Option<AppConfig>): string {
    if app.Some? then app.value.resourcePath else ""
  }

  /** `s` with all its leading slashes removed. */
  function StripLeadingSlashes(s: string): (r: string)
    ensures EndsWith(s, r)
    ensures r == [] || r[0] != '/'
    ensures forall k :: 0 <= k < |s| - |r| ==> s[k] == '/'
  {
    if s != [] && s[0] == '/' then StripLeadingSlashes(s[1..]) else s
  }

  /** What `resolveAppPath(basePath, ref)` returns. */
  function AppPath(ops: PathOps, app: Option<AppConfig>, basePath: string, ref: string): Resolved {
    if IsUrl(ref) then Resolved(false, ref)
    else if |ref| > 0 && ref[0] == '@' then
      var base := LibraryBase(app, ref);
      var slash := IndexOf(ref, "/");
      if slash < 0 then Resolved(true, base)
      else
        var u := ops.resolveUrl(base, ref[slash + 1..]);
        if StartsWith(u, "/") then Resolved(true, ops.join([basePath, StripLeadingSlashes(u)]))
        else Resolved(true, u)
    else Resolved(false, ops.join([basePath, ResourcePath(app), ref]))
  }

  /** The library base of `resolveAppPath`: the `for…in` search over the alias table that stops at the first key that applies. */
  method LookupLibraryPath(app: Option<AppConfig>, ref: string) returns (libraryPath: string)
    ensures libraryPath == LibraryBase(app, ref)
  {
    libraryPath := LibraryPathDefault;
    if app.Some? {
      match app.value.libraryPath {
        case AliasTable(t) =>
          var i := 0;
          while i < |t|
            invariant 0 <= i <= |t|
            invariant AliasFrom(t, ref, i) == AliasFrom(t, ref, 0)
            invariant libraryPath == LibraryPathDefault
          {
            if AliasMatches(t[i].0, ref) {
              libraryPath := t[i].1;
              break;
            }
            i := i + 1;
          }
        case SingleLibrary(u) =>
          libraryPath := u;
        case NoLibraryPath =>
      }
    }
  }

  /** The `while (filePath.startsWith('/'))` loop of `resolveAppPath`. */
  method DropLeadingSlashes(s: string) returns (r: string)
    ensures r == StripLeadingSlashes(s)
  {
    r := s;
    while StartsWith(r, "/")
      invariant StripLeadingSlashes(r) == StripLeadingSlashes(s)
      decreases |r|
    {
      assert r[0] == "/"[0];
      r := r[1..];
    }
  }

  /** `resolveAppPath(basePath, ref)`. */
  method ResolveAppPath(ops: PathOps, app: Option<AppConfig>, basePath: string, ref: string) returns (r: Resolved)
    ensures r == AppPath(ops, app, basePath, ref)
  {
    var isLibraryPath := false;
    var filePath := ref;
    if !IsUrl(filePath) {
      if |filePath| > 0 && filePath[0] == '@' {
        var libraryPath := LookupLibraryPath(app, filePath);
        var slash := IndexOf(filePath, "/");
        if slash < 0 {
          filePath := libraryPath;
        } else {
          filePath := ops.resolveUrl(libraryPath, filePath[slash + 1..]);
          if StartsWith(filePath, "/") {
            filePath := DropLeadingSlashes(filePath);
            filePath := ops.join([basePath, filePath]);
          }
        }
        isLibraryPath := true;
      }
      filePath := if isLibraryPath then filePath else ops.join([basePath, ResourcePath(app), filePath]);
    }
    r := Resolved(isLibraryPath, filePath);
  }

  /** A URL passes through unchanged and is not a library path. */
  lemma UrlPassesThrough(ops: PathOps, app: Option<AppConfig>, basePath: string, ref: string)
    requires IsUrl(ref)
    ensures AppPath(ops, app, basePath, ref) == Resolved(false, ref)
  {
  }

  /** A reference that is neither a URL nor an alias is joined under the base and the resource folder. */
  lemma LocalReference(ops: PathOps, app: Option<AppConfig>, basePath: string, ref: string)
    requires !IsUrl(ref) && (ref == [] || ref[0] != '@')
    ensures AppPath(ops, app, basePath, ref) == Resolved(false, ops.join([basePath, ResourcePath(app), ref]))
  {
  }

  /** An alias with no path segment resolves to exactly the library base URL. */
  lemma AliasWithoutSegment(ops: PathOps, app: Option<AppConfig>, basePath: string, ref: string)
    requires |ref| > 0 && ref[0] == '@' && '/' !in ref
    ensures AppPath(ops, app, basePath, ref) == Resolved(true, LibraryBase(app, ref))
  {
    if IsUrl(ref) {
      UrlHasSlash(ref);
    }
  }

  /**
   * An alias with a path segment is resolved against the library base; a result
   * rooted at `/` loses all its leading slashes and is joined onto the base path.
   */
  lemma AliasWithSegment(ops: PathOps, app: Option<AppConfig>, basePath: string, ref: string, lib: string, rest: string)
    requires ref == lib + "/" + rest && |lib| > 0 && lib[0] == '@' && '/' !in lib && !IsUrl(ref)
    ensures var u := ops.resolveUrl(LibraryBase(app, ref), rest);
      AppPath(ops, app, basePath, ref) ==
        if u != [] && u[0] == '/' then
          Resolved(true, ops.join([basePath, u[|u| - |StripLeadingSlashes(u)|..]]))
        else Resolved(true, u)
  {
    assert OccursAt(ref, "/", |lib|);
    forall j | 0 <= j < |lib| ensures !OccursAt(ref, "/", j) {
      assert ref[j] == lib[j];
    }
    assert IndexOf(ref, "/") == |lib|;
    assert ref[|lib| + 1..] == rest;
  }

  /** The alias table decides the base by the first key that applies, in enumeration order. */
  lemma FirstAliasWins(app: AppConfig, ref: string, i: nat)
    requires app.libraryPath.AliasTable? && i < |app.libraryPath.aliases|
    requires AliasMatches(app.libraryPath.aliases[i].0, ref)
    requires forall j :: 0 <= j < i ==> !AliasMatches(app.libraryPath.aliases[j].0, ref)
    ensures LibraryBase(Some(app), ref) == app.libraryPath.aliases[i].1
  {
  }

  /** Without a matching key the default library base is used. */
  lemma NoAliasDefault(app: AppConfig, ref: string)
    requires app.libraryPath.AliasTable?
    requires forall j :: 0 <= j < |app.libraryPath.aliases| ==> !AliasMatches(app.libraryPath.aliases[j].0, ref)
    ensures LibraryBase(Some(app), ref) == LibraryPathDefault
  {
    assert AliasFrom(app.libraryPath.aliases, ref, 0).None?;
  }

  /** `resolveResourcePath(file, ref)`: a `<script src>` / `<link href>` reference resolved for the page `file`. */
  function ResourceFilePath(ops: PathOps, baseFolder: string, file: string, ref: string): string {
    if !IsUrl(ref) then
      if StartsWith(ref, "/") then ops.join([baseFolder, ref[1..]])
      else ops.join([ops.dirname(ops.join([baseFolder, file])), ref])
    else ref
  }

  /** Only relative references depend on the page they appear in: URLs pass through and `/`-rooted ones hang off the base folder. */
  lemma ResourcePathIndependentOfPage(ops: PathOps, baseFolder: string, f1: string, f2: string, ref: string)
    requires IsUrl(ref) || StartsWith(ref, "/")
    ensures ResourceFilePath(ops, baseFolder, f1, ref) == ResourceFilePath(ops, baseFolder, f2, ref)
    ensures IsUrl(ref) ==> ResourceFilePath(ops, baseFolder, f1, ref) == ref
  {
  }
}
