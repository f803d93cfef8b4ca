/**
 * Identifier helpers of `common/utils.js`: turning a hyphenated component name
 * into a JavaScript identifier and a class name.
 */
module Identifiers {
  import opened Strings

  predicate IsLower(c: char) { 'a' <= c <= 'z' }
  predicate IsDigit(c: char) { '0' <= c <= '9' }

  /** The character class `[a-z0-9_$-]` that may follow a hyphen in a match. */
  predicate Follows(c: char) {
    IsLower(c) || IsDigit(c) || c == '_' || c == '$' || c == '-'
  }

  /** Upper case of an ASCII character: `a`-`z` become `A`-`Z`, everything else is kept. */
  function ToUpper(c: char): char {
    if IsLower(c) then (c as int - 'a' as int + 'A' as int) as char else c
  }

  /**
   * `String.prototype.toUpperCase` on a string of one character. It follows
   * Unicode's full case mapping, so one character may become several (`ß` gives
   * `SS`); the host supplies it.
   */
  type CaseMap = string -> string

  predicate IsAscii(c: char) { c < 128 as char }

  /** What every JavaScript engine's case mapping does on ASCII: exactly `ToUpper`. */
  predicate AsciiCompatible(upper: CaseMap) {
    forall c :: IsAscii(c) ==> upper([c]) == [ToUpper(c)]
  }

  /**
   * What the replace callback returns for the match `'-' + c`: `'_'` followed by `c`
   * (a hyphen becoming a second underscore) when `c` is one of `_$-` or a digit, and
   * `c` upper-cased otherwise.
   */
  function Replacement(c: char): (r: string)
    requires Follows(c)
    ensures IsLower(c) ==> r == [ToUpper(c)]
    ensures IsDigit(c) || c == '$' || c == '_' ==> r == ['_', c]
    ensures c == '-' ==> r == "__"
  {
    if c in "_$-" || IsDigit(c) then ['_', if c == '-' then '_' else c] else [ToUpper(c)]
  }

  /**
   * `hyphensToCamelCase(s)`: the global, left-to-right, non-overlapping replacement of
   * every match of `-([a-z0-9_$-])`. A hyphen that does not start a match is kept.
   */
  function HyphensToCamelCase(s: string): string
  {
    if |s| >= 2 && s[0] == '-' && Follows(s[1]) then Replacement(s[1]) + HyphensToCamelCase(s[2..])
    else if s == [] then []
    else [s[0]] + HyphensToCamelCase(s[1..])
  }

  /** No hyphen of `s` starts a match: each is last or followed by a character outside the class. */
  predicate NoMatch(s: string) {
    forall i :: 0 <= i < |s| - 1 && s[i] == '-' ==> !Follows(s[i + 1])
  }

  /** A hyphen followed by a lower-case letter becomes that letter upper-cased. */
  lemma HyphenLetter(c: char, t: string)
    requires IsLower(c)
    ensures HyphensToCamelCase(['-', c] + t) == [ToUpper(c)] + HyphensToCamelCase(t)
    ensures 'A' <= ToUpper(c) <= 'Z'
  {
    assert (['-', c] + t)[2..] == t;
  }

  /** A hyphen followed by a digit, `_` or `$` becomes `'_'` and that character; two hyphens become two underscores. */
  lemma HyphenOther(c: char, t: string)
    requires IsDigit(c) || c == '_' || c == '$' || c == '-'
    ensures HyphensToCamelCase(['-', c] + t) == ['_', if c == '-' then '_' else c] + HyphensToCamelCase(t)
  {
    assert (['-', c] + t)[2..] == t;
  }

  /** Text without hyphens is copied as it is in front of whatever follows. */
  lemma {:induction false} PlainPrefix(p: string, t: string)
    requires '-' !in p
    ensures HyphensToCamelCase(p + t) == p + HyphensToCamelCase(t)
  {
    if p != [] {
      assert (p + t)[1..] == p[1..] + t;
      PlainPrefix(p[1..], t);
    } else {
      assert p + t == t;
    }
  }

  /** Matches do not overlap: in `a--b` the second hyphen is consumed by the first match. */
  lemma DoubleHyphenExample()
    ensures HyphensToCamelCase("a--b") == "a__b"
  {
    var b, a := "b", "a";
    HyphenOther('-', b);
    PlainPrefix(b, "");
    PlainPrefix(a, ['-', '-'] + b);
    assert "a--b" == a + (['-', '-'] + b);
    assert "a__b" == a + (['_', '_'] + b);
  }

  /** A string in which no hyphen starts a match (in particular one with no hyphen) is returned unchanged. */
  lemma {:induction false} NoMatchUnchanged(s: string)
    requires NoMatch(s)
    ensures HyphensToCamelCase(s) == s
  {
    if s != [] {
      assert NoMatch(s[1..]) by {
        forall i | 0 <= i < |s[1..]| - 1 && s[1..][i] == '-' ensures !Follows(s[1..][i + 1]) {
          assert s[i + 1] == '-';
        }
      }
      NoMatchUnchanged(s[1..]);
    }
  }

  /** The result is never longer than the input: each match of two characters becomes one or two. */
  lemma {:induction false} NotLonger(s: string)
    ensures |HyphensToCamelCase(s)| <= |s|
  {
    if |s| >= 2 && s[0] == '-' && Follows(s[1]) {
      NotLonger(s[2..]);
    } else if s != [] {
      NotLonger(s[1..]);
    }
  }

  /** The result has no match left; the first character of a nonempty result comes from the first two of the input. */
  lemma {:induction false} ResultHasNoMatch(s: string)
    ensures NoMatch(HyphensToCamelCase(s))
  {
    var r := HyphensToCamelCase(s);
    if |s| >= 2 && s[0] == '-' && Follows(s[1]) {
      var t := HyphensToCamelCase(s[2..]);
      ResultHasNoMatch(s[2..]);
      var p := Replacement(s[1]);
      assert r == p + t;
      forall i | 0 <= i < |r| - 1 && r[i] == '-' ensures !Follows(r[i + 1]) {
        assert i >= |p|;
        assert r[i] == t[i - |p|] && r[i + 1] == t[i - |p| + 1];
      }
    } else if s != [] {
      var t := HyphensToCamelCase(s[1..]);
      ResultHasNoMatch(s[1..]);
      assert r == [s[0]] + t;
      forall i | 0 <= i < |r| - 1 && r[i] == '-' ensures !Follows(r[i + 1]) {
        if i == 0 {
          // a kept hyphen is followed by a character outside the class, which is copied
          assert s[0] == '-' && |s| >= 2 && !Follows(s[1]);
          assert s[1] != '-';
          var u := s[1..];
          assert u != [] && !(|u| >= 2 && u[0] == '-');
          assert t == [u[0]] + HyphensToCamelCase(u[1..]);
          assert r[1] == s[1];
        } else {
          assert r[i] == t[i - 1] && r[i + 1] == t[i];
        }
      }
    }
  }

  /** Converting twice is converting once. */
  lemma Idempotent(s: string)
    ensures HyphensToCamelCase(HyphensToCamelCase(s)) == HyphensToCamelCase(s)
  {
    ResultHasNoMatch(s);
    NoMatchUnchanged(HyphensToCamelCase(s));
  }

  /**
   * `path.basename(s + '.js', '.js')` of Node's POSIX path module: the last
   * segment of `s`; `.js` when `s` ends with a slash; empty for empty `s`.
   */
  function BaseName(s: string): (r: string)
    ensures '/' !in r
  {
    if s == [] then ""
    else if s[|s| - 1] == '/' then ".js"
    else LastSegment(s)
  }

  /** The text after the last `/` of `s` (all of `s` when it has none). */
  function LastSegment(s: string): (r: string)
    ensures '/' !in r
    ensures EndsWith(s, r)
    ensures |r| < |s| ==> s[|s| - |r| - 1] == '/'
  {
    if s == [] then []
    else if s[|s| - 1] == '/' then []
    else LastSegment(s[..|s| - 1]) + [s[|s| - 1]]
  }

  /** `classNameFromHyphens(s)`: the camel-cased base name with its first character upper-cased by `upper`. */
  function ClassNameFromHyphens(upper: CaseMap, s: string): string {
    var name := HyphensToCamelCase(BaseName(s));
    if name == [] then [] else upper([name[0]]) + name[1..]
  }

  /** The class name depends only on the last segment of a path that does not end with a slash. */
  lemma {:induction false} ClassNameOfLastSegment(upper: CaseMap, dir: string, name: string)
    requires name != [] && '/' !in name
    ensures ClassNameFromHyphens(upper, dir + "/" + name) == ClassNameFromHyphens(upper, name)
    ensures BaseName(name) == name
  {
    LastSegmentOfName(dir + "/", name);
    LastSegmentOfName([], name);
    assert [] + name == name;
  }

  lemma {:induction false} LastSegmentOfName(d: string, name: string)
    requires '/' !in name && (d == [] || d[|d| - 1] == '/')
    ensures LastSegment(d + name) == name
    decreases |name|
  {
    if name == [] {
      assert d + name == d;
    } else {
      var s := d + name;
      assert s[..|s| - 1] == d + name[..|name| - 1];
      LastSegmentOfName(d, name[..|name| - 1]);
      assert name == name[..|name| - 1] + [name[|name| - 1]];
    }
  }

  /**
   * The class name is the camel-cased base name with its first character
   * replaced by that character's upper case; when that character is ASCII, the
   * name keeps its length and only the first character changes, to one that is
   * not a lower-case letter.
   */
  lemma ClassNameShape(upper: CaseMap, s: string)
    ensures var name := HyphensToCamelCase(BaseName(s)); var r := ClassNameFromHyphens(upper, s);
      name == [] ==> r == []
    ensures var name := HyphensToCamelCase(BaseName(s)); var r := ClassNameFromHyphens(upper, s);
      name != [] ==> |r| == |upper([name[0]])| + |name| - 1 && StartsWith(r, upper([name[0]])) && EndsWith(r, name[1..])
    ensures var name := HyphensToCamelCase(BaseName(s)); var r := ClassNameFromHyphens(upper, s);
      name != [] && AsciiCompatible(upper) && IsAscii(name[0]) ==>
        |r| == |name| && r[1..] == name[1..] && !IsLower(r[0])
  {
    var name := HyphensToCamelCase(BaseName(s));
    if name != [] {
      var u := upper([name[0]]);
      var r := u + name[1..];
      assert r[..|u|] == u && r[|r| - |name[1..]|..] == name[1..];
      if AsciiCompatible(upper) && IsAscii(name[0]) {
        assert u == [ToUpper(name[0])];
      }
    }
  }

  /** The camel-cased base name of `ß-x` is `ßX`. */
  lemma SharpSName(s: string)
    requires s == ['ß', '-', 'x']
    ensures HyphensToCamelCase(BaseName(s)) == ['ß', 'X']
  {
    var t := s[1..];
    assert t == ['-', 'x'] + [];
    LastSegmentOfName([], s);
    assert [] + s == s;
    HyphenLetter('x', []);
    assert HyphensToCamelCase(t) == ['X'];
    assert s == ['ß'] + t;
    PlainPrefix(['ß'], t);
  }

  /** A non-ASCII first character may grow: with `"ß".toUpperCase() == "SS"`, `ß-x` becomes `SSX`, one character more than its camel-cased name. */
  lemma SharpSExample(upper: CaseMap, s: string)
    requires s == ['ß', '-', 'x'] && upper(['ß']) == ['S', 'S']
    ensures ClassNameFromHyphens(upper, s) == ['S', 'S', 'X']
    ensures |ClassNameFromHyphens(upper, s)| == |HyphensToCamelCase(BaseName(s))| + 1
  {
    SharpSName(s);
    var name := HyphensToCamelCase(BaseName(s));
    assert [name[0]] == ['ß'] && name[1..] == ['X'];
  }
}
