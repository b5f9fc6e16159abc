/**
 * Path -> folder resolution: `getColorForPath` of extension.js, a
 * first-match substring search over the folder table in iteration order,
 * and the scan loop of the memoised copy in test/standalone_test.js.
 */
module PathResolver {
  import opened Wrappers

  /** A table entry `[folderName, color]`, and the `{ name, color }` a resolution returns. */
  datatype FolderInfo = FolderInfo(name: string, color: string)

  /** needle occurs in haystack starting at index i. */
  predicate OccursAt(haystack: string, needle: string, i: int) {
    0 <= i && i + |needle| <= |haystack| && haystack[i..i + |needle|] == needle
  }

  /** `haystack.includes(needle)`. */
  function Includes(haystack: string, needle: string): bool
    decreases |haystack|
  {
    if |needle| > |haystack| then false
    else if haystack[..|needle|] == needle then true
    else Includes(haystack[1..], needle)
  }

  /** Includes holds exactly when the needle occurs at some index. */
  lemma {:induction false} IncludesIffOccurs(haystack: string, needle: string)
    ensures Includes(haystack, needle) <==> exists i :: OccursAt(haystack, needle, i)
    decreases |haystack|
  {
    if |needle| > |haystack| {
      forall i | 0 <= i ensures !OccursAt(haystack, needle, i) { }
    } else if haystack[..|needle|] == needle {
      assert OccursAt(haystack, needle, 0);
    } else {
      IncludesIffOccurs(haystack[1..], needle);
      if exists i :: OccursAt(haystack[1..], needle, i) {
        var i :| OccursAt(haystack[1..], needle, i);
        assert haystack[i + 1..i + 1 + |needle|] == haystack[1..][i..i + |needle|];
        assert OccursAt(haystack, needle, i + 1);
      }
      if exists i :: OccursAt(haystack, needle, i) {
        var i :| OccursAt(haystack, needle, i);
        assert i != 0;
        assert haystack[1..][i - 1..i - 1 + |needle|] == haystack[i..i + |needle|];
        assert OccursAt(haystack[1..], needle, i - 1);
      }
    }
  }

  /** A needle holding a character the haystack lacks is never included. */
  lemma MissingCharExcludes(haystack: string, needle: string, c: char)
    requires c in needle && c !in haystack
    ensures !Includes(haystack, needle)
  {
    IncludesIffOccurs(haystack, needle);
  }

  /** The match test of `getColorForPath`: `/name/` or `\name\` occurs in the path. */
  predicate InFolder(path: string, name: string) {
    Includes(path, "/" + name + "/") || Includes(path, "\\" + name + "\\")
  }

  /** A path separator of either platform. */
  predicate IsSeparator(c: char) {
    c == '/' || c == '\\'
  }

  /** name occurs at i + 1, between two copies of the same separator. */
  predicate Bracketed(path: string, name: string, i: int) {
    0 <= i && i + |name| + 2 <= |path| && IsSeparator(path[i])
    && path[i + 1..i + 1 + |name|] == name && path[i + |name| + 1] == path[i]
  }

  lemma BracketSplit(s: string, c: char, name: string)
    requires |s| == |name| + 2
    ensures s == [c] + name + [c] <==> s[0] == c && s[1..|s| - 1] == name && s[|s| - 1] == c
  {
    if s[0] == c && s[1..|s| - 1] == name && s[|s| - 1] == c {
      assert s == [s[0]] + s[1..|s| - 1] + [s[|s| - 1]];
    }
  }

  lemma OccursBracketed(path: string, name: string, c: char, i: int)
    requires IsSeparator(c)
    ensures OccursAt(path, [c] + name + [c], i) <==> Bracketed(path, name, i) && path[i] == c
  {
    if 0 <= i && i + |name| + 2 <= |path| {
      var s := path[i..i + |name| + 2];
      BracketSplit(s, c, name);
      var mid, seg := s[1..|s| - 1], path[i + 1..i + 1 + |name|];
      assert forall k :: 0 <= k < |name| ==> mid[k] == seg[k];
      assert mid == seg;
    }
  }

  /**
   * A name matches exactly when the path holds it with the same separator
   * directly before and after it: a bare name, or one between a slash and a
   * backslash, does not match.
   */
  lemma InFolderIffBracketed(path: string, name: string)
    ensures InFolder(path, name) <==> exists i :: Bracketed(path, name, i)
  {
    var slash, back := "/" + name + "/", "\\" + name + "\\";
    assert slash == ['/'] + name + ['/'];
    assert back == ['\\'] + name + ['\\'];
    IncludesIffOccurs(path, slash);
    IncludesIffOccurs(path, back);
    forall i ensures Bracketed(path, name, i) <==> OccursAt(path, slash, i) || OccursAt(path, back, i) {
      OccursBracketed(path, name, '/', i);
      OccursBracketed(path, name, '\\', i);
    }
  }

  /** The `for ... of Object.entries(folders)` loop with its early return. */
  function FirstMatch(path: string, table: seq<FolderInfo>): (r: Option<FolderInfo>)
    ensures r.None? <==> forall i :: 0 <= i < |table| ==> !InFolder(path, table[i].name)
    ensures r.Some? ==> exists i :: (0 <= i < |table| && r.value == table[i] && InFolder(path, table[i].name)
      && forall j :: 0 <= j < i ==> !InFolder(path, table[j].name))
  {
    if table == [] then None
    else if InFolder(path, table[0].name) then Some(table[0])
    else
      var r := FirstMatch(path, table[1..]);
      assert r.Some? ==> exists i :: (1 <= i < |table| && r.value == table[i] && InFolder(path, table[i].name)
        && forall j :: 0 <= j < i ==> !InFolder(path, table[j].name));
      r
  }

  /**
   * `getColorForPath(filePath)` of extension.js: the empty path resolves to
   * nothing; otherwise the first entry, in table order, whose name occurs in
   * the path between two slashes or two backslashes.
   */
  function Resolve(path: string, table: seq<FolderInfo>): (r: Option<FolderInfo>)
    ensures r.None? <==> path == "" || forall i :: 0 <= i < |table| ==> !InFolder(path, table[i].name)
    ensures r.Some? ==> exists i :: (0 <= i < |table| && r.value == table[i] && InFolder(path, table[i].name)
      && forall j :: 0 <= j < i ==> !InFolder(path, table[j].name))
  {
    if path == "" then None else FirstMatch(path, table)
  }

  /**
   * The scan of the memoised `getColorForPath` in test/standalone_test.js:
   * a `for` loop over the entries that stops at the first match.
   */
  method ScanFolders(path: string, table: seq<FolderInfo>) returns (result: Option<FolderInfo>)
    ensures result == FirstMatch(path, table)
  {
    result := None;
    var i := 0;
    while i < |table|
      invariant 0 <= i <= |table|
      invariant FirstMatch(path, table) == FirstMatch(path, table[i..])
    {
      if InFolder(path, table[i].name) {
        result := Some(table[i]);
        break;
      }
      assert table[i..][1..] == table[i + 1..];
      i := i + 1;
    }
  }

  /** Resolution picks entry i when it is the first entry that matches. */
  lemma ResolveAt(path: string, table: seq<FolderInfo>, i: nat)
    requires path != "" && i < |table| && InFolder(path, table[i].name)
    requires forall j :: 0 <= j < i ==> !InFolder(path, table[j].name)
    ensures Resolve(path, table) == Some(table[i])
  {
  }

  /** A name holding a character absent from the path does not match. */
  lemma NotInFolderIfCharMissing(path: string, name: string, c: char)
    requires c in name && c !in path
    ensures !InFolder(path, name)
  {
    MissingCharExcludes(path, "/" + name + "/", c);
    MissingCharExcludes(path, "\\" + name + "\\", c);
  }

  /** A name written between two copies of one separator matches. */
  lemma InFolderOfConcat(prefix: string, sep: char, name: string, suffix: string)
    requires IsSeparator(sep)
    ensures InFolder(prefix + [sep] + name + [sep] + suffix, name)
  {
    var path := prefix + [sep] + name + [sep] + suffix;
    assert path[|prefix| + 1..|prefix| + 1 + |name|] == name;
    assert Bracketed(path, name, |prefix|);
    InFolderIffBracketed(path, name);
  }

  // Facts about the sample paths of the tests.

  lemma WindowsPathMatchesFrontend(path: string)
    requires path == "C:\\projects\\my-app\\frontend\\src\\index.js"
    ensures InFolder(path, "frontend")
  {
    assert path == "C:\\projects\\my-app" + ['\\'] + "frontend" + ['\\'] + "src\\index.js";
    InFolderOfConcat("C:\\projects\\my-app", '\\', "frontend", "src\\index.js");
  }

  lemma LinuxPathMatchesBackend(path: string)
    requires path == "/home/user/backend/api/main.py"
    ensures InFolder(path, "backend")
  {
    assert path == "/home/user" + ['/'] + "backend" + ['/'] + "api/main.py";
    InFolderOfConcat("/home/user", '/', "backend", "api/main.py");
  }

  lemma LinuxPathMissesFrontend(path: string)
    requires path == "/home/user/backend/api/main.py"
    ensures !InFolder(path, "frontend")
  {
    NotInFolderIfCharMissing(path, "frontend", 'f');
  }

  lemma LinuxPathMatchesApi(path: string)
    requires path == "/home/user/backend/api/main.py"
    ensures InFolder(path, "api")
  {
    assert path == "/home/user/backend" + ['/'] + "api" + ['/'] + "main.py";
    InFolderOfConcat("/home/user/backend", '/', "api", "main.py");
  }
}
