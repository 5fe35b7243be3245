/** The part of Python's `pathlib.PurePosixPath` that extension resolution uses:
    the final component of a path (`.name`) and its suffix (`.suffix`). */
module PurePath {
  import opened PyText

  /** `PurePosixPath(path).name`: the last component, skipping empty components
      (repeated or trailing `/`) and `.` components; empty when there is none. */
  function Name(path: string): (r: string)
    ensures '/' !in r && r != "."
    decreases |path|
  {
    var i := LastIndexOf(path, '/');
    var last := path[i + 1..];
    if last != "" && last != "." then
      LastIndexOfAfter(path, '/');
      last
    else if i < 0 then ""
    else Name(path[..i])
  }

  /** `PurePosixPath(name).suffix` for a final component: from the last `.` on,
      provided that dot is neither the first nor the last character. */
  function Suffix(name: string): (r: string)
    ensures r == [] || (|r| >= 2 && r[0] == '.' && '.' !in r[1..])
    ensures r != [] <==> 0 < LastIndexOf(name, '.') < |name| - 1
    ensures r != [] ==> |r| < |name| && r == name[|name| - |r|..]
  {
    var i := LastIndexOf(name, '.');
    if 0 < i < |name| - 1 then
      assert name[i..][1..] == name[i + 1..];
      name[i..]
    else ""
  }

  /** A name `stem.ext` with a non-empty stem and a dot-free `ext` has suffix `.ext`. */
  lemma SuffixOfDottedName(stem: string, ext: string)
    requires stem != "" && ext != "" && '.' !in ext
    ensures Suffix(stem + "." + ext) == "." + ext
  {
    var name := stem + "." + ext;
    assert LastIndexOf(name, '.') == |stem| by {
      assert name == stem + ['.'] + ext;
      LastIndexOfLast(stem, '.', ext);
    }
    assert name[|stem|..] == "." + ext;
  }

  /** A name without path separators is its own final component. */
  lemma PlainName(path: string)
    requires '/' !in path && path != "" && path != "."
    ensures Name(path) == path
  {
    LastIndexOfAbsent(path, '/');
    assert path[0..] == path;
  }

  /** The text after the last `/`, when it is neither empty nor `.`, is the
      final component. */
  lemma NameOfChild(parent: string, child: string)
    requires '/' !in child && child != "" && child != "."
    ensures Name(parent + "/" + child) == child
  {
    var path := parent + "/" + child;
    assert path == parent + ['/'] + child;
    LastIndexOfLast(parent, '/', child);
    assert path[|parent| + 1..] == child;
  }

  /** A trailing `/` does not change the final component. */
  lemma NameOfTrailingSlash(parent: string)
    ensures Name(parent + "/") == Name(parent)
  {
    var path := parent + "/";
    assert path == parent + ['/'] + [];
    LastIndexOfLast(parent, '/', []);
    assert path[..|parent|] == parent;
  }

  /** A trailing `/.` does not change the final component. */
  lemma NameOfTrailingDot(parent: string)
    ensures Name(parent + "/.") == Name(parent)
  {
    var path := parent + "/.";
    assert path == parent + ['/'] + ['.'];
    LastIndexOfLast(parent, '/', ['.']);
    assert path[|parent| + 1..] == ".";
    assert path[..|parent|] == parent;
  }

  /** The text after the last `/` (the whole path when there is none) is a
      component: neither empty nor `.`. */
  predicate EndsInComponent(path: string)
  {
    var last := path[LastIndexOf(path, '/') + 1..];
    last != "" && last != "."
  }

  /** Lowering a path lowers its final component. */
  lemma {:induction false} NameOfLower(path: string)
    ensures Name(Lower(path)) == Lower(Name(path))
    decreases |path|
  {
    var i := LastIndexOf(path, '/');
    if EndsInComponent(path) {
      NameOfLowerKept(path);
    } else if i < 0 {
      NameOfLowerBare(path);
    } else {
      NameOfLower(path[..i]);
      NameOfLowerSkipped(path);
    }
  }

  /** When the text after the last `/` is a component, it is the final one. */
  lemma NameOfComponentEnd(path: string)
    requires EndsInComponent(path)
    ensures Name(path) == path[LastIndexOf(path, '/') + 1..]
  {
  }

  /** The case where the text after the last `/` is the final component. */
  lemma NameOfLowerKept(path: string)
    requires EndsInComponent(path)
    ensures Name(Lower(path)) == Lower(Name(path))
  {
    var lowered := Lower(path);
    var i := LastIndexOf(path, '/');
    var last := path[i + 1..];
    NameOfComponentEnd(path);
    LastIndexOfLower(path, '/');
    LowerFrom(path, i + 1);
    LowerIsDotIff(last);
    assert EndsInComponent(lowered);
    NameOfComponentEnd(lowered);
  }

  /** The case of a path with no `/` and no component at all: `""` or `.`,
      which lowering keeps as they are. */
  lemma NameOfLowerBare(path: string)
    requires !EndsInComponent(path) && LastIndexOf(path, '/') < 0
    ensures Name(Lower(path)) == Lower(Name(path))
  {
    assert path[LastIndexOf(path, '/') + 1..] == path;
    assert path == "" || path == ".";
    assert Name(path) == "";
    LowerIsDotIff(path);
    assert Lower(path) == path;
  }

  /** The case where the final component lies before the last `/`. */
  lemma NameOfLowerSkipped(path: string)
    requires !EndsInComponent(path) && LastIndexOf(path, '/') >= 0
    requires var i := LastIndexOf(path, '/'); Name(Lower(path[..i])) == Lower(Name(path[..i]))
    ensures Name(Lower(path)) == Lower(Name(path))
  {
    var i := LastIndexOf(path, '/');
    var last := path[i + 1..];
    LastIndexOfLower(path, '/');
    LowerFrom(path, i + 1);
    LowerIsDotIff(last);
    LowerUpTo(path, i);
    assert Name(Lower(path)) == Name(Lower(path)[..i]);
  }

  lemma LowerIsDotIff(s: string)
    ensures Lower(s) == "" <==> s == ""
    ensures Lower(s) == "." <==> s == "."
  {
    if |s| == 1 && Lower(s) == "." {
      assert LowerChar(s[0]) == '.';
    }
  }

  /** Lowering a name lowers its suffix. */
  lemma SuffixOfLower(name: string)
    ensures Suffix(Lower(name)) == Lower(Suffix(name))
  {
    LastIndexOfLower(name, '.');
    var i := LastIndexOf(name, '.');
    if 0 < i < |name| - 1 {
      LowerFrom(name, i);
    }
  }
}
