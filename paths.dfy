/**
  The pieces of Python's `str` and `os.path` that the photo parser uses,
  on paths written as character sequences.
 */
module Paths {
  import opened Text

  /** `s.endswith(suffix)`: characters are compared exactly, so the test is
      case-sensitive (".PNG" does not end with ".png"). */
  predicate EndsWith(s: string, suffix: string)
  {
    |suffix| <= |s| && s[|s| - |suffix|..] == suffix
  }

  /** Of two suffixes of one text, the shorter is a suffix of the longer. */
  lemma SuffixOfSuffix(s: string, a: string, b: string)
    requires EndsWith(s, a) && EndsWith(s, b) && |a| <= |b|
    ensures EndsWith(b, a)
  {
    assert b[|b| - |a|..] == s[|s| - |a|..];
  }

  /** A character the model treats as ending the folder, so that joining adds
      no separator after it: both count on Windows, where `os.path.join`
      stops at either; on POSIX only '/' does (see `Join`'s limits). */
  predicate IsSep(c: char)
  {
    c == '/' || c == '\\'
  }

  /** `os.path.join(folder, name)` for a relative `name`: the name alone when
      the folder is empty, no separator added when the folder already ends in
      one, otherwise one separator in between. */
  function Join(folder: string, name: string): (r: string)
    ensures |folder| <= |r| && r[..|folder|] == folder
    ensures EndsWith(r, name)
    ensures |r| == |folder| + |name| || |r| == |folder| + |name| + 1
    ensures |r| == |folder| + |name| + 1 <==> folder != [] && !IsSep(folder[|folder| - 1])
    ensures |r| == |folder| + |name| + 1 ==> r[|folder|] == '/'
  {
    if folder == [] then name
    else if IsSep(folder[|folder| - 1]) then folder + name
    else folder + "/" + name
  }

  /** `p.replace("\\", "/")`: every backslash becomes a forward slash and
      every other character stays where it is. */
  function Normalize(p: string): (r: string)
    ensures |r| == |p|
    ensures forall i :: 0 <= i < |p| ==> r[i] == if p[i] == '\\' then '/' else p[i]
    ensures '\\' !in r
  {
    if p == [] then []
    else Normalize(p[..|p| - 1]) + [if p[|p| - 1] == '\\' then '/' else p[|p| - 1]]
  }

  /** Normalising works character by character, so it distributes over `+`. */
  lemma NormalizeAppend(a: string, b: string)
    ensures Normalize(a + b) == Normalize(a) + Normalize(b)
  {
    var l, r := Normalize(a + b), Normalize(a) + Normalize(b);
    assert |l| == |r|;
    forall i | 0 <= i < |l| ensures l[i] == r[i] {
      if i < |a| {
        assert (a + b)[i] == a[i];
      } else {
        assert (a + b)[i] == b[i - |a|];
      }
    }
  }

  /** A path without backslashes is left as it is. */
  lemma NormalizeIdentity(p: string)
    requires '\\' !in p
    ensures Normalize(p) == p
  {
    var r := Normalize(p);
    forall i | 0 <= i < |p| ensures r[i] == p[i] {
      assert p[i] in p;
    }
  }

  /** Normalising twice is the same as normalising once. */
  lemma NormalizeIdempotent(p: string)
    ensures Normalize(Normalize(p)) == Normalize(p)
  {
    NormalizeIdentity(Normalize(p));
  }

  /** `os.path.basename` of a path whose separators are all '/': the text
      after the last '/', or the whole path when it has none. */
  function Basename(p: string): (r: string)
    ensures '/' !in r
    ensures EndsWith(p, r)
    ensures |r| < |p| ==> p[|p| - |r| - 1] == '/'
  {
    p[LastIndex(p, '/') + 1..]
  }

  /** A path without '/' is its own base name. */
  lemma BasenameWhole(p: string)
    requires '/' !in p
    ensures Basename(p) == p
  {
  }

  /** Adding a character other than '/' to a path adds it to the base name. */
  lemma BasenameSnoc(p: string, c: char)
    requires c != '/'
    ensures Basename(p + [c]) == Basename(p) + [c]
  {
    var q := p + [c];
    assert q[..|p|] == p;
    assert LastIndex(q, '/') == LastIndex(p, '/');
  }

  /** A directory part (empty or ending in '/') in front of a path does not
      change its base name. */
  lemma {:induction false} BasenameAfterDirectory(dir: string, name: string)
    requires dir == [] || dir[|dir| - 1] == '/'
    ensures Basename(dir + name) == Basename(name)
  {
    if name == [] {
      assert dir + name == dir;
      assert dir != [] ==> LastIndex(dir, '/') == |dir| - 1;
    } else {
      var init, c := name[..|name| - 1], name[|name| - 1];
      assert name == init + [c];
      assert dir + name == (dir + init) + [c];
      if c != '/' {
        BasenameAfterDirectory(dir, init);
        BasenameSnoc(dir + init, c);
        BasenameSnoc(init, c);
      } else {
        assert LastIndex(dir + name, '/') == |dir + name| - 1;
        assert LastIndex(name, '/') == |name| - 1;
      }
    }
  }
}
