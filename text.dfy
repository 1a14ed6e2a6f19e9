/**
  Text as the photo parser writes it: lines each followed by "\n", decimal
  numerals, and substring search.
 */
module Text {

  /** The text built by appending `line + "\n"` for every line in turn. */
  function Unlines(ls: seq<string>): (t: string)
    ensures t == [] <==> ls == []
    ensures t != [] ==> t[|t| - 1] == '\n'
  {
    if ls == [] then "" else Unlines(ls[..|ls| - 1]) + ls[|ls| - 1] + "\n"
  }

  /** Appending one more line to the text. */
  lemma UnlinesSnoc(ls: seq<string>, line: string)
    ensures Unlines(ls + [line]) == Unlines(ls) + (line + "\n")
  {
    assert (ls + [line])[..|ls|] == ls;
    assert Unlines(ls) + line + "\n" == Unlines(ls) + (line + "\n");
  }

  /** The index of the last `c` in `u`, or -1 when there is none
      (Python's `u.rfind(c)`). */
  function LastIndex(u: string, c: char): (k: int)
    ensures -1 <= k < |u|
    ensures k >= 0 ==> u[k] == c
    ensures forall j :: k < j < |u| ==> u[j] != c
  {
    if u == [] then -1
    else if u[|u| - 1] == c then |u| - 1
    else LastIndex(u[..|u| - 1], c)
  }

  /** `u.split("\n")`: the pieces between the '\n' characters. */
  function Split(u: string): (ps: seq<string>)
    ensures |ps| >= 1
    decreases |u|
  {
    var k := LastIndex(u, '\n');
    if k < 0 then [u] else Split(u[..k]) + [u[k + 1..]]
  }

  /** `t.splitlines()` for a text whose only line break is '\n': the lines of
      the text, where a final '\n' ends the last line instead of starting an
      empty one. This is the reading of a written text, independent of how it
      was built. */
  function Lines(t: string): (ls: seq<string>)
    ensures ls == [] <==> t == []
  {
    if t == [] then []
    else if t[|t| - 1] == '\n' then Split(t[..|t| - 1])
    else Split(t)
  }

  /** Splitting a text at a '\n' when the part after it holds no '\n'. */
  lemma SplitLast(v: string, line: string)
    requires '\n' !in line
    ensures Split(v + "\n" + line) == Split(v) + [line]
  {
    var u := v + "\n" + line;
    assert u[|v|] == '\n';
    forall j | |v| < j < |u| ensures u[j] != '\n' {
      assert u[j] == line[j - |v| - 1];
    }
    assert LastIndex(u, '\n') == |v|;
    assert u[..|v|] == v;
    assert u[|v| + 1..] == line;
  }

  /** A text ending in '\n' reads as the pieces of what comes before it. */
  lemma LinesTerminated(w: string)
    ensures Lines(w + "\n") == Split(w)
  {
    assert (w + "\n")[..|w|] == w;
  }

  /** The only line of a one-line text. */
  lemma SplitSingle(line: string)
    requires '\n' !in line
    ensures Split(line) == [line]
  {
  }

  /** Adding one '\n'-terminated line to a text that is empty or ends in
      '\n' adds exactly that line to what the text reads as. */
  lemma LinesAppendLine(u: string, line: string)
    requires u == [] || u[|u| - 1] == '\n'
    requires '\n' !in line
    ensures Lines(u + (line + "\n")) == Lines(u) + [line]
  {
    assert u + (line + "\n") == (u + line) + "\n";
    LinesTerminated(u + line);
    if u == [] {
      assert u + line == line;
      SplitSingle(line);
    } else {
      var v := u[..|u| - 1];
      assert u == v + "\n";
      LinesTerminated(v);
      SplitLast(v, line);
      assert u + line == v + "\n" + line;
    }
  }

  /** Reading back a text written line by line gives the same lines, provided
      no line itself holds a '\n'. */
  lemma {:induction false} LinesUnlines(ls: seq<string>)
    requires forall i :: 0 <= i < |ls| ==> '\n' !in ls[i]
    ensures Lines(Unlines(ls)) == ls
  {
    if ls != [] {
      var init, line := ls[..|ls| - 1], ls[|ls| - 1];
      assert forall i :: 0 <= i < |init| ==> '\n' !in init[i] by {
        forall i | 0 <= i < |init| ensures '\n' !in init[i] {
          assert init[i] == ls[i];
        }
      }
      LinesUnlines(init);
      assert ls == init + [line];
      UnlinesSnoc(init, line);
      LinesAppendLine(Unlines(init), line);
    }
  }

  /** `pat` occurs somewhere in `s` (Python's `pat in s` on strings). */
  predicate Contains(s: string, pat: string)
    decreases |s|
  {
    (|pat| <= |s| && s[..|pat|] == pat) || (s != [] && Contains(s[1..], pat))
  }

  /** A text that contains `pat` contains every character of `pat`. */
  lemma {:induction false} ContainsChar(s: string, pat: string, c: char)
    requires c in pat
    requires Contains(s, pat)
    ensures c in s
    decreases |s|
  {
    if |pat| <= |s| && s[..|pat|] == pat {
      var i :| 0 <= i < |pat| && pat[i] == c;
      assert s[i] == c;
    } else {
      ContainsChar(s[1..], pat, c);
      var i :| 0 <= i < |s[1..]| && s[1..][i] == c;
      assert s[i + 1] == c;
    }
  }

  /** `pat` occurs in any text that has it in the middle. */
  lemma {:induction false} ContainsMiddle(a: string, pat: string, b: string)
    ensures Contains(a + pat + b, pat)
  {
    if a == [] {
      assert (a + pat + b)[..|pat|] == pat;
    } else {
      ContainsMiddle(a[1..], pat, b);
      assert (a + pat + b)[1..] == a[1..] + pat + b;
    }
  }

  /** The decimal digit character for `d`. */
  function Digit(d: nat): (c: char)
    requires d < 10
    ensures '0' <= c <= '9'
  {
    (48 + d) as char
  }

  predicate IsDigits(s: string)
  {
    forall i :: 0 <= i < |s| ==> '0' <= s[i] <= '9'
  }

  /** `str(n)`, the decimal numeral of `n`: digits only, never empty, and
      without a leading zero unless it is "0" itself. */
  function NatToString(n: nat): (r: string)
    ensures |r| >= 1 && IsDigits(r)
    ensures r[0] == '0' ==> r == "0"
  {
    if n < 10 then [Digit(n)] else NatToString(n / 10) + [Digit(n % 10)]
  }

  /** The number a numeral denotes, read most significant digit first. */
  function DecimalValue(s: string): nat
    requires IsDigits(s)
  {
    if s == [] then 0
    else DecimalValue(s[..|s| - 1]) * 10 + (s[|s| - 1] as int - 48)
  }

  /** Reading back the numeral gives the number: `int(str(n)) == n`. */
  lemma {:induction false} DecimalRoundTrip(n: nat)
    ensures DecimalValue(NatToString(n)) == n
  {
    var s := NatToString(n);
    if n >= 10 {
      DecimalRoundTrip(n / 10);
      assert s[..|s| - 1] == NatToString(n / 10);
    }
  }
}
