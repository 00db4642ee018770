/** The string primitives the pipeline leans on, with the semantics of
    Node's POSIX `path` module and of JavaScript's `String.prototype`:
    `path.extname`, `path.join`, `toLowerCase` and `trim`. */
module Paths {
  import opened Wrappers

  // ---------------------------------------------------------------------
  // path.extname
  // ---------------------------------------------------------------------

  /** `p` with its trailing '/' characters removed: Node ignores them when
      it looks for the last path component. */
  function TrimTrailingSlashes(p: string): (t: string)
    ensures t <= p
    ensures t == [] || t[|t| - 1] != '/'
    decreases |p|
  {
    if p != [] && p[|p| - 1] == '/' then TrimTrailingSlashes(p[..|p| - 1]) else p
  }

  /** Index of the first character of the last component of `s`: just after
      its last '/', or 0 when there is none. */
  function ComponentStart(s: string): (k: nat)
    ensures k <= |s|
    ensures 0 < k ==> s[k - 1] == '/'
    ensures forall i :: k <= i < |s| ==> s[i] != '/'
    decreases |s|
  {
    if s == [] then 0
    else if s[|s| - 1] == '/' then |s|
    else ComponentStart(s[..|s| - 1])
  }

  /** The last component of `p`, as `path.basename(p)`. */
  function Basename(p: string): string {
    var t := TrimTrailingSlashes(p);
    t[ComponentStart(t)..]
  }

  /** Position of the last '.' in `s`. */
  function LastDot(s: string): (r: Option<nat>)
    ensures r.Some? ==> r.value < |s| && s[r.value] == '.'
    ensures r.Some? ==> forall i :: r.value < i < |s| ==> s[i] != '.'
    ensures r.None? ==> forall i :: 0 <= i < |s| ==> s[i] != '.'
    decreases |s|
  {
    if s == [] then None
    else if s[|s| - 1] == '.' then Some(|s| - 1)
    else LastDot(s[..|s| - 1])
  }

  /** A non-empty extension as `path.extname` returns it: a '.' followed by
      characters that are neither '.' nor '/'. */
  predicate IsExtension(e: string) {
    |e| >= 1 && e[0] == '.' && forall i :: 1 <= i < |e| ==> e[i] != '.' && e[i] != '/'
  }

  /** `path.extname(p)`: from the last '.' of the last component to its end;
      empty when that component has no '.', when its only '.' is its first
      character (a hidden file such as `.png`), or when it is `..`. */
  function ExtName(p: string): string {
    var b := Basename(p);
    match LastDot(b)
    case None => ""
    case Some(d) => if d == 0 || IsDotDot(b) then "" else b[d..]
  }

  /** The component `..`, the parent directory. */
  predicate IsDotDot(b: string) {
    |b| == 2 && b[0] == '.' && b[1] == '.'
  }

  /** `extname` gives either nothing or a '.' followed by characters that
      are neither '.' nor '/'. */
  lemma ExtNameShape(p: string)
    ensures ExtName(p) == [] || IsExtension(ExtName(p))
  {
    var t := TrimTrailingSlashes(p);
    var k := ComponentStart(t);
    var b := t[k..];
    assert b == Basename(p);
    if LastDot(b).Some? {
      var d := LastDot(b).value;
      forall i | 1 <= i < |b| - d ensures b[d..][i] != '.' && b[d..][i] != '/' {
        assert b[d..][i] == t[k + d + i];
      }
    }
  }

  /** `t` ends with `e`, and the character just before `e` exists and is not
      a '/': `e` is the tail of a non-empty component. */
  predicate EndsWithExtension(t: string, e: string) {
    |e| < |t| && t[|t| - |e|..] == e && t[|t| - |e| - 1] != '/'
  }

  /** The last '.' of `s` is at `d` when `s[d]` is one and none follows. */
  lemma LastDotIs(s: string, d: nat)
    requires d < |s| && s[d] == '.'
    requires forall i :: d < i < |s| ==> s[i] != '.'
    ensures LastDot(s) == Some(d)
  {
    var r := LastDot(s);
    assert r.Some?;
    assert r.value <= d;
  }

  /** The '.' at index `j` of the slash-trimmed path is the one `extname`
      starts from when what follows it is an extension and the character
      before it belongs to the same component (and is not the first '.' of
      a component `..`). */
  lemma ExtNameAt(p: string, j: nat)
    requires var t := TrimTrailingSlashes(p);
      0 < j < |t| && IsExtension(t[j..]) && t[j - 1] != '/' &&
      (j + 1 < |t| || t[j - 1] != '.')
    ensures ExtName(p) == TrimTrailingSlashes(p)[j..]
  {
    var t := TrimTrailingSlashes(p);
    forall i | j < i < |t| ensures t[i] != '.' && t[i] != '/' {
      assert t[i] == t[j..][i - j];
    }
    var k := ComponentStart(t);
    assert k < j by {
      assert forall i :: j - 1 <= i < |t| ==> t[i] != '/';
      assert 0 < k ==> t[k - 1] == '/';
    }
    var b := t[k..];
    var d := j - k;
    assert b == Basename(p);
    forall i | d < i < |b| ensures b[i] != '.' {
      assert b[i] == t[k + i];
    }
    LastDotIs(b, d);
    assert !IsDotDot(b) by {
      assert |b| == 2 ==> b[0] == t[j - 1];
    }
    assert b[d..] == t[j..];
  }

  /** Conversely, a non-empty extension is the tail of the slash-trimmed
      path, preceded by a character of the same component. */
  lemma ExtNameEnds(p: string)
    requires ExtName(p) != ""
    ensures EndsWithExtension(TrimTrailingSlashes(p), ExtName(p))
  {
    var t := TrimTrailingSlashes(p);
    var k := ComponentStart(t);
    var b := t[k..];
    assert b == Basename(p);
    var d := LastDot(b).value;
    assert 0 < d && ExtName(p) == b[d..];
    assert t[k + d..] == b[d..];
    assert t[k + d - 1] == b[d - 1];
  }

  /** An extension of two or more characters is what `extname` returns
      exactly when the slash-trimmed path ends with it inside a non-empty
      component. */
  lemma ExtNameIff(p: string, e: string)
    requires IsExtension(e) && |e| >= 2
    ensures ExtName(p) == e <==> EndsWithExtension(TrimTrailingSlashes(p), e)
  {
    var t := TrimTrailingSlashes(p);
    if ExtName(p) == e {
      ExtNameEnds(p);
    }
    if EndsWithExtension(t, e) {
      var j := |t| - |e|;
      assert t[j..] == e;
      assert j + 1 < |t|;
      ExtNameAt(p, j);
    }
  }

  // ---------------------------------------------------------------------
  // toLowerCase
  // ---------------------------------------------------------------------

  function LowerChar(c: char): char {
    if 'A' <= c <= 'Z' then (c as int - 'A' as int + 'a' as int) as char else c
  }

  /** `s.toLowerCase()` on the ASCII letters. */
  function Lower(s: string): string {
    seq(|s|, i requires 0 <= i < |s| => LowerChar(s[i]))
  }

  /** Lower-casing maps no character onto '.' or '/' except those themselves. */
  lemma LowerKeepsSeparators(c: char)
    ensures LowerChar(c) == '.' <==> c == '.'
    ensures LowerChar(c) == '/' <==> c == '/'
  {
  }

  /** Lower-casing commutes with taking a slice. */
  lemma LowerSlice(s: string, a: nat, b: nat)
    requires a <= b <= |s|
    ensures Lower(s)[a..b] == Lower(s[a..b])
  {
  }

  /** If the lower-cased extension is `e`, the lower-cased path ends with `e`. */
  lemma LowerExtNameEnds(p: string, e: string)
    requires IsExtension(e)
    requires Lower(ExtName(p)) == e
    ensures EndsWithExtension(Lower(TrimTrailingSlashes(p)), e)
  {
    var t := TrimTrailingSlashes(p);
    var x := ExtName(p);
    assert |x| == |e| > 0;
    ExtNameEnds(p);
    var j := |t| - |x|;
    assert t[j..|t|] == x;
    LowerSlice(t, j, |t|);
    assert Lower(t)[j..] == e;
    assert Lower(t)[j - 1] == LowerChar(t[j - 1]);
    LowerKeepsSeparators(t[j - 1]);
  }

  /** If the lower-cased path ends with `e`, the lower-cased extension is `e`. */
  lemma EndsLowerExtName(p: string, e: string)
    requires IsExtension(e) && |e| >= 2
    requires EndsWithExtension(Lower(TrimTrailingSlashes(p)), e)
    ensures Lower(ExtName(p)) == e
  {
    var t := TrimTrailingSlashes(p);
    var j := |t| - |e|;
    var y := t[j..];
    LowerSlice(t, j, |t|);
    assert Lower(y) == e;
    forall i | 0 <= i < |y| ensures (y[i] == '.' <==> e[i] == '.') && (y[i] == '/' <==> e[i] == '/') {
      assert Lower(y)[i] == LowerChar(y[i]);
      LowerKeepsSeparators(y[i]);
    }
    assert IsExtension(y);
    assert Lower(t)[j - 1] == LowerChar(t[j - 1]);
    LowerKeepsSeparators(t[j - 1]);
    assert EndsWithExtension(t, y);
    ExtNameIff(p, y);
  }

  /** `extname(p).toLowerCase()` is a given extension of two or more
      characters exactly when the lower-cased, slash-trimmed path ends with it
      inside a non-empty component. */
  lemma LowerExtNameIff(p: string, e: string)
    requires IsExtension(e) && |e| >= 2
    ensures Lower(ExtName(p)) == e <==> EndsWithExtension(Lower(TrimTrailingSlashes(p)), e)
  {
    if Lower(ExtName(p)) == e {
      LowerExtNameEnds(p, e);
    }
    if EndsWithExtension(Lower(TrimTrailingSlashes(p)), e) {
      EndsLowerExtName(p, e);
    }
  }

  // ---------------------------------------------------------------------
  // path.join
  // ---------------------------------------------------------------------

  /** `path.join(dir, name)` for a directory and a plain file name, without
      normalisation: a '/' is added only when `dir` is non-empty and does
      not already end with one. */
  function Join(dir: string, name: string): (p: string)
    ensures name != [] ==> p != []
    ensures dir == [] ==> p == name
    ensures dir != [] && dir[|dir| - 1] == '/' ==> p == dir + name
    ensures dir != [] && dir[|dir| - 1] != '/' ==> p == dir + "/" + name
  {
    if dir == [] then name
    else if dir[|dir| - 1] == '/' then dir + name
    else dir + "/" + name
  }

  /** The last component of `s` starts at `k` when `k` is 0 or follows a
      '/', and no '/' comes after it. */
  lemma ComponentStartIs(s: string, k: nat)
    requires k <= |s| && (k == 0 || s[k - 1] == '/')
    requires forall i :: k <= i < |s| ==> s[i] != '/'
    ensures ComponentStart(s) == k
  {
    var c := ComponentStart(s);
    var m := if c < k then c else k;
    assert forall i :: m <= i < |s| ==> s[i] != '/';
  }

  /** Joining a directory and a plain file name leaves the name as the last
      component, so the joined path has the name's extension. */
  lemma JoinKeepsExtension(dir: string, name: string)
    requires name != [] && forall i :: 0 <= i < |name| ==> name[i] != '/'
    ensures Basename(Join(dir, name)) == name
    ensures ExtName(Join(dir, name)) == ExtName(name)
  {
    var p := Join(dir, name);
    var s := |p| - |name|;
    assert p[s..] == name;
    assert p[|p| - 1] == name[|name| - 1];
    assert TrimTrailingSlashes(p) == p;
    assert TrimTrailingSlashes(name) == name;
    forall i | s <= i < |p| ensures p[i] != '/' {
      assert p[i] == name[i - s];
    }
    ComponentStartIs(p, s);
    ComponentStartIs(name, 0);
    assert Basename(name) == name;
  }

  // ---------------------------------------------------------------------
  // String.prototype.trim
  // ---------------------------------------------------------------------

  /** The characters `trim` removes: ECMAScript WhiteSpace and LineTerminator. */
  predicate IsJsWhitespace(c: char) {
    var n := c as int;
    n == 0x09 || n == 0x0A || n == 0x0B || n == 0x0C || n == 0x0D || n == 0x20 ||
    n == 0xA0 || n == 0x1680 || (0x2000 <= n <= 0x200A) || n == 0x2028 ||
    n == 0x2029 || n == 0x202F || n == 0x205F || n == 0x3000 || n == 0xFEFF
  }

  /** `s` without its leading whitespace. */
  function TrimStart(s: string): (r: string)
    ensures |r| <= |s| && r == s[|s| - |r|..]
    ensures forall i :: 0 <= i < |s| - |r| ==> IsJsWhitespace(s[i])
    ensures r == [] || !IsJsWhitespace(r[0])
    decreases |s|
  {
    if s != [] && IsJsWhitespace(s[0]) then TrimStart(s[1..]) else s
  }

  /** `s` without its trailing whitespace. */
  function TrimEnd(s: string): (r: string)
    ensures r <= s
    ensures forall i :: |r| <= i < |s| ==> IsJsWhitespace(s[i])
    ensures r == [] || !IsJsWhitespace(r[|r| - 1])
    decreases |s|
  {
    if s != [] && IsJsWhitespace(s[|s| - 1]) then TrimEnd(s[..|s| - 1]) else s
  }

  /** `s.trim()`. */
  function Trim(s: string): string {
    TrimEnd(TrimStart(s))
  }

  /** Some character of `s` is not whitespace. */
  predicate HasVisibleChar(s: string) {
    exists i :: 0 <= i < |s| && !IsJsWhitespace(s[i])
  }

  /** `trim` leaves something exactly when the string has a visible character. */
  lemma TrimNonEmptyIff(s: string)
    ensures |Trim(s)| > 0 <==> HasVisibleChar(s)
  {
    var u := TrimStart(s);
    var k := |s| - |u|;
    if |Trim(s)| > 0 {
      assert Trim(s)[0] == u[0] == s[k];
    }
    if HasVisibleChar(s) {
      var i :| 0 <= i < |s| && !IsJsWhitespace(s[i]);
      assert k <= i;
      assert u[0] == s[k];
      assert !IsJsWhitespace(u[0]);
      assert TrimEnd(u) != [];
    }
  }
}
