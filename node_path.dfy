/** The POSIX path operations the core calls (`path.normalize`,
    `path.resolve`, `path.join`, `path.relative`, `path.extname`,
    `path.parse`), stated on sequences of path segments. An absolute path is
    the sequence of its segment names below `/`. */
module NodePath {
  import opened Wrappers
  import opened Strings

  /** A segment of a resolved path: not empty, not `.` or `..`, no `/`. */
  predicate IsName(seg: string)
  {
    seg != "" && seg != "." && seg != ".." && '/' !in seg
  }

  /** A resolved absolute path: every segment is a name. */
  predicate Resolved(p: seq<string>)
  {
    forall i :: 0 <= i < |p| ==> IsName(p[i])
  }

  /** One step of Node's `normalizeString`: empty and `.` segments vanish,
      `..` removes the last segment unless that is itself `..`, and is kept
      only where a relative path may climb above its start. */
  function Step(stack: seq<string>, seg: string, aboveRoot: bool): seq<string>
  {
    if seg == "" || seg == "." then stack
    else if seg == ".." then
      if |stack| > 0 && stack[|stack| - 1] != ".." then stack[..|stack| - 1]
      else if aboveRoot then stack + [".."]
      else stack
    else stack + [seg]
  }

  /** `normalizeString` over a list of segments, starting from `stack`. On
      an absolute path (no climbing above the start) a resolved start stays
      resolved. */
  function Fold(stack: seq<string>, segs: seq<string>, aboveRoot: bool): (r: seq<string>)
    ensures !aboveRoot && Resolved(stack) && (forall i :: 0 <= i < |segs| ==> '/' !in segs[i])
            ==> Resolved(r)
    decreases |segs|
  {
    if segs == [] then stack else Fold(Step(stack, segs[0], aboveRoot), segs[1..], aboveRoot)
  }

  /** `path.normalize(p)` (POSIX). */
  function Normalize(p: string): string
  {
    if p == [] then "."
    else
      var absolute := p[0] == '/';
      var trailing := p[|p| - 1] == '/';
      var body := Join(Fold([], Split(p, '/'), !absolute), '/');
      if body == [] then (if absolute then "/" else if trailing then "./" else ".")
      else (if absolute then "/" else "") + body + (if trailing then "/" else "")
  }

  lemma NormalizeOfEmpty()
    ensures Normalize([]) == "."
  {
  }

  /** A single name normalizes to itself. */
  lemma NormalizeOfName(x: string)
    requires IsName(x)
    ensures Normalize(x) == x
  {
    SplitWithoutSeparator(x, '/');
    assert Step([], x, true) == [x];
    assert Fold([x], [], true) == [x];
    assert Fold([], [x], true) == [x];
    assert Join([x], '/') == x;
    assert x[0] != '/' && x[|x| - 1] != '/' by { assert x[0] in x && x[|x| - 1] in x; }
    assert [] + x + [] == x;
  }

  /** An absolute path as a string: its segments and whether the string
      ends with a `/`. Two such strings are equal iff the values are. */
  datatype AbsPath = AbsPath(segs: seq<string>, trailingSlash: bool)

  /** `path.resolve(base, p)` for an absolute `base`: an absolute `p`
      replaces the base; the result never ends with `/`. */
  function Resolve(base: seq<string>, p: string): (r: AbsPath)
    ensures Resolved(base) ==> Resolved(r.segs)
    ensures !r.trailingSlash
  {
    AbsPath(Fold(if StartsWith(p, "/") then [] else base, Split(p, '/'), false), false)
  }

  /** `path.join(base, rel)` for an absolute `base`: unlike `Resolve`, a
      leading `/` in `rel` does not restart at the root, and a trailing `/`
      of `rel` is kept. */
  function JoinPath(base: seq<string>, rel: string): (r: AbsPath)
    ensures Resolved(base) ==> Resolved(r.segs)
  {
    var segs := Fold(base, Split(rel, '/'), false);
    AbsPath(segs, rel != [] && rel[|rel| - 1] == '/' && segs != [])
  }

  /** The string form of an absolute path. */
  function AbsPathString(p: AbsPath): string
  {
    "/" + Join(p.segs, '/') + (if p.trailingSlash then "/" else "")
  }

  /** Length of the longest common prefix of `a` and `b`. */
  function CommonPrefix(a: seq<string>, b: seq<string>): (k: nat)
    ensures k <= |a| && k <= |b| && a[..k] == b[..k]
    ensures k < |a| && k < |b| ==> a[k] != b[k]
    decreases |a|
  {
    if a == [] || b == [] || a[0] != b[0] then 0
    else
      var k := CommonPrefix(a[1..], b[1..]);
      assert a[..k + 1] == [a[0]] + a[1..][..k];
      assert b[..k + 1] == [b[0]] + b[1..][..k];
      k + 1
  }

  function Ups(n: nat): (r: seq<string>)
    ensures |r| == n && forall i :: 0 <= i < n ==> r[i] == ".."
  {
    if n == 0 then [] else [".."] + Ups(n - 1)
  }

  /** `path.relative(from, to)` for resolved absolute paths: climb out of
      what `from` does not share with `to`, then descend into the rest of
      `to`. */
  function Relative(from: seq<string>, to: seq<string>): string
  {
    var k := CommonPrefix(from, to);
    Join(Ups(|from| - k) + to[k..], '/')
  }

  /** `isWithin(outer, inner)` of server/utils/files/index.js: false for the
      same path string, otherwise true unless the relative path climbs out
      of `outer`. */
  function IsWithin(outer: AbsPath, inner: AbsPath): bool
  {
    if outer == inner then false
    else
      var rel := Relative(outer.segs, inner.segs);
      !StartsWith(rel, "../") && rel != ".."
  }

  /** A `/`-join of resolved names neither is `..` nor starts with `../`. */
  lemma JoinOfNamesDoesNotClimb(xs: seq<string>)
    requires Resolved(xs)
    ensures !StartsWith(Join(xs, '/'), "../") && Join(xs, '/') != ".."
  {
    if |xs| >= 1 {
      var j := Join(xs, '/');
      var x := xs[0];
      assert IsName(x);
      if |xs| == 1 {
        assert j == x;
        if |x| >= 3 {
          assert x[2] != '/' by { assert x[2] in x; }
        }
      } else {
        assert j == x + ['/'] + Join(xs[1..], '/');
        assert j[..|x|] == x;
        assert j[|x|] == '/';
        if |x| >= 3 {
          assert x[2] != '/' by { assert x[2] in x; }
          assert j[2] == x[2];
        } else if |x| == 2 {
          assert j[..2] == x;
        }
      }
    }
  }

  /** A `/`-join that begins with a `..` segment is `..` or starts with
      `../`. */
  lemma JoinOfUpsClimbs(xs: seq<string>)
    requires |xs| >= 1 && xs[0] == ".."
    ensures StartsWith(Join(xs, '/'), "../") || Join(xs, '/') == ".."
  {
    if |xs| > 1 {
      assert Join(xs, '/') == ".." + ['/'] + Join(xs[1..], '/');
    }
  }

  /** For resolved paths, `isWithin` holds exactly when `inner` lies below
      `outer`: a different path string whose segments extend `outer`'s. */
  lemma IsWithinIffBelow(outer: AbsPath, inner: AbsPath)
    requires Resolved(outer.segs) && Resolved(inner.segs)
    ensures IsWithin(outer, inner) <==> outer != inner && outer.segs <= inner.segs
  {
    if outer != inner {
      var k := CommonPrefix(outer.segs, inner.segs);
      var parts := Ups(|outer.segs| - k) + inner.segs[k..];
      if outer.segs <= inner.segs {
        assert k == |outer.segs|;
        assert parts == inner.segs[k..];
        JoinOfNamesDoesNotClimb(parts);
      } else {
        assert k < |outer.segs|;
        assert parts[0] == "..";
        JoinOfUpsClimbs(parts);
      }
    }
  }

  /** Index of the last `c` in `s`, if any. */
  function LastIndexOf(s: string, c: char): (r: Option<nat>)
    ensures r.None? ==> c !in s
    ensures r.Some? ==> r.value < |s| && s[r.value] == c &&
                        forall j :: r.value < j < |s| ==> s[j] != c
    decreases |s|
  {
    if s == [] then None
    else if s[|s| - 1] == c then Some(|s| - 1)
    else
      var r := LastIndexOf(s[..|s| - 1], c);
      assert forall x :: x in s ==> x in s[..|s| - 1] || x == s[|s| - 1];
      r
  }

  function StripTrailingSlashes(p: string): string
    decreases |p|
  {
    if p != [] && p[|p| - 1] == '/' then StripTrailingSlashes(p[..|p| - 1]) else p
  }

  /** The last component of `p`, ignoring trailing slashes. */
  function BaseName(p: string): (b: string)
    ensures '/' !in b
  {
    var q := StripTrailingSlashes(p);
    match LastIndexOf(q, '/')
    case None => q
    case Some(i) =>
      q[i + 1..]
  }

  /** The extension of a base name as Node computes it: from the last `.`
      to the end, except when there is no `.`, the only `.` that counts is
      the first character (a dot file), or the name is `..`. */
  function ExtOfBase(b: string): (e: string)
    ensures |e| <= |b| && e == b[|b| - |e|..]
    ensures e == [] || (e[0] == '.' && '.' !in e[1..])
  {
    match LastIndexOf(b, '.')
    case None => ""
    case Some(d) =>
      if d == 0 || b == ".." then ""
      else
        assert forall x :: x in b[d..][1..] ==> x != '.';
        b[d..]
  }

  /** `path.extname(p)`, which is also `path.parse(p).ext`. */
  function ExtName(p: string): string
  {
    ExtOfBase(BaseName(p))
  }

  /** `path.parse(p).name`: the base name without its extension. */
  function ParseName(p: string): string
  {
    var b := BaseName(p);
    b[..|b| - |ExtName(p)|]
  }

  /** A base name is its parsed name followed by its extension, and an
      extension is empty or one `.` followed by no further `.` or `/`. */
  lemma NameAndExtension(p: string)
    ensures BaseName(p) == ParseName(p) + ExtName(p)
    ensures ExtName(p) == [] ||
            (ExtName(p)[0] == '.' && '.' !in ExtName(p)[1..] && '/' !in ExtName(p))
  {
    var b := BaseName(p);
    var e := ExtName(p);
    assert b == b[..|b| - |e|] + b[|b| - |e|..];
    assert forall x :: x in e ==> x in b;
  }

}
