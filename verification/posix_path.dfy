/**
 * A small model of the POSIX flavour of Node's `path` helpers (`normalize`, `join`,
 * `dirname`, `basename`, `resolve`, `isAbsolute`) over '/'-separated segments.
 * It follows the shape of those helpers closely enough to state what the resolver
 * source relies on (absoluteness, removal of `.`/`..` segments, independence from the
 * process working directory) without claiming equivalence with Node on every input.
 */
module PosixPath {
  import opened Text

  predicate IsAbsolute(p: string) {
    |p| > 0 && p[0] == '/'
  }

  type AbsolutePath = p: string | IsAbsolute(p) witness "/"

  /** A segment that names a directory entry: not empty, not `.` or `..`, no separator. */
  predicate IsName(s: string) {
    s != "" && s != "." && s != ".." && '/' !in s
  }

  /** Splits `p` at every '/', keeping empty segments (so `"/a"` gives `["", "a"]`). */
  function Split(p: string): (segs: seq<string>)
    ensures |segs| >= 1
    ensures forall k :: 0 <= k < |segs| ==> '/' !in segs[k]
    decreases |p|
  {
    if p == "" then [""]
    else
      var rest := Split(p[1..]);
      if p[0] == '/' then [""] + rest
      else [[p[0]] + rest[0]] + rest[1..]
  }

  /** Joins segments with '/' between neighbours. */
  function JoinSegments(segs: seq<string>): string
    decreases |segs|
  {
    if segs == [] then ""
    else if |segs| == 1 then segs[0]
    else segs[0] + "/" + JoinSegments(segs[1..])
  }

  lemma {:induction false} SplitNoSeparator(a: string)
    requires '/' !in a
    ensures Split(a) == [a]
    decreases |a|
  {
    if a != "" {
      SplitNoSeparator(a[1..]);
      assert [a[0]] + a[1..] == a;
    }
  }

  /** Splitting at one separator splits each side independently. */
  lemma {:induction false} SplitAtSeparator(a: string, b: string)
    ensures Split(a + "/" + b) == Split(a) + Split(b)
    decreases |a|
  {
    var p := a + "/" + b;
    if a == "" {
      assert p[1..] == b;
    } else {
      assert p[1..] == a[1..] + "/" + b;
      SplitAtSeparator(a[1..], b);
    }
  }

  /** Splitting undoes joining, for segments without separators. */
  lemma {:induction false} SplitJoin(segs: seq<string>)
    requires |segs| >= 1
    requires forall k :: 0 <= k < |segs| ==> '/' !in segs[k]
    ensures Split(JoinSegments(segs)) == segs
    decreases |segs|
  {
    if |segs| == 1 {
      SplitNoSeparator(segs[0]);
    } else {
      SplitJoin(segs[1..]);
      SplitNoSeparator(segs[0]);
      SplitAtSeparator(segs[0], JoinSegments(segs[1..]));
      assert segs == [segs[0]] + segs[1..];
    }
  }

  /** Segments left by normalization: no empty or `.` segment, no separator, and no `..` unless allowed. */
  predicate Clean(segs: seq<string>, allowAboveRoot: bool) {
    forall k :: 0 <= k < |segs| ==>
      segs[k] != "" && segs[k] != "." && '/' !in segs[k] && (allowAboveRoot || segs[k] != "..")
  }

  /**
   * The segment loop of Node's normalization: drops empty and `.` segments, lets `..`
   * cancel the previous name, and keeps a leading `..` only when the path is relative.
   */
  function NormalizeSegments(acc: seq<string>, rest: seq<string>, allowAboveRoot: bool): seq<string>
    decreases |rest|
  {
    if rest == [] then acc
    else
      var s := rest[0];
      if s == "" || s == "." then NormalizeSegments(acc, rest[1..], allowAboveRoot)
      else if s == ".." then
        if |acc| > 0 && acc[|acc| - 1] != ".." then NormalizeSegments(acc[..|acc| - 1], rest[1..], allowAboveRoot)
        else if allowAboveRoot then NormalizeSegments(acc + [".."], rest[1..], allowAboveRoot)
        else NormalizeSegments(acc, rest[1..], allowAboveRoot)
      else NormalizeSegments(acc + [s], rest[1..], allowAboveRoot)
  }

  lemma {:induction false} NormalizeSegmentsClean(acc: seq<string>, rest: seq<string>, allowAboveRoot: bool)
    requires Clean(acc, allowAboveRoot)
    requires forall k :: 0 <= k < |rest| ==> '/' !in rest[k]
    ensures Clean(NormalizeSegments(acc, rest, allowAboveRoot), allowAboveRoot)
    decreases |rest|
  {
    if rest != [] {
      var s, tail := rest[0], rest[1..];
      if s == "" || s == "." {
        NormalizeSegmentsClean(acc, tail, allowAboveRoot);
      } else if s == ".." {
        if |acc| > 0 && acc[|acc| - 1] != ".." {
          NormalizeSegmentsClean(acc[..|acc| - 1], tail, allowAboveRoot);
        } else if allowAboveRoot {
          NormalizeSegmentsClean(acc + [".."], tail, allowAboveRoot);
        } else {
          NormalizeSegmentsClean(acc, tail, allowAboveRoot);
        }
      } else {
        NormalizeSegmentsClean(acc + [s], tail, allowAboveRoot);
      }
    }
  }

  /** Joining clean segments gives the empty string exactly when there are none, and starts with the first segment. */
  lemma JoinCleanHead(segs: seq<string>, allowAboveRoot: bool)
    requires Clean(segs, allowAboveRoot)
    ensures JoinSegments(segs) == "" <==> segs == []
    ensures segs != [] ==> JoinSegments(segs)[0] == segs[0][0] && JoinSegments(segs)[0] != '/'
  {
    if segs != [] {
      assert segs[0][0] in segs[0];
    }
  }

  /** `path.normalize`: resolves `.` and `..` segments and collapses repeated separators. */
  function Normalize(p: string): (r: string)
    ensures IsAbsolute(r) <==> IsAbsolute(p)
  {
    if p == "" then "."
    else
      var isAbsolute := p[0] == '/';
      var trailingSeparator := p[|p| - 1] == '/';
      var segs := NormalizeSegments([], Split(p), !isAbsolute);
      NormalizeSegmentsClean([], Split(p), !isAbsolute);
      JoinCleanHead(segs, !isAbsolute);
      var body := JoinSegments(segs);
      if body == "" then (if isAbsolute then "/" else if trailingSeparator then "./" else ".")
      else (if isAbsolute then "/" else "") + body + (if trailingSeparator then "/" else "")
  }

  /** `path.join(a, b)`: the non-empty arguments joined by '/', then normalized. */
  function Join(a: string, b: string): (r: string)
    ensures IsAbsolute(r) <==> IsAbsolute(if a == "" then b else a)
  {
    var joined := if a == "" then b else if b == "" then a else a + "/" + b;
    if joined == "" then "." else Normalize(joined)
  }

  /**
   * Scans down from position `i` (never reaching position 0) for the separator that ends
   * the directory part: trailing separators are skipped, then the last name.
   */
  function DirEnd(p: string, i: int, matchedSlash: bool): (end: int)
    requires i < |p|
    ensures end == -1 || 1 <= end <= i
    decreases i
  {
    if i < 1 then -1
    else if p[i] == '/' then (if matchedSlash then DirEnd(p, i - 1, true) else i)
    else DirEnd(p, i - 1, false)
  }

  /** `path.dirname`. */
  function Dirname(p: string): (r: string)
    ensures r != ""
    ensures IsAbsolute(r) <==> IsAbsolute(p)
    ensures !IsAbsolute(p) ==> r == "." || StartsWith(p, r)
  {
    if p == "" then "."
    else
      var end := DirEnd(p, |p| - 1, true);
      if end == -1 then (if p[0] == '/' then "/" else ".")
      else if p[0] == '/' && end == 1 then "//"
      else p[..end]
  }

  /** The last non-empty segment, or "" when there is none. */
  function LastName(segs: seq<string>): (r: string)
    ensures r == "" || r in segs
    decreases |segs|
  {
    if segs == [] then ""
    else if segs[|segs| - 1] != "" then segs[|segs| - 1]
    else LastName(segs[..|segs| - 1])
  }

  /**
   * `path.basename(p, ext)`: the last name of `p`, with `ext` removed when the name ends
   * with it and is longer than it; the empty string when `p` is `ext` itself.
   */
  function Basename(p: string, ext: string): (r: string)
    ensures '/' !in r
  {
    if ext != "" && ext == p then ""
    else
      var b := LastName(Split(p));
      if ext != "" && |ext| < |b| && EndsWith(b, ext) then
        assert forall c :: c in b[..|b| - |ext|] ==> c in b;
        b[..|b| - |ext|]
      else b
  }

  /** The base name of `dir/name.ext` is `name`, for a name without separators. */
  lemma BasenameStripsExtension(dir: string, name: string, ext: string)
    requires name != "" && '/' !in name && '/' !in ext
    ensures Basename(dir + "/" + name + ext, ext) == name
  {
    var p := dir + "/" + name + ext;
    assert p == dir + "/" + (name + ext);
    assert p != ext by { assert p[|dir|] == '/'; }
    SplitAtSeparator(dir, name + ext);
    SplitNoSeparator(name + ext);
    assert Split(p) == Split(dir) + [name + ext];
    assert (name + ext)[..|name|] == name;
  }

  /**
   * The path `path.resolve` builds before normalizing: arguments are taken from the right
   * until one is absolute, empty arguments are skipped, and the working directory `cwd`
   * is put in front when no argument is absolute.
   */
  function RawResolve(cwd: string, parts: seq<string>): string
    decreases |parts|
  {
    if parts == [] then cwd
    else
      var last := parts[|parts| - 1];
      if last == "" then RawResolve(cwd, parts[..|parts| - 1])
      else if IsAbsolute(last) then last
      else RawResolve(cwd, parts[..|parts| - 1]) + "/" + last
  }

  lemma {:induction false} RawResolveAbsolute(cwd: AbsolutePath, parts: seq<string>)
    ensures IsAbsolute(RawResolve(cwd, parts))
    decreases |parts|
  {
    if parts != [] {
      var last := parts[|parts| - 1];
      if last == "" || !IsAbsolute(last) {
        RawResolveAbsolute(cwd, parts[..|parts| - 1]);
      }
    }
  }

  /** `path.resolve(...parts)` with process working directory `cwd`: always an absolute path. */
  function Resolve(cwd: AbsolutePath, parts: seq<string>): (r: string)
    ensures IsAbsolute(r)
  {
    var raw := RawResolve(cwd, parts);
    RawResolveAbsolute(cwd, parts);
    var body := JoinSegments(NormalizeSegments([], Split(raw), !IsAbsolute(raw)));
    if IsAbsolute(raw) then "/" + body
    else if body == "" then "." else body
  }

  /** An absolute path whose every segment after the root names an entry: no `.`, `..` or empty segment. */
  predicate Canonical(p: string) {
    p == "/" || (IsAbsolute(p) && forall k :: 1 <= k < |Split(p)| ==> IsName(Split(p)[k]))
  }

  /** What `path.resolve` returns is canonical, whatever its arguments. */
  lemma ResolveCanonical(cwd: AbsolutePath, parts: seq<string>)
    ensures Canonical(Resolve(cwd, parts))
  {
    var raw := RawResolve(cwd, parts);
    RawResolveAbsolute(cwd, parts);
    var segs := NormalizeSegments([], Split(raw), false);
    NormalizeSegmentsClean([], Split(raw), false);
    var body := JoinSegments(segs);
    assert Resolve(cwd, parts) == "/" + body;
    if segs != [] {
      SplitJoin(segs);
      SplitAtSeparator("", body);
      assert "" + "/" + body == "/" + body;
      assert Split("/" + body) == [""] + segs;
    }
  }

  /** When the last argument is absolute, the working directory plays no part in `path.resolve`. */
  lemma ResolveIgnoresCwd(cwd1: AbsolutePath, cwd2: AbsolutePath, parts: seq<string>)
    requires |parts| > 0 && IsAbsolute(parts[|parts| - 1])
    ensures Resolve(cwd1, parts) == Resolve(cwd2, parts)
  {
    assert RawResolve(cwd1, parts) == parts[|parts| - 1] == RawResolve(cwd2, parts);
  }

  /** Joining undoes splitting. */
  lemma {:induction false} JoinSplit(p: string)
    ensures JoinSegments(Split(p)) == p
    decreases |p|
  {
    if p != "" {
      var rest := Split(p[1..]);
      JoinSplit(p[1..]);
      if p[0] == '/' {
        assert ([""] + rest)[1..] == rest;
      } else {
        var segs := [[p[0]] + rest[0]] + rest[1..];
        if |rest| > 1 {
          assert segs[1..] == rest[1..];
        }
        assert [p[0]] + p[1..] == p;
      }
    }
  }

  /** Names pass through the segment loop unchanged. */
  lemma {:induction false} NormalizeNames(acc: seq<string>, names: seq<string>, allowAboveRoot: bool)
    requires forall k :: 0 <= k < |names| ==> IsName(names[k])
    ensures NormalizeSegments(acc, names, allowAboveRoot) == acc + names
    decreases |names|
  {
    if names != [] {
      assert IsName(names[0]);
      NormalizeNames(acc + [names[0]], names[1..], allowAboveRoot);
      assert acc + [names[0]] + names[1..] == acc + names;
    }
  }

  /** A join of segments ends with the last character of its last segment, when that segment is not empty. */
  lemma {:induction false} JoinLastChar(segs: seq<string>)
    requires |segs| > 0 && segs[|segs| - 1] != ""
    ensures |JoinSegments(segs)| > 0
    ensures JoinSegments(segs)[|JoinSegments(segs)| - 1] == segs[|segs| - 1][|segs[|segs| - 1]| - 1]
    decreases |segs|
  {
    if |segs| > 1 {
      JoinLastChar(segs[1..]);
    }
  }

  /** A canonical path other than the root is the root followed by its names, with no trailing separator. */
  lemma CanonicalSegments(p: string)
    requires Canonical(p) && p != "/"
    ensures Split(p)[0] == ""
    ensures NormalizeSegments([], Split(p), false) == Split(p)[1..]
    ensures "/" + JoinSegments(Split(p)[1..]) == p
    ensures JoinSegments(Split(p)[1..]) != ""
    ensures p[|p| - 1] != '/'
  {
    var segs := Split(p);
    var names := segs[1..];
    assert segs == [""] + names;
    JoinSplit(p);
    NormalizeNames([], names, false);
    assert NormalizeSegments([], segs, false) == NormalizeSegments([], names, false);
    assert |names| > 0;
    assert JoinSegments(segs) == "" + "/" + JoinSegments(names);
    assert IsName(segs[|segs| - 1]);
    JoinLastChar(segs);
  }

  /** The root splits into two empty segments, and the segment loop drops both. */
  lemma SplitRoot(allowAboveRoot: bool)
    ensures Split("/") == ["", ""]
    ensures NormalizeSegments([], Split("/"), allowAboveRoot) == []
  {
    SplitAtSeparator("", "");
    assert "" + "/" + "" == "/";
    var tail: seq<string> := [""];
    assert ["", ""][1..] == tail && tail[1..] == [];
    assert NormalizeSegments([], tail, allowAboveRoot) == NormalizeSegments([], [], allowAboveRoot) == [];
  }

  /** `path.normalize` leaves a canonical path unchanged. */
  lemma NormalizeCanonical(p: string)
    requires Canonical(p)
    ensures Normalize(p) == p
  {
    if p != "/" {
      CanonicalSegments(p);
    } else {
      SplitRoot(false);
    }
  }

  /** `path.resolve` returns the path it builds unchanged when that path is already canonical. */
  lemma ResolveCanonicalFixpoint(cwd: AbsolutePath, parts: seq<string>)
    requires Canonical(RawResolve(cwd, parts))
    ensures Resolve(cwd, parts) == RawResolve(cwd, parts)
  {
    if RawResolve(cwd, parts) != "/" {
      CanonicalSegments(RawResolve(cwd, parts));
    } else {
      SplitRoot(false);
    }
  }

  /** The root followed by one name is canonical. */
  lemma CanonicalRoot(name: string)
    requires IsName(name)
    ensures Canonical("/" + name) && "/" + name != "/"
  {
    SplitAtSeparator("", name);
    SplitNoSeparator(name);
    assert "" + "/" + name == "/" + name;
    assert Split("/" + name) == [""] + [name];
  }

  /** Appending a name to a canonical path other than the root keeps it canonical. */
  lemma CanonicalExtend(p: string, name: string)
    requires Canonical(p) && p != "/" && IsName(name)
    ensures Canonical(p + "/" + name) && p + "/" + name != "/"
  {
    SplitAtSeparator(p, name);
    SplitNoSeparator(name);
    var segs := Split(p + "/" + name);
    assert segs == Split(p) + [name];
    forall k | 1 <= k < |segs|
      ensures IsName(segs[k])
    {
      if k < |Split(p)| {
        assert segs[k] == Split(p)[k];
      }
    }
  }

  /** The segment loop runs over a concatenation in two stages. */
  lemma {:induction false} NormalizeSegmentsAppend(acc: seq<string>, xs: seq<string>, ys: seq<string>, allowAboveRoot: bool)
    ensures NormalizeSegments(acc, xs + ys, allowAboveRoot) ==
            NormalizeSegments(NormalizeSegments(acc, xs, allowAboveRoot), ys, allowAboveRoot)
    decreases |xs|
  {
    if xs == [] {
      assert xs + ys == ys;
    } else {
      assert (xs + ys)[0] == xs[0] && (xs + ys)[1..] == xs[1..] + ys;
      var s := xs[0];
      if s == "" || s == "." {
        NormalizeSegmentsAppend(acc, xs[1..], ys, allowAboveRoot);
      } else if s == ".." {
        if |acc| > 0 && acc[|acc| - 1] != ".." {
          NormalizeSegmentsAppend(acc[..|acc| - 1], xs[1..], ys, allowAboveRoot);
        } else if allowAboveRoot {
          NormalizeSegmentsAppend(acc + [".."], xs[1..], ys, allowAboveRoot);
        } else {
          NormalizeSegmentsAppend(acc, xs[1..], ys, allowAboveRoot);
        }
      } else {
        NormalizeSegmentsAppend(acc + [s], xs[1..], ys, allowAboveRoot);
      }
    }
  }

  /** `path.join` of a canonical directory and a name is their plain concatenation. */
  lemma JoinCanonicalName(dir: string, name: string)
    requires Canonical(dir) && dir != "/" && IsName(name)
    ensures Join(dir, name) == dir + "/" + name
    ensures Canonical(dir + "/" + name)
  {
    CanonicalExtend(dir, name);
    NormalizeCanonical(dir + "/" + name);
  }

  /** `path.join` drops the `.` of a `./name` argument. */
  lemma JoinDotName(dir: string, name: string)
    requires Canonical(dir) && dir != "/" && IsName(name)
    ensures Join(dir, "./" + name) == dir + "/" + name
  {
    var p := dir + "/" + ("./" + name);
    var q := dir + "/" + name;
    CanonicalExtend(dir, name);
    CanonicalSegments(q);
    SplitNoSeparator(name);
    SplitNoSeparator(".");
    assert "./" + name == "." + "/" + name;
    SplitAtSeparator(".", name);
    SplitAtSeparator(dir, "./" + name);
    SplitAtSeparator(dir, name);
    assert Split(p) == Split(dir) + ["."] + [name];
    assert Split(q) == Split(dir) + [name];
    NormalizeSegmentsAppend([], Split(dir) + ["."], [name], false);
    NormalizeSegmentsAppend([], Split(dir), ["."], false);
    NormalizeSegmentsAppend([], Split(dir), [name], false);
    assert NormalizeSegments(NormalizeSegments([], Split(dir), false), ["."], false) ==
           NormalizeSegments([], Split(dir), false);
    assert NormalizeSegments([], Split(p), false) == NormalizeSegments([], Split(q), false);
    JoinLastChar([name]);
    assert p[|p| - 1] == name[|name| - 1];
    assert p[0] == '/' by { assert p[0] == dir[0]; }
  }

  /** `path.resolve` of one canonical path is that path, whatever the working directory. */
  lemma ResolveCanonicalPath(cwd: AbsolutePath, p: string)
    requires Canonical(p)
    ensures Resolve(cwd, [p]) == p
  {
    assert RawResolve(cwd, [p]) == p;
    ResolveCanonicalFixpoint(cwd, [p]);
  }

  /** `path.resolve(dir, name)` for a canonical directory and a name is their plain concatenation. */
  lemma ResolveCanonicalName(cwd: AbsolutePath, dir: string, name: string)
    requires Canonical(dir) && dir != "/" && IsName(name)
    ensures Resolve(cwd, [dir, name]) == dir + "/" + name
  {
    CanonicalExtend(dir, name);
    assert RawResolve(cwd, [dir, name]) == dir + "/" + name by {
      assert [dir, name][..1] == [dir];
    }
    ResolveCanonicalFixpoint(cwd, [dir, name]);
  }
}
