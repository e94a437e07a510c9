/** The Python string operations and the POSIX `os.path` functions that the
    Ninja generator uses (`str.split`, `str.join`, `str.replace`, `str.lower`,
    `os.path.join`, `os.path.split`, `os.path.splitext`, `os.path.normpath`),
    written out over '/'-separated segments, together with the generator's
    own `InvertRelativePath` and `StripPrefix`. */
module GypPaths {
  import opened Wrappers

  /** The Python exceptions the generator can raise; any of them stops the
      generation. */
  datatype PyError =
    | AssertionError(message: string)
    | KeyError(key: string)
    | IndexError(message: string)
    | GenericError(message: string)

  // ---------------------------------------------------------------------
  // Strings

  predicate StartsWith(s: string, p: string) { |p| <= |s| && s[..|p|] == p }

  predicate EndsWith(s: string, p: string) { |p| <= |s| && s[|s| - |p|..] == p }

  /** `sub in s` for strings. */
  predicate Contains(s: string, sub: string)
    decreases |s|
  {
    StartsWith(s, sub) || (|s| > 0 && Contains(s[1..], sub))
  }

  /** Appending in two steps is appending the two parts at once. */
  lemma ConcatAssoc<T>(a: seq<T>, b: seq<T>, c: seq<T>)
    ensures (a + b) + c == a + (b + c)
  {
  }

  /** `s.replace(pat, rep)`: non-overlapping occurrences, left to right. A
      string without the pattern is left as it is. */
  function Replace(s: string, pat: string, rep: string): (r: string)
    requires |pat| > 0
    ensures !Contains(s, pat) ==> r == s
    decreases |s|
  {
    if |s| < |pat| then s
    else if s[..|pat|] == pat then rep + Replace(s[|pat|..], pat, rep)
    else [s[0]] + Replace(s[1..], pat, rep)
  }

  /** A string that lacks the first character of a pattern does not contain
      the pattern. */
  lemma {:induction false} NotContainsFirstChar(s: string, pat: string)
    requires |pat| > 0 && pat[0] !in s
    ensures !Contains(s, pat)
    decreases |s|
  {
    if |s| > 0 {
      assert pat[0] !in s[1..];
      NotContainsFirstChar(s[1..], pat);
      if |pat| <= |s| { assert s[..|pat|][0] == s[0]; }
    }
  }

  /** A string that lacks the first character of a pattern is left alone by
      replacing the pattern. */
  lemma ReplaceMissing(s: string, pat: string, rep: string)
    requires |pat| > 0 && pat[0] !in s
    ensures !Contains(s, pat) && Replace(s, pat, rep) == s
  {
    NotContainsFirstChar(s, pat);
  }

  /** Replacing in a string that starts with the pattern. */
  lemma ReplaceAtFront(pat: string, rest: string, rep: string)
    requires |pat| > 0
    ensures Replace(pat + rest, pat, rep) == rep + Replace(rest, pat, rep)
  {
    assert (pat + rest)[..|pat|] == pat;
    assert (pat + rest)[|pat|..] == rest;
  }

  /** A replacement whose inserted text and whose input lack a character
      cannot introduce that character. */
  lemma {:induction false} ReplaceKeepsCharOut(s: string, pat: string, rep: string, c: char)
    requires |pat| > 0 && c !in s && c !in rep
    ensures c !in Replace(s, pat, rep)
    decreases |s|
  {
    if |s| >= |pat| {
      if s[..|pat|] == pat {
        ReplaceKeepsCharOut(s[|pat|..], pat, rep, c);
      } else {
        ReplaceKeepsCharOut(s[1..], pat, rep, c);
      }
    }
  }

  function LowerChar(c: char): char
  {
    if 'A' <= c <= 'Z' then (c as int + 32) as char else c
  }

  /** `s.lower()` on ASCII letters. */
  function Lower(s: string): string
  {
    seq(|s|, i requires 0 <= i < |s| => LowerChar(s[i]))
  }

  lemma LowerConcat(a: string, b: string)
    ensures Lower(a + b) == Lower(a) + Lower(b)
  {
    assert forall i :: 0 <= i < |a + b| ==> Lower(a + b)[i] == (Lower(a) + Lower(b))[i] by {
      forall i | 0 <= i < |a + b|
        ensures Lower(a + b)[i] == (Lower(a) + Lower(b))[i]
      {
        if i < |a| { assert (a + b)[i] == a[i]; } else { assert (a + b)[i] == b[i - |a|]; }
      }
    }
  }

  /** `prefix * n` for a one-segment list: the list of n copies of s. */
  function Repeat(s: string, n: nat): (r: seq<string>)
    ensures |r| == n && forall i :: 0 <= i < n ==> r[i] == s
  {
    if n == 0 then [] else [s] + Repeat(s, n - 1)
  }

  // ---------------------------------------------------------------------
  // str.split and str.join on one separator character

  /** `s.split(sep)`: always at least one part; no part contains `sep`. */
  function Split(s: string, sep: char): (parts: seq<string>)
    ensures |parts| >= 1
    ensures forall i :: 0 <= i < |parts| ==> sep !in parts[i]
    decreases |s|
  {
    if s == [] then [""]
    else
      var rest := Split(s[1..], sep);
      if s[0] == sep then [""] + rest else [[s[0]] + rest[0]] + rest[1..]
  }

  /** `sep.join(parts)`: the first part leads. */
  function JoinWith(parts: seq<string>, sep: string): (r: string)
    ensures parts != [] ==> StartsWith(r, parts[0])
    decreases |parts|
  {
    if parts == [] then ""
    else if |parts| == 1 then parts[0]
    else parts[0] + sep + JoinWith(parts[1..], sep)
  }

  lemma {:induction false} JoinSplit(s: string, sep: char)
    ensures JoinWith(Split(s, sep), [sep]) == s
    decreases |s|
  {
    if s != [] {
      var rest := Split(s[1..], sep);
      JoinSplit(s[1..], sep);
      if s[0] == sep {
        assert Split(s, sep) == [""] + rest;
        assert ([""] + rest)[1..] == rest;
        assert s == [sep] + s[1..];
      } else {
        var parts := [[s[0]] + rest[0]] + rest[1..];
        assert Split(s, sep) == parts;
        if |rest| == 1 {
          assert s == [s[0]] + rest[0];
        } else {
          assert parts[1..] == rest[1..];
          assert JoinWith(rest, [sep]) == rest[0] + [sep] + JoinWith(rest[1..], [sep]);
          assert s == [s[0]] + s[1..];
        }
      }
    }
  }

  /** Splitting at a separator splits the two sides independently. */
  lemma {:induction false} SplitAround(a: string, b: string, sep: char)
    ensures Split(a + [sep] + b, sep) == Split(a, sep) + Split(b, sep)
    decreases |a|
  {
    if a == [] {
      assert [] + [sep] + b == [sep] + b;
      assert ([sep] + b)[1..] == b;
    } else {
      assert (a + [sep] + b)[0] == a[0] && (a + [sep] + b)[1..] == a[1..] + [sep] + b;
      SplitAround(a[1..], b, sep);
      if a[0] != sep {
        var ra := Split(a[1..], sep);
        assert (ra + Split(b, sep))[0] == ra[0];
        assert (ra + Split(b, sep))[1..] == ra[1..] + Split(b, sep);
      }
    }
  }

  lemma {:induction false} SplitOfJoin(parts: seq<string>, sep: char)
    requires |parts| >= 1
    requires forall i :: 0 <= i < |parts| ==> sep !in parts[i]
    ensures Split(JoinWith(parts, [sep]), sep) == parts
    decreases |parts|
  {
    if |parts| == 1 {
      SplitNoSep(parts[0], sep);
    } else {
      SplitOfJoin(parts[1..], sep);
      SplitAround(parts[0], JoinWith(parts[1..], [sep]), sep);
      SplitNoSep(parts[0], sep);
      assert [parts[0]] + parts[1..] == parts;
    }
  }

  lemma {:induction false} SplitNoSep(s: string, sep: char)
    requires sep !in s
    ensures Split(s, sep) == [s]
    decreases |s|
  {
    if s != [] {
      assert sep !in s[1..] by { forall k | 0 <= k < |s[1..]| ensures s[1..][k] != sep { assert s[1..][k] == s[k + 1]; } }
      SplitNoSep(s[1..], sep);
      assert [s[0]] + s[1..] == s;
    }
  }

  // ---------------------------------------------------------------------
  // Segments of a '/'-separated path

  /** The non-empty parts of a list of path parts. */
  function NonEmpty(parts: seq<string>): (r: seq<string>)
    ensures forall i :: 0 <= i < |r| ==> r[i] != "" && r[i] in parts
    decreases |parts|
  {
    if parts == [] then []
    else if parts[0] == "" then NonEmpty(parts[1..])
    else [parts[0]] + NonEmpty(parts[1..])
  }

  lemma {:induction false} NonEmptyConcat(a: seq<string>, b: seq<string>)
    ensures NonEmpty(a + b) == NonEmpty(a) + NonEmpty(b)
    decreases |a|
  {
    if a == [] {
      assert a + b == b;
    } else {
      assert (a + b)[0] == a[0];
      assert (a + b)[1..] == a[1..] + b;
      NonEmptyConcat(a[1..], b);
      if a[0] == "" {
        assert NonEmpty(a + b) == NonEmpty(a[1..] + b);
      } else {
        assert NonEmpty(a + b) == [a[0]] + NonEmpty(a[1..] + b);
      }
    }
  }

  lemma {:induction false} NonEmptyAll(parts: seq<string>)
    requires forall i :: 0 <= i < |parts| ==> parts[i] != ""
    ensures NonEmpty(parts) == parts
    decreases |parts|
  {
    if parts != [] { NonEmptyAll(parts[1..]); }
  }

  /** The segments of a path: the non-empty parts between slashes. */
  function Segs(p: string): (r: seq<string>)
    ensures forall i :: 0 <= i < |r| ==> r[i] != "" && '/' !in r[i]
  {
    NonEmpty(Split(p, '/'))
  }

  lemma SegsAround(a: string, b: string)
    ensures Segs(a + "/" + b) == Segs(a) + Segs(b)
  {
    SplitAround(a, b, '/');
    NonEmptyConcat(Split(a, '/'), Split(b, '/'));
  }

  lemma SegsEmpty()
    ensures Segs("") == []
  {
    assert Split("", '/') == [""];
    assert NonEmpty([""]) == NonEmpty([]);
  }

  lemma SegsOfSlashFree(s: string)
    requires '/' !in s
    ensures Segs(s) == if s == "" then [] else [s]
  {
    SplitNoSep(s, '/');
    if s == "" { SegsEmpty(); } else { assert NonEmpty([s]) == [s] + NonEmpty([]); }
  }

  /** A segment list that is rendered by `JoinWith`, split back, gives itself. */
  lemma SegsOfJoin(ss: seq<string>)
    requires |ss| >= 1
    requires forall i :: 0 <= i < |ss| ==> ss[i] != "" && '/' !in ss[i]
    ensures Segs(JoinWith(ss, "/")) == ss
  {
    SplitOfJoin(ss, '/');
    NonEmptyAll(ss);
  }

  // ---------------------------------------------------------------------
  // os.path (POSIX)

  /** `os.path.join(a, b)`: an absolute second path replaces the first, and
      the result is relative when both paths are. */
  function Join(a: string, b: string): (r: string)
    ensures !Relative(b) ==> r == b
    ensures Relative(a) && Relative(b) ==> Relative(r)
  {
    if StartsWith(b, "/") then b
    else if a == "" || EndsWith(a, "/") then a + b
    else a + "/" + b
  }

  /** `os.path.join(p0, p1, ...)`: relative when every path is. */
  function JoinAll(ps: seq<string>): (r: string)
    ensures (forall i :: 0 <= i < |ps| ==> Relative(ps[i])) ==> Relative(r)
    decreases |ps|
  {
    if ps == [] then ""
    else if |ps| == 1 then ps[0]
    else Join(JoinAll(ps[..|ps| - 1]), ps[|ps| - 1])
  }

  predicate Relative(p: string) { !StartsWith(p, "/") }

  lemma JoinRelative(a: string, b: string)
    requires Relative(a) && Relative(b)
    ensures Relative(Join(a, b))
  {
  }

  /** Joining a relative path keeps the segments of both sides, in order. */
  lemma SegsJoin(a: string, b: string)
    requires Relative(b)
    ensures Segs(Join(a, b)) == Segs(a) + Segs(b)
  {
    if a != "" && EndsWith(a, "/") {
      var a' := a[..|a| - 1];
      assert a == a' + "/" + "";
      assert a + b == a' + "/" + b;
      SegsAround(a', b);
      SegsAround(a', "");
      SegsEmpty();
    } else if a != "" {
      assert Join(a, b) == a + "/" + b;
      SegsAround(a, b);
    } else {
      assert Join(a, b) == b;
      SegsEmpty();
    }
  }

  // ---------------------------------------------------------------------
  // os.path.normpath

  /** One pass of `normpath`'s loop: drop empty and "." parts, let ".." cancel
      the previous part, keep a leading ".." of a relative path. */
  function NormStep(acc: seq<string>, comp: string, rooted: bool): seq<string>
  {
    if comp == "" || comp == "." then acc
    else if comp != ".." || (!rooted && acc == []) || (acc != [] && acc[|acc| - 1] == "..") then acc + [comp]
    else if acc != [] then acc[..|acc| - 1]
    else acc
  }

  function NormComps(comps: seq<string>, rooted: bool, acc: seq<string>): seq<string>
    decreases |comps|
  {
    if comps == [] then acc else NormComps(comps[1..], rooted, NormStep(acc, comps[0], rooted))
  }

  /** `os.path.normpath(path)` (POSIX); it never returns the empty path. */
  function Normpath(path: string): (r: string)
    ensures r != ""
  {
    if path == "" then "."
    else
      var slashes := if !StartsWith(path, "/") then 0
                     else if StartsWith(path, "//") && !StartsWith(path, "///") then 2 else 1;
      var comps := NormComps(Split(path, '/'), slashes > 0, []);
      var p := (if slashes == 0 then "" else if slashes == 1 then "/" else "//") + JoinWith(comps, "/");
      if p == "" then "." else p
  }

  /** The string `normpath` gives for a list of relative segments. */
  function Render(ss: seq<string>): string
  {
    if ss == [] then "." else JoinWith(ss, "/")
  }

  /** Segments that `normpath` keeps as they are. */
  predicate AllPlain(ss: seq<string>)
  {
    forall i :: 0 <= i < |ss| ==> ss[i] != "" && ss[i] != "." && ss[i] != ".." && '/' !in ss[i]
  }

  lemma {:induction false} NormCompsConcat(a: seq<string>, b: seq<string>, rooted: bool, acc: seq<string>)
    ensures NormComps(a + b, rooted, acc) == NormComps(b, rooted, NormComps(a, rooted, acc))
    decreases |a|
  {
    if a == [] {
      assert a + b == b;
    } else {
      assert (a + b)[0] == a[0];
      assert (a + b)[1..] == a[1..] + b;
      NormCompsConcat(a[1..], b, rooted, NormStep(acc, a[0], rooted));
    }
  }

  lemma {:induction false} NormCompsSkipsEmpty(parts: seq<string>, rooted: bool, acc: seq<string>)
    ensures NormComps(parts, rooted, acc) == NormComps(NonEmpty(parts), rooted, acc)
    decreases |parts|
  {
    if parts != [] {
      NormCompsSkipsEmpty(parts[1..], rooted, NormStep(acc, parts[0], rooted));
    }
  }

  lemma {:induction false} NormCompsPlain(ss: seq<string>, rooted: bool, acc: seq<string>)
    requires AllPlain(ss)
    ensures NormComps(ss, rooted, acc) == acc + ss
    decreases |ss|
  {
    if ss != [] {
      NormCompsPlain(ss[1..], rooted, acc + [ss[0]]);
      assert acc + [ss[0]] + ss[1..] == acc + ss;
    }
  }

  /** A run of ".." after plain segments cancels them one by one. */
  lemma {:induction false} NormCompsCancel(acc: seq<string>, n: nat)
    requires n <= |acc| && AllPlain(acc)
    ensures NormComps(Repeat("..", n), false, acc) == acc[..|acc| - n]
    decreases n
  {
    if n > 0 {
      var acc' := acc[..|acc| - 1];
      assert NormStep(acc, "..", false) == acc';
      assert Repeat("..", n)[1..] == Repeat("..", n - 1);
      NormCompsCancel(acc', n - 1);
      assert acc'[..|acc'| - (n - 1)] == acc[..|acc| - n];
    } else {
      assert acc[..|acc|] == acc;
    }
  }

  /** A leading run of ".." in a relative path is kept. */
  lemma {:induction false} NormCompsLeadingUp(m: nat, n: nat)
    ensures NormComps(Repeat("..", n), false, Repeat("..", m)) == Repeat("..", m + n)
    decreases n
  {
    if n > 0 {
      assert NormStep(Repeat("..", m), "..", false) == Repeat("..", m + 1);
      assert Repeat("..", n)[1..] == Repeat("..", n - 1);
      NormCompsLeadingUp(m + 1, n - 1);
    }
  }

  lemma JoinWithNonEmpty(ss: seq<string>, sep: string)
    requires |ss| >= 1 && ss[0] != ""
    ensures JoinWith(ss, sep) != ""
  {
  }

  lemma NormpathOfComps(path: string, comps: seq<string>)
    requires path != "" && Relative(path)
    requires NormComps(Split(path, '/'), false, []) == comps
    requires comps == [] || comps[0] != ""
    ensures Normpath(path) == Render(comps)
  {
    if comps != [] { JoinWithNonEmpty(comps, "/"); }
  }

  /** `normpath` of a relative path made of leading ".." and plain segments
      renders exactly those segments. */
  lemma NormpathUpThenPlain(path: string, m: nat, ss: seq<string>)
    requires Relative(path) && AllPlain(ss)
    requires Segs(path) == Repeat("..", m) + ss
    ensures Normpath(path) == Render(Repeat("..", m) + ss)
  {
    if path != "" {
      NormCompsSkipsEmpty(Split(path, '/'), false, []);
      NormCompsConcat(Repeat("..", m), ss, false, []);
      NormCompsLeadingUp(0, m);
      assert Repeat("..", 0) == [];
      NormCompsPlain(ss, false, Repeat("..", m));
      NormpathOfComps(path, Repeat("..", m) + ss);
    }
  }

  /** `normpath` of plain segments followed by as many ".." as there are of
      them, then more plain segments, keeps only the last ones. */
  lemma NormpathCancel(path: string, pre: seq<string>, post: seq<string>)
    requires Relative(path) && AllPlain(pre) && AllPlain(post)
    requires Segs(path) == pre + Repeat("..", |pre|) + post
    ensures Normpath(path) == Render(post)
  {
    if path == "" {
      assert Segs(path) == [];
    } else {
      NormCompsSkipsEmpty(Split(path, '/'), false, []);
      NormCompsConcat(pre + Repeat("..", |pre|), post, false, []);
      NormCompsConcat(pre, Repeat("..", |pre|), false, []);
      NormCompsPlain(pre, false, []);
      assert [] + pre == pre;
      NormCompsCancel(pre, |pre|);
      assert pre[..0] == [];
      NormCompsPlain(post, false, []);
      assert [] + post == post;
      NormpathOfComps(path, post);
    }
  }

  lemma SegsOfRender(ss: seq<string>)
    requires |ss| >= 1
    requires forall i :: 0 <= i < |ss| ==> ss[i] != "" && '/' !in ss[i]
    ensures Segs(Render(ss)) == ss && Relative(Render(ss)) == (ss[0][0] != '/')
  {
    SegsOfJoin(ss);
  }

  // ---------------------------------------------------------------------
  // os.path.split / os.path.splitext

  /** `s.rfind(c)`: the index of the last `c`, or -1. */
  function RFind(s: string, c: char): (i: int)
    ensures -1 <= i < |s|
    ensures 0 <= i ==> s[i] == c
    ensures forall k :: i < k < |s| ==> s[k] != c
    decreases |s|
  {
    if s == [] then -1
    else if s[|s| - 1] == c then |s| - 1
    else RFind(s[..|s| - 1], c)
  }

  /** `s.rstrip(c)`. */
  function RStrip(s: string, c: char): (r: string)
    ensures |r| <= |s| && r == s[..|r|]
    ensures r == "" || r[|r| - 1] != c
    ensures forall k :: |r| <= k < |s| ==> s[k] == c
    decreases |s|
  {
    if s != [] && s[|s| - 1] == c then RStrip(s[..|s| - 1], c) else s
  }

  predicate AllOf(s: string, c: char)
  {
    forall k :: 0 <= k < |s| ==> s[k] == c
  }

  /** The directory part `os.path.split` keeps: trailing slashes removed
      unless it is all slashes. */
  function StripHead(head: string): string
  {
    if head != "" && !AllOf(head, '/') then RStrip(head, '/') else head
  }

  /** `os.path.split(p)`: the directory part and the last component, which
      is what follows the last slash. */
  function PathSplit(p: string): (r: (string, string))
    ensures '/' !in r.1 && EndsWith(p, r.1)
  {
    var i := RFind(p, '/') + 1;
    var tail := p[i..];
    assert forall k :: 0 <= k < |tail| ==> tail[k] == p[i + k];
    (StripHead(p[..i]), tail)
  }

  lemma {:induction false} SegsRStrip(s: string)
    ensures Segs(RStrip(s, '/')) == Segs(s)
    decreases |s|
  {
    if s != [] && s[|s| - 1] == '/' {
      var s' := s[..|s| - 1];
      SegsRStrip(s');
      assert s == s' + "/" + "";
      SegsAround(s', "");
      SegsEmpty();
    }
  }

  lemma SegsAtSlash(p: string, i: nat)
    requires i < |p| && p[i] == '/'
    ensures Segs(p) == Segs(p[..i]) + Segs(p[i + 1..])
    ensures Segs(p[..i + 1]) == Segs(p[..i])
  {
    assert p == p[..i] + "/" + p[i + 1..];
    SegsAround(p[..i], p[i + 1..]);
    assert p[..i + 1] == p[..i] + "/" + "";
    SegsAround(p[..i], "");
    SegsEmpty();
  }

  lemma PathSplitHead(p: string)
    ensures Segs(p) == Segs(PathSplit(p).0) + Segs(PathSplit(p).1)
  {
    var i := RFind(p, '/') + 1;
    if i == 0 {
      assert p[..i] == "" && p[i..] == p;
      SegsEmpty();
    } else {
      SegsAtSlash(p, i - 1);
      SegsRStrip(p[..i]);
      assert Segs(StripHead(p[..i])) == Segs(p[..i]);
    }
  }

  lemma PathSplitRelative(p: string)
    requires Relative(p)
    ensures Relative(PathSplit(p).0) && Relative(PathSplit(p).1)
  {
    var i := RFind(p, '/') + 1;
    var full := p[..i];
    var head := StripHead(full);
    assert head == full[..|head|];
    if |head| > 0 {
      assert head[0] == full[0] == p[0];
    }
    var tail := p[i..];
    if |tail| > 0 {
      assert tail[0] == p[i];
    }
  }

  /** The two halves of `os.path.split` carry the path's segments, and the
      last component holds no slash. */
  lemma PathSplitSegs(p: string)
    ensures '/' !in PathSplit(p).1
    ensures Segs(p) == Segs(PathSplit(p).0) + Segs(PathSplit(p).1)
    ensures Relative(p) ==> Relative(PathSplit(p).0) && Relative(PathSplit(p).1)
  {
    PathSplitHead(p);
    if Relative(p) { PathSplitRelative(p); }
  }

  /** The last component is empty only for an empty path or one that ends in
      a slash. */
  lemma PathSplitTailNonEmpty(p: string)
    requires p != "" && !EndsWith(p, "/")
    ensures PathSplit(p).1 != ""
  {
    assert p[|p| - 1..] == [p[|p| - 1]];
  }

  predicate HasNonDot(p: string, lo: int, hi: int)
    requires 0 <= lo && hi <= |p|
  {
    exists k :: lo <= k < hi && p[k] != '.'
  }

  /** `os.path.splitext(p)`: the extension starts at the last dot of the last
      component unless that component is only dots before it. */
  function Splitext(p: string): (r: (string, string))
    ensures r.0 + r.1 == p
    ensures r.1 == "" || (r.1[0] == '.' && '/' !in r.1)
  {
    var sep := RFind(p, '/');
    var dot := RFind(p, '.');
    if dot > sep && HasNonDot(p, sep + 1, dot) then
      assert '/' !in p[dot..] by {
        forall k | 0 <= k < |p[dot..]| ensures p[dot..][k] != '/' { assert p[dot..][k] == p[dot + k]; }
      }
      (p[..dot], p[dot..])
    else (p, "")
  }

  // ---------------------------------------------------------------------
  // The generator's own helpers

  /** `StripPrefix(arg, prefix)`. */
  function StripPrefix(arg: string, prefix: string): (r: string)
    ensures StartsWith(arg, prefix) ==> prefix + r == arg
    ensures !StartsWith(arg, prefix) ==> r == arg
  {
    if StartsWith(arg, prefix) then arg[|prefix|..] else arg
  }

  /** `InvertRelativePath(path)`: one ".." per '/'-separated part of the path;
      the empty path is returned unchanged and a path containing ".." fails
      the function's assertion. */
  function InvertRelativePath(path: string): (r: Result<string, PyError>)
    ensures r.Err? <==> path != "" && Contains(path, "..")
    ensures r.Ok? && path != "" ==> Split(r.value, '/') == Repeat("..", |Split(path, '/')|)
  {
    if path == "" then Ok(path)
    else if Contains(path, "..") then Err(AssertionError(path))
    else
      var ups := Repeat("..", |Split(path, '/')|);
      SplitOfJoin(ups, '/');
      Ok(JoinWith(ups, "/"))
  }

  /** A relative path into sub-directories: every part is a plain name. */
  predicate Clean(p: string)
  {
    p != "" && forall i :: 0 <= i < |Split(p, '/')| ==>
      var s := Split(p, '/')[i]; s != "" && s != "." && s != ".."
  }

  lemma FirstAndLastPart(p: string)
    ensures StartsWith(p, "/") ==> Split(p, '/')[0] == ""
    ensures EndsWith(p, "/") ==> Split(p, '/')[|Split(p, '/')| - 1] == ""
  {
    if StartsWith(p, "/") {
      FirstPart(p);
    }
    if EndsWith(p, "/") {
      LastPart(p);
    }
  }

  lemma FirstPart(p: string)
    requires StartsWith(p, "/")
    ensures Split(p, '/')[0] == ""
  {
    var b := p[1..];
    assert p == [] + ['/'] + b;
    SplitAround([], b, '/');
    assert Split([], '/') == [""];
  }

  lemma LastPart(p: string)
    requires EndsWith(p, "/")
    ensures Split(p, '/')[|Split(p, '/')| - 1] == ""
  {
    var a := p[..|p| - 1];
    assert p == a + ['/'] + [];
    SplitAround(a, [], '/');
    assert Split([], '/') == [""];
  }

  lemma CleanSegs(p: string)
    requires Clean(p)
    ensures Segs(p) == Split(p, '/') && AllPlain(Segs(p))
    ensures Relative(p) && !EndsWith(p, "/")
  {
    NonEmptyAll(Split(p, '/'));
    FirstAndLastPart(p);
  }

  /** A single clean name: its own only segment, with an empty head. */
  lemma PlainLeaf(f: string)
    requires f != "" && '/' !in f && f != "." && f != ".."
    ensures Clean(f) && PathSplit(f) == ("", f)
  {
    SplitNoSep(f, '/');
    assert RFind(f, '/') == -1;
  }

  /** What the doc comment of `InvertRelativePath` promises: going down the
      path and back up again leads to the starting directory, which
      `normpath` writes as "." (it never returns the empty string). */
  lemma InvertRelativePathRoundTrip(path: string)
    requires path == "" || (Clean(path) && !Contains(path, ".."))
    ensures InvertRelativePath(path).Ok?
    ensures Normpath(Join(path, InvertRelativePath(path).value)) == "."
  {
    if path != "" {
      var inv := InvertRelativePath(path).value;
      var ups := Repeat("..", |Split(path, '/')|);
      CleanSegs(path);
      assert inv == JoinWith(ups, "/");
      SegsOfJoin(ups);
      assert inv[0] == '.';
      assert Join(path, inv) == path + "/" + inv;
      SegsAround(path, inv);
      assert Relative(path + "/" + inv);
      NormpathCancel(Join(path, inv), Segs(path), []);
      assert Segs(path) + Repeat("..", |Segs(path)|) + [] == Segs(path) + Repeat("..", |Segs(path)|);
    }
  }
}
