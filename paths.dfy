/** The `System.IO.Path` operations skill loading uses, with Unix semantics:
    `/` is the only separator and a path is rooted when it starts with it. */
module Paths {
  import opened Text
  import opened Seqs

  predicate IsPathRooted(p: string) {
    |p| > 0 && p[0] == '/'
  }

  /** `Path.Combine(a, b)`: a rooted `b` replaces `a`. */
  function Combine(a: string, b: string): (r: string)
    ensures IsPathRooted(b) ==> r == b
    ensures !IsPathRooted(b) && a != "" && b != "" && !EndsWith(a, "/") ==> r == a + "/" + b
  {
    if b == "" then a
    else if IsPathRooted(b) || a == "" then b
    else if EndsWith(a, "/") then a + b
    else a + "/" + b
  }

  /** Position of the last `c`, or -1. */
  function LastIndexOf(s: string, c: char): (r: int)
    ensures -1 <= r < |s|
    ensures r >= 0 ==> s[r] == c
    ensures forall i :: r < i < |s| ==> s[i] != c
    decreases |s|
  {
    if |s| == 0 then -1
    else if s[|s| - 1] == c then |s| - 1
    else LastIndexOf(s[..|s| - 1], c)
  }

  /** `Path.GetFileName`: the text after the last separator. */
  function GetFileName(p: string): (r: string)
    ensures '/' !in r
    ensures EndsWith(p, r)
  {
    var k := LastIndexOf(p, '/');
    p[k + 1..]
  }

  /** A single path segment: a name with no separator. */
  predicate IsFileName(n: string) {
    n != "" && '/' !in n
  }

  /** Under a fixed directory, distinct relative names give distinct paths. */
  lemma CombineInjective(a: string, b1: string, b2: string)
    requires b1 != "" && b2 != "" && !IsPathRooted(b1) && !IsPathRooted(b2)
    requires Combine(a, b1) == Combine(a, b2)
    ensures b1 == b2
  {
    if a != "" {
      var p := if EndsWith(a, "/") then a else a + "/";
      assert Combine(a, b1) == p + b1 && Combine(a, b2) == p + b2;
      assert (p + b1)[|p|..] == b1 && (p + b2)[|p|..] == b2;
    }
  }

  /** The file name of a name joined under a directory is that name. */
  lemma FileNameOfCombine(a: string, b: string)
    requires IsFileName(b)
    ensures GetFileName(Combine(a, b)) == b
  {
    var c := Combine(a, b);
    var k := LastIndexOf(c, '/');
    if a == "" {
      assert c == b;
      assert k < 0;
    } else {
      var p := if EndsWith(a, "/") then a else a + "/";
      assert c == p + b && p[|p| - 1] == '/';
      assert c[|p| - 1] == '/';
      assert k == |p| - 1;
      assert c[k + 1..] == b;
    }
  }

  /** `Path.GetDirectoryName` of a path with a separator: the text before
      the last one (the root for a child of the root); `""` without one. */
  function GetDirectoryName(p: string): (r: string)
    ensures |r| <= |p|
  {
    var k := LastIndexOf(p, '/');
    if k < 0 then "" else if k == 0 then "/" else p[..k]
  }

  /** `Path.GetExtension`: from the last `.` of the file name, or `""` when
      there is none or it is the last character. */
  function GetExtension(p: string): (r: string)
    ensures r == "" || (r[0] == '.' && |r| >= 2 && EndsWith(p, r) && '/' !in r)
  {
    var name := GetFileName(p);
    var k := LastIndexOf(name, '.');
    if k < 0 || k == |name| - 1 then "" else name[k..]
  }

  // ---------------------------------------------------------------------
  // `Path.GetFullPath` of a rooted path

  /** Resolves the segments of a path onto a stack: empty and `.` segments
      vanish, `..` pops (and stays at the root). */
  function Resolve(stack: seq<string>, segments: seq<string>): seq<string>
    decreases |segments|
  {
    if |segments| == 0 then stack
    else
      var s := segments[0];
      var next :=
        if s == "" || s == "." then stack
        else if s == ".." then (if |stack| > 0 then stack[..|stack| - 1] else stack)
        else stack + [s];
      Resolve(next, segments[1..])
  }

  /** The segments that name directories or files. */
  function Named(segments: seq<string>): (r: seq<string>)
    decreases |segments|
  {
    if |segments| == 0 then []
    else (if segments[0] == "" || segments[0] == "." then [] else [segments[0]]) + Named(segments[1..])
  }

  /** Without a `..` segment, resolving just appends the named segments. */
  lemma {:induction false} ResolveWithoutParent(stack: seq<string>, segments: seq<string>)
    requires forall i :: 0 <= i < |segments| ==> segments[i] != ".."
    ensures Resolve(stack, segments) == stack + Named(segments)
    decreases |segments|
  {
    if |segments| > 0 {
      var s := segments[0];
      var named := if s == "" || s == "." then [] else [s];
      var next := stack + named;
      assert s != ".." && stack + [] == stack;
      assert forall i :: 0 <= i < |segments[1..]| ==> segments[1..][i] == segments[i + 1];
      ResolveWithoutParent(next, segments[1..]);
      assert Resolve(stack, segments) == Resolve(next, segments[1..]);
      assert Named(segments) == named + Named(segments[1..]);
      AppendAssociative3(stack, named, Named(segments[1..]));
    }
  }

  /** The resolved segments of a rooted path. */
  function Segments(p: string): seq<string> {
    Resolve([], Split(p, '/'))
  }

  /** `Path.GetFullPath` of a rooted path: the resolved segments, keeping a
      trailing separator. */
  function FullPath(p: string): (r: string)
    ensures IsPathRooted(r)
  {
    var segs := Segments(p);
    "/" + Join(segs, "/") + (if |segs| > 0 && EndsWith(p, "/") then "/" else "")
  }

  /** Splitting at an occurrence of the separator splits each side. */
  lemma {:induction false} SplitAround(a: string, c: char, b: string)
    requires c !in a
    ensures Split(a + [c] + b, c) == [a] + Split(b, c)
  {
    var s := a + [c] + b;
    assert s[..|a|] == a && s[|a|] == c;
    IndexOfAt(s, c, |a|);
    SplitAt(s, c, |a|);
    assert s[|a| + 1..] == b;
  }

  lemma {:induction false} SplitAppend(a: string, c: char, b: string)
    ensures Split(a + [c] + b, c) == Split(a, c) + Split(b, c)
    decreases |a|
  {
    var k := IndexOf(a, c);
    if k < 0 {
      SplitAround(a, c, b);
    } else {
      var s := a + [c] + b;
      assert s[..k] == a[..k] && s[k] == c;
      IndexOfAt(s, c, k);
      SplitAt(s, c, k);
      SplitAt(a, c, k);
      assert s[k + 1..] == a[k + 1..] + [c] + b;
      SplitAppend(a[k + 1..], c, b);
      var x, y := Split(a[k + 1..], c), Split(b, c);
      assert Split(s, c) == [a[..k]] + (x + y);
      AppendAssociative3([a[..k]], x, y);
    }
  }

  /** A text without `..` has no `..` segment. */
  lemma {:induction false} NoParentSegment(p: string)
    requires !Contains(p, "..")
    ensures forall i :: 0 <= i < |Split(p, '/')| ==> Split(p, '/')[i] != ".."
    decreases |p|
  {
    var k := IndexOf(p, '/');
    if k >= 0 {
      assert !StartsWith(p, "..");
      NotContainsSuffix(p, k + 1, "..");
      NoParentSegment(p[k + 1..]);
      SplitAt(p, '/', k);
      assert Split(p, '/') == [p[..k]] + Split(p[k + 1..], '/');
      assert k == 2 ==> p[..2] == p[..k];
      NoParentCons(p[..k], Split(p[k + 1..], '/'));
    } else {
      assert !StartsWith(p, "..");
      assert Split(p, '/') == [p];
      assert |p| == 2 ==> p[..2] == p;
    }
  }

  lemma NoParentCons(head: string, rest: seq<string>)
    requires head != ".." && forall i :: 0 <= i < |rest| ==> rest[i] != ".."
    ensures forall i :: 0 <= i < |[head] + rest| ==> ([head] + rest)[i] != ".."
  {
    forall i | 0 <= i < |[head] + rest| ensures ([head] + rest)[i] != ".." {
      if i > 0 {
        assert ([head] + rest)[i] == rest[i - 1];
      }
    }
  }

  lemma NotContainsSuffix(p: string, k: nat, sub: string)
    requires k <= |p| && !Contains(p, sub)
    ensures !Contains(p[k..], sub)
  {
    if Contains(p[k..], sub) {
      var i := ContainsWitness(p[k..], sub);
      assert p[k + i..k + i + |sub|] == p[k..][i..i + |sub|];
      ContainsAt(p, sub, k + i);
    }
  }

  lemma ContainsWitness(s: string, sub: string) returns (i: nat)
    requires Contains(s, sub)
    ensures i + |sub| <= |s| && s[i..i + |sub|] == sub
    decreases |s|
  {
    if StartsWith(s, sub) {
      i := 0;
    } else {
      var j := ContainsWitness(s[1..], sub);
      assert s[1..][j..j + |sub|] == s[j + 1..j + 1 + |sub|];
      i := j + 1;
    }
  }

  /** The prefix test behind the traversal guard: joining a path free of
      `..` under a directory never leaves that directory, so the resolved
      path always starts with the resolved directory. */
  lemma {:induction false} CombineStaysInside(dir: string, p: string)
    requires IsPathRooted(dir) && !EndsWith(dir, "/") && |Segments(dir)| > 0
    requires !IsPathRooted(p) && !Contains(p, "..")
    ensures StartsWith(FullPath(Combine(dir, p)), FullPath(dir))
  {
    var a := Segments(dir);
    assert FullPath(dir) == "/" + Join(a, "/");
    if p != "" {
      var c := dir + "/" + p;
      assert Combine(dir, p) == c;
      SplitAppend(dir, '/', p);
      NoParentSegment(p);
      ResolveAppend([], Split(dir, '/'), Split(p, '/'));
      ResolveWithoutParent(a, Split(p, '/'));
      var b := Named(Split(p, '/'));
      assert Segments(c) == a + b;
      FullPathExtends(a, b, if |a + b| > 0 && EndsWith(c, "/") then "/" else "");
    } else {
      StartsWithAppend(FullPath(dir), "");
      assert FullPath(dir) + "" == FullPath(dir);
    }
  }

  /** Appending segments to a non-empty list extends its joined path. */
  lemma FullPathExtends(a: seq<string>, b: seq<string>, tail: string)
    requires |a| > 0
    ensures StartsWith("/" + Join(a + b, "/") + tail, "/" + Join(a, "/"))
  {
    var x := "/" + Join(a, "/");
    if |b| > 0 {
      JoinAppend(a, b, "/");
      assert "/" + Join(a + b, "/") + tail == x + ("/" + Join(b, "/") + tail);
      StartsWithAppend(x, "/" + Join(b, "/") + tail);
    } else {
      assert a + b == a;
      StartsWithAppend(x, tail);
    }
  }

  lemma {:induction false} ResolveAppend(stack: seq<string>, s: seq<string>, t: seq<string>)
    ensures Resolve(stack, s + t) == Resolve(Resolve(stack, s), t)
    decreases |s|
  {
    if |s| > 0 {
      assert (s + t)[0] == s[0] && (s + t)[1..] == s[1..] + t;
      var x := s[0];
      var next :=
        if x == "" || x == "." then stack
        else if x == ".." then (if |stack| > 0 then stack[..|stack| - 1] else stack)
        else stack + [x];
      ResolveAppend(next, s[1..], t);
    } else {
      assert s + t == t;
    }
  }
}
