/**
 * The behaviour of Python's `str`, `pathlib.Path` and `os.path` operations that the
 * ingestion code relies on, written out over `seq<char>`.
 */
module PyStrings {
  import opened Outcomes

  /** `s.startswith(prefix)` */
  predicate StartsWith(s: string, prefix: string) {
    |prefix| <= |s| && s[..|prefix|] == prefix
  }

  /** `s.endswith(suffix)` */
  predicate EndsWith(s: string, suffix: string) {
    |suffix| <= |s| && s[|s| - |suffix|..] == suffix
  }

  /** A text starts with `p` exactly when it is `p` followed by the rest, and ends with `p` alike. */
  lemma AffixSplit(s: string, p: string)
    ensures StartsWith(s, p) <==> |p| <= |s| && s == p + s[|p|..]
    ensures EndsWith(s, p) <==> |p| <= |s| && s == s[..|s| - |p|] + p
  {
    if |p| <= |s| {
      if s == p + s[|p|..] { assert s[..|p|] == p; }
      if s == s[..|s| - |p|] + p { assert s[|s| - |p|..] == p; }
    }
  }

  /** `p` occurs in `s` starting at index `i`. */
  predicate OccursAt(s: string, p: string, i: nat) {
    i + |p| <= |s| && s[i..i + |p|] == p
  }

  /** `s.find(p, start)`: the first index at or after `start` where `p` occurs, if any. */
  function FindFrom(s: string, p: string, start: nat): (r: Option<nat>)
    ensures r.Some? ==> start <= r.value && OccursAt(s, p, r.value)
    ensures forall j: nat :: start <= j && (r.None? || j < r.value) ==> !OccursAt(s, p, j)
    decreases |s| - start
  {
    if start + |p| > |s| then None
    else if s[start..start + |p|] == p then Some(start)
    else FindFrom(s, p, start + 1)
  }

  /** `s.split(sep)[0]`: the text before the first occurrence of `sep`, or all of `s`. */
  function SplitHead(s: string, sep: string): (r: string)
    requires sep != ""
    ensures StartsWith(s, r)
    ensures r == s || OccursAt(s, sep, |r|)
    ensures forall j: nat :: j < |r| ==> !OccursAt(s, sep, j)
  {
    match FindFrom(s, sep, 0)
    case None => s
    case Some(i) => s[..i]
  }

  /** `s.split(c)[0]` holds no `c`. */
  lemma SplitHeadExcludes(s: string, c: char)
    ensures c !in SplitHead(s, [c])
  {
    var h := SplitHead(s, [c]);
    forall j | 0 <= j < |h| ensures h[j] != c {
      assert h[j] == s[j];
      assert !OccursAt(s, [c], j);
      assert s[j..j + 1] == [s[j]];
    }
  }

  /**
   * `s.split(sep)[1]`: the text between the first and the second occurrence of `sep`
   * (or the end of `s`); None where Python raises IndexError because `sep` does not occur.
   */
  function SplitSecond(s: string, sep: string): (r: Option<string>)
    requires sep != ""
    ensures r.None? <==> forall j: nat :: !OccursAt(s, sep, j)
    ensures r.Some? ==> |r.value| + |sep| <= |s|
  {
    match FindFrom(s, sep, 0)
    case None => None
    case Some(i) => Some(SplitHead(s[i + |sep|..], sep))
  }

  /** `s.replace(p, "")`: the occurrences of `p`, found left to right without overlap, removed. */
  function RemoveAll(s: string, p: string): (r: string)
    requires p != ""
    ensures |r| <= |s|
    decreases |s|
  {
    if s == [] then []
    else if StartsWith(s, p) then RemoveAll(s[|p|..], p)
    else [s[0]] + RemoveAll(s[1..], p)
  }

  lemma OccursInTail(s: string, p: string, j: nat)
    requires s != [] && OccursAt(s[1..], p, j)
    ensures OccursAt(s, p, j + 1)
  {
    assert s[1..][j..j + |p|] == s[j + 1..j + 1 + |p|];
  }

  /** Removing a pattern that does not occur leaves the text as it is. */
  lemma {:induction false} RemoveAllAbsent(s: string, p: string)
    requires p != ""
    requires forall j: nat :: !OccursAt(s, p, j)
    ensures RemoveAll(s, p) == s
    decreases |s|
  {
    if s != [] {
      assert !OccursAt(s, p, 0);
      forall j: nat ensures !OccursAt(s[1..], p, j) {
        if OccursAt(s[1..], p, j) {
          OccursInTail(s, p, j);
        }
      }
      RemoveAllAbsent(s[1..], p);
    }
  }

  /** `s.split(c)` for a one-character separator. */
  function Split(s: string, c: char): (r: seq<string>)
    ensures |r| >= 1
    ensures forall k :: 0 <= k < |r| ==> c !in r[k]
    decreases |s|
  {
    if s == [] then [[]]
    else
      var rest := Split(s[1..], c);
      if s[0] == c then [[]] + rest
      else [[s[0]] + rest[0]] + rest[1..]
  }

  /** `sep.join(xs)` */
  function Join(sep: string, xs: seq<string>): (r: string)
    ensures |xs| >= 1 ==> StartsWith(r, xs[0]) && EndsWith(r, xs[|xs| - 1])
    decreases |xs|
  {
    if |xs| == 0 then ""
    else if |xs| == 1 then xs[0]
    else xs[0] + sep + Join(sep, xs[1..])
  }

  /** A text without the separator splits into itself alone. */
  lemma {:induction false} SplitNoSeparator(s: string, c: char)
    requires c !in s
    ensures Split(s, c) == [s]
    decreases |s|
  {
    if s != [] {
      SplitNoSeparator(s[1..], c);
      assert [s[0]] + s[1..] == s;
    }
  }

  /** Splitting a text that starts with `x`: a separator opens a new part, anything else joins the first. */
  lemma SplitCons(x: char, t: string, c: char)
    ensures Split([x] + t, c)
         == if x == c then [[]] + Split(t, c) else [[x] + Split(t, c)[0]] + Split(t, c)[1..]
  {
    assert ([x] + t)[1..] == t;
  }

  /** Extending the first part of a non-empty list of parts commutes with appending more parts. */
  lemma ExtendFirstPart(x: char, left: seq<string>, right: seq<string>)
    requires |left| >= 1
    ensures [[x] + (left + right)[0]] + (left + right)[1..] == ([[x] + left[0]] + left[1..]) + right
  {
    assert (left + right)[0] == left[0];
    assert (left + right)[1..] == left[1..] + right;
  }

  /** Splitting around one separator splits each side independently. */
  lemma {:induction false} SplitAround(a: string, b: string, c: char)
    ensures Split(a + [c] + b, c) == Split(a, c) + Split(b, c)
    decreases |a|
  {
    if a == [] {
      assert a + [c] + b == [c] + b;
      SplitCons(c, b, c);
    } else {
      var t := a[1..] + [c] + b;
      assert a + [c] + b == [a[0]] + t;
      assert a == [a[0]] + a[1..];
      SplitAround(a[1..], b, c);
      SplitCons(a[0], t, c);
      SplitCons(a[0], a[1..], c);
      if a[0] == c {
        assert [[]] + (Split(a[1..], c) + Split(b, c)) == ([[]] + Split(a[1..], c)) + Split(b, c);
      } else {
        ExtendFirstPart(a[0], Split(a[1..], c), Split(b, c));
      }
    }
  }

  /** Joining a part in front of a non-empty list of parts. */
  lemma JoinCons(sep: string, x: string, ys: seq<string>)
    requires |ys| >= 1
    ensures Join(sep, [x] + ys) == x + sep + Join(sep, ys)
  {
    assert ([x] + ys)[1..] == ys;
  }

  /** Extending the first part extends the joined text at the front. */
  lemma JoinExtendFirst(sep: string, ch: char, ys: seq<string>)
    requires |ys| >= 1
    ensures Join(sep, [[ch] + ys[0]] + ys[1..]) == [ch] + Join(sep, ys)
  {
    if |ys| > 1 {
      JoinCons(sep, [ch] + ys[0], ys[1..]);
      assert ys == [ys[0]] + ys[1..];
      JoinCons(sep, ys[0], ys[1..]);
    }
  }

  /** Joining the parts of a split gives the text back. */
  lemma {:induction false} JoinSplit(s: string, c: char)
    ensures Join([c], Split(s, c)) == s
    decreases |s|
  {
    if s != [] {
      assert s == [s[0]] + s[1..];
      SplitCons(s[0], s[1..], c);
      JoinSplit(s[1..], c);
      if s[0] == c {
        JoinCons([c], [], Split(s[1..], c));
      } else {
        JoinExtendFirst([c], s[0], Split(s[1..], c));
      }
    }
  }

  /** Splitting a join of separator-free parts gives the parts back. */
  lemma {:induction false} SplitJoin(xs: seq<string>, c: char)
    requires |xs| >= 1
    requires forall k :: 0 <= k < |xs| ==> c !in xs[k]
    ensures Split(Join([c], xs), c) == xs
    decreases |xs|
  {
    SplitNoSeparator(xs[0], c);
    if |xs| > 1 {
      SplitJoin(xs[1..], c);
      SplitAround(xs[0], Join([c], xs[1..]), c);
      assert xs[0] + [c] + Join([c], xs[1..]) == Join([c], xs);
      assert [xs[0]] + xs[1..] == xs;
    }
  }

  /** The parts of a POSIX path that `pathlib` keeps: empty and `.` parts are dropped. */
  function KeptParts(parts: seq<string>): (r: seq<string>)
    ensures forall k :: 0 <= k < |r| ==> r[k] in parts && r[k] != "" && r[k] != "."
    decreases |parts|
  {
    if parts == [] then []
    else (if parts[0] == "" || parts[0] == "." then [] else [parts[0]]) + KeptParts(parts[1..])
  }

  lemma {:induction false} KeptPartsAppend(xs: seq<string>, ys: seq<string>)
    ensures KeptParts(xs + ys) == KeptParts(xs) + KeptParts(ys)
    decreases |xs|
  {
    if xs == [] {
      assert xs + ys == ys;
    } else {
      assert (xs + ys)[1..] == xs[1..] + ys;
      KeptPartsAppend(xs[1..], ys);
    }
  }

  /** `Path(name).name`: the last component of a POSIX path, or "" when there is none. */
  function BaseName(name: string): (r: string)
    ensures '/' !in r && r != "."
    ensures !StartsWith(r, "/")
  {
    var parts := KeptParts(Split(name, '/'));
    if parts == [] then ""
    else
      var last := parts[|parts| - 1];
      assert last == "" || (last[0] in last && last[..1] == [last[0]]);
      last
  }

  /** A plain file name is its own base name. */
  lemma BaseNameOfFileName(f: string)
    requires f != "" && f != "." && '/' !in f
    ensures BaseName(f) == f
  {
    SplitNoSeparator(f, '/');
    assert KeptParts([f]) == [f];
  }

  /** Whatever directories precede it, the base name of `dir/f` is `f`. */
  lemma BaseNameOfNested(dir: string, f: string)
    requires f != "" && f != "." && '/' !in f
    ensures BaseName(dir + "/" + f) == f
  {
    SplitAround(dir, f, '/');
    SplitNoSeparator(f, '/');
    KeptPartsAppend(Split(dir, '/'), [f]);
    assert KeptParts([f]) == [f];
  }

  /** `os.path.join(a, b)` on POSIX. */
  function PathJoin(a: string, b: string): (r: string)
    ensures EndsWith(r, b)
    ensures !StartsWith(b, "/") ==> StartsWith(r, a)
  {
    if StartsWith(b, "/") then b
    else if a == "" || EndsWith(a, "/") then a + b
    else a + "/" + b
  }

  /** Joining a file name onto any directory keeps it as the base name of the result. */
  lemma BaseNameOfPathJoin(dir: string, f: string)
    requires f != "" && f != "." && '/' !in f
    ensures BaseName(PathJoin(dir, f)) == f
  {
    assert f[..1] == [f[0]] && f[0] in f;
    if dir == "" {
      assert PathJoin(dir, f) == f;
      BaseNameOfFileName(f);
    } else if EndsWith(dir, "/") {
      assert dir + f == dir[..|dir| - 1] + "/" + f;
      BaseNameOfNested(dir[..|dir| - 1], f);
    } else {
      BaseNameOfNested(dir, f);
    }
  }

  /** `s.replace(a, b)` for one-character `a` and `b`. */
  function ReplaceChar(s: string, a: char, b: char): (r: string)
    ensures |r| == |s|
    ensures forall i :: 0 <= i < |s| ==> (r[i] == b <==> s[i] == a || s[i] == b)
    ensures forall i :: 0 <= i < |s| && s[i] != a ==> r[i] == s[i]
    ensures a != b ==> a !in r
  {
    seq(|s|, i requires 0 <= i < |s| => if s[i] == a then b else s[i])
  }

  /** `c.lower()` for ASCII letters and for the one non-ASCII letter whose lower case is ASCII. */
  function LowerChar(c: char): char {
    if 'A' <= c <= 'Z' then (c as int + 32) as char
    else if c as int == 0x212A then 'k'  // KELVIN SIGN
    else c
  }

  /** `s.lower()`, character by character. */
  function Lower(s: string): (r: string)
    ensures |r| == |s|
    ensures forall i :: 0 <= i < |r| ==> !('A' <= r[i] <= 'Z') && (r[i] == s[i] || 'A' <= s[i] <= 'Z' || s[i] as int == 0x212A)
  {
    seq(|s|, i requires 0 <= i < |s| => LowerChar(s[i]))
  }

  /** `c.isspace()`: the code points Python treats as whitespace. */
  predicate IsSpace(c: char) {
    var n := c as int;
    (0x09 <= n <= 0x0D) || (0x1C <= n <= 0x20) || n == 0x85 || n == 0xA0 || n == 0x1680
    || (0x2000 <= n <= 0x200A) || n == 0x2028 || n == 0x2029 || n == 0x202F
    || n == 0x205F || n == 0x3000
  }

  predicate AllSpace(s: string) {
    forall i :: 0 <= i < |s| ==> IsSpace(s[i])
  }

  function StripLeft(s: string): string
    decreases |s|
  {
    if s != [] && IsSpace(s[0]) then StripLeft(s[1..]) else s
  }

  function StripRight(s: string): string
    decreases |s|
  {
    if s != [] && IsSpace(s[|s| - 1]) then StripRight(s[..|s| - 1]) else s
  }

  /** `s.strip()` */
  function Strip(s: string): string {
    StripRight(StripLeft(s))
  }

  /** `s.strip() == ""` */
  predicate IsBlank(s: string) {
    Strip(s) == ""
  }

  lemma {:induction false} StripLeftEmpty(s: string)
    ensures StripLeft(s) == "" <==> AllSpace(s)
    ensures StripLeft(s) != "" ==> !IsSpace(StripLeft(s)[0])
    decreases |s|
  {
    if s != [] && IsSpace(s[0]) {
      StripLeftEmpty(s[1..]);
      assert AllSpace(s) <==> AllSpace(s[1..]) by {
        if AllSpace(s[1..]) {
          forall i | 0 <= i < |s| ensures IsSpace(s[i]) {
            if i > 0 {
              assert s[i] == s[1..][i - 1];
            }
          }
        }
      }
    }
  }

  lemma {:induction false} StripRightEmpty(s: string)
    ensures StripRight(s) == "" <==> AllSpace(s)
    decreases |s|
  {
    if s != [] && IsSpace(s[|s| - 1]) {
      StripRightEmpty(s[..|s| - 1]);
      assert AllSpace(s) <==> AllSpace(s[..|s| - 1]) by {
        if AllSpace(s[..|s| - 1]) {
          forall i | 0 <= i < |s| ensures IsSpace(s[i]) {
            if i < |s| - 1 {
              assert s[i] == s[..|s| - 1][i];
            }
          }
        }
      }
    }
  }

  /** A text strips to "" exactly when every character of it is whitespace. */
  lemma BlankIffAllSpace(s: string)
    ensures IsBlank(s) <==> AllSpace(s)
  {
    StripLeftEmpty(s);
    StripRightEmpty(StripLeft(s));
  }
}
