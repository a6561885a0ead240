/**
 Text helpers shared by the transcription agent and the two schema scripts:
 Python's notion of whitespace and `str.strip()`, `str.split(sep)[-1]`,
 slicing with `[:n]`, `"\n".join(...)`, and the code-point ordering that
 `sorted()` uses on strings.
 */
module Strings {

  /* The characters for which Python's `str.isspace()` is true; `str.strip()`
     with no argument and the regex class `\s` use the same set. */
  predicate IsSpace(c: char)
  {
    ('\t' <= c <= '\r') || ('\U{1c}' <= c <= ' ') || c == '\U{85}' || c == '\U{a0}'
    || c == '\U{1680}' || ('\U{2000}' <= c <= '\U{200a}') || c == '\U{2028}'
    || c == '\U{2029}' || c == '\U{202f}' || c == '\U{205f}' || c == '\U{3000}'
  }

  predicate AllSpace(s: string)
  {
    forall i :: 0 <= i < |s| ==> IsSpace(s[i])
  }

  /* `s.lstrip()` */
  function TrimStart(s: string): string
  {
    if s != [] && IsSpace(s[0]) then TrimStart(s[1..]) else s
  }

  /* `s.rstrip()` */
  function TrimEnd(s: string): string
  {
    if s != [] && IsSpace(s[|s| - 1]) then TrimEnd(s[..|s| - 1]) else s
  }

  /* `s.strip()` */
  function Strip(s: string): string
  {
    TrimEnd(TrimStart(s))
  }

  /* `not s.strip()`: the text is empty once surrounding whitespace is removed. */
  predicate IsBlank(s: string)
  {
    Strip(s) == []
  }

  lemma {:induction false} TrimStartEmpty(s: string)
    ensures TrimStart(s) == [] <==> AllSpace(s)
  {
    if s != [] && IsSpace(s[0]) {
      TrimStartEmpty(s[1..]);
      if AllSpace(s[1..]) {
        forall i | 0 <= i < |s| ensures IsSpace(s[i]) {
          if i > 0 { assert s[i] == s[1..][i - 1]; }
        }
      } else {
        var j :| 0 <= j < |s[1..]| && !IsSpace(s[1..][j]);
        assert !IsSpace(s[j + 1]);
      }
    } else if s != [] {
      assert !IsSpace(s[0]);
    }
  }

  lemma {:induction false} TrimEndEmpty(s: string)
    ensures TrimEnd(s) == [] <==> AllSpace(s)
  {
    if s != [] && IsSpace(s[|s| - 1]) {
      var p := s[..|s| - 1];
      TrimEndEmpty(p);
      if AllSpace(p) {
        forall i | 0 <= i < |s| ensures IsSpace(s[i]) {
          if i < |s| - 1 { assert s[i] == p[i]; }
        }
      } else {
        var j :| 0 <= j < |p| && !IsSpace(p[j]);
        assert !IsSpace(s[j]);
      }
    } else if s != [] {
      assert !IsSpace(s[|s| - 1]);
    }
  }

  lemma {:induction false} TrimStartSuffix(s: string)
    ensures |TrimStart(s)| <= |s| && TrimStart(s) == s[|s| - |TrimStart(s)|..]
  {
    if s != [] && IsSpace(s[0]) {
      TrimStartSuffix(s[1..]);
    }
  }

  /** A text is blank exactly when every character of it is whitespace; the
      empty text is blank. */
  lemma BlankIffAllSpace(s: string)
    ensures IsBlank(s) <==> AllSpace(s)
  {
    var t := TrimStart(s);
    TrimStartEmpty(s);
    TrimEndEmpty(t);
    TrimStartSuffix(s);
    if AllSpace(t) && !AllSpace(s) {
      // TrimStart only drops leading whitespace, so a non-space character of s survives in t
      TrimStartKeepsNonSpace(s);
    }
  }

  lemma {:induction false} TrimStartKeepsNonSpace(s: string)
    requires !AllSpace(s)
    ensures !AllSpace(TrimStart(s))
  {
    if s != [] && IsSpace(s[0]) {
      AllSpaceFromTail(s);
      TrimStartKeepsNonSpace(s[1..]);
    }
  }

  lemma AllSpaceFromTail(s: string)
    requires s != []
    ensures IsSpace(s[0]) && AllSpace(s[1..]) ==> AllSpace(s)
  {
    if IsSpace(s[0]) && AllSpace(s[1..]) {
      forall i | 0 <= i < |s| ensures IsSpace(s[i]) {
        if i > 0 { assert s[i] == s[1..][i - 1]; }
      }
    }
  }

  /* `sep.join(parts)` */
  function Join(parts: seq<string>, sep: string): string
  {
    if parts == [] then []
    else if |parts| == 1 then parts[0]
    else parts[0] + sep + Join(parts[1..], sep)
  }

  /** Joining two non-empty runs of lines is joining each and gluing the two
      results with one separator. */
  lemma {:induction false} JoinAppend(a: seq<string>, b: seq<string>, sep: string)
    requires a != [] && b != []
    ensures Join(a + b, sep) == Join(a, sep) + sep + Join(b, sep)
  {
    if |a| == 1 {
      assert (a + b)[1..] == b;
    } else {
      assert (a + b)[1..] == a[1..] + b;
      JoinAppend(a[1..], b, sep);
    }
  }

  /* `s.split(c)` for a one-character separator: always at least one piece. */
  function Split(s: string, c: char): (pieces: seq<string>)
    ensures |pieces| >= 1
  {
    if s == [] then [[]]
    else
      var rest := Split(s[1..], c);
      if s[0] == c then [[]] + rest else [[s[0]] + rest[0]] + rest[1..]
  }

  /* The text after the last occurrence of `c`, or all of `s` when `c` does not occur. */
  function AfterLast(s: string, c: char): string
  {
    if s == [] then []
    else if c in s[1..] then AfterLast(s[1..], c)
    else if s[0] == c then s[1..]
    else s
  }

  /** `AfterLast` is the longest suffix of `s` free of `c`: it is a suffix,
      it holds no `c`, and the character just before it, if any, is `c`. */
  lemma {:induction false} AfterLastIsLastPiece(s: string, c: char)
    ensures var r := AfterLast(s, c);
      && |r| <= |s| && r == s[|s| - |r|..]
      && c !in r
      && (|r| < |s| ==> s[|s| - |r| - 1] == c)
  {
    if s != [] && c in s[1..] {
      AfterLastIsLastPiece(s[1..], c);
    }
  }

  /** `s.split(c)[-1]` is `AfterLast(s, c)`. */
  lemma {:induction false} SplitLastIsAfterLast(s: string, c: char)
    ensures Split(s, c)[|Split(s, c)| - 1] == AfterLast(s, c)
  {
    if s != [] {
      var rest := Split(s[1..], c);
      SplitLastIsAfterLast(s[1..], c);
      if s[0] != c && |rest| == 1 {
        // no separator in s[1..]: the only piece of the tail is the tail itself
        SplitSinglePiece(s[1..], c);
      } else if s[0] == c && c !in s[1..] {
        SplitSinglePiece(s[1..], c);
      } else if c !in s[1..] {
        SplitSinglePiece(s[1..], c);
      }
    }
  }

  lemma {:induction false} SplitSinglePiece(s: string, c: char)
    ensures (c !in s) <==> (|Split(s, c)| == 1)
    ensures c !in s ==> Split(s, c) == [s]
  {
    if s != [] {
      SplitSinglePiece(s[1..], c);
      assert s == [s[0]] + s[1..];
    }
  }

  /* `s[:n]` */
  function Take(s: string, n: nat): (r: string)
    ensures |r| == if |s| <= n then |s| else n
    ensures r == s[..|r|]
  {
    if |s| <= n then s else s[..n]
  }

  /* Python's `a < b` on `str`: code-point lexicographic order, a proper
     prefix coming first. */
  predicate Less(a: string, b: string)
  {
    if a == [] then b != []
    else if b == [] then false
    else if a[0] == b[0] then Less(a[1..], b[1..])
    else a[0] < b[0]
  }

  lemma {:induction false} LessIrreflexive(a: string)
    ensures !Less(a, a)
  {
    if a != [] { LessIrreflexive(a[1..]); }
  }

  lemma {:induction false} LessTransitive(a: string, b: string, c: string)
    requires Less(a, b) && Less(b, c)
    ensures Less(a, c)
  {
    if a != [] && b != [] && c != [] && a[0] == b[0] && b[0] == c[0] {
      LessTransitive(a[1..], b[1..], c[1..]);
    }
  }

  lemma {:induction false} LessTotal(a: string, b: string)
    ensures a == b || Less(a, b) || Less(b, a)
  {
    if a != [] && b != [] && a[0] == b[0] {
      LessTotal(a[1..], b[1..]);
      if a[1..] == b[1..] {
        assert a == [a[0]] + a[1..] && b == [b[0]] + b[1..];
      }
    }
  }

  lemma LessAsymmetric(a: string, b: string)
    requires Less(a, b)
    ensures !Less(b, a)
  {
    if Less(b, a) {
      LessTransitive(a, b, a);
      LessIrreflexive(a);
    }
  }

  predicate StrictlySorted(r: seq<string>)
  {
    forall i, j :: 0 <= i < j < |r| ==> Less(r[i], r[j])
  }

  /* `m` is the least element of `s`. */
  predicate IsLeast(m: string, s: set<string>)
  {
    m in s && forall x :: x in s && x != m ==> Less(m, x)
  }

  /** Every finite non-empty set of strings has a least element. */
  lemma {:induction false} MinimumExists(s: set<string>)
    requires s != {}
    ensures exists m :: IsLeast(m, s)
  {
    var y :| y in s;
    if s == {y} {
      assert IsLeast(y, s);
    } else {
      var rest := s - {y};
      MinimumExists(rest);
      var m :| IsLeast(m, rest);
      LessTotal(y, m);
      if Less(y, m) {
        forall x | x in s && x != y ensures Less(y, x) {
          if x != m {
            assert x in rest;
            LessTransitive(y, m, x);
          }
        }
        assert IsLeast(y, s);
      } else {
        forall x | x in s && x != m ensures Less(m, x) {
          if x != y { assert x in rest; }
        }
        assert IsLeast(m, s);
      }
    }
  }

  ghost function Minimum(s: set<string>): (m: string)
    requires s != {}
    ensures m in s && forall x :: x in s && x != m ==> Less(m, x)
  {
    MinimumExists(s);
    var m :| IsLeast(m, s); m
  }

  /* `sorted(s)` for a set of strings. */
  ghost function SortedOf(s: set<string>): (r: seq<string>)
    ensures StrictlySorted(r)
    ensures forall x :: x in r <==> x in s
    ensures |r| == |s|
    decreases |s|
  {
    if s == {} then []
    else
      var m := Minimum(s);
      var tail := SortedOf(s - {m});
      forall j | 0 <= j < |tail| ensures Less(m, tail[j]) {
        assert tail[j] in s - {m};
      }
      assert |s - {m}| == |s| - 1;
      [m] + tail
  }

  /** A strictly sorted sequence is determined by its elements. */
  lemma {:induction false} SortedUnique(a: seq<string>, b: seq<string>)
    requires StrictlySorted(a) && StrictlySorted(b)
    requires forall x :: x in a <==> x in b
    ensures a == b
  {
    if a != [] { assert a[0] in b; }
    if b != [] { assert b[0] in a; }
    if a != [] && b != [] {
      if a[0] != b[0] {
        var i :| 0 <= i < |b| && b[i] == a[0];
        var j :| 0 <= j < |a| && a[j] == b[0];
        assert Less(b[0], a[0]) && Less(a[0], b[0]);
        LessAsymmetric(a[0], b[0]);
      }
      LessIrreflexive(a[0]);
      forall x ensures x in a[1..] <==> x in b[1..] {
        if x in a[1..] {
          var j :| 1 <= j < |a| && a[j] == x;
          assert Less(a[0], x);
          assert x in b;
          var k :| 0 <= k < |b| && b[k] == x;
          assert k != 0;
          assert b[1..][k - 1] == x;
        }
        if x in b[1..] {
          var j :| 1 <= j < |b| && b[j] == x;
          assert Less(b[0], x);
          assert x in a;
          var k :| 0 <= k < |a| && a[k] == x;
          assert k != 0;
          assert a[1..][k - 1] == x;
        }
      }
      SortedUnique(a[1..], b[1..]);
      assert a == [a[0]] + a[1..] && b == [b[0]] + b[1..];
    }
  }

  /** `sorted(s)`: selection of the least remaining element until none is left. */
  method SortStrings(s: set<string>) returns (r: seq<string>)
    ensures r == SortedOf(s)
  {
    r := [];
    var rest := s;
    while rest != {}
      invariant rest <= s
      invariant StrictlySorted(r)
      invariant forall x :: x in r <==> x in s && x !in rest
      invariant forall x, y :: x in r && y in rest ==> Less(x, y)
      decreases |rest|
    {
      var m := LeastOf(rest);
      forall i, j | 0 <= i < j < |r + [m]| ensures Less((r + [m])[i], (r + [m])[j]) {
        if j == |r| { assert r[i] in r; }
      }
      r := r + [m];
      rest := rest - {m};
    }
    SortedUnique(r, SortedOf(s));
  }

  method LeastOf(s: set<string>) returns (m: string)
    requires s != {}
    ensures m in s && forall x :: x in s && x != m ==> Less(m, x)
  {
    m :| m in s;
    var todo := s - {m};
    while todo != {}
      invariant todo <= s && m in s && m !in todo
      invariant forall x :: x in s && x !in todo && x != m ==> Less(m, x)
      decreases |todo|
    {
      var x :| x in todo;
      LessTotal(x, m);
      if Less(x, m) {
        forall y | y in s && y !in todo - {x} && y != x ensures Less(x, y) {
          if y != m { LessTransitive(x, m, y); }
        }
        m := x;
      }
      todo := todo - {x};
    }
  }
}
