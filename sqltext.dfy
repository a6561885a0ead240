/**
 The two regular expressions the consolidation script applies to statement
 text, written out as scanners: the substitution of every
 `\s+IF\s+NOT\s+EXISTS\s+` by one space (case-insensitive), used to compare
 index and trigger statements, and the search for `ON\s+(?:public\.)?(\w+)`
 (case-insensitive), used to find the table a policy belongs to.
 */
module SqlText {
  import opened Wrappers
  import opened Strings

  /* The regex class `\w`, over ASCII. */
  predicate IsWordChar(c: char)
  {
    ('a' <= c <= 'z') || ('A' <= c <= 'Z') || ('0' <= c <= '9') || c == '_'
  }

  function LowerAscii(c: char): char
  {
    if 'A' <= c <= 'Z' then (c as int + 32) as char else c
  }

  /* `s` starts with the lower-case keyword `kw`, ignoring case. */
  predicate StartsWithKeyword(s: string, kw: string)
  {
    |kw| <= |s| && forall j :: 0 <= j < |kw| ==> LowerAscii(s[j]) == kw[j]
  }

  /* The length of the whitespace at the start of `s` (`\s*`, greedy). */
  function LeadingSpace(s: string): (n: nat)
    ensures n <= |s|
  {
    if s != [] && IsSpace(s[0]) then 1 + LeadingSpace(s[1..]) else 0
  }

  /** The leading whitespace is whitespace, and what follows it is not. */
  lemma {:induction false} LeadingSpaceIsRun(s: string)
    ensures var n := LeadingSpace(s);
      && (forall j :: 0 <= j < n ==> IsSpace(s[j]))
      && (n == |s| || !IsSpace(s[n]))
  {
    if s != [] && IsSpace(s[0]) {
      LeadingSpaceIsRun(s[1..]);
      var n := LeadingSpace(s);
      forall j | 0 <= j < n ensures IsSpace(s[j]) {
        if j > 0 { assert s[j] == s[1..][j - 1]; }
      }
      if n < |s| { assert s[n] == s[1..][n - 1]; }
    }
  }

  /* The length of the word characters at the start of `s` (`\w*`, greedy). */
  function LeadingWord(s: string): (n: nat)
    ensures n <= |s|
  {
    if s != [] && IsWordChar(s[0]) then 1 + LeadingWord(s[1..]) else 0
  }

  lemma {:induction false} LeadingWordIsWord(s: string)
    ensures forall j :: 0 <= j < LeadingWord(s) ==> IsWordChar(s[j])
  {
    if s != [] && IsWordChar(s[0]) {
      LeadingWordIsWord(s[1..]);
      forall j | 0 <= j < LeadingWord(s) ensures IsWordChar(s[j]) {
        if j > 0 { assert s[j] == s[1..][j - 1]; }
      }
    }
  }

  /* One element of a pattern: `\s+` (greedy), or one letter matched
     without regard to case. */
  datatype Token = Space | Letter(lower: char)

  /* The letters of a lower-case keyword, in order. */
  function Letters(kw: string): seq<Token>
  {
    if kw == [] then [] else [Letter(kw[0])] + Letters(kw[1..])
  }

  function Plus(n: nat, o: Option<nat>): Option<nat>
  {
    if o.Some? then Some(n + o.value) else None
  }

  /* The length of a match of the pattern `p` at the start of `s`. A `\s+`
     here is always followed by a letter or by the end of the pattern, so
     taking the whole run of whitespace is the only way the regex can
     continue, and no backtracking is needed. */
  function MatchLength(s: string, p: seq<Token>): (r: Option<nat>)
    ensures r.Some? ==> r.value <= |s|
    ensures r.Some? && p != [] ==> 0 < r.value
  {
    if p == [] then Some(0)
    else if s == [] then None
    else
      match p[0]
      case Letter(c) =>
        if LowerAscii(s[0]) == c then Plus(1, MatchLength(s[1..], p[1..])) else None
      case Space =>
        if IsSpace(s[0]) then
          var n := LeadingSpace(s);
          Plus(n, MatchLength(s[n..], p[1..]))
        else None
  }

  /* `\s+IF\s+NOT\s+EXISTS\s+` */
  const ClausePattern: seq<Token> := StagePattern("if", StagePattern("not", StagePattern("exists", [Space])))

  /* The length of a match of the clause at the start of `s`. */
  function Clause(s: string): (r: Option<nat>)
    ensures r.Some? ==> 0 < r.value <= |s|
  {
    MatchLength(s, ClausePattern)
  }

  /* `re.sub(r'\s+IF\s+NOT\s+EXISTS\s+', ' ', s, flags=re.IGNORECASE)`:
     the leftmost match is replaced by one space and the scan goes on after
     it; text outside matches is copied. This is the form under which two
     index or trigger statements count as the same. */
  function Normalize(s: string): string
  {
    if s == [] then []
    else
      match Clause(s)
      case Some(n) => " " + Normalize(s[n..])
      case None => [s[0]] + Normalize(s[1..])
  }

  /* The clause match starting at position `j` of `s`. */
  function ClauseAt(s: string, j: nat): Option<nat>
    requires j <= |s|
  {
    Clause(s[j..])
  }

  /* No clause starts in the first `n` characters of `s`. */
  predicate NoClauseBefore(s: string, n: nat)
    requires n <= |s|
  {
    forall j :: 0 <= j < n ==> ClauseAt(s, j).None?
  }

  /** Text before the first clause is copied unchanged. */
  lemma {:induction false} NormalizeCopies(a: string, r: string)
    requires NoClauseBefore(a + r, |a|)
    ensures Normalize(a + r) == a + Normalize(r)
  {
    if a != [] {
      var s := a + r;
      assert s[0..] == s;
      assert ClauseAt(s, 0).None?;
      assert s[1..] == a[1..] + r;
      assert Normalize(s) == [a[0]] + Normalize(a[1..] + r);
      NoClauseBeforeShift(a, r);
      NormalizeCopies(a[1..], r);
      assert a == [a[0]] + a[1..];
    } else {
      assert a + r == r;
    }
  }

  lemma NoClauseBeforeShift(a: string, r: string)
    requires a != [] && NoClauseBefore(a + r, |a|)
    ensures NoClauseBefore(a[1..] + r, |a| - 1)
  {
    forall j | 0 <= j < |a| - 1 ensures ClauseAt(a[1..] + r, j).None? {
      assert (a[1..] + r)[j..] == (a + r)[j + 1..];
      assert ClauseAt(a + r, j + 1).None?;
    }
  }

  /** Text without the clause comes back unchanged. */
  lemma NormalizeWithoutClause(s: string)
    requires NoClauseBefore(s, |s|)
    ensures Normalize(s) == s
  {
    assert s + [] == s;
    NormalizeCopies(s, []);
  }

  /** The normal form never grows. */
  lemma {:induction false} NormalizeShrinks(s: string)
    ensures |Normalize(s)| <= |s|
  {
    if s != [] {
      match Clause(s)
      case Some(n) => NormalizeShrinks(s[n..]);
      case None => NormalizeShrinks(s[1..]);
    }
  }

  /* Whitespace followed by something that is not whitespace: the run is
     exactly `w`. */
  lemma LeadingSpaceOver(w: string, b: string)
    requires AllSpace(w)
    requires b == [] || !IsSpace(b[0])
    ensures LeadingSpace(w + b) == |w|
  {
    var s := w + b;
    LeadingSpaceIsRun(s);
    assert forall j :: 0 <= j < |w| ==> IsSpace(s[j]) by {
      forall j | 0 <= j < |w| ensures IsSpace(s[j]) { assert s[j] == w[j]; }
    }
    assert |w| == |s| || !IsSpace(s[|w|]) by {
      if |w| < |s| { assert s[|w|] == b[0]; }
    }
  }

  /* Matching a keyword's letters consumes exactly the keyword. */
  lemma {:induction false} MatchLetters(k: string, rest: string, kw: string, p: seq<Token>)
    requires |k| == |kw| && StartsWithKeyword(k, kw)
    ensures MatchLength(k + rest, Letters(kw) + p) == Plus(|k|, MatchLength(rest, p))
  {
    if kw != [] {
      assert LowerAscii(k[0]) == kw[0];
      assert (k + rest)[0] == k[0];
      assert (k + rest)[1..] == k[1..] + rest;
      assert (Letters(kw) + p)[0] == Letter(kw[0]);
      assert (Letters(kw) + p)[1..] == Letters(kw[1..]) + p;
      assert StartsWithKeyword(k[1..], kw[1..]) by {
        forall j | 0 <= j < |kw[1..]| ensures LowerAscii(k[1..][j]) == kw[1..][j] {
          assert k[1..][j] == k[j + 1];
        }
      }
      MatchLetters(k[1..], rest, kw[1..], p);
    } else {
      assert k + rest == rest;
      assert Letters(kw) + p == p;
    }
  }

  /* Matching `\s+` before text that does not start with whitespace
     consumes exactly the whitespace. */
  lemma MatchSpace(w: string, rest: string, p: seq<Token>)
    requires w != [] && AllSpace(w)
    requires rest == [] || !IsSpace(rest[0])
    ensures MatchLength(w + rest, [Space] + p) == Plus(|w|, MatchLength(rest, p))
  {
    LeadingSpaceOver(w, rest);
    assert (w + rest)[0] == w[0];
    assert ([Space] + p)[1..] == p;
    assert (w + rest)[|w|..] == rest;
  }

  /* A string that starts with a keyword of letters does not start with
     whitespace. */
  lemma KeywordNotSpace(k: string, rest: string, kw: string)
    requires |k| == |kw| && kw != [] && StartsWithKeyword(k, kw) && 'a' <= kw[0] <= 'z'
    ensures !IsSpace((k + rest)[0])
  {
    assert (k + rest)[0] == k[0];
    assert LowerAscii(k[0]) == kw[0];
  }

  /* Whitespace, a keyword, and what follows. */
  function Stage(w: string, k: string, rest: string): string
  {
    w + (k + rest)
  }

  /* `\s+KW` followed by the pattern `p`. */
  function StagePattern(kw: string, p: seq<Token>): seq<Token>
  {
    [Space] + (Letters(kw) + p)
  }

  /* A keyword that starts with a lower-case letter, so text starting with
     it does not start with whitespace. */
  predicate IsKeyword(kw: string)
  {
    kw != [] && 'a' <= kw[0] <= 'z'
  }

  /* Whitespace then a keyword: one `\s+` and the keyword's letters. */
  lemma MatchStage(w: string, k: string, rest: string, kw: string, p: seq<Token>)
    requires w != [] && AllSpace(w)
    requires IsKeyword(kw) && |k| == |kw| && StartsWithKeyword(k, kw)
    ensures MatchLength(Stage(w, k, rest), StagePattern(kw, p)) == Plus(|w| + |k|, MatchLength(rest, p))
  {
    KeywordNotSpace(k, rest, kw);
    MatchLetters(k, rest, kw, p);
    MatchSpace(w, k + rest, Letters(kw) + p);
    var m := MatchLength(rest, p);
    assert Plus(|w|, Plus(|k|, m)) == Plus(|w| + |k|, m);
  }

  /* One way of writing the clause, `w1 k1 w2 k2 w3 k3 w4`: four runs of
     whitespace around the three keywords. */
  datatype Spelling = Spelling(w1: string, k1: string, w2: string, k2: string, w3: string, k3: string, w4: string)

  /* The whitespace runs are non-empty and the keywords are `IF`, `NOT` and
     `EXISTS` in any letter case. */
  predicate IsClause(c: Spelling)
  {
    && c.w1 != [] && c.w2 != [] && c.w3 != [] && c.w4 != []
    && AllSpace(c.w1) && AllSpace(c.w2) && AllSpace(c.w3) && AllSpace(c.w4)
    && |c.k1| == 2 && StartsWithKeyword(c.k1, "if")
    && |c.k2| == 3 && StartsWithKeyword(c.k2, "not")
    && |c.k3| == 6 && StartsWithKeyword(c.k3, "exists")
  }

  /* The spelling from its third run of whitespace on, followed by `b`. */
  function FromThird(c: Spelling, b: string): string
  {
    Stage(c.w3, c.k3, c.w4 + b)
  }

  /* The spelling from its second run of whitespace on, followed by `b`. */
  function FromSecond(c: Spelling, b: string): string
  {
    Stage(c.w2, c.k2, FromThird(c, b))
  }

  /* The spelling followed by the text `b`. */
  function Spelled(c: Spelling, b: string): string
  {
    Stage(c.w1, c.k1, FromSecond(c, b))
  }

  function Width(c: Spelling): nat
  {
    |c.w1| + |c.k1| + |c.w2| + |c.k2| + |c.w3| + |c.k3| + |c.w4|
  }

  lemma SpelledSuffix(c: Spelling, b: string)
    ensures |Spelled(c, b)| == Width(c) + |b| && Spelled(c, b)[Width(c)..] == b
  {
  }

  /* A stage matched in front of a pattern that matched `n` characters. */
  lemma StageMatched(w: string, k: string, rest: string, kw: string, p: seq<Token>, n: nat)
    requires w != [] && AllSpace(w)
    requires IsKeyword(kw) && |k| == |kw| && StartsWithKeyword(k, kw)
    requires MatchLength(rest, p) == Some(n)
    ensures MatchLength(Stage(w, k, rest), StagePattern(kw, p)) == Some(|w| + |k| + n)
  {
    MatchStage(w, k, rest, kw, p);
  }

  /* The keywords are parameters in the three lemmas below: with the
     keywords written out as literals the solver unfolds the pattern far
     more than the proof needs. */
  lemma ThirdStageMatched(c: Spelling, b: string, kw3: string)
    requires c.w3 != [] && c.w4 != [] && AllSpace(c.w3) && AllSpace(c.w4)
    requires IsKeyword(kw3) && |c.k3| == |kw3| && StartsWithKeyword(c.k3, kw3)
    requires b == [] || !IsSpace(b[0])
    ensures MatchLength(FromThird(c, b), StagePattern(kw3, [Space])) == Some(|c.w3| + |c.k3| + |c.w4|)
  {
    MatchSpace(c.w4, b, []);
    assert [Space] + [] == [Space];
    StageMatched(c.w3, c.k3, c.w4 + b, kw3, [Space], |c.w4|);
  }

  lemma SecondStageMatched(c: Spelling, b: string, kw2: string, p: seq<Token>, n: nat)
    requires c.w2 != [] && AllSpace(c.w2)
    requires IsKeyword(kw2) && |c.k2| == |kw2| && StartsWithKeyword(c.k2, kw2)
    requires MatchLength(FromThird(c, b), p) == Some(n)
    ensures MatchLength(FromSecond(c, b), StagePattern(kw2, p)) == Some(|c.w2| + |c.k2| + n)
  {
    StageMatched(c.w2, c.k2, FromThird(c, b), kw2, p, n);
  }

  lemma FirstStageMatched(c: Spelling, b: string, kw1: string, p: seq<Token>, n: nat)
    requires c.w1 != [] && AllSpace(c.w1)
    requires IsKeyword(kw1) && |c.k1| == |kw1| && StartsWithKeyword(c.k1, kw1)
    requires MatchLength(FromSecond(c, b), p) == Some(n)
    requires n == |c.w2| + |c.k2| + |c.w3| + |c.k3| + |c.w4|
    ensures MatchLength(Spelled(c, b), StagePattern(kw1, p)) == Some(Width(c))
  {
    StageMatched(c.w1, c.k1, FromSecond(c, b), kw1, p, n);
  }

  lemma KeywordsMatched(c: Spelling, b: string, kw1: string, kw2: string, kw3: string)
    requires c.w1 != [] && c.w2 != [] && c.w3 != [] && c.w4 != []
    requires AllSpace(c.w1) && AllSpace(c.w2) && AllSpace(c.w3) && AllSpace(c.w4)
    requires IsKeyword(kw1) && |c.k1| == |kw1| && StartsWithKeyword(c.k1, kw1)
    requires IsKeyword(kw2) && |c.k2| == |kw2| && StartsWithKeyword(c.k2, kw2)
    requires IsKeyword(kw3) && |c.k3| == |kw3| && StartsWithKeyword(c.k3, kw3)
    requires b == [] || !IsSpace(b[0])
    ensures MatchLength(Spelled(c, b), StagePattern(kw1, StagePattern(kw2, StagePattern(kw3, [Space])))) == Some(Width(c))
  {
    ThirdStageMatched(c, b, kw3);
    SecondStageMatched(c, b, kw2, StagePattern(kw3, [Space]), |c.w3| + |c.k3| + |c.w4|);
    FirstStageMatched(c, b, kw1, StagePattern(kw2, StagePattern(kw3, [Space])), |c.w2| + |c.k2| + |c.w3| + |c.k3| + |c.w4|);
  }

  /** The clause at the start of a spelling followed by `b` spans exactly
      the spelling. */
  lemma ClauseRecognised(c: Spelling, b: string)
    requires IsClause(c)
    requires b == [] || !IsSpace(b[0])
    ensures Clause(Spelled(c, b)) == Some(Width(c))
  {
    assert IsKeyword("if") && IsKeyword("not") && IsKeyword("exists");
    KeywordsMatched(c, b, "if", "not", "exists");
  }

  lemma ConcatAssoc(x: string, y: string, z: string)
    ensures (x + y) + z == x + (y + z)
  {
  }

  /** The purpose of the normal form: a statement written with
      `IF NOT EXISTS` (in any letter case, with any whitespace around the
      three words) normalises to the text before the clause, one space, and
      the normal form of the text after it. `b` does not start with
      whitespace, and no clause starts inside `a`. */
  lemma NormalizeDropsClause(a: string, c: Spelling, b: string)
    requires IsClause(c)
    requires b == [] || !IsSpace(b[0])
    requires NoClauseBefore(a + Spelled(c, b), |a|)
    ensures Normalize(a + Spelled(c, b)) == a + (" " + Normalize(b))
  {
    var x := Spelled(c, b);
    NormalizeCopies(a, x);
    ClauseRecognised(c, b);
    SpelledSuffix(c, b);
    assert Normalize(x) == " " + Normalize(x[Width(c)..]);
  }

  /** The same statement written without the clause, with one space in its
      place, keeps the text around that space, provided no clause starts
      before `b`. */
  lemma NormalizeWithoutClauseSpelling(a: string, b: string)
    requires NoClauseBefore(a + (" " + b), |a| + 1)
    ensures Normalize(a + (" " + b)) == a + (" " + Normalize(b))
  {
    ConcatAssoc(a, " ", b);
    NormalizeCopies(a + " ", b);
    ConcatAssoc(a, " ", Normalize(b));
  }

  /** So `CREATE INDEX IF NOT EXISTS x ON t` and `CREATE INDEX x ON t`, in
      any letter case and spacing of the clause, are the same index to the
      consolidation script. */
  lemma SpellingsNormalizeAlike(a: string, c: Spelling, b: string)
    requires IsClause(c)
    requires b == [] || !IsSpace(b[0])
    requires NoClauseBefore(a + Spelled(c, b), |a|)
    requires NoClauseBefore(a + (" " + b), |a| + 1)
    ensures Normalize(a + Spelled(c, b)) == Normalize(a + (" " + b))
  {
    NormalizeDropsClause(a, c, b);
    NormalizeWithoutClauseSpelling(a, b);
  }

  // ---------------------------------------------------------------------------
  // The table a policy names

  /* `ON\s+` */
  const OnPattern: seq<Token> := Letters("on") + [Space]

  /* The table captured by `ON\s+(?:public\.)?(\w+)` when the match starts
     at the beginning of `s`. The optional schema prefix is taken when a word
     follows it; otherwise the regex backtracks and captures the word
     `public` itself. */
  function OnTarget(s: string): Option<string>
  {
    match MatchLength(s, OnPattern)
    case None => None
    case Some(a) =>
      var t := s[a..];
      if |t| > 7 && StartsWithKeyword(t, "public") && t[6] == '.' && IsWordChar(t[7]) then
        Some(t[7..7 + LeadingWord(t[7..])])
      else if t != [] && IsWordChar(t[0]) then
        Some(t[..LeadingWord(t)])
      else None
  }

  /** A match captures a non-empty run of word characters. */
  lemma OnTargetIsWord(s: string)
    ensures OnTarget(s).Some? ==>
              var t := OnTarget(s).value;
              t != [] && forall j :: 0 <= j < |t| ==> IsWordChar(t[j])
  {
    match MatchLength(s, OnPattern)
    case None =>
    case Some(a) =>
      var t := s[a..];
      if |t| > 7 && StartsWithKeyword(t, "public") && t[6] == '.' && IsWordChar(t[7]) {
        LeadingWordIsWord(t[7..]);
      } else if t != [] && IsWordChar(t[0]) {
        LeadingWordIsWord(t);
      }
  }

  /* The capture of a match starting at position `k` of `s`. */
  function OnTargetAt(s: string, k: nat): Option<string>
    requires k <= |s|
  {
    OnTarget(s[k..])
  }

  /* `re.search(r'ON\s+(?:public\.)?(\w+)', policy, re.IGNORECASE)`: the
     capture of the leftmost position where the pattern matches. */
  function PolicyTable(policy: string): Option<string>
  {
    if policy == [] then None
    else if OnTarget(policy).Some? then OnTarget(policy)
    else PolicyTable(policy[1..])
  }

  /** The search finds a table exactly when the pattern matches somewhere,
      and then it is the capture at the leftmost such position. */
  lemma {:induction false} PolicyTableLeftmost(policy: string)
    ensures PolicyTable(policy).Some? <==> exists k :: 0 <= k < |policy| && OnTargetAt(policy, k).Some?
    ensures forall k :: 0 <= k < |policy| && OnTargetAt(policy, k).Some?
                        && (forall j :: 0 <= j < k ==> OnTargetAt(policy, j).None?)
              ==> PolicyTable(policy) == OnTargetAt(policy, k)
  {
    if policy != [] {
      assert policy[0..] == policy;
      var rest := policy[1..];
      PolicyTableLeftmost(rest);
      forall k | 0 <= k < |rest| ensures OnTargetAt(rest, k) == OnTargetAt(policy, k + 1) {
        assert rest[k..] == policy[k + 1..];
      }
      if OnTargetAt(policy, 0).None? {
        if exists k :: 0 <= k < |policy| && OnTargetAt(policy, k).Some? {
          var k :| 0 <= k < |policy| && OnTargetAt(policy, k).Some?;
          assert k > 0 && OnTargetAt(rest, k - 1).Some?;
        }
        forall k | 0 <= k < |policy| && OnTargetAt(policy, k).Some? && (forall j :: 0 <= j < k ==> OnTargetAt(policy, j).None?)
          ensures PolicyTable(policy) == OnTargetAt(policy, k)
        {
          assert k > 0;
          assert forall j :: 0 <= j < k - 1 ==> OnTargetAt(rest, j).None? by {
            forall j | 0 <= j < k - 1 ensures OnTargetAt(rest, j).None? { assert OnTargetAt(policy, j + 1).None?; }
          }
          assert OnTargetAt(rest, k - 1) == OnTargetAt(policy, k);
        }
      }
    }
  }

  /** A policy is filed under a non-empty word, or under nothing. */
  lemma {:induction false} PolicyTableIsWord(policy: string)
    ensures PolicyTable(policy).Some? ==>
              var t := PolicyTable(policy).value;
              t != [] && forall j :: 0 <= j < |t| ==> IsWordChar(t[j])
  {
    if policy != [] {
      if OnTarget(policy).Some? {
        OnTargetIsWord(policy);
      } else {
        PolicyTableIsWord(policy[1..]);
      }
    }
  }
}
