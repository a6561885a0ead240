/**
 The three ways the schema scripts accumulate regex matches: a `dict`
 filled by `d[name] = text` (the last match for a name wins), a
 `defaultdict(list)` filled by `d[key].append(value)` (values grouped per
 key in match order), and `sum(len(v) for v in d.values())` over such a
 grouping.
 */
module Collections {

  /* One regex match that names an object: `match.group(1)` and `match.group(0)`. */
  datatype NamedMatch = NamedMatch(name: string, text: string)

  /* The dictionary `{m.name: m.text for m in ms}`: a later match for a name
     replaces an earlier one. */
  function Definitions(ms: seq<NamedMatch>): map<string, string>
  {
    if ms == [] then map[]
    else Definitions(ms[..|ms| - 1])[ms[|ms| - 1].name := ms[|ms| - 1].text]
  }

  /** The keys are exactly the matched names, and each name maps to the text
      of its last match. */
  lemma {:induction false} DefinitionsLastWins(ms: seq<NamedMatch>)
    ensures forall k :: k in Definitions(ms) <==> exists i :: 0 <= i < |ms| && ms[i].name == k
    ensures forall i :: 0 <= i < |ms| && (forall j :: i < j < |ms| ==> ms[j].name != ms[i].name) ==>
              ms[i].name in Definitions(ms) && Definitions(ms)[ms[i].name] == ms[i].text
  {
    if ms != [] {
      var p := ms[..|ms| - 1];
      DefinitionsLastWins(p);
      forall k ensures k in Definitions(ms) <==> exists i :: 0 <= i < |ms| && ms[i].name == k {
        if k in Definitions(p) {
          var i :| 0 <= i < |p| && p[i].name == k;
          assert ms[i].name == k;
        }
        if exists i :: 0 <= i < |ms| && ms[i].name == k {
          var i :| 0 <= i < |ms| && ms[i].name == k;
          if i < |p| { assert p[i].name == k; }
        }
      }
      forall i | 0 <= i < |ms| && (forall j :: i < j < |ms| ==> ms[j].name != ms[i].name)
        ensures ms[i].name in Definitions(ms) && Definitions(ms)[ms[i].name] == ms[i].text
      {
        if i < |p| {
          assert p[i] == ms[i];
          assert forall j :: i < j < |p| ==> p[j].name != p[i].name by {
            forall j | i < j < |p| ensures p[j].name != p[i].name { assert p[j] == ms[j]; }
          }
        }
      }
    }
  }

  /** Updating a dictionary with the definitions of a second run of matches
      (`d.update(...)`) gives the definitions of the two runs in order. */
  lemma {:induction false} DefinitionsConcat(a: seq<NamedMatch>, b: seq<NamedMatch>)
    ensures Definitions(a + b) == Definitions(a) + Definitions(b)
  {
    if b == [] {
      assert a + b == a;
    } else {
      var b' := b[..|b| - 1];
      assert (a + b)[..|a + b| - 1] == a + b';
      DefinitionsConcat(a, b');
    }
  }

  /** The loop of `extract_table_definition`, `extract_functions` and
      `extract_views`: one dictionary assignment per match. */
  method ExtractDefinitions(ms: seq<NamedMatch>) returns (d: map<string, string>)
    ensures d == Definitions(ms)
  {
    d := map[];
    for i := 0 to |ms|
      invariant d == Definitions(ms[..i])
    {
      assert ms[..i + 1][..i] == ms[..i];
      d := d[ms[i].name := ms[i].text];
    }
    assert ms[..|ms|] == ms;
  }

  /* A `defaultdict(list)` after `d[k].append(v)` for each pair in order:
     keys without values are absent. */
  function Grouped(ps: seq<(string, string)>): map<string, seq<string>>
  {
    if ps == [] then map[]
    else
      var g := Grouped(ps[..|ps| - 1]);
      var k := ps[|ps| - 1].0;
      g[k := (if k in g then g[k] else []) + [ps[|ps| - 1].1]]
  }

  /* The values paired with `k`, in order: the reference for one group. */
  function ValuesFor(ps: seq<(string, string)>, k: string): seq<string>
  {
    if ps == [] then []
    else (if ps[0].0 == k then [ps[0].1] else []) + ValuesFor(ps[1..], k)
  }

  lemma {:induction false} ValuesForSnoc(ps: seq<(string, string)>, p: (string, string), k: string)
    ensures ValuesFor(ps + [p], k) == ValuesFor(ps, k) + (if p.0 == k then [p.1] else [])
  {
    if ps == [] {
      assert ValuesFor([p], k) == (if p.0 == k then [p.1] else []) + ValuesFor([p][1..], k);
    } else {
      assert (ps + [p])[1..] == ps[1..] + [p];
      ValuesForSnoc(ps[1..], p, k);
    }
  }

  lemma {:induction false} ValuesForAbsent(ps: seq<(string, string)>, k: string)
    requires forall i :: 0 <= i < |ps| ==> ps[i].0 != k
    ensures ValuesFor(ps, k) == []
  {
    if ps != [] {
      assert forall i :: 0 <= i < |ps[1..]| ==> ps[1..][i].0 != k by {
        forall i | 0 <= i < |ps[1..]| ensures ps[1..][i].0 != k { assert ps[1..][i] == ps[i + 1]; }
      }
      ValuesForAbsent(ps[1..], k);
    }
  }

  /** A key is present exactly when some pair carries it, and its list is
      that key's values in their original order. */
  lemma {:induction false} GroupedIsFilter(ps: seq<(string, string)>)
    ensures forall k :: k in Grouped(ps) <==> exists i :: 0 <= i < |ps| && ps[i].0 == k
    ensures forall k :: k in Grouped(ps) ==> Grouped(ps)[k] == ValuesFor(ps, k)
  {
    if ps != [] {
      var p := ps[..|ps| - 1];
      var last := ps[|ps| - 1];
      assert ps == p + [last];
      GroupedIsFilter(p);
      forall k ensures k in Grouped(ps) <==> exists i :: 0 <= i < |ps| && ps[i].0 == k {
        if k in Grouped(p) {
          var i :| 0 <= i < |p| && p[i].0 == k;
          assert ps[i].0 == k;
        }
        if exists i :: 0 <= i < |ps| && ps[i].0 == k {
          var i :| 0 <= i < |ps| && ps[i].0 == k;
          if i < |p| { assert p[i].0 == k; }
        }
      }
      forall k | k in Grouped(ps) ensures Grouped(ps)[k] == ValuesFor(ps, k) {
        ValuesForSnoc(p, last, k);
        if k == last.0 && k !in Grouped(p) {
          assert forall i :: 0 <= i < |p| ==> p[i].0 != k;
          ValuesForAbsent(p, k);
        }
      }
    }
  }

  lemma GroupedSnoc(ps: seq<(string, string)>, p: (string, string))
    ensures Grouped(ps + [p]) ==
              Grouped(ps)[p.0 := (if p.0 in Grouped(ps) then Grouped(ps)[p.0] else []) + [p.1]]
  {
    assert (ps + [p])[..|ps|] == ps;
  }

  /* `d.get(k, [])` */
  function Get(d: map<string, seq<string>>, k: string): seq<string>
  {
    if k in d then d[k] else []
  }

  /** `d.get(k, [])` on the grouped pairs is the values paired with `k`, in
      order, whether or not `k` is a key. */
  lemma GroupedGet(ps: seq<(string, string)>, k: string)
    ensures Get(Grouped(ps), k) == ValuesFor(ps, k)
  {
    GroupedIsFilter(ps);
    if k !in Grouped(ps) {
      ValuesForAbsent(ps, k);
    }
  }

  /** The loop `for ...: d[key].append(value)` over a `defaultdict(list)`. */
  method GroupPairs(ps: seq<(string, string)>) returns (g: map<string, seq<string>>)
    ensures g == Grouped(ps)
  {
    g := map[];
    for i := 0 to |ps|
      invariant g == Grouped(ps[..i])
    {
      assert ps[..i + 1][..i] == ps[..i];
      var k := ps[i].0;
      g := g[k := (if k in g then g[k] else []) + [ps[i].1]];
    }
    assert ps[..|ps|] == ps;
  }

  ghost function Pick(s: set<string>): string
    requires s != {}
  {
    var k :| k in s; k
  }

  /* `sum(len(v) for v in d.values())` */
  ghost function TotalLength(m: map<string, seq<string>>): nat
    decreases |m.Keys|
  {
    if m.Keys == {} then 0
    else
      var k := Pick(m.Keys);
      |m[k]| + TotalLength(m - {k})
  }

  lemma {:induction false} TotalLengthRemove(m: map<string, seq<string>>, k: string)
    requires k in m
    ensures TotalLength(m) == |m[k]| + TotalLength(m - {k})
    decreases |m.Keys|
  {
    var c := Pick(m.Keys);
    if c != k {
      TotalLengthRemove(m - {c}, k);
      TotalLengthRemove(m - {k}, c);
      assert m - {c} - {k} == m - {k} - {c};
    }
  }

  /** Every pair lands in exactly one group, so the group sizes add up to
      the number of pairs. */
  lemma {:induction false} GroupedTotal(ps: seq<(string, string)>)
    ensures TotalLength(Grouped(ps)) == |ps|
  {
    if ps != [] {
      var p := ps[..|ps| - 1];
      var g := Grouped(p);
      var k := ps[|ps| - 1].0;
      var g' := Grouped(ps);
      GroupedTotal(p);
      TotalLengthRemove(g', k);
      assert g' - {k} == g - {k};
      if k in g {
        TotalLengthRemove(g, k);
      } else {
        assert g - {k} == g;
      }
    }
  }

  /** `sum(len(v) for v in d.values())`, one key at a time. */
  method SumLengths(m: map<string, seq<string>>) returns (total: nat)
    ensures total == TotalLength(m)
  {
    total := 0;
    var rest := m;
    while rest.Keys != {}
      invariant total + TotalLength(rest) == TotalLength(m)
      decreases |rest.Keys|
    {
      var k :| k in rest.Keys;
      TotalLengthRemove(rest, k);
      total := total + |rest[k]|;
      rest := rest - {k};
    }
  }

  // ---------------------------------------------------------------------------
  // Order-preserving deduplication under a key

  /* `{key(x) for x in xs}` */
  function KeysOf(xs: seq<string>, key: string -> string): set<string>
  {
    set i | 0 <= i < |xs| :: key(xs[i])
  }

  lemma KeysOfSnoc(xs: seq<string>, x: string, key: string -> string)
    ensures KeysOf(xs + [x], key) == KeysOf(xs, key) + {key(x)}
  {
    var ys := xs + [x];
    forall k | k in KeysOf(ys, key) ensures k in KeysOf(xs, key) + {key(x)} {
      var i :| 0 <= i < |ys| && key(ys[i]) == k;
      if i < |xs| { assert ys[i] == xs[i]; }
    }
    forall k | k in KeysOf(xs, key) ensures k in KeysOf(ys, key) {
      var i :| 0 <= i < |xs| && key(xs[i]) == k;
      assert ys[i] == xs[i];
    }
    assert ys[|xs|] == x;
  }

  /* Position `i` holds the first statement with its key. */
  predicate IsFirst(xs: seq<string>, key: string -> string, i: nat)
    requires i < |xs|
  {
    key(xs[i]) !in KeysOf(xs[..i], key)
  }

  /* The loop `for x in xs: k = key(x); if k not in seen: seen.add(k);
     output.append(x)`: a statement is kept when no earlier one has its key. */
  function FirstByKey(xs: seq<string>, key: string -> string): seq<string>
  {
    if xs == [] then []
    else
      var p := xs[..|xs| - 1];
      FirstByKey(p, key) + (if key(xs[|xs| - 1]) in KeysOf(p, key) then [] else [xs[|xs| - 1]])
  }

  /** The deduplicated statements are exactly the first statement of each
      key, in input order: they sit at increasing positions of the input,
      and a position is picked exactly when no earlier statement has its
      key. */
  lemma {:induction false} FirstByKeyPicksFirsts(xs: seq<string>, key: string -> string) returns (idx: seq<nat>)
    ensures |idx| == |FirstByKey(xs, key)|
    ensures forall k :: 0 <= k < |idx| ==> idx[k] < |xs| && FirstByKey(xs, key)[k] == xs[idx[k]]
    ensures forall k, l :: 0 <= k < l < |idx| ==> idx[k] < idx[l]
    ensures forall i :: 0 <= i < |xs| ==> (i in idx <==> IsFirst(xs, key, i))
  {
    if xs == [] {
      idx := [];
    } else {
      var n := |xs| - 1;
      var p := xs[..n];
      var pidx := FirstByKeyPicksFirsts(p, key);
      forall i | 0 <= i < n ensures IsFirst(p, key, i) == IsFirst(xs, key, i) {
        assert p[..i] == xs[..i];
        assert p[i] == xs[i];
      }
      assert xs[..n] == p;
      var r, pr := FirstByKey(xs, key), FirstByKey(p, key);
      if key(xs[n]) in KeysOf(p, key) {
        idx := pidx;
        assert r == pr;
        forall i | 0 <= i < |xs| ensures i in idx <==> IsFirst(xs, key, i) {
          if i == n { assert !IsFirst(xs, key, n); }
        }
      } else {
        idx := pidx + [n];
        assert r == pr + [xs[n]];
        forall k | 0 <= k < |idx| ensures idx[k] < |xs| && r[k] == xs[idx[k]] {
          if k < |pidx| { assert idx[k] == pidx[k] && r[k] == pr[k]; }
        }
        forall i | 0 <= i < |xs| ensures i in idx <==> IsFirst(xs, key, i) {
          if i < n { assert i in idx <==> i in pidx; }
        }
      }
    }
  }

  /** No two kept statements share a key. */
  lemma FirstByKeyDistinct(xs: seq<string>, key: string -> string)
    ensures forall k, l :: 0 <= k < l < |FirstByKey(xs, key)| ==>
              key(FirstByKey(xs, key)[k]) != key(FirstByKey(xs, key)[l])
  {
    var r := FirstByKey(xs, key);
    var idx := FirstByKeyPicksFirsts(xs, key);
    forall k, l | 0 <= k < l < |r| ensures key(r[k]) != key(r[l]) {
      assert idx[l] in idx;
      assert IsFirst(xs, key, idx[l]);
      assert xs[..idx[l]][idx[k]] == xs[idx[k]];
      assert key(r[k]) in KeysOf(xs[..idx[l]], key);
    }
  }

  /** Every key of the input is still represented. */
  lemma {:induction false} FirstByKeyKeys(xs: seq<string>, key: string -> string)
    ensures KeysOf(FirstByKey(xs, key), key) == KeysOf(xs, key)
  {
    if xs != [] {
      var n := |xs| - 1;
      var p := xs[..n];
      FirstByKeyKeys(p, key);
      assert xs == p + [xs[n]];
      KeysOfSnoc(p, xs[n], key);
      if key(xs[n]) !in KeysOf(p, key) {
        assert FirstByKey(xs, key) == FirstByKey(p, key) + [xs[n]];
        KeysOfSnoc(FirstByKey(p, key), xs[n], key);
      } else {
        assert FirstByKey(xs, key) == FirstByKey(p, key);
      }
    }
  }

  /** Deduplicating twice changes nothing. */
  lemma FirstByKeyIdempotent(xs: seq<string>, key: string -> string)
    ensures FirstByKey(FirstByKey(xs, key), key) == FirstByKey(xs, key)
  {
    FirstByKeyDistinct(xs, key);
    DistinctKeysKept(FirstByKey(xs, key), key);
  }

  lemma {:induction false} DistinctKeysKept(ys: seq<string>, key: string -> string)
    requires forall k, l :: 0 <= k < l < |ys| ==> key(ys[k]) != key(ys[l])
    ensures FirstByKey(ys, key) == ys
  {
    if ys != [] {
      var n := |ys| - 1;
      var p := ys[..n];
      DistinctKeysKept(p, key);
      assert forall i :: 0 <= i < |p| ==> p[i] == ys[i];
      assert key(ys[n]) !in KeysOf(p, key);
      assert p + [ys[n]] == ys;
    }
  }

  /** The deduplicating loop, with the set of keys seen so far. */
  method DeduplicateByKey(xs: seq<string>, key: string -> string) returns (r: seq<string>)
    ensures r == FirstByKey(xs, key)
  {
    r := [];
    var seen: set<string> := {};
    for i := 0 to |xs|
      invariant seen == KeysOf(xs[..i], key)
      invariant r == FirstByKey(xs[..i], key)
    {
      var k := key(xs[i]);
      assert xs[..i + 1][..i] == xs[..i];
      KeysOfSnoc(xs[..i], xs[i], key);
      assert xs[..i + 1] == xs[..i] + [xs[i]];
      if k !in seen {
        seen := seen + {k};
        r := r + [xs[i]];
      }
    }
    assert xs[..|xs|] == xs;
  }
}
