/**
 The schema analysis script (supabase/scripts/analyze-schema.py): it reads
 the consolidated schema file, collects the tables, indexes, policies,
 functions, triggers, views and CHECK constraints it declares, counts them,
 lists every table with its number of indexes, policies and triggers, and
 runs three consistency checks.

 The regular expressions are not modelled: the file is given as what they
 find in it, each list in match order, and a missing file as `None`.
 */
module SchemaAnalysis {
  import opened Wrappers
  import opened Strings
  import opened Collections

  // ---------------------------------------------------------------------------
  // What the patterns find in the schema file

  /* A `CREATE TABLE` match: the table name and the span of the match. */
  datatype TableMatch = TableMatch(name: string, start: nat, end: nat)

  /* An index, policy or trigger match: its name and the table after `ON`. */
  datatype OnTable = OnTable(name: string, table: string)

  /* A `CHECK (...)` match: the text between the parentheses and where the
     match starts. */
  datatype CheckMatch = CheckMatch(text: string, start: nat)

  datatype SchemaMatches = SchemaMatches(
    tables: seq<TableMatch>,
    indexes: seq<OnTable>,
    policies: seq<OnTable>,
    functions: seq<string>,
    triggers: seq<OnTable>,
    views: seq<string>,
    checks: seq<CheckMatch>,
    rlsTables: seq<string>,
    references: seq<string>)

  // ---------------------------------------------------------------------------
  // Name sets

  /* `s.add(x)` for each name in order, from an empty set. */
  function NameSet(xs: seq<string>): set<string>
  {
    if xs == [] then {} else NameSet(xs[..|xs| - 1]) + {xs[|xs| - 1]}
  }

  /** A name is in the set exactly when some match carries it, and repeated
      names are kept once, so the set is never larger than the matches. */
  lemma {:induction false} NameSetMembers(xs: seq<string>)
    ensures forall x :: x in NameSet(xs) <==> exists i :: 0 <= i < |xs| && xs[i] == x
    ensures |NameSet(xs)| <= |xs|
  {
    if xs != [] {
      var p := xs[..|xs| - 1];
      NameSetMembers(p);
      forall x ensures x in NameSet(xs) <==> exists i :: 0 <= i < |xs| && xs[i] == x {
        if x in NameSet(p) {
          var i :| 0 <= i < |p| && p[i] == x;
          assert xs[i] == x;
        }
        if exists i :: 0 <= i < |xs| && xs[i] == x {
          var i :| 0 <= i < |xs| && xs[i] == x;
          if i < |p| { assert p[i] == x; }
        }
      }
    }
  }

  /** The loop `for match in ...: s.add(match.group(1))`. */
  method CollectNames(xs: seq<string>) returns (s: set<string>)
    ensures s == NameSet(xs)
  {
    s := {};
    for i := 0 to |xs|
      invariant s == NameSet(xs[..i])
    {
      assert xs[..i + 1][..i] == xs[..i];
      s := s + {xs[i]};
    }
    assert xs[..|xs|] == xs;
  }

  function TableNames(ms: seq<TableMatch>): seq<string>
  {
    seq(|ms|, i requires 0 <= i < |ms| => ms[i].name)
  }

  // ---------------------------------------------------------------------------
  // Indexes, policies and triggers grouped by table

  /* `(table, name)` for each policy or trigger match. */
  function OnPairs(ms: seq<OnTable>): seq<(string, string)>
  {
    seq(|ms|, i requires 0 <= i < |ms| => (ms[i].table, ms[i].name))
  }

  /* `(table, name.split('.')[-1])` for each index match: a schema-qualified
     index name loses its schema. */
  function IndexPairs(ms: seq<OnTable>): seq<(string, string)>
  {
    seq(|ms|, i requires 0 <= i < |ms| => (ms[i].table, AfterLast(ms[i].name, '.')))
  }

  /** The loop that fills `indexes`: the name after the last `.` is appended
      under its table. */
  method GroupIndexes(ms: seq<OnTable>) returns (g: map<string, seq<string>>)
    ensures g == Grouped(IndexPairs(ms))
  {
    g := map[];
    for i := 0 to |ms|
      invariant g == Grouped(IndexPairs(ms[..i]))
    {
      var pieces := Split(ms[i].name, '.');
      var name := pieces[|pieces| - 1];
      SplitLastIsAfterLast(ms[i].name, '.');
      var t := ms[i].table;
      assert IndexPairs(ms[..i + 1]) == IndexPairs(ms[..i]) + [(t, name)];
      GroupedSnoc(IndexPairs(ms[..i]), (t, name));
      g := g[t := (if t in g then g[t] else []) + [name]];
    }
    assert ms[..|ms|] == ms;
  }

  predicate IsSuffix(x: string, s: string)
  {
    |x| <= |s| && x == s[|s| - |x|..]
  }

  /** A table has an index list exactly when some index is created on it;
      every name in the list is free of `.` and ends the name of an index
      created on that table. */
  lemma IndexListsHoldUnqualifiedNames(ms: seq<OnTable>, t: string)
    ensures t in Grouped(IndexPairs(ms)) <==> exists i :: 0 <= i < |ms| && ms[i].table == t
    ensures t in Grouped(IndexPairs(ms)) ==> forall x :: x in Grouped(IndexPairs(ms))[t] ==>
              '.' !in x && exists i :: 0 <= i < |ms| && ms[i].table == t && IsSuffix(x, ms[i].name)
  {
    var ps := IndexPairs(ms);
    GroupedIsFilter(ps);
    if exists i :: 0 <= i < |ms| && ms[i].table == t {
      var i :| 0 <= i < |ms| && ms[i].table == t;
      assert ps[i].0 == t;
    }
    if t in Grouped(ps) {
      var i :| 0 <= i < |ps| && ps[i].0 == t;
      assert ms[i].table == t;
      forall x | x in Grouped(ps)[t]
        ensures '.' !in x && exists i :: 0 <= i < |ms| && ms[i].table == t && IsSuffix(x, ms[i].name)
      {
        var j := ValuesForMember(ps, t, x);
        AfterLastIsLastPiece(ms[j].name, '.');
      }
    }
  }

  /* Where a value paired with `k` comes from. */
  lemma {:induction false} ValuesForMember(ps: seq<(string, string)>, k: string, x: string) returns (i: nat)
    requires x in ValuesFor(ps, k)
    ensures i < |ps| && ps[i] == (k, x)
  {
    if ps[0].0 == k && x == ps[0].1 {
      i := 0;
    } else {
      var j := ValuesForMember(ps[1..], k, x);
      i := j + 1;
    }
  }

  // ---------------------------------------------------------------------------
  // CHECK constraints

  /* The table match found by `re.search(table_pattern, content[:start])`:
     the first match in the file that ends by `start`. */
  function FirstTableBefore(tables: seq<TableMatch>, start: nat): Option<string>
  {
    if tables == [] then None
    else if tables[0].end <= start then Some(tables[0].name)
    else FirstTableBefore(tables[1..], start)
  }

  /* The table whose `CREATE TABLE` is the last one that ends by `start`:
     the table a CHECK clause inside a table definition belongs to. */
  function NearestTableBefore(tables: seq<TableMatch>, start: nat): Option<string>
  {
    if tables == [] then None
    else if tables[|tables| - 1].end <= start then Some(tables[|tables| - 1].name)
    else NearestTableBefore(tables[..|tables| - 1], start)
  }

  /* Matches of one pattern come out in file order and do not overlap. */
  predicate InFileOrder(tables: seq<TableMatch>)
  {
    forall i, j :: 0 <= i < j < |tables| ==> tables[i].end <= tables[j].end
  }

  /** The search finds a table exactly when some table match ends by
      `start`, and then it is the earliest such match. */
  lemma {:induction false} FirstTableBeforeIsEarliest(tables: seq<TableMatch>, start: nat)
    ensures FirstTableBefore(tables, start).None? <==> forall i :: 0 <= i < |tables| ==> tables[i].end > start
    ensures FirstTableBefore(tables, start).Some? ==>
              exists i :: 0 <= i < |tables| && tables[i].end <= start
                && tables[i].name == FirstTableBefore(tables, start).value
                && forall j :: 0 <= j < i ==> tables[j].end > start
  {
    if tables != [] {
      if tables[0].end <= start {
        assert tables[0].name == FirstTableBefore(tables, start).value;
      } else {
        var rest := tables[1..];
        FirstTableBeforeIsEarliest(rest, start);
        if FirstTableBefore(rest, start).Some? {
          var i :| 0 <= i < |rest| && rest[i].end <= start
                  && rest[i].name == FirstTableBefore(rest, start).value
                  && forall j :: 0 <= j < i ==> rest[j].end > start;
          assert tables[i + 1] == rest[i];
          forall j | 0 <= j < i + 1 ensures tables[j].end > start {
            if j > 0 { assert tables[j] == rest[j - 1]; }
          }
        } else {
          forall i | 0 <= i < |tables| ensures tables[i].end > start {
            if i > 0 { assert tables[i] == rest[i - 1]; }
          }
        }
      }
    }
  }

  /** With the matches in file order, every constraint is attributed to the
      first table of the file, or to none when the constraint comes before
      the first table ends. */
  lemma FirstTableBeforeIsFileFirst(tables: seq<TableMatch>, start: nat)
    requires InFileOrder(tables)
    ensures FirstTableBefore(tables, start) == if tables != [] && tables[0].end <= start then Some(tables[0].name) else None
  {
    if tables != [] && tables[0].end > start {
      FirstTableBeforeIsEarliest(tables, start);
      assert forall i :: 0 <= i < |tables| ==> tables[i].end > start by {
        forall i | 0 <= i < |tables| ensures tables[i].end > start {
          if i > 0 { assert tables[0].end <= tables[i].end; }
        }
      }
    }
  }

  /** The nearest table is found exactly when some table match ends by
      `start`, and then it is the latest such match. */
  lemma {:induction false} NearestTableBeforeIsLatest(tables: seq<TableMatch>, start: nat)
    ensures NearestTableBefore(tables, start).None? <==> forall i :: 0 <= i < |tables| ==> tables[i].end > start
    ensures NearestTableBefore(tables, start).Some? ==>
              exists i :: 0 <= i < |tables| && tables[i].end <= start
                && tables[i].name == NearestTableBefore(tables, start).value
                && forall j :: i < j < |tables| ==> tables[j].end > start
  {
    if tables != [] {
      var n := |tables| - 1;
      if tables[n].end <= start {
        assert tables[n].name == NearestTableBefore(tables, start).value;
      } else {
        var p := tables[..n];
        NearestTableBeforeIsLatest(p, start);
        if NearestTableBefore(p, start).Some? {
          var i :| 0 <= i < |p| && p[i].end <= start
                  && p[i].name == NearestTableBefore(p, start).value
                  && forall j :: i < j < |p| ==> p[j].end > start;
          assert tables[i] == p[i];
          forall j | i < j < |tables| ensures tables[j].end > start {
            if j < n { assert tables[j] == p[j]; }
          }
        } else {
          forall i | 0 <= i < |tables| ensures tables[i].end > start {
            if i < n { assert tables[i] == p[i]; }
          }
        }
      }
    }
  }

  /** Two tables and a CHECK clause inside the second: the search on the
      prefix picks the first table, the nearest table is the second. */
  lemma ConstraintGoesToFirstTable()
    ensures var tables := [TableMatch("users", 0, 18), TableMatch("posts", 100, 118)];
      && FirstTableBefore(tables, 150) == Some("users")
      && NearestTableBefore(tables, 150) == Some("posts")
  {
  }

  /** With the table matches in file order, the constraints dictionary has
      at most one key, the file's first table, and has it exactly when some
      CHECK starts after that table's match ends. */
  lemma ConstraintsOnFileFirstTable(tables: seq<TableMatch>, checks: seq<CheckMatch>, t: string)
    requires InFileOrder(tables)
    ensures t in Grouped(ConstraintPairs(tables, checks, FirstTableBefore)) <==>
              tables != [] && t == tables[0].name && exists i :: 0 <= i < |checks| && tables[0].end <= checks[i].start
  {
    ConstraintTables(tables, checks, FirstTableBefore, t);
    forall i | 0 <= i < |checks|
      ensures FirstTableBefore(tables, checks[i].start) ==
                if tables != [] && tables[0].end <= checks[i].start then Some(tables[0].name) else None
    {
      FirstTableBeforeIsFileFirst(tables, checks[i].start);
    }
  }

  /* `constraint_text[:50] + '...'` */
  function Abbreviated(text: string): (r: string)
    ensures 3 <= |r| <= 53 && r[|r| - 3..] == "..."
    ensures |r| - 3 <= |text| && r[..|r| - 3] == text[..|r| - 3]
    ensures |r| < 53 ==> |r| - 3 == |text|
  {
    Take(text, 50) + "..."
  }

  /* `(table, abbreviated text)` for each CHECK match that `owner` attributes
     to a table, in match order. */
  function ConstraintPairs(tables: seq<TableMatch>, checks: seq<CheckMatch>,
                           owner: (seq<TableMatch>, nat) -> Option<string>): seq<(string, string)>
  {
    if checks == [] then []
    else
      var c := checks[|checks| - 1];
      ConstraintPairs(tables, checks[..|checks| - 1], owner)
        + match owner(tables, c.start) case None => [] case Some(t) => [(t, Abbreviated(c.text))]
  }

  /** A table has constraints exactly when some CHECK clause is attributed
      to it. */
  lemma {:induction false} ConstraintTables(tables: seq<TableMatch>, checks: seq<CheckMatch>,
                                            owner: (seq<TableMatch>, nat) -> Option<string>, t: string)
    ensures t in Grouped(ConstraintPairs(tables, checks, owner)) <==>
              exists i :: 0 <= i < |checks| && owner(tables, checks[i].start) == Some(t)
  {
    GroupedIsFilter(ConstraintPairs(tables, checks, owner));
    PairsNameOwners(tables, checks, owner, t);
  }

  lemma {:induction false} PairsNameOwners(tables: seq<TableMatch>, checks: seq<CheckMatch>,
                                           owner: (seq<TableMatch>, nat) -> Option<string>, t: string)
    ensures (exists k :: 0 <= k < |ConstraintPairs(tables, checks, owner)| && ConstraintPairs(tables, checks, owner)[k].0 == t)
            <==> exists i :: 0 <= i < |checks| && owner(tables, checks[i].start) == Some(t)
  {
    if checks != [] {
      var n := |checks| - 1;
      var p := checks[..n];
      var ps := ConstraintPairs(tables, p, owner);
      var last := match owner(tables, checks[n].start) case None => [] case Some(u) => [(u, Abbreviated(checks[n].text))];
      var all := ConstraintPairs(tables, checks, owner);
      assert all == ps + last;
      PairsNameOwners(tables, p, owner, t);
      if exists k :: 0 <= k < |all| && all[k].0 == t {
        var k :| 0 <= k < |all| && all[k].0 == t;
        if k < |ps| {
          assert ps[k].0 == t;
          var i :| 0 <= i < |p| && owner(tables, p[i].start) == Some(t);
          assert checks[i] == p[i];
        } else {
          assert owner(tables, checks[n].start) == Some(t);
        }
      }
      if exists i :: 0 <= i < |checks| && owner(tables, checks[i].start) == Some(t) {
        var i :| 0 <= i < |checks| && owner(tables, checks[i].start) == Some(t);
        if i < n {
          assert p[i] == checks[i];
          var k :| 0 <= k < |ps| && ps[k].0 == t;
          assert all[k] == ps[k];
        } else {
          assert all[|ps|].0 == t;
        }
      }
    }
  }

  /** The loop over the CHECK matches: a constraint attributed to a table is
      appended, abbreviated, under that table; one attributed to none is
      dropped. */
  method AttributeConstraints(tables: seq<TableMatch>, checks: seq<CheckMatch>,
                              owner: (seq<TableMatch>, nat) -> Option<string>)
    returns (g: map<string, seq<string>>)
    ensures g == Grouped(ConstraintPairs(tables, checks, owner))
  {
    g := map[];
    for i := 0 to |checks|
      invariant g == Grouped(ConstraintPairs(tables, checks[..i], owner))
    {
      assert checks[..i + 1][..i] == checks[..i];
      var done := ConstraintPairs(tables, checks[..i], owner);
      var found := owner(tables, checks[i].start);
      if found.Some? {
        var t := found.value;
        var text := Take(checks[i].text, 50) + "...";
        assert ConstraintPairs(tables, checks[..i + 1], owner) == done + [(t, text)];
        GroupedSnoc(done, (t, text));
        g := g[t := (if t in g then g[t] else []) + [text]];
      } else {
        assert ConstraintPairs(tables, checks[..i + 1], owner) == done;
      }
    }
    assert checks[..|checks|] == checks;
  }

  // ---------------------------------------------------------------------------
  // The per-table listing

  /* One entry of the `TABLES` section: a table and its numbers of indexes,
     policies and triggers. */
  datatype TableRow = TableRow(name: string, indexes: nat, policies: nat, triggers: nat)

  function Row(t: string, indexes: map<string, seq<string>>, policies: map<string, seq<string>>,
               triggers: map<string, seq<string>>): TableRow
  {
    TableRow(t, |Get(indexes, t)|, |Get(policies, t)|, |Get(triggers, t)|)
  }

  /* The rows for the tables `names`, in that order. */
  function RowsFor(names: seq<string>, indexes: map<string, seq<string>>, policies: map<string, seq<string>>,
                   triggers: map<string, seq<string>>): (r: seq<TableRow>)
    ensures |r| == |names|
    ensures forall i :: 0 <= i < |names| ==> r[i] == Row(names[i], indexes, policies, triggers)
  {
    if names == [] then []
    else RowsFor(names[..|names| - 1], indexes, policies, triggers) + [Row(names[|names| - 1], indexes, policies, triggers)]
  }

  /* `for table in sorted(tables)` */
  ghost function TableRows(tables: set<string>, indexes: map<string, seq<string>>, policies: map<string, seq<string>>,
                           triggers: map<string, seq<string>>): seq<TableRow>
  {
    RowsFor(SortedOf(tables), indexes, policies, triggers)
  }

  lemma RowsForSnoc(names: seq<string>, i: nat, indexes: map<string, seq<string>>, policies: map<string, seq<string>>,
                    triggers: map<string, seq<string>>)
    requires i < |names|
    ensures RowsFor(names[..i + 1], indexes, policies, triggers)
            == RowsFor(names[..i], indexes, policies, triggers) + [Row(names[i], indexes, policies, triggers)]
  {
    assert names[..i + 1][..i] == names[..i];
  }

  method TableRowsOf(tables: set<string>, indexes: map<string, seq<string>>, policies: map<string, seq<string>>,
                     triggers: map<string, seq<string>>) returns (rows: seq<TableRow>)
    ensures rows == TableRows(tables, indexes, policies, triggers)
  {
    var names := SortStrings(tables);
    rows := [];
    for i := 0 to |names|
      invariant rows == RowsFor(names[..i], indexes, policies, triggers)
    {
      RowsForSnoc(names, i, indexes, policies, triggers);
      rows := rows + [Row(names[i], indexes, policies, triggers)];
    }
    assert names[..|names|] == names;
  }

  // ---------------------------------------------------------------------------
  // Validation checks

  datatype Issue =
    | TablesWithoutRls(names: set<string>)
    | TablesWithoutPolicies(names: set<string>)
    | DanglingReferences(names: set<string>)

  /* The order in which the checks run. */
  function Rank(i: Issue): nat
  {
    match i
    case TablesWithoutRls(_) => 0
    case TablesWithoutPolicies(_) => 1
    case DanglingReferences(_) => 2
  }

  /** The issues of the three checks: a table without `ENABLE ROW LEVEL
      SECURITY`, a table without a policy, and a `REFERENCES` target that is
      not a table. Each check reports its exact difference set when that set
      is not empty, the checks report in that order, and no issue is found
      exactly when all three sets are empty. */
  function Issues(tables: set<string>, rls: set<string>, policyTables: set<string>, references: set<string>): (r: seq<Issue>)
    ensures r == [] <==> tables - rls == {} && tables - policyTables == {} && references - tables == {}
    ensures TablesWithoutRls(tables - rls) in r <==> tables - rls != {}
    ensures TablesWithoutPolicies(tables - policyTables) in r <==> tables - policyTables != {}
    ensures DanglingReferences(references - tables) in r <==> references - tables != {}
    ensures forall i :: 0 <= i < |r| ==>
              && r[i].names != {}
              && r[i] in [TablesWithoutRls(tables - rls), TablesWithoutPolicies(tables - policyTables),
                          DanglingReferences(references - tables)]
    ensures forall i, j :: 0 <= i < j < |r| ==> Rank(r[i]) < Rank(r[j])
  {
    (if tables - rls != {} then [TablesWithoutRls(tables - rls)] else [])
    + (if tables - policyTables != {} then [TablesWithoutPolicies(tables - policyTables)] else [])
    + (if references - tables != {} then [DanglingReferences(references - tables)] else [])
  }

  /** The three checks, appending to `issues` as they go. */
  method ValidationChecks(tables: set<string>, rls: set<string>, policyTables: set<string>, references: set<string>)
    returns (issues: seq<Issue>)
    ensures issues == Issues(tables, rls, policyTables, references)
  {
    issues := [];
    var missingRls := tables - rls;
    if missingRls != {} {
      issues := issues + [TablesWithoutRls(missingRls)];
    }
    var withoutPolicies := tables - policyTables;
    if withoutPolicies != {} {
      issues := issues + [TablesWithoutPolicies(withoutPolicies)];
    }
    var dangling := references - tables;
    if dangling != {} {
      issues := issues + [DanglingReferences(dangling)];
    }
  }

  // ---------------------------------------------------------------------------
  // The report

  datatype Summary = Summary(tables: nat, indexes: nat, policies: nat, functions: nat, triggers: nat, views: nat)

  datatype Report = Report(
    tables: set<string>,
    indexes: map<string, seq<string>>,
    policies: map<string, seq<string>>,
    functions: set<string>,
    triggers: map<string, seq<string>>,
    views: set<string>,
    constraints: map<string, seq<string>>,
    summary: Summary,
    rows: seq<TableRow>,
    issues: seq<Issue>)

  /* The analysis of a schema file. As the code does, a constraint goes to
     the first table the search finds in the text before it, which is the
     first table of the file. */
  ghost function Analysis(m: SchemaMatches): Report
  {
    var tables := NameSet(TableNames(m.tables));
    var indexes := Grouped(IndexPairs(m.indexes));
    var policies := Grouped(OnPairs(m.policies));
    var functions := NameSet(m.functions);
    var triggers := Grouped(OnPairs(m.triggers));
    var views := NameSet(m.views);
    Report(tables, indexes, policies, functions, triggers, views,
           Grouped(ConstraintPairs(m.tables, m.checks, FirstTableBefore)),
           Summary(|tables|, TotalLength(indexes), TotalLength(policies), |functions|, TotalLength(triggers), |views|),
           TableRows(tables, indexes, policies, triggers),
           Issues(tables, NameSet(m.rlsTables), policies.Keys, NameSet(m.references)))
  }

  /** `analyze_schema`: nothing when the schema file is missing, otherwise
      its analysis. */
  method AnalyzeSchema(file: Option<SchemaMatches>) returns (report: Option<Report>)
    ensures report == if file.None? then None else Some(Analysis(file.value))
  {
    if file.None? {
      return None;
    }
    var m := file.value;
    var tables := CollectNames(TableNames(m.tables));
    var indexes := GroupIndexes(m.indexes);
    var policies := GroupPairs(OnPairs(m.policies));
    var functions := CollectNames(m.functions);
    var triggers := GroupPairs(OnPairs(m.triggers));
    var views := CollectNames(m.views);
    var constraints := AttributeConstraints(m.tables, m.checks, FirstTableBefore);
    var indexCount := SumLengths(indexes);
    var policyCount := SumLengths(policies);
    var triggerCount := SumLengths(triggers);
    var summary := Summary(|tables|, indexCount, policyCount, |functions|, triggerCount, |views|);
    var rows := TableRowsOf(tables, indexes, policies, triggers);
    var rls := CollectNames(m.rlsTables);
    var references := CollectNames(m.references);
    var issues := ValidationChecks(tables, rls, policies.Keys, references);
    report := Some(Report(tables, indexes, policies, functions, triggers, views, constraints, summary, rows, issues));
  }

  // ---------------------------------------------------------------------------
  // What the report says about the file

  /** The summary counts every index, policy and trigger match once, and
      each distinct table, function and view name once. */
  lemma SummaryCounts(m: SchemaMatches)
    ensures var s := Analysis(m).summary;
      && s.indexes == |m.indexes| && s.policies == |m.policies| && s.triggers == |m.triggers|
      && s.tables == |Analysis(m).tables| <= |m.tables|
      && s.functions <= |m.functions| && s.views <= |m.views|
  {
    GroupedTotal(IndexPairs(m.indexes));
    GroupedTotal(OnPairs(m.policies));
    GroupedTotal(OnPairs(m.triggers));
    NameSetMembers(TableNames(m.tables));
    NameSetMembers(m.functions);
    NameSetMembers(m.views);
  }

  /** The table listing names every table once, in name order. */
  lemma TableListingOrder(tables: set<string>, indexes: map<string, seq<string>>, policies: map<string, seq<string>>,
                          triggers: map<string, seq<string>>)
    ensures var rows := TableRows(tables, indexes, policies, triggers);
      && |rows| == |tables|
      && (forall t :: t in tables <==> exists i :: 0 <= i < |rows| && rows[i].name == t)
      && (forall i, j :: 0 <= i < j < |rows| ==> Less(rows[i].name, rows[j].name))
  {
    var rows := TableRows(tables, indexes, policies, triggers);
    var names := SortedOf(tables);
    assert forall i :: 0 <= i < |rows| ==> rows[i].name == names[i];
    forall t | t in tables ensures exists i :: 0 <= i < |rows| && rows[i].name == t {
      var i :| 0 <= i < |names| && names[i] == t;
      assert rows[i].name == t;
    }
  }

  /** Each table's entry counts the index, policy and trigger matches on
      that table. */
  lemma TableListingCounts(tables: set<string>, indexes: seq<(string, string)>, policies: seq<(string, string)>,
                           triggers: seq<(string, string)>)
    ensures var rows := TableRows(tables, Grouped(indexes), Grouped(policies), Grouped(triggers));
      forall i :: 0 <= i < |rows| ==>
        && rows[i].indexes == |ValuesFor(indexes, rows[i].name)|
        && rows[i].policies == |ValuesFor(policies, rows[i].name)|
        && rows[i].triggers == |ValuesFor(triggers, rows[i].name)|
  {
    var rows := TableRows(tables, Grouped(indexes), Grouped(policies), Grouped(triggers));
    forall i | 0 <= i < |rows|
      ensures && rows[i].indexes == |ValuesFor(indexes, rows[i].name)|
              && rows[i].policies == |ValuesFor(policies, rows[i].name)|
              && rows[i].triggers == |ValuesFor(triggers, rows[i].name)|
    {
      var t := rows[i].name;
      assert rows[i] == Row(t, Grouped(indexes), Grouped(policies), Grouped(triggers));
      GroupedGet(indexes, t);
      GroupedGet(policies, t);
      GroupedGet(triggers, t);
    }
  }

  /** In the report, every constraint sits under the file's first table. */
  lemma ConstraintsGoToFileFirstTable(m: SchemaMatches, t: string)
    requires InFileOrder(m.tables)
    ensures t in Analysis(m).constraints <==>
              m.tables != [] && t == m.tables[0].name
              && exists i :: 0 <= i < |m.checks| && m.tables[0].end <= m.checks[i].start
  {
    assert Analysis(m).constraints == Grouped(ConstraintPairs(m.tables, m.checks, FirstTableBefore));
    ConstraintsOnFileFirstTable(m.tables, m.checks, t);
  }

  /* A `CREATE TABLE` in the file names `x`. */
  predicate Declared(m: SchemaMatches, x: string)
  {
    exists i :: 0 <= i < |m.tables| && m.tables[i].name == x
  }

  lemma DeclaredIsTable(m: SchemaMatches, x: string)
    ensures x in Analysis(m).tables <==> Declared(m, x)
  {
    var names := TableNames(m.tables);
    NameSetMembers(names);
    if Declared(m, x) {
      var i :| 0 <= i < |m.tables| && m.tables[i].name == x;
      assert names[i] == x;
    }
  }

  /** A table is reported without RLS exactly when a `CREATE TABLE` names
      it and no `ENABLE ROW LEVEL SECURITY` statement does. */
  lemma MissingRlsOnTheFile(m: SchemaMatches, x: string)
    ensures x in Analysis(m).tables - NameSet(m.rlsTables) <==>
              Declared(m, x) && forall j :: 0 <= j < |m.rlsTables| ==> m.rlsTables[j] != x
  {
    DeclaredIsTable(m, x);
    NameSetMembers(m.rlsTables);
  }

  /** A table is reported without policies exactly when a `CREATE TABLE`
      names it and no `CREATE POLICY` is on it. */
  lemma MissingPoliciesOnTheFile(m: SchemaMatches, x: string)
    ensures x in Analysis(m).tables - Analysis(m).policies.Keys <==>
              Declared(m, x) && forall j :: 0 <= j < |m.policies| ==> m.policies[j].table != x
  {
    DeclaredIsTable(m, x);
    var ps := OnPairs(m.policies);
    assert Analysis(m).policies == Grouped(ps);
    GroupedIsFilter(ps);
    assert x in Grouped(ps) <==> exists j :: 0 <= j < |m.policies| && m.policies[j].table == x by {
      if exists j :: 0 <= j < |m.policies| && m.policies[j].table == x {
        var j :| 0 <= j < |m.policies| && m.policies[j].table == x;
        assert ps[j].0 == x;
      }
    }
  }

  /** A reference is reported dangling exactly when a `REFERENCES` names it
      and no `CREATE TABLE` does. */
  lemma DanglingOnTheFile(m: SchemaMatches, x: string)
    ensures x in NameSet(m.references) - Analysis(m).tables <==>
              (exists i :: 0 <= i < |m.references| && m.references[i] == x) && !Declared(m, x)
  {
    DeclaredIsTable(m, x);
    NameSetMembers(m.references);
  }
}
