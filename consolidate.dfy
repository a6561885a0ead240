/**
 The migration consolidation script
 (supabase/scripts/consolidate-migrations.py): every migration file is
 scanned by nine extractors, the results are merged into module-level
 collections, and one schema text is rendered from them.

 The extractors' regular expressions are not modelled: a file is given as
 what they find in it, in match order. Merging uses three policies: the
 table, function and view dictionaries are updated (a later definition of a
 name replaces an earlier one), the index, policy and trigger lists are
 extended, and the extension, RLS and realtime sets are unioned.
 */
module Consolidate {
  import opened Wrappers
  import opened Strings
  import opened Collections
  import opened SqlText

  // ---------------------------------------------------------------------------
  // What the extractors find, and the merged collections

  /* The matches of one migration file, each list in match order: named
     definitions (`group(1)`, `group(0)`), whole statements (`group(0)`), and
     bare names (`group(1)`). */
  datatype MigrationMatches = MigrationMatches(
    tables: seq<NamedMatch>,
    indexes: seq<string>,
    policies: seq<string>,
    functions: seq<NamedMatch>,
    triggers: seq<string>,
    views: seq<NamedMatch>,
    extensions: seq<string>,
    rlsTables: seq<string>,
    realtimeTables: seq<string>)

  /* The module-level collections `tables` … `realtime_tables`. */
  datatype Schema = Schema(
    tables: map<string, string>,
    indexes: seq<string>,
    policies: seq<string>,
    functions: map<string, string>,
    triggers: seq<string>,
    views: map<string, string>,
    extensions: set<string>,
    rlsEnabled: set<string>,
    realtimeTables: set<string>)

  const EmptySchema := Schema(map[], [], [], map[], [], map[], {}, {}, {})

  /* The set filled by `s.add(m.group(1))` for each match. */
  function Names(ms: seq<string>): set<string>
  {
    if ms == [] then {} else Names(ms[..|ms| - 1]) + {ms[|ms| - 1]}
  }

  lemma {:induction false} NamesConcat(a: seq<string>, b: seq<string>)
    ensures Names(a + b) == Names(a) + Names(b)
  {
    if b == [] {
      assert a + b == a;
    } else {
      assert (a + b)[..|a + b| - 1] == a + b[..|b| - 1];
      NamesConcat(a, b[..|b| - 1]);
    }
  }

  /** The names matched are exactly the members of the set. */
  lemma {:induction false} NamesAreMatches(ms: seq<string>)
    ensures forall x :: x in Names(ms) <==> exists i :: 0 <= i < |ms| && ms[i] == x
  {
    if ms != [] {
      var p := ms[..|ms| - 1];
      NamesAreMatches(p);
      forall x ensures x in Names(ms) <==> exists i :: 0 <= i < |ms| && ms[i] == x {
        if x in Names(p) {
          var i :| 0 <= i < |p| && p[i] == x;
          assert ms[i] == x;
        }
        if exists i :: 0 <= i < |ms| && ms[i] == x {
          var i :| 0 <= i < |ms| && ms[i] == x;
          if i < |p| { assert p[i] == x; }
        }
      }
    }
  }

  /** `extract_extensions`, `extract_rls_enabled` and
      `extract_realtime_tables`: the set of the names matched. */
  method ExtractNames(ms: seq<string>) returns (s: set<string>)
    ensures s == Names(ms)
  {
    s := {};
    for i := 0 to |ms|
      invariant s == Names(ms[..i])
    {
      assert ms[..i + 1][..i] == ms[..i];
      s := s + {ms[i]};
    }
    assert ms[..|ms|] == ms;
  }

  /* `parse_migration_file`: three dictionary updates, three list extensions
     and three set unions. */
  function Merge(s: Schema, f: MigrationMatches): Schema
  {
    Schema(
      s.tables + Definitions(f.tables),
      s.indexes + f.indexes,
      s.policies + f.policies,
      s.functions + Definitions(f.functions),
      s.triggers + f.triggers,
      s.views + Definitions(f.views),
      s.extensions + Names(f.extensions),
      s.rlsEnabled + Names(f.rlsTables),
      s.realtimeTables + Names(f.realtimeTables))
  }

  /* The collections after the files are parsed in order. */
  function MergeAll(s: Schema, files: seq<MigrationMatches>): Schema
  {
    if files == [] then s else Merge(MergeAll(s, files[..|files| - 1]), files[|files| - 1])
  }

  /* The matches of one kind over all files, in file order and, within a
     file, in match order. */
  function AllTables(files: seq<MigrationMatches>): seq<NamedMatch>
  {
    if files == [] then [] else AllTables(files[..|files| - 1]) + files[|files| - 1].tables
  }

  function AllFunctions(files: seq<MigrationMatches>): seq<NamedMatch>
  {
    if files == [] then [] else AllFunctions(files[..|files| - 1]) + files[|files| - 1].functions
  }

  function AllViews(files: seq<MigrationMatches>): seq<NamedMatch>
  {
    if files == [] then [] else AllViews(files[..|files| - 1]) + files[|files| - 1].views
  }

  function AllIndexes(files: seq<MigrationMatches>): seq<string>
  {
    if files == [] then [] else AllIndexes(files[..|files| - 1]) + files[|files| - 1].indexes
  }

  function AllPolicies(files: seq<MigrationMatches>): seq<string>
  {
    if files == [] then [] else AllPolicies(files[..|files| - 1]) + files[|files| - 1].policies
  }

  function AllTriggers(files: seq<MigrationMatches>): seq<string>
  {
    if files == [] then [] else AllTriggers(files[..|files| - 1]) + files[|files| - 1].triggers
  }

  function AllExtensions(files: seq<MigrationMatches>): seq<string>
  {
    if files == [] then [] else AllExtensions(files[..|files| - 1]) + files[|files| - 1].extensions
  }

  function AllRlsTables(files: seq<MigrationMatches>): seq<string>
  {
    if files == [] then [] else AllRlsTables(files[..|files| - 1]) + files[|files| - 1].rlsTables
  }

  function AllRealtimeTables(files: seq<MigrationMatches>): seq<string>
  {
    if files == [] then [] else AllRealtimeTables(files[..|files| - 1]) + files[|files| - 1].realtimeTables
  }

  /** Parsing the files one by one from empty collections is the same as
      merging all their matches at once: the dictionaries hold the
      definitions of every match in order, the lists are the concatenation
      of every file's statements, and the sets are the union of every
      file's names. */
  lemma {:induction false} MergeAllFlattens(files: seq<MigrationMatches>)
    ensures var s := MergeAll(EmptySchema, files);
      && s.tables == Definitions(AllTables(files))
      && s.functions == Definitions(AllFunctions(files))
      && s.views == Definitions(AllViews(files))
      && s.indexes == AllIndexes(files)
      && s.policies == AllPolicies(files)
      && s.triggers == AllTriggers(files)
      && s.extensions == Names(AllExtensions(files))
      && s.rlsEnabled == Names(AllRlsTables(files))
      && s.realtimeTables == Names(AllRealtimeTables(files))
  {
    if files == [] {
      assert Definitions([]) == map[];
      assert Names([]) == {};
    } else {
      var p := files[..|files| - 1];
      var f := files[|files| - 1];
      MergeAllFlattens(p);
      DefinitionsConcat(AllTables(p), f.tables);
      DefinitionsConcat(AllFunctions(p), f.functions);
      DefinitionsConcat(AllViews(p), f.views);
      NamesConcat(AllExtensions(p), f.extensions);
      NamesConcat(AllRlsTables(p), f.rlsTables);
      NamesConcat(AllRealtimeTables(p), f.realtimeTables);
    }
  }

  /** Tables, functions and views merge by name with the last definition
      winning: across files, a later file overrides an earlier one, and
      within a file the last match for a name wins. A name is defined
      exactly when some file defines it. */
  lemma DefinitionsLastWinAcrossFiles(files: seq<MigrationMatches>)
    ensures var s := MergeAll(EmptySchema, files);
      var ms := AllTables(files);
      && (forall k :: k in s.tables <==> exists i :: 0 <= i < |ms| && ms[i].name == k)
      && (forall i :: 0 <= i < |ms| && (forall j :: i < j < |ms| ==> ms[j].name != ms[i].name) ==>
            s.tables[ms[i].name] == ms[i].text)
    ensures var s := MergeAll(EmptySchema, files);
      var ms := AllFunctions(files);
      && (forall k :: k in s.functions <==> exists i :: 0 <= i < |ms| && ms[i].name == k)
      && (forall i :: 0 <= i < |ms| && (forall j :: i < j < |ms| ==> ms[j].name != ms[i].name) ==>
            s.functions[ms[i].name] == ms[i].text)
    ensures var s := MergeAll(EmptySchema, files);
      var ms := AllViews(files);
      && (forall k :: k in s.views <==> exists i :: 0 <= i < |ms| && ms[i].name == k)
      && (forall i :: 0 <= i < |ms| && (forall j :: i < j < |ms| ==> ms[j].name != ms[i].name) ==>
            s.views[ms[i].name] == ms[i].text)
  {
    MergeAllFlattens(files);
    DefinitionsLastWins(AllTables(files));
    DefinitionsLastWins(AllFunctions(files));
    DefinitionsLastWins(AllViews(files));
  }

  /** Parsing one more file: a name that file defines takes that file's
      definition, whatever earlier files said; any other name keeps its
      earlier definition. */
  lemma LaterFileOverrides(earlier: seq<MigrationMatches>, later: MigrationMatches, k: string)
    ensures var before := MergeAll(EmptySchema, earlier).tables;
      var after := MergeAll(EmptySchema, earlier + [later]).tables;
      var own := Definitions(later.tables);
      && (k in after <==> k in before || k in own)
      && (k in own ==> after[k] == own[k])
      && (k !in own && k in before ==> after[k] == before[k])
  {
    var files := earlier + [later];
    assert files[..|files| - 1] == earlier;
  }

  // ---------------------------------------------------------------------------
  // The rendered schema

  const Rule := "-- ============================================="

  function Banner(title: string): seq<string>
  {
    [Rule, "-- " + title, Rule]
  }

  const Preamble: seq<string> := [
    Rule,
    "-- Bolt.DIY Complete Database Schema (Consolidated)",
    Rule,
    "-- This file consolidates all migrations into a single schema",
    "-- that matches the online database structure exactly.",
    "-- Generated automatically from migration files.",
    Rule,
    ""]

  const Closing: seq<string> := [Rule, "-- MIGRATION COMPLETE", Rule]

  /* One line per name, `prefix + name + suffix`, in order. */
  function NameLines(names: seq<string>, prefix: string, suffix: string): (r: seq<string>)
    ensures |r| == |names|
  {
    if names == [] then []
    else NameLines(names[..|names| - 1], prefix, suffix) + [prefix + names[|names| - 1] + suffix]
  }

  /* Three lines per entry: `-- Kind: name`, the definition, a blank line. */
  function EntryLines(kind: string, items: seq<(string, string)>): (r: seq<string>)
    ensures |r| == 3 * |items|
  {
    if items == [] then []
    else
      var last := items[|items| - 1];
      EntryLines(kind, items[..|items| - 1]) + ["-- " + kind + ": " + last.0, last.1, ""]
  }

  /* `(name, m[name])` for each name, in order. */
  function Items(m: map<string, string>, names: seq<string>): (r: seq<(string, string)>)
    requires forall i :: 0 <= i < |names| ==> names[i] in m
    ensures |r| == |names|
    ensures forall i :: 0 <= i < |r| ==> r[i] == (names[i], m[names[i]])
  {
    seq(|names|, i requires 0 <= i < |names| => (names[i], m[names[i]]))
  }

  /* `sorted(m.items())`: the entries in name order. */
  ghost function SortedItems(m: map<string, string>): seq<(string, string)>
  {
    Items(m, SortedOf(m.Keys))
  }

  /** `sorted(m.items())` lists every entry of the dictionary once, with its
      own value, in strictly increasing name order. */
  lemma SortedItemsInNameOrder(m: map<string, string>)
    ensures |SortedItems(m)| == |m|
    ensures forall i :: 0 <= i < |SortedItems(m)| ==>
              SortedItems(m)[i].0 in m && SortedItems(m)[i].1 == m[SortedItems(m)[i].0]
    ensures forall i, j :: 0 <= i < j < |SortedItems(m)| ==> Less(SortedItems(m)[i].0, SortedItems(m)[j].0)
    ensures forall k :: k in m ==> exists i :: 0 <= i < |SortedItems(m)| && SortedItems(m)[i].0 == k
  {
    var names := SortedOf(m.Keys);
    assert |m.Keys| == |m|;
    forall k | k in m ensures exists i :: 0 <= i < |SortedItems(m)| && SortedItems(m)[i].0 == k {
      var i :| 0 <= i < |names| && names[i] == k;
      assert SortedItems(m)[i].0 == k;
    }
  }

  /* A name of the dictionary sits at exactly one position of its sorted
     items. */
  lemma SortedItemsOnce(m: map<string, string>, k: string)
    requires k in m
    ensures exists p :: 0 <= p < |SortedItems(m)| && SortedItems(m)[p] == (k, m[k]) &&
              forall i :: 0 <= i < |SortedItems(m)| && i != p ==> SortedItems(m)[i].0 != k
  {
    var r := SortedItems(m);
    SortedItemsInNameOrder(m);
    var p :| 0 <= p < |r| && r[p].0 == k;
    forall i | 0 <= i < |r| && i != p ensures r[i].0 != k {
      LessIrreflexive(k);
      if i < p { assert Less(r[i].0, r[p].0); } else { assert Less(r[p].0, r[i].0); }
    }
  }

  /* An entry put in front of a list holding it once is held twice. */
  lemma ListedTwice(x: (string, string), r: seq<(string, string)>, p: nat)
    requires p < |r| && r[p] == x
    requires forall i :: 0 <= i < |r| && i != p ==> r[i].0 != x.0
    ensures ([x] + r)[0] == x
    ensures exists q :: 1 <= q < |[x] + r| && ([x] + r)[q] == x &&
              forall i :: 1 <= i < |[x] + r| && i != q ==> ([x] + r)[i].0 != x.0
  {
    var o := [x] + r;
    assert o[p + 1] == r[p];
    forall i | 1 <= i < |o| && i != p + 1 ensures o[i].0 != x.0 {
      assert o[i] == r[i - 1];
    }
  }

  /* The table entries as the code emits them: `sorted_tables` is taken
     before `users` is popped, and `users` is then put in front when it
     exists. */
  ghost function TableOrderAsWritten(tables: map<string, string>): seq<(string, string)>
  {
    (if "users" in tables then [("users", tables["users"])] else []) + SortedItems(tables)
  }

  /** As written, the TABLES section lists every table in name order; when
      a `users` table exists it is listed first as well, so its definition
      is emitted twice: once in front and once at its place in the sorted
      list. */
  lemma TableOrderListsUsersTwice(tables: map<string, string>)
    ensures "users" !in tables ==> TableOrderAsWritten(tables) == SortedItems(tables)
    ensures "users" in tables ==>
              TableOrderAsWritten(tables)[0] == ("users", tables["users"]) &&
              exists p :: 1 <= p < |TableOrderAsWritten(tables)| && TableOrderAsWritten(tables)[p] == ("users", tables["users"]) &&
                forall i :: 1 <= i < |TableOrderAsWritten(tables)| && i != p ==> TableOrderAsWritten(tables)[i].0 != "users"
  {
    if "users" in tables {
      var r := SortedItems(tables);
      SortedItemsOnce(tables, "users");
      var p :| 0 <= p < |r| && r[p] == ("users", tables["users"]) &&
               forall i :: 0 <= i < |r| && i != p ==> r[i].0 != "users";
      ListedTwice(("users", tables["users"]), r, p);
    }
  }

  /** A schema whose only table is `users` renders that table's block twice. */
  lemma OnlyUsersRenderedTwice(d: string)
    ensures TableSection(map["users" := d]) ==
              Banner("TABLES") + ["-- Table: users", d, "", "-- Table: users", d, ""]
  {
    var m := map["users" := d];
    SortedItemsInNameOrder(m);
    assert SortedItems(m)[0] == ("users", d);
    assert SortedItems(m) == [("users", d)];
    var order := TableOrderAsWritten(m);
    assert order == [("users", d), ("users", d)];
    EntryLinesAt("Table", order);
    var e := EntryLines("Table", order);
    assert e[0] == "-- Table: users" && e[3] == "-- Table: users";
    assert e == ["-- Table: users", d, "", "-- Table: users", d, ""];
  }

  /* The table entries in the intended order: `users` first when it exists,
     then the other tables in name order. */
  ghost function TableOrder(tables: map<string, string>): seq<(string, string)>
  {
    if "users" in tables then [("users", tables["users"])] + SortedItems(tables - {"users"})
    else SortedItems(tables)
  }

  /* Every table once, with its own definition, without repeated names. */
  predicate ListsEachOnce(r: seq<(string, string)>, tables: map<string, string>)
  {
    && |r| == |tables|
    && (forall i :: 0 <= i < |r| ==> r[i].0 in tables && r[i].1 == tables[r[i].0])
    && (forall k :: k in tables ==> exists i :: 0 <= i < |r| && r[i].0 == k)
    && (forall i, j :: 0 <= i < j < |r| ==> r[i].0 != r[j].0)
  }

  /** The intended order lists every table exactly once with its own
      definition: `users` first when it exists, the others in strictly
      increasing name order. */
  lemma TableOrderListsEachTableOnce(tables: map<string, string>)
    ensures ListsEachOnce(TableOrder(tables), tables)
    ensures "users" in tables ==> TableOrder(tables)[0] == ("users", tables["users"])
    ensures forall i, j :: (if "users" in tables then 1 else 0) <= i < j < |TableOrder(tables)| ==>
              Less(TableOrder(tables)[i].0, TableOrder(tables)[j].0)
  {
    if "users" in tables {
      var others := tables - {"users"};
      SortedItemsListOnce(others);
      FrontThenOthers(("users", tables["users"]), SortedItems(others), tables);
    } else {
      SortedItemsListOnce(tables);
    }
  }

  lemma SortedItemsListOnce(m: map<string, string>)
    ensures ListsEachOnce(SortedItems(m), m)
  {
    var r := SortedItems(m);
    SortedItemsInNameOrder(m);
    forall i, j | 0 <= i < j < |r| ensures r[i].0 != r[j].0 {
      LessIrreflexive(r[i].0);
    }
  }

  /* One table put in front of a listing of all the other tables. */
  lemma FrontThenOthers(x: (string, string), o: seq<(string, string)>, tables: map<string, string>)
    requires x.0 in tables && x.1 == tables[x.0]
    requires ListsEachOnce(o, tables - {x.0})
    ensures ListsEachOnce([x] + o, tables)
  {
    FrontCount(x, o, tables);
    FrontEntries(x, o, tables);
    FrontCovers(x, o, tables);
    FrontDistinct(x, o, tables);
  }

  lemma FrontCount(x: (string, string), o: seq<(string, string)>, tables: map<string, string>)
    requires x.0 in tables
    requires |o| == |tables - {x.0}|
    ensures |[x] + o| == |tables|
  {
    assert (tables - {x.0}).Keys == tables.Keys - {x.0};
  }

  lemma FrontEntries(x: (string, string), o: seq<(string, string)>, tables: map<string, string>)
    requires x.0 in tables && x.1 == tables[x.0]
    requires forall i :: 0 <= i < |o| ==> o[i].0 in tables - {x.0} && o[i].1 == (tables - {x.0})[o[i].0]
    ensures forall i :: 0 <= i < |[x] + o| ==> ([x] + o)[i].0 in tables && ([x] + o)[i].1 == tables[([x] + o)[i].0]
  {
    var r := [x] + o;
    forall i | 0 <= i < |r| ensures r[i].0 in tables && r[i].1 == tables[r[i].0] {
      if i > 0 {
        assert r[i] == o[i - 1];
      }
    }
  }

  lemma FrontCovers(x: (string, string), o: seq<(string, string)>, tables: map<string, string>)
    requires forall k :: k in tables - {x.0} ==> exists i :: 0 <= i < |o| && o[i].0 == k
    ensures forall k :: k in tables ==> exists i :: 0 <= i < |[x] + o| && ([x] + o)[i].0 == k
  {
    var r := [x] + o;
    forall k | k in tables ensures exists i :: 0 <= i < |r| && r[i].0 == k {
      if k != x.0 {
        assert k in tables - {x.0};
        var i :| 0 <= i < |o| && o[i].0 == k;
        assert r[i + 1].0 == k;
      } else {
        assert r[0].0 == k;
      }
    }
  }

  lemma FrontDistinct(x: (string, string), o: seq<(string, string)>, tables: map<string, string>)
    requires forall i :: 0 <= i < |o| ==> o[i].0 in tables - {x.0}
    requires forall i, j :: 0 <= i < j < |o| ==> o[i].0 != o[j].0
    ensures forall i, j :: 0 <= i < j < |[x] + o| ==> ([x] + o)[i].0 != ([x] + o)[j].0
  {
    var r := [x] + o;
    forall i, j | 0 <= i < j < |r| ensures r[i].0 != r[j].0 {
      assert r[j] == o[j - 1];
      if i > 0 {
        assert r[i] == o[i - 1];
      }
    }
  }

  /* The pairs `(table, policy)` the policy loop files, skipping policies
     whose table is not found. */
  function PolicyPairs(policies: seq<string>): seq<(string, string)>
  {
    if policies == [] then []
    else
      var last := policies[|policies| - 1];
      PolicyPairs(policies[..|policies| - 1]) +
        (match PolicyTable(last) case Some(t) => [(t, last)] case None => [])
  }

  lemma PolicyPairsSnoc(policies: seq<string>, x: string)
    ensures PolicyPairs(policies + [x]) ==
              PolicyPairs(policies) + (match PolicyTable(x) case Some(t) => [(t, x)] case None => [])
  {
    assert (policies + [x])[..|policies|] == policies;
  }

  /* `policies_by_table` */
  function PolicyGroups(policies: seq<string>): map<string, seq<string>>
  {
    Grouped(PolicyPairs(policies))
  }

  /* The policies whose table is `t`, in input order: the reference for one
     group. */
  function PoliciesOn(policies: seq<string>, t: string): seq<string>
  {
    if policies == [] then []
    else (if PolicyTable(policies[0]) == Some(t) then [policies[0]] else []) + PoliciesOn(policies[1..], t)
  }

  lemma {:induction false} PoliciesOnSnoc(policies: seq<string>, x: string, t: string)
    ensures PoliciesOn(policies + [x], t) == PoliciesOn(policies, t) + (if PolicyTable(x) == Some(t) then [x] else [])
  {
    if policies == [] {
      assert PoliciesOn([x], t) == (if PolicyTable(x) == Some(t) then [x] else []) + PoliciesOn([x][1..], t);
    } else {
      assert (policies + [x])[1..] == policies[1..] + [x];
      PoliciesOnSnoc(policies[1..], x, t);
    }
  }

  lemma {:induction false} PolicyPairsValues(policies: seq<string>, t: string)
    ensures ValuesFor(PolicyPairs(policies), t) == PoliciesOn(policies, t)
  {
    if policies != [] {
      var p := policies[..|policies| - 1];
      var x := policies[|policies| - 1];
      assert policies == p + [x];
      PolicyPairsValues(p, t);
      PoliciesOnSnoc(p, x, t);
      PolicyPairsSnoc(p, x);
      match PolicyTable(x)
      case Some(u) =>
        ValuesForSnoc(PolicyPairs(p), (u, x), t);
      case None =>
        assert PolicyPairs(policies) == PolicyPairs(p);
    }
  }

  lemma {:induction false} PolicyPairsTables(policies: seq<string>, t: string)
    ensures (exists i :: 0 <= i < |PolicyPairs(policies)| && PolicyPairs(policies)[i].0 == t)
            <==> (exists i :: 0 <= i < |policies| && PolicyTable(policies[i]) == Some(t))
  {
    if policies != [] {
      var p := policies[..|policies| - 1];
      var x := policies[|policies| - 1];
      PolicyPairsTables(p, t);
      PolicyPairsSnoc(p, x);
      assert policies == p + [x];
      var pp := PolicyPairs(policies);
      var head := PolicyPairs(p);
      if exists i :: 0 <= i < |pp| && pp[i].0 == t {
        var i :| 0 <= i < |pp| && pp[i].0 == t;
        if i < |head| {
          assert head[i].0 == t;
          var j :| 0 <= j < |p| && PolicyTable(p[j]) == Some(t);
          assert policies[j] == p[j];
        } else {
          assert PolicyTable(policies[|p|]) == Some(t);
        }
      }
      if exists i :: 0 <= i < |policies| && PolicyTable(policies[i]) == Some(t) {
        var i :| 0 <= i < |policies| && PolicyTable(policies[i]) == Some(t);
        if i < |p| {
          assert PolicyTable(p[i]) == Some(t);
          var j :| 0 <= j < |head| && head[j].0 == t;
          assert pp[j] == head[j];
        } else {
          assert pp[|pp| - 1] == (t, x);
        }
      }
    }
  }

  /** Policies are grouped by the table their `ON` clause names: a group
      exists exactly for the tables some policy names, and each group holds
      that table's policies in input order. A policy whose table is not
      found is in no group. */
  lemma PolicyGroupsAreFilters(policies: seq<string>)
    ensures forall t :: t in PolicyGroups(policies) <==> exists i :: 0 <= i < |policies| && PolicyTable(policies[i]) == Some(t)
    ensures forall t :: t in PolicyGroups(policies) ==> PolicyGroups(policies)[t] == PoliciesOn(policies, t)
  {
    GroupedIsFilter(PolicyPairs(policies));
    forall t ensures (t in PolicyGroups(policies) <==> exists i :: 0 <= i < |policies| && PolicyTable(policies[i]) == Some(t))
      && (t in PolicyGroups(policies) ==> PolicyGroups(policies)[t] == PoliciesOn(policies, t))
    {
      PolicyPairsValues(policies, t);
      PolicyPairsTables(policies, t);
    }
  }

  /* The lines of the groups in the given table order: a heading, the
     group's policies, a blank line. */
  function GroupLines(groups: map<string, seq<string>>, order: seq<string>): seq<string>
    requires forall i :: 0 <= i < |order| ==> order[i] in groups
  {
    if order == [] then []
    else
      var t := order[|order| - 1];
      GroupLines(groups, order[..|order| - 1]) + (["-- Policies for: " + t] + groups[t] + [""])
  }

  // ---------------------------------------------------------------------------
  // Sections

  /* A section listing one line per name, in name order. */
  ghost function NameSection(title: string, names: set<string>, prefix: string, suffix: string): seq<string>
  {
    Banner(title) + NameLines(SortedOf(names), prefix, suffix) + [""]
  }

  /* A section listing the definitions of a dictionary in name order. */
  ghost function DefinitionSection(title: string, kind: string, m: map<string, string>): seq<string>
  {
    Banner(title) + EntryLines(kind, SortedItems(m))
  }

  /* A section listing statements with `IF NOT EXISTS` duplicates dropped. */
  function StatementSection(title: string, statements: seq<string>): seq<string>
  {
    Banner(title) + FirstByKey(statements, Normalize) + [""]
  }

  ghost function TableSection(tables: map<string, string>): seq<string>
  {
    Banner("TABLES") + EntryLines("Table", TableOrderAsWritten(tables))
  }

  ghost function PolicySection(policies: seq<string>): seq<string>
  {
    var groups := PolicyGroups(policies);
    Banner("ROW LEVEL SECURITY POLICIES") + GroupLines(groups, SortedOf(groups.Keys))
  }

  /* The rendered lines, section by section in their fixed order. */
  ghost function SchemaLines(s: Schema): seq<string>
  {
    Preamble
    + ObjectSections(s.extensions, s.tables, s.indexes, s.functions, s.triggers)
    + AccessSections(s.rlsEnabled, s.policies, s.views, s.realtimeTables)
    + Closing
  }

  /* The sections creating the schema's objects. */
  ghost function ObjectSections(extensions: set<string>, tables: map<string, string>, indexes: seq<string>,
                                functions: map<string, string>, triggers: seq<string>): seq<string>
  {
    NameSection("EXTENSIONS", extensions, "CREATE EXTENSION IF NOT EXISTS \"", "\";")
    + TableSection(tables)
    + StatementSection("INDEXES", indexes)
    + DefinitionSection("FUNCTIONS", "Function", functions)
    + StatementSection("TRIGGERS", triggers)
  }

  /* The sections on row level security, views and realtime. */
  ghost function AccessSections(rlsEnabled: set<string>, policies: seq<string>, views: map<string, string>,
                                realtimeTables: set<string>): seq<string>
  {
    NameSection("ENABLE ROW LEVEL SECURITY", rlsEnabled, "ALTER TABLE public.", " ENABLE ROW LEVEL SECURITY;")
    + PolicySection(policies)
    + DefinitionSection("VIEWS", "View", views)
    + NameSection("ENABLE REALTIME", realtimeTables, "ALTER PUBLICATION supabase_realtime ADD TABLE public.", ";")
  }

  /** Every statement kept in the INDEXES or TRIGGERS section is the first
      of the input with its normal form: the section is the input with later
      statements that differ only in `IF NOT EXISTS` (or repeat an earlier
      one outright) removed, in input order; no two kept statements share a
      normal form, and every normal form of the input is kept. */
  lemma StatementSectionKeepsFirstOccurrences(statements: seq<string>) returns (idx: seq<nat>)
    ensures |idx| == |FirstByKey(statements, Normalize)|
    ensures forall k :: 0 <= k < |idx| ==>
              idx[k] < |statements| && FirstByKey(statements, Normalize)[k] == statements[idx[k]]
    ensures forall k, l :: 0 <= k < l < |idx| ==> idx[k] < idx[l]
    ensures forall i :: 0 <= i < |statements| ==> (i in idx <==> IsFirst(statements, Normalize, i))
    ensures forall k, l :: 0 <= k < l < |FirstByKey(statements, Normalize)| ==>
              Normalize(FirstByKey(statements, Normalize)[k]) != Normalize(FirstByKey(statements, Normalize)[l])
    ensures KeysOf(FirstByKey(statements, Normalize), Normalize) == KeysOf(statements, Normalize)
  {
    idx := FirstByKeyPicksFirsts(statements, Normalize);
    FirstByKeyDistinct(statements, Normalize);
    FirstByKeyKeys(statements, Normalize);
  }

  // ---------------------------------------------------------------------------
  // The script

  class Consolidator {
    var tables: map<string, string>
    var indexes: seq<string>
    var policies: seq<string>
    var functions: map<string, string>
    var triggers: seq<string>
    var views: map<string, string>
    var extensions: set<string>
    var rlsEnabled: set<string>
    var realtimeTables: set<string>

    function State(): Schema
      reads this
    {
      Schema(tables, indexes, policies, functions, triggers, views, extensions, rlsEnabled, realtimeTables)
    }

    /* The collections at import time: all empty. */
    constructor ()
      ensures State() == EmptySchema
    {
      tables, indexes, policies := map[], [], [];
      functions, triggers, views := map[], [], map[];
      extensions, rlsEnabled, realtimeTables := {}, {}, {};
    }

    /** `parse_migration_file` */
    method ParseMigrationFile(f: MigrationMatches)
      modifies this
      ensures tables == old(tables) + Definitions(f.tables)
      ensures indexes == old(indexes) + f.indexes
      ensures policies == old(policies) + f.policies
      ensures functions == old(functions) + Definitions(f.functions)
      ensures triggers == old(triggers) + f.triggers
      ensures views == old(views) + Definitions(f.views)
      ensures extensions == old(extensions) + Names(f.extensions)
      ensures rlsEnabled == old(rlsEnabled) + Names(f.rlsTables)
      ensures realtimeTables == old(realtimeTables) + Names(f.realtimeTables)
      ensures State() == Merge(old(State()), f)
    {
      UpdateDefinitions(f);
      ExtendStatements(f);
      AddNames(f);
    }

    /* The `tables.update(...)`, `functions.update(...)` and
       `views.update(...)` of `parse_migration_file`. */
    method UpdateDefinitions(f: MigrationMatches)
      modifies this`tables, this`functions, this`views
      ensures tables == old(tables) + Definitions(f.tables)
      ensures functions == old(functions) + Definitions(f.functions)
      ensures views == old(views) + Definitions(f.views)
    {
      var fileTables := ExtractDefinitions(f.tables);
      var fileFunctions := ExtractDefinitions(f.functions);
      var fileViews := ExtractDefinitions(f.views);
      tables, functions, views := tables + fileTables, functions + fileFunctions, views + fileViews;
    }

    /* The `extend(...)` calls of `parse_migration_file`. */
    method ExtendStatements(f: MigrationMatches)
      modifies this`indexes, this`policies, this`triggers
      ensures indexes == old(indexes) + f.indexes
      ensures policies == old(policies) + f.policies
      ensures triggers == old(triggers) + f.triggers
    {
      indexes, policies, triggers := indexes + f.indexes, policies + f.policies, triggers + f.triggers;
    }

    /* The set `update(...)` calls of `parse_migration_file`. */
    method AddNames(f: MigrationMatches)
      modifies this`extensions, this`rlsEnabled, this`realtimeTables
      ensures extensions == old(extensions) + Names(f.extensions)
      ensures rlsEnabled == old(rlsEnabled) + Names(f.rlsTables)
      ensures realtimeTables == old(realtimeTables) + Names(f.realtimeTables)
    {
      var fileExtensions := ExtractNames(f.extensions);
      var fileRls := ExtractNames(f.rlsTables);
      var fileRealtime := ExtractNames(f.realtimeTables);
      extensions, rlsEnabled, realtimeTables :=
        extensions + fileExtensions, rlsEnabled + fileRls, realtimeTables + fileRealtime;
    }

    /** `generate_consolidated_schema`: the rendered lines joined by
        newlines; `users` is popped from the table dictionary on the way. */
    method GenerateConsolidatedSchema() returns (text: string)
      modifies this`tables
      ensures text == Join(SchemaLines(old(State())), "\n")
      ensures tables == if "users" in old(tables) then old(tables) - {"users"} else old(tables)
    {
      var objects, rest := ObjectSectionsOf(extensions, tables, indexes, functions, triggers);
      tables := rest;
      var access := AccessSectionsOf(rlsEnabled, policies, views, realtimeTables);
      text := Join(Preamble + objects + access + Closing, "\n");
    }
  }

  /** The first five sections of `generate_consolidated_schema`; the table
      dictionary after `users` is popped is returned as well. */
  method ObjectSectionsOf(extensions: set<string>, tables: map<string, string>, indexes: seq<string>,
                          functions: map<string, string>, triggers: seq<string>)
    returns (lines: seq<string>, rest: map<string, string>)
    ensures lines == ObjectSections(extensions, tables, indexes, functions, triggers)
    ensures rest == if "users" in tables then tables - {"users"} else tables
  {
    lines := NameSectionOf("EXTENSIONS", extensions, "CREATE EXTENSION IF NOT EXISTS \"", "\";");
    var section;
    section, rest := TableSectionOf(tables);
    lines := lines + section;
    section := StatementSectionOf("INDEXES", indexes);
    lines := lines + section;
    section := DefinitionSectionOf("FUNCTIONS", "Function", functions);
    lines := lines + section;
    section := StatementSectionOf("TRIGGERS", triggers);
    lines := lines + section;
  }

  /** The last four sections of `generate_consolidated_schema`. */
  method AccessSectionsOf(rlsEnabled: set<string>, policies: seq<string>, views: map<string, string>,
                          realtimeTables: set<string>) returns (lines: seq<string>)
    ensures lines == AccessSections(rlsEnabled, policies, views, realtimeTables)
  {
    lines := NameSectionOf("ENABLE ROW LEVEL SECURITY", rlsEnabled, "ALTER TABLE public.", " ENABLE ROW LEVEL SECURITY;");
    var section := PolicySectionOf(policies);
    lines := lines + section;
    section := DefinitionSectionOf("VIEWS", "View", views);
    lines := lines + section;
    section := NameSectionOf("ENABLE REALTIME", realtimeTables, "ALTER PUBLICATION supabase_realtime ADD TABLE public.", ";");
    lines := lines + section;
  }

  /** The TABLES section: the items are sorted first; then, when a `users`
      table exists, it is popped from the dictionary and put in front of
      the sorted items, which still hold it. The dictionary after the pop
      is returned as well. */
  method TableSectionOf(tables: map<string, string>) returns (lines: seq<string>, rest: map<string, string>)
    ensures lines == TableSection(tables)
    ensures rest == if "users" in tables then tables - {"users"} else tables
  {
    var sortedTables := SortedItemsOf(tables);
    rest := tables;
    if "users" in rest {
      var usersDefinition := rest["users"];
      rest := rest - {"users"};
      sortedTables := [("users", usersDefinition)] + sortedTables;
      assert sortedTables == TableOrderAsWritten(tables);
    } else {
      assert sortedTables == [] + SortedItems(tables);
    }
    lines := EntryLinesOf("Table", sortedTables);
    lines := Banner("TABLES") + lines;
  }

  /** `sorted(m.items())` */
  method SortedItemsOf(m: map<string, string>) returns (items: seq<(string, string)>)
    ensures items == SortedItems(m)
  {
    var names := SortStrings(m.Keys);
    items := Items(m, names);
  }

  /** The loop `for name in sorted(...): output.append(f"...{name}...")`. */
  method NameLinesOf(names: seq<string>, prefix: string, suffix: string) returns (lines: seq<string>)
    ensures lines == NameLines(names, prefix, suffix)
  {
    lines := [];
    for i := 0 to |names|
      invariant lines == NameLines(names[..i], prefix, suffix)
    {
      assert names[..i + 1][..i] == names[..i];
      lines := lines + [prefix + names[i] + suffix];
    }
    assert names[..|names|] == names;
  }

  lemma {:induction false} NameLinesAt(names: seq<string>, prefix: string, suffix: string)
    ensures forall i :: 0 <= i < |names| ==> NameLines(names, prefix, suffix)[i] == prefix + names[i] + suffix
  {
    if names != [] {
      NameLinesAt(names[..|names| - 1], prefix, suffix);
    }
  }

  /** A section of one line per name, the names sorted first: the
      extensions, RLS and realtime sections. */
  method NameSectionOf(title: string, names: set<string>, prefix: string, suffix: string) returns (lines: seq<string>)
    ensures lines == NameSection(title, names, prefix, suffix)
  {
    var sorted := SortStrings(names);
    lines := NameLinesOf(sorted, prefix, suffix);
    lines := Banner(title) + lines + [""];
  }

  /** The loop `for name, definition in items: output.append(...)` emitting
      a heading, the definition and a blank line per entry. */
  method EntryLinesOf(kind: string, items: seq<(string, string)>) returns (lines: seq<string>)
    ensures lines == EntryLines(kind, items)
  {
    lines := [];
    for i := 0 to |items|
      invariant lines == EntryLines(kind, items[..i])
    {
      assert items[..i + 1][..i] == items[..i];
      lines := lines + ["-- " + kind + ": " + items[i].0, items[i].1, ""];
    }
    assert items[..|items|] == items;
  }

  lemma {:induction false} EntryLinesAt(kind: string, items: seq<(string, string)>)
    ensures forall i :: 0 <= i < |items| ==>
              && EntryLines(kind, items)[3 * i] == "-- " + kind + ": " + items[i].0
              && EntryLines(kind, items)[3 * i + 1] == items[i].1
              && EntryLines(kind, items)[3 * i + 2] == ""
  {
    if items != [] {
      EntryLinesAt(kind, items[..|items| - 1]);
    }
  }

  /** The functions and views sections: the definitions in name order. */
  method DefinitionSectionOf(title: string, kind: string, m: map<string, string>) returns (lines: seq<string>)
    ensures lines == DefinitionSection(title, kind, m)
  {
    var names := SortStrings(m.Keys);
    lines := EntryLinesOf(kind, Items(m, names));
    lines := Banner(title) + lines;
  }

  /** The indexes and triggers sections: the statements with later
      `IF NOT EXISTS` variants of an earlier one dropped. */
  method StatementSectionOf(title: string, statements: seq<string>) returns (lines: seq<string>)
    ensures lines == StatementSection(title, statements)
  {
    lines := DeduplicateByKey(statements, Normalize);
    lines := Banner(title) + lines + [""];
  }

  /** The policies section: group the policies by table, then emit the
      groups in table order. */
  method PolicySectionOf(policies: seq<string>) returns (lines: seq<string>)
    ensures lines == PolicySection(policies)
  {
    var byTable := GroupPolicies(policies);
    var order := SortStrings(byTable.Keys);
    lines := GroupLinesOf(byTable, order);
    lines := Banner("ROW LEVEL SECURITY POLICIES") + lines;
  }

  /** The loop emitting each table's policies under a heading. */
  method GroupLinesOf(groups: map<string, seq<string>>, order: seq<string>) returns (lines: seq<string>)
    requires forall i :: 0 <= i < |order| ==> order[i] in groups
    ensures lines == GroupLines(groups, order)
  {
    lines := [];
    for i := 0 to |order|
      invariant lines == GroupLines(groups, order[..i])
    {
      assert order[..i + 1][..i] == order[..i];
      var t := order[i];
      lines := lines + (["-- Policies for: " + t] + groups[t] + [""]);
    }
    assert order[..|order|] == order;
  }

  /** The `policies_by_table` loop. */
  method GroupPolicies(policies: seq<string>) returns (byTable: map<string, seq<string>>)
    ensures byTable == PolicyGroups(policies)
  {
    byTable := map[];
    for i := 0 to |policies|
      invariant byTable == PolicyGroups(policies[..i])
    {
      assert policies[..i + 1] == policies[..i] + [policies[i]];
      PolicyPairsSnoc(policies[..i], policies[i]);
      var found := PolicyTable(policies[i]);
      if found.Some? {
        var t := found.value;
        assert PolicyPairs(policies[..i + 1]) == PolicyPairs(policies[..i]) + [(t, policies[i])];
        GroupedSnoc(PolicyPairs(policies[..i]), (t, policies[i]));
        byTable := byTable[t := (if t in byTable then byTable[t] else []) + [policies[i]]];
      } else {
        assert PolicyPairs(policies[..i + 1]) == PolicyPairs(policies[..i]);
      }
    }
    assert policies[..|policies|] == policies;
  }

  /* The migration files of a directory in name order. */
  ghost function FilesInOrder(dir: map<string, MigrationMatches>): (r: seq<MigrationMatches>)
    ensures |r| == |dir|
  {
    var names := SortedOf(dir.Keys);
    assert |dir.Keys| == |dir|;
    seq(|names|, i requires 0 <= i < |names| => dir[names[i]])
  }

  lemma MergeAllStep(files: seq<MigrationMatches>, i: nat)
    requires i < |files|
    ensures MergeAll(EmptySchema, files[..i + 1]) == Merge(MergeAll(EmptySchema, files[..i]), files[i])
  {
    assert files[..i + 1][..i] == files[..i];
  }

  /** `sorted(MIGRATIONS_DIR.glob("*.sql"))`: the files in name order. */
  method SortedFiles(dir: map<string, MigrationMatches>) returns (files: seq<MigrationMatches>)
    ensures files == FilesInOrder(dir)
  {
    var names := SortStrings(dir.Keys);
    files := seq(|names|, i requires 0 <= i < |names| => dir[names[i]]);
  }

  /** The loop of `main` parsing every migration file in order into fresh
      collections. */
  method ParseAll(files: seq<MigrationMatches>) returns (c: Consolidator)
    ensures fresh(c)
    ensures c.State() == MergeAll(EmptySchema, files)
  {
    c := new Consolidator();
    for i := 0 to |files|
      invariant c.State() == MergeAll(EmptySchema, files[..i])
    {
      MergeAllStep(files, i);
      c.ParseMigrationFile(files[i]);
    }
    assert files[..|files|] == files;
  }

  /** `main`: nothing is written when the migrations directory is missing;
      otherwise the files are parsed in name order and the consolidated
      text is produced. */
  method ConsolidateMigrations(directory: Option<map<string, MigrationMatches>>) returns (text: Option<string>)
    ensures directory.None? ==> text.None?
    ensures directory.Some? ==> text == Some(Join(SchemaLines(MergeAll(EmptySchema, FilesInOrder(directory.value))), "\n"))
  {
    if directory.None? {
      return None;
    }
    var files := SortedFiles(directory.value);
    var c := ParseAll(files);
    var consolidated := c.GenerateConsolidatedSchema();
    text := Some(consolidated);
  }
}
