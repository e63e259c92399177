/** The inventory of tracked modules: one class per path, from the merged profile. */
module ModuleInventory {
  import opened ProfileMerge
  import opened PyText
  import opened RouteLists
  import opened Sums

  datatype Class = BROKEN | USED | PARTIAL | UNUSED

  datatype ModuleRecord = ModuleRecord(path: string, classification: Class, calls: int, imported: bool)

  /** `path.replace("\\", "/")` */
  function Slashed(path: string): (r: string)
    ensures |r| == |path|
    ensures forall k :: 0 <= k < |path| ==> r[k] == if path[k] == '\\' then '/' else path[k]
  {
    if path == "" then "" else [if path[0] == '\\' then '/' else path[0]] + Slashed(path[1..])
  }

  function Names(exceptions: seq<seq<string>>): set<string> {
    set files, f | files in exceptions && f in files :: Slashed(f)
  }

  predicate HasExceptions(m: map<string, Item>, path: string) { path in m && m[path].exceptions != [] }

  predicate Broken(m: map<string, Item>, exceptions: seq<seq<string>>, path: string) {
    path in Names(exceptions) || HasExceptions(m, path)
  }

  function Classify(m: map<string, Item>, exceptions: seq<seq<string>>, forced: set<string>, path: string): Class {
    if Broken(m, exceptions, path) then BROKEN
    else if path in forced then USED
    else if path in m && m[path].calls > 0 then USED
    else if path in m && m[path].imported then PARTIAL
    else UNUSED
  }

  function RecordOf(m: map<string, Item>, exceptions: seq<seq<string>>, forced: set<string>, path: string)
    : ModuleRecord
  {
    ModuleRecord(path, Classify(m, exceptions, forced, path), ItemAt(m, path).calls, ItemAt(m, path).imported)
  }

  // ----- The loops -----

  method BrokenPaths(m: map<string, Item>, exceptions: seq<seq<string>>) returns (broken: set<string>)
    requires forall p :: p in m ==> m[p].path == p
    ensures forall p :: p in broken <==> Broken(m, exceptions, p)
  {
    broken := {};
    for i := 0 to |exceptions|
      invariant broken == Names(exceptions[..i])
    {
      assert forall files :: files in exceptions[..i + 1] <==> files in exceptions[..i] || files == exceptions[i];
      broken := broken + set f | f in exceptions[i] :: Slashed(f);
    }
    assert exceptions[..|exceptions|] == exceptions;
    var rest := m.Keys;
    while rest != {}
      invariant rest <= m.Keys
      invariant forall p :: p in broken <==> p in Names(exceptions) || (p !in rest && HasExceptions(m, p))
      decreases rest
    {
      var p :| p in rest;
      if m[p].exceptions != [] {
        broken := broken + {m[p].path};
      }
      rest := rest - {p};
    }
  }

  function CountClass(records: seq<ModuleRecord>, c: Class): nat {
    CountIf(records, (r: ModuleRecord) => r.classification == c)
  }

  /** The counts of a summary, absent classes counting zero. */
  ghost predicate Summarizes(summary: map<Class, nat>, records: seq<ModuleRecord>) {
    forall c :: CountClass(records, c) == if c in summary then summary[c] else 0
  }

  method ClassifyPath(m: map<string, Item>, ghost exceptions: seq<seq<string>>, forced: set<string>,
                      broken: set<string>, relative: string) returns (record: ModuleRecord)
    requires relative in broken <==> Broken(m, exceptions, relative)
    ensures record == RecordOf(m, exceptions, forced, relative)
  {
    var item := ItemAt(m, relative);
    var classification: Class;
    if relative in broken {
      classification := BROKEN;
    } else if relative in forced {
      classification := USED;
    } else if item.calls > 0 {
      classification := USED;
    } else if item.imported {
      classification := PARTIAL;
    } else {
      classification := UNUSED;
    }
    record := ModuleRecord(relative, classification, item.calls, item.imported);
  }

  method BuildRecords(m: map<string, Item>, ghost exceptions: seq<seq<string>>, forced: set<string>,
                      broken: set<string>, paths: seq<string>)
    returns (records: seq<ModuleRecord>, summary: map<Class, nat>)
    requires forall p :: p in broken <==> Broken(m, exceptions, p)
    ensures |records| == |paths|
    ensures forall k :: 0 <= k < |paths| ==> records[k] == RecordOf(m, exceptions, forced, paths[k])
    ensures Summarizes(summary, records)
  {
    records, summary := [], map[];
    for i := 0 to |paths|
      invariant |records| == i
      invariant forall k :: 0 <= k < i ==> records[k] == RecordOf(m, exceptions, forced, paths[k])
      invariant Summarizes(summary, records)
    {
      var record := ClassifyPath(m, exceptions, forced, broken, paths[i]);
      var c := record.classification;
      CountSnoc(records, record);
      records := records + [record];
      summary := summary[c := (if c in summary then summary[c] else 0) + 1];
    }
  }

  lemma CountSnoc(records: seq<ModuleRecord>, record: ModuleRecord)
    ensures forall c :: CountClass(records + [record], c) ==
                        CountClass(records, c) + (if record.classification == c then 1 else 0)
  {
    forall c ensures CountClass(records + [record], c) ==
                     CountClass(records, c) + (if record.classification == c then 1 else 0)
    {
      CountIfSnoc(records, record, (r: ModuleRecord) => r.classification == c);
    }
  }

  /** One record per tracked path, in path order, and class counts that add up to their number. */
  method Inventory(m: map<string, Item>, exceptions: seq<seq<string>>, forced: set<string>, tracked: set<string>)
    returns (records: seq<ModuleRecord>, summary: map<Class, nat>)
    requires forall p :: p in m ==> m[p].path == p
    ensures forall k :: 0 <= k < |records| ==>
              records[k].path in tracked && records[k] == RecordOf(m, exceptions, forced, records[k].path)
    ensures forall i, j :: 0 <= i < j < |records| ==>
              TextLeq(records[i].path, records[j].path) && records[i].path != records[j].path
    ensures |records| == |tracked|
    ensures Summarizes(summary, records)
    ensures CountClass(records, BROKEN) + CountClass(records, USED) + CountClass(records, PARTIAL) +
            CountClass(records, UNUSED) == |tracked|
  {
    var broken := BrokenPaths(m, exceptions);
    var paths := SortedPaths(tracked);
    records, summary := BuildRecords(m, exceptions, forced, broken, paths);
    ClassesPartition(records);
  }

  /** Every record is in exactly one class. */
  lemma {:induction false} ClassesPartition(records: seq<ModuleRecord>)
    ensures CountClass(records, BROKEN) + CountClass(records, USED) + CountClass(records, PARTIAL) +
            CountClass(records, UNUSED) == |records|
  {
    if records == [] {
    } else {
      ClassesPartition(records[..|records| - 1]);
    }
  }

  // ----- The class, from the profile files alone -----

  /** Some process names the module in an unhandled exception, or a record of it holds one. */
  ghost predicate SeenBroken(files: seq<Profile>, path: string) {
    || (exists p, e, f :: p in files && e in p.exceptions && f in e && Slashed(f) == path)
    || (EndsWith(path, ".py") &&
        exists p, r :: p in files && r in p.records && r.path == path && r.exceptions != [])
  }

  /** All calls the records of the module count, over all processes. */
  function AllCalls(files: seq<Profile>, path: string): int { SumBy(Flatten(files), r => CallsAt(r, path)) }

  ghost predicate SeenImported(files: seq<Profile>, path: string) {
    EndsWith(path, ".py") && exists p, r :: p in files && r in p.records && r.path == path && r.imported
  }

  lemma RecordsOfFiles(files: seq<Profile>)
    ensures forall r :: r in Flatten(files) <==> exists p :: p in files && r in p.records
    ensures forall e :: e in AllExceptions(files) <==> exists p :: p in files && e in p.exceptions
  {
    forall r ensures r in Flatten(files) <==> exists p :: p in files && r in p.records {
      FlatMapMembers(files, (p: Profile) => p.records, r);
    }
    forall e ensures e in AllExceptions(files) <==> exists p :: p in files && e in p.exceptions {
      FlatMapMembers(files, (p: Profile) => p.exceptions, e);
    }
  }

  lemma BrokenIsSeen(files: seq<Profile>, path: string)
    ensures Broken(Merged(Flatten(files)), AllExceptions(files), path) <==> SeenBroken(files, path)
  {
    RecordsOfFiles(files);
    ExceptionsFromRecords(Flatten(files), path);
  }

  lemma CallsAndImports(files: seq<Profile>, path: string)
    ensures var m := Merged(Flatten(files));
            && (path in m && m[path].calls > 0 <==> AllCalls(files, path) > 0)
            && (path in m && m[path].imported <==> SeenImported(files, path))
  {
    RecordsOfFiles(files);
    MergeRepresents(Flatten(files), path);
    if path !in Merged(Flatten(files)) {
      NoRecordsNoCalls(Flatten(files), path, "");
    }
  }

  /**
   The class of a module: broken when seen in an exception; used when forced or called at all;
   partial when only imported; unused without any of these.
   */
  lemma ClassFromFiles(files: seq<Profile>, forced: set<string>, path: string)
    ensures var c := Classify(Merged(Flatten(files)), AllExceptions(files), forced, path);
            var used := path in forced || AllCalls(files, path) > 0;
            && (c == BROKEN <==> SeenBroken(files, path))
            && (c == USED <==> !SeenBroken(files, path) && used)
            && (c == PARTIAL <==> !SeenBroken(files, path) && !used && SeenImported(files, path))
  {
    BrokenIsSeen(files, path);
    CallsAndImports(files, path);
  }

  /** The calls and the import flag of an inventory record, from the profile files alone. */
  lemma RecordFromFiles(files: seq<Profile>, forced: set<string>, path: string)
    ensures var r := RecordOf(Merged(Flatten(files)), AllExceptions(files), forced, path);
            r.path == path && r.calls == AllCalls(files, path) && (r.imported <==> SeenImported(files, path))
  {
    CallsAndImports(files, path);
    MergeRepresents(Flatten(files), path);
    if path !in Merged(Flatten(files)) {
      RecordsOfFiles(files);
      NoRecordsNoCalls(Flatten(files), path, "");
    }
  }

  // ----- More evidence never demotes -----

  function Rank(c: Class): int {
    match c
    case UNUSED => 0
    case PARTIAL => 1
    case USED => 2
    case BROKEN => 3
  }

  /** A profile without exceptions and with no negative count. */
  predicate CleanProfile(g: Profile) {
    g.exceptions == [] && forall r :: r in g.records ==> r.exceptions == [] && r.calls >= 0
  }

  lemma ExceptionsFromRecords(records: seq<Raw>, path: string)
    ensures HasExceptions(Merged(records), path) <==>
              IsPython(path) && exists r :: r in records && r.path == path && r.exceptions != []
  {
    var m := Merged(records);
    MergeRepresents(records, path);
    if HasExceptions(m, path) {
      assert m[path].exceptions[0] in m[path].exceptions;
    }
    forall r | r in records && r.path == path && r.exceptions != [] && IsPython(path) ensures HasExceptions(m, path) {
      assert r.exceptions[0] in m[path].exceptions;
    }
  }

  lemma MoreRecordsMoreEvidence(records: seq<Raw>, more: seq<Raw>, path: string)
    requires forall r :: r in more ==> r.exceptions == [] && r.calls >= 0
    ensures HasExceptions(Merged(records + more), path) <==> HasExceptions(Merged(records), path)
    ensures path in Merged(records) ==>
              && path in Merged(records + more)
              && Merged(records)[path].calls <= Merged(records + more)[path].calls
              && (Merged(records)[path].imported ==> Merged(records + more)[path].imported)
  {
    ExceptionsFromRecords(records, path);
    ExceptionsFromRecords(records + more, path);
    MergeRepresents(records, path);
    MergeRepresents(records + more, path);
    SumByConcat(records, more, r => CallsAt(r, path));
    SumByNonNegative(more, r => CallsAt(r, path));
    assert forall r :: r in records + more <==> r in records || r in more;
  }

  /**
   Adding the profile of a process without exceptions never moves a module down the order UNUSED,
   PARTIAL, USED, and neither breaks nor repairs one.
   */
  lemma CleanProfileNeverDemotes(files: seq<Profile>, g: Profile, forced: set<string>, path: string)
    requires CleanProfile(g)
    ensures var before := Classify(Merged(Flatten(files)), AllExceptions(files), forced, path);
            var after := Classify(Merged(Flatten(files + [g])), AllExceptions(files + [g]), forced, path);
            (before == BROKEN <==> after == BROKEN) && Rank(before) <= Rank(after)
  {
    assert (files + [g])[..|files|] == files;
    assert AllExceptions(files + [g]) == AllExceptions(files);
    MoreRecordsMoreEvidence(Flatten(files), g.records, path);
  }

  // ----- The order of the files does not matter -----

  /** The class of every module is the same for any order of the profile files. */
  lemma ClassOrderIndependent(xs: seq<Profile>, ys: seq<Profile>, forced: set<string>, path: string)
    requires multiset(xs) == multiset(ys)
    ensures Classify(Merged(Flatten(xs)), AllExceptions(xs), forced, path) ==
            Classify(Merged(Flatten(ys)), AllExceptions(ys), forced, path)
  {
    MergeOrderIndependent(xs, ys);
    PermutationFacts(AllExceptions(xs), AllExceptions(ys));
    assert Names(AllExceptions(xs)) == Names(AllExceptions(ys));
    var a, b := Merged(Flatten(xs)), Merged(Flatten(ys));
    if path in a {
      assert SameFacts(a[path], b[path]);
      assert |multiset(a[path].exceptions)| == |multiset(b[path].exceptions)|;
    }
  }
}
