/**
 Merging the module profiles of the processes of a run: one item per Python path, with added
 calls and function counts, joined import flags and concatenated exceptions.
 */
module ProfileMerge {
  import opened PyText
  import opened RouteLists
  import opened Sums

  /** One record of one profile file; absent counts read as zero. */
  datatype Raw = Raw(path: string, imported: bool, calls: int, functions: map<string, int>, exceptions: seq<string>)

  /** A profile file: its records and, per unhandled exception of the process, the files involved. */
  datatype Profile = Profile(records: seq<Raw>, exceptions: seq<seq<string>>)

  datatype Item = Item(path: string, imported: bool, calls: int, functions: map<string, int>, exceptions: seq<string>)

  predicate IsPython(path: string) { EndsWith(path, ".py") }

  function CountOf(functions: map<string, int>, f: string): int {
    if f in functions then functions[f] else 0
  }

  // ----- Absorbing one record -----

  function AddCounts(a: map<string, int>, b: map<string, int>): (r: map<string, int>)
    ensures r.Keys == a.Keys + b.Keys
    ensures forall f :: CountOf(r, f) == CountOf(a, f) + CountOf(b, f)
  {
    map f | f in a.Keys + b.Keys :: CountOf(a, f) + CountOf(b, f)
  }

  /** `merged.setdefault(relative, ...)` */
  function ItemAt(m: map<string, Item>, path: string): Item {
    if path in m then m[path] else Item(path, false, 0, map[], [])
  }

  function Absorb(m: map<string, Item>, r: Raw): map<string, Item> {
    if !IsPython(r.path) then m
    else
      var item := ItemAt(m, r.path);
      m[r.path := Item(item.path, item.imported || r.imported, item.calls + r.calls,
                       AddCounts(item.functions, r.functions), item.exceptions + r.exceptions)]
  }

  function Merged(records: seq<Raw>): map<string, Item> {
    if records == [] then map[] else Absorb(Merged(records[..|records| - 1]), records[|records| - 1])
  }

  /** The records of all files, one after the other. */
  function Flatten(files: seq<Profile>): seq<Raw> { FlatMap(files, (p: Profile) => p.records) }

  function AllExceptions(files: seq<Profile>): seq<seq<string>> { FlatMap(files, (p: Profile) => p.exceptions) }

  // ----- The loops -----

  method AddFunctions(functions: map<string, int>, more: map<string, int>) returns (r: map<string, int>)
    ensures r == AddCounts(functions, more)
  {
    r := functions;
    var rest := more.Keys;
    while rest != {}
      invariant rest <= more.Keys
      invariant r.Keys == functions.Keys + (more.Keys - rest)
      invariant forall f :: CountOf(r, f) == CountOf(functions, f) + (if f in rest then 0 else CountOf(more, f))
      decreases rest
    {
      var f :| f in rest;
      r := r[f := CountOf(r, f) + more[f]];
      rest := rest - {f};
    }
    assert forall f :: f in r ==> r[f] == CountOf(r, f);
  }

  method AbsorbRecord(m: map<string, Item>, raw: Raw) returns (r: map<string, Item>)
    ensures r == Absorb(m, raw)
  {
    r := m;
    if !IsPython(raw.path) {
      return;
    }
    var item := ItemAt(m, raw.path);
    item := item.(imported := item.imported || raw.imported);
    item := item.(calls := item.calls + raw.calls);
    var functions := AddFunctions(item.functions, raw.functions);
    item := item.(functions := functions);
    item := item.(exceptions := item.exceptions + raw.exceptions);
    r := m[raw.path := item];
  }

  method MergeFile(m: map<string, Item>, ghost before: seq<Raw>, records: seq<Raw>) returns (merged: map<string, Item>)
    requires m == Merged(before)
    ensures merged == Merged(before + records)
  {
    merged := m;
    assert before + records[..0] == before;
    for j := 0 to |records|
      invariant merged == Merged(before + records[..j])
    {
      assert (before + records[..j + 1])[..|before| + j] == before + records[..j];
      merged := AbsorbRecord(merged, records[j]);
    }
    assert records[..|records|] == records;
  }

  /** `sorted(merged.values(), key=lambda item: item["path"])` */
  method InPathOrder(m: map<string, Item>) returns (records: seq<Item>)
    requires forall p :: p in m ==> m[p].path == p
    ensures |records| == |m.Keys|
    ensures forall k :: 0 <= k < |records| ==> records[k].path in m && records[k] == m[records[k].path]
    ensures forall i, j :: 0 <= i < j < |records| ==>
              TextLeq(records[i].path, records[j].path) && records[i].path != records[j].path
  {
    var paths := SortedPaths(m.Keys);
    records := [];
    for i := 0 to |paths|
      invariant |records| == i && forall k :: 0 <= k < i ==> records[k] == m[paths[k]]
    {
      records := records + [m[paths[i]]];
    }
  }

  method MergeProfiles(files: seq<Profile>) returns (merged: map<string, Item>, exceptions: seq<seq<string>>)
    ensures merged == Merged(Flatten(files))
    ensures exceptions == AllExceptions(files)
  {
    merged, exceptions := map[], [];
    for i := 0 to |files|
      invariant merged == Merged(Flatten(files[..i]))
      invariant exceptions == AllExceptions(files[..i])
    {
      assert files[..i + 1][..i] == files[..i];
      exceptions := exceptions + files[i].exceptions;
      merged := MergeFile(merged, Flatten(files[..i]), files[i].records);
    }
    assert files[..|files|] == files;
  }

  // ----- Conservation -----

  function CallsAt(r: Raw, path: string): int { if IsPython(r.path) && r.path == path then r.calls else 0 }

  function CountAt(r: Raw, path: string, f: string): int {
    if IsPython(r.path) && r.path == path then CountOf(r.functions, f) else 0
  }

  function ExceptionsAt(r: Raw, path: string, e: string): int {
    if IsPython(r.path) && r.path == path then multiset(r.exceptions)[e] else 0
  }

  function CallsIn(records: seq<Raw>, path: string): int { SumBy(records, r => CallsAt(r, path)) }

  function CountIn(records: seq<Raw>, path: string, f: string): int { SumBy(records, r => CountAt(r, path, f)) }

  /** How often the records of `path` list the exception `e`. */
  function ExceptionsIn(records: seq<Raw>, path: string, e: string): int {
    SumBy(records, r => ExceptionsAt(r, path, e))
  }

  /** What the merged item at `path` must be, record by record and without any order. */
  ghost predicate Represents(m: map<string, Item>, records: seq<Raw>, path: string) {
    && (path in m <==> EndsWith(path, ".py") && exists r :: r in records && r.path == path)
    && (path in m ==>
          && m[path].path == path
          && m[path].calls == CallsIn(records, path)
          && (m[path].imported <==> exists r :: r in records && r.path == path && r.imported)
          && (forall f :: f in m[path].functions <==> exists r :: r in records && r.path == path && f in r.functions)
          && (forall f :: CountOf(m[path].functions, f) == CountIn(records, path, f))
          && (forall e :: e in m[path].exceptions <==> exists r :: r in records && r.path == path && e in r.exceptions)
          && (forall e :: multiset(m[path].exceptions)[e] == ExceptionsIn(records, path, e)))
  }

  lemma InSnoc(front: seq<Raw>, last: Raw, path: string, f: string)
    ensures CallsIn(front + [last], path) == CallsIn(front, path) + CallsAt(last, path)
    ensures CountIn(front + [last], path, f) == CountIn(front, path, f) + CountAt(last, path, f)
    ensures ExceptionsIn(front + [last], path, f) == ExceptionsIn(front, path, f) + ExceptionsAt(last, path, f)
  {
    assert (front + [last])[..|front|] == front;
  }

  lemma NoRecordsNoCalls(records: seq<Raw>, path: string, f: string)
    requires !IsPython(path) || forall r :: r in records ==> r.path != path
    ensures CallsIn(records, path) == 0 && CountIn(records, path, f) == 0 && ExceptionsIn(records, path, f) == 0
  {
    SumByZero(records, r => ExceptionsAt(r, path, f));
    SumByZero(records, r => CallsAt(r, path));
    SumByZero(records, r => CountAt(r, path, f));
  }

  lemma AbsorbRepresents(front: seq<Raw>, last: Raw, path: string)
    requires Represents(Merged(front), front, path)
    ensures Represents(Absorb(Merged(front), last), front + [last], path)
  {
    var m := Merged(front);
    InSnoc(front, last, path, "");
    if path !in m {
      NoRecordsNoCalls(front, path, "");
    }
    forall f: string
      ensures CountIn(front + [last], path, f) == CountIn(front, path, f) + CountAt(last, path, f)
      ensures ExceptionsIn(front + [last], path, f) == ExceptionsIn(front, path, f) + ExceptionsAt(last, path, f)
      ensures path !in m ==> CountIn(front, path, f) == 0 && ExceptionsIn(front, path, f) == 0
    {
      InSnoc(front, last, path, f);
      if path !in m {
        NoRecordsNoCalls(front, path, f);
      }
    }
    assert last in front + [last];
    assert forall r :: r in front + [last] <==> r in front || r == last;
  }

  /** The merged item of every path says exactly what the records of that path say together. */
  lemma {:induction false} MergeRepresents(records: seq<Raw>, path: string)
    ensures Represents(Merged(records), records, path)
  {
    if records == [] {
      assert CallsIn(records, path) == 0;
    } else {
      var front, last := records[..|records| - 1], records[|records| - 1];
      assert records == front + [last];
      MergeRepresents(front, path);
      AbsorbRepresents(front, last, path);
    }
  }

  // ----- Conservation -----

  /** All calls of Python records, whatever their path. */
  function PythonCalls(records: seq<Raw>): int { SumBy(records, (r: Raw) => if IsPython(r.path) then r.calls else 0) }

  ghost function TotalCalls(keys: set<string>, records: seq<Raw>): int { SumOver(keys, p => CallsIn(records, p)) }

  /** The items of the merged profile hold all calls of the Python records and no others. */
  lemma {:induction false} CallsConserved(records: seq<Raw>, keys: set<string>)
    requires forall r :: r in records && IsPython(r.path) ==> r.path in keys
    ensures TotalCalls(keys, records) == PythonCalls(records)
  {
    if records == [] {
      SumOverZero(keys, p => CallsIn(records, p));
    } else {
      var front, last := records[..|records| - 1], records[|records| - 1];
      assert records == front + [last];
      assert last in records && forall r :: r in front ==> r in records;
      CallsConserved(front, keys);
      forall p ensures CallsIn(records, p) == CallsIn(front, p) + CallsAt(last, p) {
        InSnoc(front, last, p, "");
      }
      if IsPython(last.path) {
        SumOverBump(keys, p => CallsIn(front, p), p => CallsIn(records, p), last.path, last.calls);
      } else {
        SumOverEqual(keys, p => CallsIn(front, p), p => CallsIn(records, p));
      }
    }
  }

  /** Conservation over the merged dictionary itself. */
  lemma MergeConservesCalls(records: seq<Raw>)
    ensures var m := Merged(records);
            SumOver(m.Keys, p => if p in m then m[p].calls else 0) == PythonCalls(records)
  {
    var m := Merged(records);
    forall r | r in records && IsPython(r.path) ensures r.path in m.Keys {
      MergeRepresents(records, r.path);
    }
    CallsConserved(records, m.Keys);
    forall p | p in m ensures m[p].calls == CallsIn(records, p) {
      MergeRepresents(records, p);
    }
    SumOverEqual(m.Keys, p => CallsIn(records, p), p => if p in m then m[p].calls else 0);
  }

  // ----- Order independence -----

  /** Two items that agree on everything but the order of their exceptions. */
  ghost predicate SameFacts(a: Item, b: Item) {
    && a.path == b.path && a.imported == b.imported && a.calls == b.calls && a.functions == b.functions
    && multiset(a.exceptions) == multiset(b.exceptions)
  }

  lemma SameRecordsSameTotals(xs: seq<Raw>, ys: seq<Raw>, path: string, f: string)
    requires multiset(xs) == multiset(ys)
    ensures CallsIn(xs, path) == CallsIn(ys, path) && CountIn(xs, path, f) == CountIn(ys, path, f)
    ensures ExceptionsIn(xs, path, f) == ExceptionsIn(ys, path, f)
  {
    SumByPermutation(xs, ys, r => ExceptionsAt(r, path, f));
    SumByPermutation(xs, ys, r => CallsAt(r, path));
    SumByPermutation(xs, ys, r => CountAt(r, path, f));
  }

  lemma SameCounts(a: map<string, int>, b: map<string, int>)
    requires a.Keys == b.Keys && forall f :: CountOf(a, f) == CountOf(b, f)
    ensures a == b
  {
    assert forall f :: f in a ==> a[f] == CountOf(a, f) && b[f] == CountOf(b, f);
  }

  lemma SameRepresented(m: map<string, Item>, n: map<string, Item>, xs: seq<Raw>, ys: seq<Raw>, path: string)
    requires (forall r :: r in xs <==> r in ys) && Represents(m, xs, path) && Represents(n, ys, path)
    requires CallsIn(xs, path) == CallsIn(ys, path)
    requires forall f :: CountIn(xs, path, f) == CountIn(ys, path, f)
    requires forall e :: ExceptionsIn(xs, path, e) == ExceptionsIn(ys, path, e)
    ensures path in m <==> path in n
    ensures path in m ==> SameFacts(m[path], n[path])
  {
    if path in m {
      assert m[path].functions.Keys == n[path].functions.Keys;
      SameCounts(m[path].functions, n[path].functions);
    }
  }

  lemma SameRecordsSameItem(xs: seq<Raw>, ys: seq<Raw>, path: string)
    requires multiset(xs) == multiset(ys)
    ensures path in Merged(xs) <==> path in Merged(ys)
    ensures path in Merged(xs) ==> SameFacts(Merged(xs)[path], Merged(ys)[path])
  {
    MergeRepresents(xs, path);
    MergeRepresents(ys, path);
    PermutationFacts(xs, ys);
    SameRecordsSameTotals(xs, ys, path, "");
    forall f: string
      ensures CountIn(xs, path, f) == CountIn(ys, path, f) && ExceptionsIn(xs, path, f) == ExceptionsIn(ys, path, f)
    {
      SameRecordsSameTotals(xs, ys, path, f);
    }
    SameRepresented(Merged(xs), Merged(ys), xs, ys, path);
  }

  /** The order in which the profile files are read makes no difference to any item or to the exceptions. */
  lemma MergeOrderIndependent(xs: seq<Profile>, ys: seq<Profile>)
    requires multiset(xs) == multiset(ys)
    ensures var a, b := Merged(Flatten(xs)), Merged(Flatten(ys));
            a.Keys == b.Keys && forall p :: p in a ==> SameFacts(a[p], b[p])
    ensures multiset(AllExceptions(xs)) == multiset(AllExceptions(ys))
  {
    FlatMapPermutation(xs, ys, (p: Profile) => p.records);
    FlatMapPermutation(xs, ys, (p: Profile) => p.exceptions);
    var a, b := Merged(Flatten(xs)), Merged(Flatten(ys));
    forall p ensures (p in a <==> p in b) && (p in a ==> SameFacts(a[p], b[p])) {
      SameRecordsSameItem(Flatten(xs), Flatten(ys), p);
    }
  }
}
