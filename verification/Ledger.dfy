/**
 The persistent ledger store: a dictionary of entries by id, the next id, and the JSON file that
 every accepted change rewrites.
 */
module Ledger {
  import opened Basics
  import opened LedgerHistory
  import opened PyText
  import Decimal

  /** The JSON document; keys are strings, and `next_id` may be missing. */
  datatype Document = Document(entries: map<string, Entry>, nextId: Option<int>)

  class Disk {
    var content: Option<Document>

    constructor ()
      ensures content == None
    {
      content := None;
    }
  }

  // ----- Writing and reading the document -----

  function Keys(entries: map<nat, Entry>): set<string> {
    set k | k in entries.Keys :: Decimal.ToText(k)
  }

  /** `{str(k): v for k, v in self._entries.items()}`; a key that is no number does not occur. */
  function Image(entries: map<nat, Entry>): map<string, Entry> {
    map s | s in Keys(entries) && Decimal.FromText(s).Some? && Decimal.FromText(s).value in entries ::
      entries[Decimal.FromText(s).value]
  }

  /** Keys as `_save` writes them. */
  predicate Loadable(m: map<string, Entry>) {
    forall s :: s in m ==> Decimal.FromText(s).Some? && Decimal.ToText(Decimal.FromText(s).value) == s
  }

  function Ids(m: map<string, Entry>): set<nat>
    requires Loadable(m)
  {
    set s | s in m :: Decimal.FromText(s).value
  }

  /** `{int(k): v for k, v in entries.items()}` */
  function Parsed(m: map<string, Entry>): map<nat, Entry>
    requires Loadable(m)
  {
    map k | k in Ids(m) && Decimal.ToText(k) in m :: m[Decimal.ToText(k)]
  }

  lemma ImageRoundTrip(entries: map<nat, Entry>)
    ensures Loadable(Image(entries)) && Parsed(Image(entries)) == entries
  {
    var m := Image(entries);
    forall k | k in entries
      ensures Decimal.ToText(k) in m && m[Decimal.ToText(k)] == entries[k] &&
              Decimal.FromText(Decimal.ToText(k)).value == k
    {
      Decimal.RoundTrip(k);
      assert Decimal.ToText(k) in Keys(entries);
    }
    forall s | s in m
      ensures Decimal.FromText(s).Some? && Decimal.ToText(Decimal.FromText(s).value) == s &&
              Decimal.FromText(s).value in entries
    {
      var k :| k in entries.Keys && Decimal.ToText(k) == s;
      Decimal.RoundTrip(k);
    }
    assert Parsed(m).Keys == entries.Keys;
  }

  // ----- The dictionary as a history -----

  ghost predicate Refines(entries: map<nat, Entry>, nextId: int, h: seq<Entry>) {
    && nextId == |h| + 1
    && Numbered(h)
    && (forall k :: k in entries <==> 1 <= k <= |h|)
    && (forall k :: 0 <= k < |h| ==> entries[k + 1] == h[k])
  }

  /** One more than the largest id, or 1. */
  ghost predicate IsNextId(entries: map<nat, Entry>, n: int) {
    n >= 1 && (forall k :: k in entries ==> k < n) && (n == 1 || n - 1 in entries)
  }

  /** For a store's own dictionary the default for a missing `next_id` is the `next_id` it had. */
  lemma MissingNextId(entries: map<nat, Entry>, nextId: int, h: seq<Entry>, n: int)
    requires Refines(entries, nextId, h)
    ensures IsNextId(entries, n) <==> n == nextId
  {
    if |h| > 0 {
      assert |h| in entries;
    }
    if IsNextId(entries, n) && n > 1 {
      assert n - 1 in entries;
    }
  }

  lemma AddRefines(entries: map<nat, Entry>, h: seq<Entry>, e: Entry)
    requires Refines(entries, |h| + 1, h) && e.id == |h| + 1 && e.amount > 0.0 && !Blank(e.name)
    ensures Refines(entries[e.id := e], |h| + 2, h + [e])
  {
  }

  lemma CloseRefines(entries: map<nat, Entry>, h: seq<Entry>, id: nat)
    requires Refines(entries, |h| + 1, h) && id in entries
    ensures Refines(entries[id := entries[id].(closed := true)], |h| + 1, h[id - 1 := h[id - 1].(closed := true)])
  {
  }

  method MaxKey(entries: map<nat, Entry>) returns (m: nat)
    ensures forall k :: k in entries ==> k <= m
    ensures m in entries || m == 0
  {
    m := 0;
    var rest := entries.Keys;
    while rest != {}
      invariant rest <= entries.Keys
      invariant forall k :: k in entries && k !in rest ==> k <= m
      invariant m in entries || m == 0
      decreases rest
    {
      var k :| k in rest;
      rest := rest - {k};
      if k > m { m := k; }
    }
  }

  /** `sorted(self._entries)` */
  method SortedKeys(keys: set<nat>) returns (r: seq<nat>)
    ensures forall i, j :: 0 <= i < j < |r| ==> r[i] < r[j]
    ensures forall k :: k in r <==> k in keys
  {
    r := [];
    var rest := keys;
    while rest != {}
      invariant rest <= keys
      invariant forall i, j :: 0 <= i < j < |r| ==> r[i] < r[j]
      invariant forall k :: k in r <==> k in keys && k !in rest
      invariant forall i, k :: 0 <= i < |r| && k in rest ==> r[i] < k
      decreases rest
    {
      var least :| least in rest;
      var others := rest - {least};
      while others != {}
        invariant others <= rest && least in rest && least !in others
        invariant forall k :: k in rest && k !in others ==> least <= k
        decreases others
      {
        var k :| k in others;
        others := others - {k};
        if k < least { least := k; }
      }
      r := r + [least];
      rest := rest - {least};
    }
  }

  /** The only ascending list of 1..n. */
  lemma {:induction false} AscendingIds(r: seq<nat>, n: nat)
    requires forall i, j :: 0 <= i < j < |r| ==> r[i] < r[j]
    requires forall k :: k in r <==> 1 <= k <= n
    ensures |r| == n && forall i :: 0 <= i < n ==> r[i] == i + 1
    decreases n
  {
    assert |r| > 0 ==> r[0] in r;
    if n == 0 {
    } else {
      assert n in r;
      var last := |r| - 1;
      assert r[last] in r;
      assert r[last] == n;
      var front := r[..last];
      forall k ensures k in front <==> 1 <= k <= n - 1 {
        assert k in front ==> k in r && k < n by {
          if k in front {
            var i :| 0 <= i < |front| && front[i] == k;
            assert r[i] == k && r[i] in r;
          }
        }
        assert k in r && k != n ==> k in front;
      }
      AscendingIds(front, n - 1);
      assert forall i :: 0 <= i < n - 1 ==> r[i] == front[i];
    }
  }

  /** The three sums of `summarize`. */
  method Tally(all: seq<Entry>) returns (s: Summary)
    ensures s == Summarized(all)
  {
    var total := 0.0;
    var open, closed := 0, 0;
    for i := 0 to |all|
      invariant total == Total(all[..i]) && open == CountOpen(all[..i]) && closed == CountClosed(all[..i])
    {
      assert all[..i + 1][..i] == all[..i];
      total := total + all[i].amount;
      if all[i].closed {
        closed := closed + 1;
      } else {
        open := open + 1;
      }
    }
    assert all[..|all|] == all;
    s := Summary(|all|, open, closed, total);
  }

  // ----- The store -----

  class LedgerStore {
    const disk: Disk
    var entries: map<nat, Entry>
    var nextId: int

    /** What the store stands for, kept beside the fields that represent it. */
    ghost var history: seq<Entry>

    ghost predicate Valid()
      reads this, disk
    {
      && Refines(entries, nextId, history)
      && Stored(disk.content, entries, history)
    }

    constructor (disk: Disk)
      ensures this.disk == disk && entries == map[] && nextId == 1 && history == []
    {
      this.disk := disk;
      entries, nextId, history := map[], 1, [];
    }

    /** `_load`: a missing file is an empty ledger, a missing `next_id` the largest id plus one. */
    method Load() returns (ok: bool)
      modifies this`entries, this`nextId
      ensures ok <==> disk.content == None || Loadable(disk.content.value.entries)
      ensures disk.content == None ==> entries == map[] && nextId == 1
      ensures ok && disk.content != None ==> entries == Parsed(disk.content.value.entries)
      ensures ok && disk.content != None ==>
                if disk.content.value.nextId != None then nextId == disk.content.value.nextId.value
                else IsNextId(entries, nextId)
    {
      match disk.content {
        case None =>
          entries, nextId := map[], 1;
          ok := true;
        case Some(data) =>
          ok := Loadable(data.entries);
          if ok {
            entries := Parsed(data.entries);
            if data.nextId.Some? {
              nextId := data.nextId.value;
            } else {
              var m := MaxKey(entries);
              nextId := m + 1;
            }
          }
      }
    }

    method Save()
      modifies disk
      ensures disk.content == Some(Document(Image(entries), Some(nextId)))
    {
      disk.content := Some(Document(Image(entries), Some(nextId)));
    }

    /** None stands for the ValueError of a blank label or of an amount that is no positive number. */
    method AddEntry(name: string, amount: Amount, now: string) returns (r: Option<Entry>)
      requires Valid()
      modifies this, disk
      ensures Valid() && history == Step(old(history), Add(name, amount, now))
      ensures r.Some? <==> !Blank(name) && ((amount.Whole? && amount.i > 0) || (amount.Fraction? && amount.r > 0.0))
      ensures r.Some? ==> r.value == Entry(|old(history)| + 1, name, r.value.amount, false, now)
      ensures r.Some? ==> r.value.amount == if amount.Whole? then amount.i as real else amount.r
      ensures history == if r.Some? then old(history) + [r.value] else old(history)
      ensures r.None? ==> entries == old(entries) && nextId == old(nextId) && disk.content == old(disk.content)
    {
      StripBlank(name);
      if name == "" || Strip(name) == "" {
        return None;
      }
      if !PositiveNumber(amount) {
        return None;
      }
      AddRefines(entries, history, Entry(nextId, name, Value(amount), false, now));
      var entryId := nextId;
      nextId := nextId + 1;
      var entry := Entry(entryId, name, Value(amount), false, now);
      entries := entries[entryId := entry];
      Save();
      history := history + [entry];
      r := Some(entry);
    }

    /** None stands for the KeyError of an unknown id. */
    method CloseEntry(id: int) returns (r: Option<Entry>)
      requires Valid()
      modifies this, disk
      ensures Valid() && history == Step(old(history), Close(id))
      ensures r.Some? <==> 1 <= id <= |old(history)|
      ensures r.Some? ==> r.value == old(history)[id - 1].(closed := true)
      ensures history == if r.Some? then old(history)[id - 1 := r.value] else old(history)
      ensures r.None? ==> entries == old(entries) && nextId == old(nextId) && disk.content == old(disk.content)
    {
      if id < 0 || id !in entries {
        return None;
      }
      CloseRefines(entries, history, id);
      entries := entries[id := entries[id].(closed := true)];
      history := history[id - 1 := history[id - 1].(closed := true)];
      Save();
      r := Some(entries[id]);
    }

    method ListEntries() returns (r: seq<Entry>)
      requires Valid()
      ensures r == history
    {
      var keys := SortedKeys(entries.Keys);
      AscendingIds(keys, |history|);
      r := [];
      for i := 0 to |keys|
        invariant r == history[..i]
      {
        r := r + [entries[keys[i]]];
      }
    }

    method Summarize() returns (s: Summary)
      requires Valid()
      ensures s == Summarized(history)
    {
      var all := ListEntries();
      s := Tally(all);
    }

    method ExportSnapshot() returns (list: seq<Entry>, summary: Summary)
      requires Valid()
      ensures list == history && summary == Summarized(history)
    {
      list := ListEntries();
      summary := Summarize();
    }
  }

  /** The file of a store that stands for `h`, or no file and no entries. */
  ghost predicate Stored(content: Option<Document>, entries: map<nat, Entry>, h: seq<Entry>) {
    content == Some(Document(Image(entries), Some(|h| + 1))) || (content == None && h == [])
  }

  lemma StoredLoads(content: Option<Document>, entries: map<nat, Entry>, h: seq<Entry>)
    requires Refines(entries, |h| + 1, h) && Stored(content, entries, h)
    ensures content == None ==> entries == map[] && h == []
    ensures content != None ==>
              && Loadable(content.value.entries)
              && Parsed(content.value.entries) == entries
              && content.value.nextId == Some(|h| + 1)
  {
    ImageRoundTrip(entries);
    assert h == [] ==> entries.Keys == {};
  }

  /** A new store on the file of a valid one is the same store. */
  method Open(disk: Disk, ghost h: seq<Entry>, ghost entries: map<nat, Entry>) returns (store: LedgerStore)
    requires Refines(entries, |h| + 1, h) && Stored(disk.content, entries, h)
    ensures fresh(store) && store.disk == disk
    ensures store.Valid() && store.history == h && store.entries == entries
  {
    store := new LedgerStore(disk);
    var ok := store.Load();
    assert store.entries == entries && store.nextId == |h| + 1 by { StoredLoads(disk.content, entries, h); }
    store.history := h;
  }

  /** Any sequence of adds, closes and reopens on a volume without a file. */
  method RunAll(ops: seq<Op>) returns (store: LedgerStore)
    ensures store.Valid() && store.history == Replay([], ops)
  {
    var disk := new Disk();
    store := Open(disk, [], map[]);
    for i := 0 to |ops|
      invariant fresh(store) && fresh(store.disk) && store.Valid()
      invariant Replay(store.history, ops[i..]) == Replay([], ops)
    {
      assert ops[i..][0] == ops[i] && ops[i..][1..] == ops[i + 1..];
      match ops[i] {
        case Add(name, amount, now) => var r := store.AddEntry(name, amount, now);
        case Close(id) => var r := store.CloseEntry(id);
        case Reopen => store := Open(store.disk, store.history, store.entries);
      }
    }
  }
}
