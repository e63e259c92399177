/**
 The ledger as its users see it: an append-only history of entries with closed flags, and what
 the operations do to it.
 */
module LedgerHistory {
  import opened PyText
  import opened Sums

  /** What a caller may pass as an amount. */
  datatype Amount = Whole(i: int) | Fraction(r: real) | Flag(b: bool) | NotANumber

  datatype Entry = Entry(id: nat, name: string, amount: real, closed: bool, createdAt: string)

  datatype Op = Add(name: string, amount: Amount, now: string) | Close(id: int) | Reopen

  datatype Summary = Summary(totalEntries: int, openEntries: int, closedEntries: int, totalAmount: real)

  predicate PositiveNumber(a: Amount) {
    match a
    case Whole(i) => i > 0
    case Fraction(r) => r > 0.0
    case _ => false
  }

  function Value(a: Amount): real
    requires PositiveNumber(a)
  {
    if a.Whole? then a.i as real else a.r
  }

  predicate Accepts(op: Op, h: seq<Entry>) {
    match op
    case Add(name, amount, _) => !Blank(name) && PositiveNumber(amount)
    case Close(id) => 1 <= id <= |h|
    case Reopen => true
  }

  /** A rejected operation leaves the history as it is. */
  function Step(h: seq<Entry>, op: Op): seq<Entry> {
    if !Accepts(op, h) then h
    else
      match op
      case Add(name, amount, now) => h + [Entry(|h| + 1, name, Value(amount), false, now)]
      case Close(id) => h[id - 1 := h[id - 1].(closed := true)]
      case Reopen => h
  }

  function Replay(h: seq<Entry>, ops: seq<Op>): seq<Entry>
    decreases |ops|
  {
    if ops == [] then h else Replay(Step(h, ops[0]), ops[1..])
  }

  function Total(h: seq<Entry>): real {
    if h == [] then 0.0 else Total(h[..|h| - 1]) + h[|h| - 1].amount
  }

  function CountClosed(h: seq<Entry>): nat { CountIf(h, (e: Entry) => e.closed) }

  function CountOpen(h: seq<Entry>): nat { CountIf(h, (e: Entry) => !e.closed) }

  function Summarized(h: seq<Entry>): Summary {
    Summary(|h|, CountOpen(h), CountClosed(h), Total(h))
  }

  // ----- What every history keeps -----

  predicate Numbered(h: seq<Entry>) {
    forall k :: 0 <= k < |h| ==> h[k].id == k + 1 && h[k].amount > 0.0 && !Blank(h[k].name)
  }

  /** `later` extends `h`; of an entry that was there only the closed flag has changed, and only to true. */
  predicate Extends(h: seq<Entry>, later: seq<Entry>) {
    && |h| <= |later|
    && (forall k :: 0 <= k < |h| ==>
          later[k] == h[k].(closed := later[k].closed) && (h[k].closed ==> later[k].closed))
  }

  lemma {:induction false} ReplayExtends(h: seq<Entry>, ops: seq<Op>)
    requires Numbered(h)
    ensures Numbered(Replay(h, ops)) && Extends(h, Replay(h, ops))
    decreases |ops|
  {
    if ops == [] {
    } else {
      var next := Step(h, ops[0]);
      assert Numbered(next) && Extends(h, next);
      ReplayExtends(next, ops[1..]);
    }
  }

  lemma {:induction false} ReplayConcat(h: seq<Entry>, first: seq<Op>, second: seq<Op>)
    ensures Replay(h, first + second) == Replay(Replay(h, first), second)
    decreases |first|
  {
    if first == [] {
      assert first + second == second;
    } else {
      assert (first + second)[1..] == first[1..] + second;
      ReplayConcat(Step(h, first[0]), first[1..], second);
    }
  }

  /**
   After any operations the ids are exactly 1..n in creation order, and whatever is done next
   keeps every entry, its id, label, amount and time: no id is ever used again.
   */
  lemma IdsNeverReused(ops: seq<Op>, more: seq<Op>)
    ensures Numbered(Replay([], ops))
    ensures Extends(Replay([], ops), Replay([], ops + more))
  {
    ReplayExtends([], ops);
    ReplayExtends(Replay([], ops), more);
    ReplayConcat([], ops, more);
  }

  /** Entry `k` exists before operation `i`, and operation `i` closes it. */
  predicate ClosesAt(h: seq<Entry>, ops: seq<Op>, k: nat, i: nat) {
    i < |ops| && ops[i] == Close(k + 1) && k < |Replay(h, ops[..i])|
  }

  lemma ClosesLater(h: seq<Entry>, ops: seq<Op>, k: nat, i: nat)
    requires ops != []
    ensures ClosesAt(Step(h, ops[0]), ops[1..], k, i) <==> ClosesAt(h, ops, k, i + 1)
  {
    if i < |ops| - 1 {
      assert ops[..i + 1][0] == ops[0] && ops[..i + 1][1..] == ops[1..][..i];
    }
  }

  /** An entry is closed exactly when some operation closed it after it was added. */
  lemma {:induction false} ClosedByClose(h: seq<Entry>, ops: seq<Op>, k: nat)
    requires k < |Replay(h, ops)|
    ensures Replay(h, ops)[k].closed <==>
              (k < |h| && h[k].closed) || exists i :: 0 <= i < |ops| && ClosesAt(h, ops, k, i)
    decreases |ops|
  {
    if ops == [] {
    } else {
      var next := Step(h, ops[0]);
      ClosedByClose(next, ops[1..], k);
      assert ops[..0] == [];
      assert ClosesAt(h, ops, k, 0) <==> ops[0] == Close(k + 1) && k < |h|;
      forall i: nat ensures ClosesAt(next, ops[1..], k, i) <==> ClosesAt(h, ops, k, i + 1) {
        ClosesLater(h, ops, k, i);
      }
      if exists i :: 0 <= i < |ops| && ClosesAt(h, ops, k, i) {
        var i :| 0 <= i < |ops| && ClosesAt(h, ops, k, i);
        if i > 0 {
          assert ClosesAt(next, ops[1..], k, i - 1);
        }
      }
    }
  }

  // ----- Totals -----

  lemma {:induction false} CountsAddUp(h: seq<Entry>)
    ensures CountOpen(h) + CountClosed(h) == |h|
  {
    if h == [] {
    } else {
      CountsAddUp(h[..|h| - 1]);
    }
  }

  /** Closing entry `k` moves one entry from open to closed, or none, and no amount. */
  lemma {:induction false} CloseMovesOne(h: seq<Entry>, k: nat)
    requires k < |h|
    ensures var after := h[k := h[k].(closed := true)];
            && Total(after) == Total(h)
            && CountClosed(after) == CountClosed(h) + (if h[k].closed then 0 else 1)
            && CountOpen(after) == CountOpen(h) - (if h[k].closed then 0 else 1)
  {
    var after := h[k := h[k].(closed := true)];
    var front := h[..|h| - 1];
    if k == |h| - 1 {
      assert after[..|h| - 1] == front;
    } else {
      assert after[..|h| - 1] == front[k := front[k].(closed := true)];
      CloseMovesOne(front, k);
    }
  }

  /** How each operation moves the summary: conservation of amount and count. */
  lemma SummaryStep(h: seq<Entry>, op: Op)
    ensures var s, t := Summarized(h), Summarized(Step(h, op));
            && t.openEntries + t.closedEntries == t.totalEntries
            && (op.Add? && Accepts(op, h) ==>
                  t == Summary(s.totalEntries + 1, s.openEntries + 1, s.closedEntries,
                               s.totalAmount + Value(op.amount)))
            && (op.Close? && Accepts(op, h) ==>
                  t == (if h[op.id - 1].closed then s
                        else s.(openEntries := s.openEntries - 1, closedEntries := s.closedEntries + 1)))
            && (op.Reopen? || !Accepts(op, h) ==> t == s)
  {
    CountsAddUp(h);
    CountsAddUp(Step(h, op));
    if op.Add? && Accepts(op, h) {
      assert Step(h, op)[..|h|] == h;
    }
    if op.Close? && Accepts(op, h) {
      CloseMovesOne(h, op.id - 1);
    }
  }
}
