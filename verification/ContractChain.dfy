/**
 The installation of the HP12C acceptance contract over a whole task table: its net effect on
 every row, its idempotence, and the schedule its dependency chain leaves.
 */
module ContractChain {
  import opened Basics
  import opened TaskContracts

  const RPN_KEY := Prd(4)

  // ----- One row -----

  function Chained(dependencies: Option<seq<int>>, previous: int): seq<int> {
    var deps := dependencies.GetOr([]);
    if previous in deps then deps else deps + [previous]
  }

  /** The contract of the row at `index` of `count`, after all statements of the installation. */
  function InstalledContract(p: Plan, index: nat, count: nat, key: Key, c: Option<Contract>): Option<Contract> {
    var first := if key == RPN_KEY then Some(RpnStage(p, c.GetOr(EMPTY_CONTRACT))) else c;
    var passed := if index == 0 then first else Some(PassStage(p, index, count, key, first.GetOr(EMPTY_CONTRACT)));
    if index + 1 == count then Some(FinalStage(p, passed.GetOr(EMPTY_CONTRACT))) else passed
  }

  function InstalledRow(p: Plan, rows: seq<Row>, index: nat): Row
    requires index < |rows|
  {
    var row := rows[index];
    Row(row.id, row.key,
        if index == 0 then row.dependencies else Some(Chained(row.dependencies, rows[index - 1].id)),
        InstalledContract(p, index, |rows|, row.key, row.contract))
  }

  function Installed(p: Plan, rows: seq<Row>): (r: seq<Row>)
    ensures |r| == |rows|
    ensures forall i :: 0 <= i < |rows| ==> r[i] == InstalledRow(p, rows, i)
  {
    seq(|rows|, i requires 0 <= i < |rows| => InstalledRow(p, rows, i))
  }

  // ----- The net effect, with no stage left -----

  predicate Keyed(index: nat, key: Key, which: Key) { index > 0 && key == which }

  /** The rows after the seventh that are not the last. */
  predicate Middle(index: nat, count: nat) { 7 <= index && index + 1 < count }

  /** All notes a row collects, in order. */
  function NotesFor(p: Plan, index: nat, count: nat, key: Key): seq<string> {
    (if key == Prd(4) then p.rpn.notes else []) +
    ((if index >= 3 then p.chiefNotes else []) +
     ((if Keyed(index, key, Prd(5)) then p.alg.notes
       else if Keyed(index, key, Prd(6)) then p.memory.notes
       else if Keyed(index, key, Prd(7)) then p.tvm.notes
       else []) +
      ((if Middle(index, count) then [p.singlePageNote] else []) +
       ((if Keyed(index, key, Prd(18)) || Keyed(index, key, Prd(19)) then [p.packagingNote] else []) +
        (if index + 1 == count then p.challenge.notes else [])))))
  }

  predicate TouchesNotes(index: nat, count: nat, key: Key) {
    || key == Prd(4) || index >= 3 || index + 1 == count
    || (index > 0 && (key == Prd(5) || key == Prd(6) || key == Prd(7) || key == Prd(18) || key == Prd(19)))
  }

  /** The protected test a row's key binds. */
  function FixtureFor(p: Plan, index: nat, key: Key): Option<Fixture> {
    if key == Prd(4) then Some(p.rpn)
    else if Keyed(index, key, Prd(5)) then Some(p.alg)
    else if Keyed(index, key, Prd(6)) then Some(p.memory)
    else if Keyed(index, key, Prd(7)) then Some(p.tvm)
    else None
  }

  /** The files a row may touch in the end: the final test, else no test, else its own test. */
  function FilesFor(p: Plan, index: nat, count: nat, key: Key, files: Option<seq<string>>): Option<seq<string>> {
    var page := OnlyIndex(files.GetOr([]));
    if index + 1 == count then Some(page + [p.challenge.target])
    else if Middle(index, count) then Some(page)
    else if FixtureFor(p, index, key).Some? then Some(page + [FixtureFor(p, index, key).value.target])
    else files
  }

  function NotesOf(c: Option<Contract>): Option<seq<string>> {
    if c.Some? then c.value.notes else None
  }

  function FilesOf(c: Option<Contract>): Option<seq<string>> {
    if c.Some? then c.value.allowedFiles else None
  }

  lemma PassNotes(p: Plan, index: nat, count: nat, key: Key, c: Contract)
    ensures PassStage(p, index, count, key, c).notes.GetOr([]) ==
            AddMissing(AddMissing(AddMissing(AddMissing(c.notes.GetOr([]),
              if index >= 3 then p.chiefNotes else []),
              if key == Prd(5) then p.alg.notes else if key == Prd(6) then p.memory.notes
              else if key == Prd(7) then p.tvm.notes else []),
              if Intermediate(index, count) then [p.singlePageNote] else []),
              if Packaging(key) then [p.packagingNote] else [])
    ensures PassStage(p, index, count, key, c).notes.Some? <==>
            c.notes.Some? || index >= 3 || key == Prd(5) || key == Prd(6) || key == Prd(7) || Packaging(key)
  {
    var c1 := ChiefStage(p, index, c.(ownerInstruction := Some(p.ownerInstruction)));
    assert c1.notes.GetOr([]) == AddMissing(c.notes.GetOr([]), if index >= 3 then p.chiefNotes else []);
    var c2 := KeyStage(p, key, c1);
    var keyNotes := if key == Prd(5) then p.alg.notes else if key == Prd(6) then p.memory.notes
                    else if key == Prd(7) then p.tvm.notes else [];
    assert c2.notes.GetOr([]) == AddMissing(c1.notes.GetOr([]), keyNotes);
    var c3 := IntermediateStage(p, index, count, key, c2);
    assert c3.notes.GetOr([]) ==
           AddMissing(c2.notes.GetOr([]), if Intermediate(index, count) then [p.singlePageNote] else []);
  }

  lemma FourLists(n: seq<string>, a: seq<string>, b: seq<string>, c: seq<string>, d: seq<string>)
    ensures AddMissing(AddMissing(AddMissing(AddMissing(n, a), b), c), d) == AddMissing(n, a + (b + (c + d)))
  {
    AddMissingConcat(AddMissing(AddMissing(n, a), b), c, d);
    AddMissingConcat(AddMissing(n, a), b, c + d);
    AddMissingConcat(n, a, b + (c + d));
  }

  /** What the pass asks for on a row other than the first. */
  function PassNotesFor(p: Plan, index: nat, count: nat, key: Key): seq<string> {
    (if index >= 3 then p.chiefNotes else []) +
    ((if key == Prd(5) then p.alg.notes
      else if key == Prd(6) then p.memory.notes
      else if key == Prd(7) then p.tvm.notes
      else []) +
     ((if Middle(index, count) then [p.singlePageNote] else []) +
      (if key == Prd(18) || key == Prd(19) then [p.packagingNote] else [])))
  }

  lemma PassAdds(p: Plan, index: nat, count: nat, key: Key, c: Contract)
    ensures PassStage(p, index, count, key, c).notes.GetOr([]) ==
            AddMissing(c.notes.GetOr([]), PassNotesFor(p, index, count, key))
  {
    PassNotes(p, index, count, key, c);
    FourLists(c.notes.GetOr([]), if index >= 3 then p.chiefNotes else [],
              if key == Prd(5) then p.alg.notes
              else if key == Prd(6) then p.memory.notes
              else if key == Prd(7) then p.tvm.notes else [],
              if Middle(index, count) then [p.singlePageNote] else [],
              if key == Prd(18) || key == Prd(19) then [p.packagingNote] else []);
  }

  /** The lists of all stages, one after the other. */
  lemma NotesJoined(p: Plan, index: nat, count: nat, key: Key)
    ensures NotesFor(p, index, count, key) ==
            (if key == Prd(4) then p.rpn.notes else []) +
            ((if index > 0 then PassNotesFor(p, index, count, key) else []) +
             (if index + 1 == count then p.challenge.notes else []))
  {
  }

  /** The notes of a row: what was there, then every missing note the row's branches ask for, in order. */
  lemma NetNotes(p: Plan, index: nat, count: nat, key: Key, c: Option<Contract>)
    requires index < count
    ensures NotesOf(InstalledContract(p, index, count, key, c)).GetOr([]) ==
            AddMissing(NotesOf(c).GetOr([]), NotesFor(p, index, count, key))
  {
    var first := if key == RPN_KEY then Some(RpnStage(p, c.GetOr(EMPTY_CONTRACT))) else c;
    if index > 0 {
      PassAdds(p, index, count, key, first.GetOr(EMPTY_CONTRACT));
    }
    NotesJoined(p, index, count, key);
    var n, a := NotesOf(c).GetOr([]), if key == Prd(4) then p.rpn.notes else [];
    var b := if index > 0 then PassNotesFor(p, index, count, key) else [];
    var d := if index + 1 == count then p.challenge.notes else [];
    AddMissingConcat(n, a, b + d);
    AddMissingConcat(AddMissing(n, a), b, d);
  }

  /** The list of notes is created only where a branch asks for one. */
  lemma NotesCreated(p: Plan, index: nat, count: nat, key: Key, c: Option<Contract>)
    requires index < count
    ensures NotesOf(InstalledContract(p, index, count, key, c)).Some? <==>
              NotesOf(c).Some? || TouchesNotes(index, count, key)
  {
    var first := if key == RPN_KEY then Some(RpnStage(p, c.GetOr(EMPTY_CONTRACT))) else c;
    if index > 0 {
      PassNotes(p, index, count, key, first.GetOr(EMPTY_CONTRACT));
    }
  }

  lemma PassFiles(p: Plan, index: nat, count: nat, key: Key, c: Contract)
    requires SeparateTargets(p)
    ensures PassStage(p, index, count, key, c).allowedFiles ==
            if Intermediate(index, count) then Some(OnlyIndex(c.allowedFiles.GetOr([])))
            else if key == Prd(5) then Some(BindFiles(c.allowedFiles.GetOr([]), p.alg.target))
            else if key == Prd(6) then Some(BindFiles(c.allowedFiles.GetOr([]), p.memory.target))
            else if key == Prd(7) then Some(BindFiles(c.allowedFiles.GetOr([]), p.tvm.target))
            else c.allowedFiles
  {
    var files := c.allowedFiles.GetOr([]);
    OnlyIndexAfterBind(files, p.alg.target);
    OnlyIndexAfterBind(files, p.memory.target);
    OnlyIndexAfterBind(files, p.tvm.target);
    var c1 := ChiefStage(p, index, c.(ownerInstruction := Some(p.ownerInstruction)));
    assert c1.allowedFiles == c.allowedFiles;
    var c2 := KeyStage(p, key, c1);
    var c3 := IntermediateStage(p, index, count, key, c2);
    assert PassStage(p, index, count, key, c).allowedFiles == c3.allowedFiles;
  }

  lemma NetFiles(p: Plan, index: nat, count: nat, key: Key, c: Option<Contract>)
    requires index < count && SeparateTargets(p)
    ensures FilesOf(InstalledContract(p, index, count, key, c)) == FilesFor(p, index, count, key, FilesOf(c))
  {
    var files := FilesOf(c).GetOr([]);
    var first := if key == RPN_KEY then Some(RpnStage(p, c.GetOr(EMPTY_CONTRACT))) else c;
    OnlyIndexAfterBind(files, p.rpn.target);
    if index > 0 {
      PassFiles(p, index, count, key, first.GetOr(EMPTY_CONTRACT));
    }
    var passed := if index == 0 then first else Some(PassStage(p, index, count, key, first.GetOr(EMPTY_CONTRACT)));
    OnlyIndexAfterBind(files, p.alg.target);
    OnlyIndexAfterBind(files, p.memory.target);
    OnlyIndexAfterBind(files, p.tvm.target);
    OnlyIndexTwice(files);
    forall f: seq<string>, t | t != INDEX_PAGE ensures BindFiles(f, t) == OnlyIndex(f) + [t] {
      BindKeepsPage(f, t);
    }
    OnlyIndexAfterAdd(FilesOf(passed).GetOr([]), p.challenge.target);
  }

  /** A contract without its two lists. */
  function Scalars(c: Contract): Contract { c.(allowedFiles := None, notes := None) }

  /** The calculator's API, as the PRD's stack, algebraic and memory tasks introduce it. */
  function StackApis(): seq<string> {
    ["RPNStack", "RPNStack.enter", "RPNStack.swap", "RPNStack.rollDown", "RPNStack.clx",
     "RPNStack.X", "RPNStack.Y", "RPNStack.Z", "RPNStack.T"]
  }

  function AlgebraicApis(): seq<string> { StackApis() + ["RPNStack.setMode", "RPNStack.evaluateExpression"] }

  function MemoryApis(): seq<string> {
    AlgebraicApis() + ["RPNStack.sto", "RPNStack.rcl", "RPNStack.sto_plus", "RPNStack.sto_minus",
                       "RPNStack.sto_multiply", "RPNStack.sto_divide"]
  }

  lemma ApiNames()
    ensures RPN_APIS == StackApis() && RPN_APIS + ALG_APIS == AlgebraicApis() && AccumulatedApis() == MemoryApis()
  {
  }

  /** The APIs a row must keep: the last statement of the installation that names any. */
  function ApisFor(index: nat, count: nat, key: Key, prior: Option<seq<string>>): Option<seq<string>> {
    if index + 1 == count then Some(MemoryApis() + ["HP12CChallenge"])
    else if (Middle(index, count) && key == Prd(8)) || Keyed(index, key, Prd(7)) then Some(MemoryApis() + ["TVM"])
    else if Keyed(index, key, Prd(5)) then Some(AlgebraicApis())
    else if Keyed(index, key, Prd(6)) || index >= 6 then Some(MemoryApis())
    else if index >= 3 || key == Prd(4) then Some(StackApis())
    else prior
  }

  function OrElse<T>(touched: bool, value: T, prior: Option<T>): Option<T> {
    if touched then Some(value) else prior
  }

  /** The test command of a protected test. */
  function PytestOn(target: string): string { "python -m pytest " + target + " -q" }

  /** Every field but the two lists, in the end. */
  function ScalarsFor(p: Plan, index: nat, count: nat, key: Key, c: Contract): Contract {
    var final := index + 1 == count;
    var mine := FixtureFor(p, index, key);
    var test := if final then Some(p.challenge) else mine;
    var packaging := Keyed(index, key, Prd(18)) || Keyed(index, key, Prd(19));
    Contract(
      OrElse(index > 0 || key == Prd(4), p.ownerInstruction, c.ownerInstruction),
      None,
      if Middle(index, count) then Some("git diff --check")
      else if test.Some? then Some(PytestOn(test.value.target)) else c.testCommand,
      if test.Some? then Some(test.value.source) else c.fixtureSource,
      if test.Some? then Some(test.value.target) else c.fixtureTarget,
      if Middle(index, count) then Some("observable_behavior_only")
      else OrElse(test.Some?, "repository_owned_observable_behavior", c.testPolicy),
      ApisFor(index, count, key, c.publicApis),
      OrElse(key == Prd(4) || index >= 3 || Keyed(index, key, Prd(5)) || Keyed(index, key, Prd(6)),
             ["app/index.html"], c.productFiles),
      None,
      OrElse(index >= 3 || Keyed(index, key, Prd(5)), "chief_only", c.seniority),
      OrElse(packaging, false, c.visualRequired),
      OrElse(packaging, None, c.visualReference),
      OrElse(packaging, None, c.visualOutput),
      OrElse(final, PytestOn(p.challenge.target) + " -k complex", c.testerCommand),
      OrElse(final, PytestOn(p.challenge.target) + " -k security", c.securityCommand),
      c.other)
  }

  lemma FirstScalars(p: Plan, count: nat, key: Key, c: Contract)
    requires 1 < count
    ensures ScalarsFor(p, 0, count, key, c) == Scalars(if key == RPN_KEY then RpnStage(p, c) else c)
  {
    ApiNames();
  }

  /** A key with a test of its own after the RPN task. */
  predicate Tested(key: Key) { key == Prd(5) || key == Prd(6) || key == Prd(7) }

  /** The pass over a row before the intermediate ones, for a key with a test of its own. */
  lemma EarlyTested(p: Plan, index: nat, count: nat, key: Key, c: Contract)
    requires 0 < index < 7 && index + 1 < count && Tested(key)
    ensures Scalars(PassStage(p, index, count, key, if key == RPN_KEY then RpnStage(p, c) else c)) ==
            ScalarsFor(p, index, count, key, c)
  {
    ApiNames();
    var c0 := if key == RPN_KEY then RpnStage(p, c) else c;
    var c1 := ChiefStage(p, index, c0.(ownerInstruction := Some(p.ownerInstruction)));
    var c2 := KeyStage(p, key, c1);
    assert IntermediateStage(p, index, count, key, c2) == c2;
    assert PackagingStage(p, key, c2) == PassStage(p, index, count, key, c0);
  }

  /** The pass over a row before the intermediate ones, for the other keys. */
  lemma EarlyOthers(p: Plan, index: nat, count: nat, key: Key, c: Contract)
    requires 0 < index < 7 && index + 1 < count && !Tested(key)
    ensures Scalars(PassStage(p, index, count, key, if key == RPN_KEY then RpnStage(p, c) else c)) ==
            ScalarsFor(p, index, count, key, c)
  {
    ApiNames();
    var c0 := if key == RPN_KEY then RpnStage(p, c) else c;
    var c1 := ChiefStage(p, index, c0.(ownerInstruction := Some(p.ownerInstruction)));
    var c2 := KeyStage(p, key, c1);
    assert IntermediateStage(p, index, count, key, c2) == c2;
    assert PackagingStage(p, key, c2) == PassStage(p, index, count, key, c0);
  }

  lemma EarlyScalars(p: Plan, index: nat, count: nat, key: Key, c: Contract)
    requires 0 < index < 7 && index + 1 < count
    ensures Scalars(PassStage(p, index, count, key, if key == RPN_KEY then RpnStage(p, c) else c)) ==
            ScalarsFor(p, index, count, key, c)
  {
    if Tested(key) {
      EarlyTested(p, index, count, key, c);
    } else {
      EarlyOthers(p, index, count, key, c);
    }
  }

  /** The pass over an intermediate row, for a key with a test of its own. */
  lemma LateTested(p: Plan, index: nat, count: nat, key: Key, c: Contract)
    requires Intermediate(index, count) && Tested(key)
    ensures Scalars(PassStage(p, index, count, key, if key == RPN_KEY then RpnStage(p, c) else c)) ==
            ScalarsFor(p, index, count, key, c)
  {
    ApiNames();
    var c0 := if key == RPN_KEY then RpnStage(p, c) else c;
    var c1 := ChiefStage(p, index, c0.(ownerInstruction := Some(p.ownerInstruction)));
    var c2 := KeyStage(p, key, c1);
    var c3 := IntermediateStage(p, index, count, key, c2);
    assert PackagingStage(p, key, c3) == PassStage(p, index, count, key, c0);
  }

  /** The pass over an intermediate row, for the other keys. */
  lemma LateOthers(p: Plan, index: nat, count: nat, key: Key, c: Contract)
    requires Intermediate(index, count) && !Tested(key)
    ensures Scalars(PassStage(p, index, count, key, if key == RPN_KEY then RpnStage(p, c) else c)) ==
            ScalarsFor(p, index, count, key, c)
  {
    ApiNames();
    var c0 := if key == RPN_KEY then RpnStage(p, c) else c;
    var c1 := ChiefStage(p, index, c0.(ownerInstruction := Some(p.ownerInstruction)));
    var c2 := KeyStage(p, key, c1);
    var c3 := IntermediateStage(p, index, count, key, c2);
    assert PackagingStage(p, key, c3) == PassStage(p, index, count, key, c0);
  }

  lemma LateScalars(p: Plan, index: nat, count: nat, key: Key, c: Contract)
    requires Intermediate(index, count)
    ensures Scalars(PassStage(p, index, count, key, if key == RPN_KEY then RpnStage(p, c) else c)) ==
            ScalarsFor(p, index, count, key, c)
  {
    if Tested(key) {
      LateTested(p, index, count, key, c);
    } else {
      LateOthers(p, index, count, key, c);
    }
  }

  /** The last row, for a key with a test of its own: the pass, then the final statement. */
  lemma FinalTested(p: Plan, index: nat, key: Key, c: Contract)
    requires Tested(key)
    ensures var c0 := if key == RPN_KEY then RpnStage(p, c) else c;
            var passed := if index == 0 then c0 else PassStage(p, index, index + 1, key, c0);
            Scalars(FinalStage(p, passed)) == ScalarsFor(p, index, index + 1, key, c)
  {
    ApiNames();
    var c0 := if key == RPN_KEY then RpnStage(p, c) else c;
    var c1 := ChiefStage(p, index, c0.(ownerInstruction := Some(p.ownerInstruction)));
    var c2 := KeyStage(p, key, c1);
    assert IntermediateStage(p, index, index + 1, key, c2) == c2;
    assert PackagingStage(p, key, c2) == PassStage(p, index, index + 1, key, c0);
  }

  /** The last row, for the other keys. */
  lemma FinalOthers(p: Plan, index: nat, key: Key, c: Contract)
    requires !Tested(key)
    ensures var c0 := if key == RPN_KEY then RpnStage(p, c) else c;
            var passed := if index == 0 then c0 else PassStage(p, index, index + 1, key, c0);
            Scalars(FinalStage(p, passed)) == ScalarsFor(p, index, index + 1, key, c)
  {
    ApiNames();
    var c0 := if key == RPN_KEY then RpnStage(p, c) else c;
    var c1 := ChiefStage(p, index, c0.(ownerInstruction := Some(p.ownerInstruction)));
    var c2 := KeyStage(p, key, c1);
    assert IntermediateStage(p, index, index + 1, key, c2) == c2;
    assert PackagingStage(p, key, c2) == PassStage(p, index, index + 1, key, c0);
  }

  lemma FinalScalars(p: Plan, index: nat, key: Key, c: Contract)
    ensures var c0 := if key == RPN_KEY then RpnStage(p, c) else c;
            var passed := if index == 0 then c0 else PassStage(p, index, index + 1, key, c0);
            Scalars(FinalStage(p, passed)) == ScalarsFor(p, index, index + 1, key, c)
  {
    if Tested(key) {
      FinalTested(p, index, key, c);
    } else {
      FinalOthers(p, index, key, c);
    }
  }

  /** A row has a contract afterwards unless it is the first, not the last, and had none. */
  predicate HasContract(index: nat, count: nat, key: Key, c: Option<Contract>) {
    c.Some? || key == RPN_KEY || index > 0 || index + 1 == count
  }

  lemma NetScalars(p: Plan, index: nat, count: nat, key: Key, c: Option<Contract>)
    requires index < count
    ensures var after := InstalledContract(p, index, count, key, c);
            && (after.Some? <==> HasContract(index, count, key, c))
            && (after.Some? ==> Scalars(after.value) == ScalarsFor(p, index, count, key, c.GetOr(EMPTY_CONTRACT)))
  {
    var base := c.GetOr(EMPTY_CONTRACT);
    if index + 1 == count {
      FinalScalars(p, index, key, base);
    } else if index == 0 {
      FirstScalars(p, count, key, base);
    } else {
      if index < 7 {
        EarlyScalars(p, index, count, key, base);
      } else {
        LateScalars(p, index, count, key, base);
      }
    }
  }

  // ----- Idempotence -----

  lemma ScalarsForIdempotent(p: Plan, index: nat, count: nat, key: Key, c: Contract, d: Contract)
    requires Scalars(d) == ScalarsFor(p, index, count, key, c)
    ensures ScalarsFor(p, index, count, key, d) == Scalars(d)
  {
  }

  lemma ScalarsIdempotent(p: Plan, index: nat, count: nat, key: Key, c: Option<Contract>)
    requires index < count
    ensures var once := InstalledContract(p, index, count, key, c);
            var twice := InstalledContract(p, index, count, key, once);
            && (once.Some? <==> twice.Some?)
            && (once.Some? ==> Scalars(twice.value) == Scalars(once.value))
  {
    var once := InstalledContract(p, index, count, key, c);
    NetScalars(p, index, count, key, c);
    NetScalars(p, index, count, key, once);
    if once.Some? {
      ScalarsForIdempotent(p, index, count, key, c.GetOr(EMPTY_CONTRACT), once.value);
    }
  }

  lemma ListsIdempotent(p: Plan, index: nat, count: nat, key: Key, c: Option<Contract>)
    requires index < count && SeparateTargets(p)
    ensures var once := InstalledContract(p, index, count, key, c);
            var twice := InstalledContract(p, index, count, key, once);
            NotesOf(twice) == NotesOf(once) && FilesOf(twice) == FilesOf(once)
  {
    var once := InstalledContract(p, index, count, key, c);
    NetNotes(p, index, count, key, c);
    NetNotes(p, index, count, key, once);
    NotesCreated(p, index, count, key, c);
    NotesCreated(p, index, count, key, once);
    AddMissingIdempotent(NotesOf(c).GetOr([]), NotesFor(p, index, count, key));
    NetFiles(p, index, count, key, c);
    NetFiles(p, index, count, key, once);
    FilesForIdempotent(p, index, count, key, FilesOf(c));
  }

  lemma PageOfBound(files: seq<string>, target: string)
    requires target != INDEX_PAGE
    ensures OnlyIndex(OnlyIndex(files) + [target]) == OnlyIndex(files)
  {
    OnlyIndexTwice(files);
    OnlyIndexSnoc(OnlyIndex(files), target);
  }

  lemma FilesForIdempotent(p: Plan, index: nat, count: nat, key: Key, files: Option<seq<string>>)
    requires SeparateTargets(p)
    ensures var once := FilesFor(p, index, count, key, files);
            FilesFor(p, index, count, key, once) == once
  {
    var fs := files.GetOr([]);
    PageOfBound(fs, p.challenge.target);
    PageOfBound(fs, p.rpn.target);
    PageOfBound(fs, p.alg.target);
    PageOfBound(fs, p.memory.target);
    PageOfBound(fs, p.tvm.target);
    OnlyIndexTwice(fs);
  }

  lemma ContractIdempotent(p: Plan, index: nat, count: nat, key: Key, c: Option<Contract>)
    requires index < count && SeparateTargets(p)
    ensures var once := InstalledContract(p, index, count, key, c);
            InstalledContract(p, index, count, key, once) == once
  {
    var once := InstalledContract(p, index, count, key, c);
    var twice := InstalledContract(p, index, count, key, once);
    ScalarsIdempotent(p, index, count, key, c);
    ListsIdempotent(p, index, count, key, c);
    if once.Some? {
      assert twice.value == Scalars(twice.value).(allowedFiles := FilesOf(twice), notes := NotesOf(twice));
      assert once.value == Scalars(once.value).(allowedFiles := FilesOf(once), notes := NotesOf(once));
    }
  }

  /** Installing the contract a second time changes nothing, whatever the table. */
  lemma InstallIdempotent(p: Plan, rows: seq<Row>)
    requires SeparateTargets(p)
    ensures Installed(p, Installed(p, rows)) == Installed(p, rows)
  {
    var once := Installed(p, rows);
    forall i | 0 <= i < |rows| ensures InstalledRow(p, once, i) == once[i] {
      ContractIdempotent(p, i, |rows|, rows[i].key, rows[i].contract);
    }
  }

  // ----- The schedule -----

  /** Rows as `ORDER BY id` over a primary key delivers them. */
  predicate InIdOrder(rows: seq<Row>) {
    forall i, j :: 0 <= i < j < |rows| ==> rows[i].id < rows[j].id
  }

  /** The ids row `i` waits for. */
  function WaitsFor(rows: seq<Row>, i: nat): seq<int>
    requires i < |rows|
  {
    rows[i].dependencies.GetOr([])
  }

  predicate HasId(rows: seq<Row>, id: int) { exists j :: 0 <= j < |rows| && rows[j].id == id }

  /** A row is taken when everything it waits for has been; an id that no row has is never there. */
  predicate Runnable(rows: seq<Row>, taken: seq<nat>, i: nat)
    requires i < |rows| && forall a :: 0 <= a < |taken| ==> taken[a] < |rows|
  {
    forall d :: d in WaitsFor(rows, i) ==> exists b :: 0 <= b < |taken| && rows[taken[b]].id == d
  }

  /** Different rows, one after the other, each runnable when it is taken; a run may stop anywhere. */
  predicate IsRun(rows: seq<Row>, order: seq<nat>) {
    && (forall a :: 0 <= a < |order| ==> order[a] < |rows|)
    && (forall a, b :: 0 <= a < b < |order| ==> order[a] != order[b])
    && (forall a :: 0 <= a < |order| ==> Runnable(rows, order[..a], order[a]))
  }

  /** The first `n` rows wait only for rows of the table with smaller ids. */
  predicate Backward(rows: seq<Row>, n: nat)
    requires n <= |rows|
  {
    forall i, d :: 0 <= i < n && d in WaitsFor(rows, i) ==> HasId(rows, d) && d < rows[i].id
  }

  function Ascending(n: nat): (r: seq<nat>)
    ensures |r| == n && forall a :: 0 <= a < n ==> r[a] == a
  {
    seq(n, a => a)
  }

  lemma AscendingMembers(n: nat)
    ensures forall k: nat :: k in Ascending(n) <==> k < n
  {
    forall k: nat | k < n ensures k in Ascending(n) {
      assert Ascending(n)[k] == k;
    }
  }

  /** The only dependency the installation adds to a row is the one on the row before. */
  lemma ChainDependencies(p: Plan, rows: seq<Row>, i: nat, d: int)
    requires i < |rows|
    ensures d in WaitsFor(Installed(p, rows), i) <==> d in WaitsFor(rows, i) || (i > 0 && d == rows[i - 1].id)
    ensures WaitsFor(rows, i) <= WaitsFor(Installed(p, rows), i)
    ensures |WaitsFor(Installed(p, rows), i)| <= |WaitsFor(rows, i)| + 1
  {
    assert Installed(p, rows)[i] == InstalledRow(p, rows, i);
  }

  /** After the first `a` rows no row but the next one is runnable. */
  lemma NextIsOnly(p: Plan, rows: seq<Row>, a: nat, k: nat)
    requires InIdOrder(rows) && a <= |rows| && k < |rows| && k !in Ascending(a)
    requires Runnable(Installed(p, rows), Ascending(a), k)
    ensures k == a
  {
    AscendingMembers(a);
    if k > a {
      ChainDependencies(p, rows, k, rows[k - 1].id);
    }
  }

  /** A run of the installed table takes every row at its own index. */
  lemma {:induction false} RunIsAscending(p: Plan, rows: seq<Row>, order: seq<nat>, n: nat)
    requires InIdOrder(rows) && IsRun(Installed(p, rows), order) && n <= |order|
    ensures order[..n] == Ascending(n)
  {
    if n > 0 {
      var a := n - 1;
      RunIsAscending(p, rows, order, a);
      assert forall b :: 0 <= b < a ==> order[..a][b] != order[a];
      assert a > 0 ==> order[..a][a - 1] == a - 1 == order[a - 1];
      NextIsOnly(p, rows, a, order[a]);
    }
  }

  lemma RunMeansBackward(p: Plan, rows: seq<Row>, n: nat)
    requires n <= |rows| && IsRun(Installed(p, rows), Ascending(n)) && InIdOrder(rows)
    ensures Backward(rows, n)
  {
    var order := Ascending(n);
    forall i, d | 0 <= i < n && d in WaitsFor(rows, i) ensures HasId(rows, d) && d < rows[i].id {
      ChainDependencies(p, rows, i, d);
      assert Runnable(Installed(p, rows), order[..i], order[i]);
      var b :| 0 <= b < i && Installed(p, rows)[order[..i][b]].id == d;
      assert rows[b].id == d;
    }
  }

  lemma BackwardRuns(p: Plan, rows: seq<Row>, n: nat)
    requires n <= |rows| && Backward(rows, n) && InIdOrder(rows)
    ensures IsRun(Installed(p, rows), Ascending(n))
  {
    var after, order := Installed(p, rows), Ascending(n);
    forall a | 0 <= a < n ensures Runnable(after, order[..a], order[a]) {
      forall d | d in WaitsFor(after, a) ensures exists b :: 0 <= b < a && after[order[..a][b]].id == d {
        ChainDependencies(p, rows, a, d);
        assert HasId(rows, d);
        var j :| 0 <= j < |rows| && rows[j].id == d;
        assert j < a;
        assert after[order[..a][j]].id == d;
      }
    }
  }

  /**
   After the installation the tasks run in ascending id order and in no other, and a run can take
   `n` of them exactly when the first `n` imported rows wait only for rows of the table with
   smaller ids.
   */
  lemma OnlyScheduleIsIdOrder(p: Plan, rows: seq<Row>)
    requires InIdOrder(rows)
    ensures forall order :: IsRun(Installed(p, rows), order) ==> order == Ascending(|order|)
    ensures forall n: nat :: n <= |rows| ==>
              (Backward(rows, n) <==> exists order :: IsRun(Installed(p, rows), order) && |order| == n)
  {
    var after := Installed(p, rows);
    forall order | IsRun(after, order) ensures order == Ascending(|order|) {
      RunIsAscending(p, rows, order, |order|);
      assert order[..|order|] == order;
    }
    forall n: nat | n <= |rows|
      ensures Backward(rows, n) <==> exists order :: IsRun(after, order) && |order| == n
    {
      if Backward(rows, n) {
        BackwardRuns(p, rows, n);
      }
      if order :| IsRun(after, order) && |order| == n {
        RunMeansBackward(p, rows, n);
      }
    }
  }
}
