/**
 The installation as the source performs it: statement by statement on each contract, row by row
 over the table, in place.
 */
module ContractInstall {
  import opened Basics
  import opened ContractChain
  import opened TaskContracts

  /** The loop `for note in ...: if note not in task_notes: task_notes.append(note)`. */
  method AppendMissing(start: seq<string>, notes: seq<string>) returns (result: seq<string>)
    ensures result == AddMissing(start, notes)
  {
    result := start;
    for k := 0 to |notes|
      invariant AddMissing(result, notes[k..]) == AddMissing(start, notes)
    {
      assert notes[k..][1..] == notes[k + 1..];
      if notes[k] !in result {
        result := result + [notes[k]];
      }
    }
  }

  /** The comprehension that keeps the product page. */
  method KeepIndex(files: seq<string>) returns (kept: seq<string>)
    ensures kept == OnlyIndex(files)
  {
    kept := [];
    for k := 0 to |files|
      invariant kept + OnlyIndex(files[k..]) == OnlyIndex(files)
    {
      assert files[k..][1..] == files[k + 1..];
      if files[k] == INDEX_PAGE {
        kept := kept + [files[k]];
      }
    }
    assert files[|files|..] == [];
  }

  method NoteContract(c: Contract, notes: seq<string>) returns (r: Contract)
    ensures r == WithNotes(c, notes)
  {
    var list := AppendMissing(c.notes.GetOr([]), notes);
    r := c.(notes := Some(list));
  }

  method BindFixture(c: Contract, f: Fixture) returns (r: Contract)
    ensures r == WithFixture(c, f)
  {
    var allowed := KeepIndex(c.allowedFiles.GetOr([]));
    AddOne(allowed, f.target);
    if f.target !in allowed {
      allowed := allowed + [f.target];
    }
    r := c.(allowedFiles := Some(allowed));
    r := r.(testCommand := Some(TestCommand(f.target)));
    r := r.(fixtureSource := Some(f.source));
    r := r.(fixtureTarget := Some(f.target));
    r := r.(testPolicy := Some(OWNED_POLICY));
  }

  method RewriteRpnTask(p: Plan, c: Contract) returns (r: Contract)
    ensures r == RpnStage(p, c)
  {
    r := c.(ownerInstruction := Some(p.ownerInstruction));
    r := BindFixture(r, p.rpn);
    r := r.(publicApis := Some(RPN_APIS));
    r := r.(productFiles := Some([INDEX_PAGE]));
    r := NoteContract(r, p.rpn.notes);
  }

  method RewriteKeyed(p: Plan, key: Key, c: Contract) returns (r: Contract)
    ensures r == KeyStage(p, key, c)
  {
    r := c;
    if key == Prd(5) {
      r := r.(publicApis := Some(RPN_APIS + ALG_APIS));
      r := r.(productFiles := Some([INDEX_PAGE]));
      r := r.(seniority := Some("chief_only"));
      r := BindFixture(r, p.alg);
      r := NoteContract(r, p.alg.notes);
    } else if key == Prd(6) {
      r := r.(publicApis := Some(AccumulatedApis()));
      r := r.(productFiles := Some([INDEX_PAGE]));
      r := BindFixture(r, p.memory);
      r := NoteContract(r, p.memory.notes);
    } else if key == Prd(7) {
      r := r.(publicApis := Some(AccumulatedApis() + ["TVM"]));
      r := BindFixture(r, p.tvm);
      r := NoteContract(r, p.tvm.notes);
    }
  }

  method RewriteChief(p: Plan, index: nat, c: Contract) returns (r: Contract)
    ensures r == ChiefStage(p, index, c)
  {
    r := c;
    if index >= 3 {
      r := r.(seniority := Some("chief_only"));
      r := r.(productFiles := Some([INDEX_PAGE]));
      r := r.(publicApis := Some(RPN_APIS));
      if index >= 6 {
        r := r.(publicApis := Some(AccumulatedApis()));
      }
      r := NoteContract(r, p.chiefNotes);
    }
  }

  method RewriteIntermediate(p: Plan, index: nat, count: nat, key: Key, c: Contract) returns (r: Contract)
    ensures r == IntermediateStage(p, index, count, key, c)
  {
    r := c;
    if 7 <= index < count - 1 {
      var allowed := KeepIndex(c.allowedFiles.GetOr([]));
      r := r.(allowedFiles := Some(allowed));
      r := r.(testCommand := Some(DIFF_CHECK));
      r := r.(testPolicy := Some(OBSERVED_POLICY));
      r := NoteContract(r, [p.singlePageNote]);
      if key == Prd(8) {
        r := r.(publicApis := Some(AccumulatedApis() + ["TVM"]));
      }
    }
  }

  method RewritePackaging(p: Plan, key: Key, c: Contract) returns (r: Contract)
    ensures r == PackagingStage(p, key, c)
  {
    r := c;
    if key == Prd(18) || key == Prd(19) {
      r := r.(visualRequired := Some(false));
      r := r.(visualReference := Some(None));
      r := r.(visualOutput := Some(None));
      r := NoteContract(r, [p.packagingNote]);
    }
  }

  /** One iteration of the pass over the rows. */
  method RewriteRow(p: Plan, index: nat, count: nat, previous: int, row: Row) returns (r: Row)
    ensures r == Row(row.id, row.key, Some(Chained(row.dependencies, previous)),
                     Some(PassStage(p, index, count, row.key, row.contract.GetOr(EMPTY_CONTRACT))))
  {
    var dependencies := row.dependencies.GetOr([]);
    if previous !in dependencies {
      dependencies := dependencies + [previous];
    }
    var c := row.contract.GetOr(EMPTY_CONTRACT).(ownerInstruction := Some(p.ownerInstruction));
    c := RewriteChief(p, index, c);
    c := RewriteKeyed(p, row.key, c);
    c := RewriteIntermediate(p, index, count, row.key, c);
    c := RewritePackaging(p, row.key, c);
    r := Row(row.id, row.key, Some(dependencies), Some(c));
  }

  method RewriteFinal(p: Plan, c: Contract) returns (r: Contract)
    ensures r == FinalStage(p, c)
  {
    var target := p.challenge.target;
    var allowed := AppendMissing(c.allowedFiles.GetOr([]), [target]);
    r := BindFixture(c.(allowedFiles := Some(allowed)), p.challenge);
    r := r.(publicApis := Some(AccumulatedApis() + ["HP12CChallenge"]));
    r := r.(testerCommand := Some(TestCommand(target) + " -k complex"));
    r := r.(securityCommand := Some(TestCommand(target) + " -k security"));
    r := NoteContract(r, p.challenge.notes);
  }

  /** The task table's key column is unique. */
  predicate UniqueKeys(rows: seq<Row>) {
    forall i, j :: 0 <= i < j < |rows| ==> rows[i].key != rows[j].key
  }

  /** Row `i` after the first statement and the first `done` iterations of the pass. */
  function ProgressRow(p: Plan, before: seq<Row>, i: nat, done: nat): Row
    requires i < |before|
  {
    var row := before[i];
    var first := if row.key == RPN_KEY then Some(RpnStage(p, row.contract.GetOr(EMPTY_CONTRACT))) else row.contract;
    if 0 < i < done then
      Row(row.id, row.key, Some(Chained(row.dependencies, before[i - 1].id)),
          Some(PassStage(p, i, |before|, row.key, first.GetOr(EMPTY_CONTRACT))))
    else
      row.(contract := first)
  }

  ghost predicate Progress(p: Plan, before: seq<Row>, now: seq<Row>, done: nat) {
    |now| == |before| && forall i :: 0 <= i < |before| ==> now[i] == ProgressRow(p, before, i, done)
  }

  /** The pass over the rows: every row but the first, with the id of the row before it. */
  method PassOverRows(p: Plan, ghost before: seq<Row>, rows: array<Row>)
    requires Progress(p, before, rows[..], 0)
    modifies rows
    ensures Progress(p, before, rows[..], rows.Length)
  {
    for index := 0 to rows.Length
      invariant Progress(p, before, rows[..], index)
    {
      if index > 0 {
        var previous := rows[index - 1].id;
        var rewritten := RewriteRow(p, index, rows.Length, previous, rows[index]);
        rows[index] := rewritten;
        assert rewritten == ProgressRow(p, before, index, index + 1);
      }
      assert forall i :: 0 <= i < rows.Length && i != index ==>
        ProgressRow(p, before, i, index + 1) == ProgressRow(p, before, i, index);
    }
  }

  /** What is left after the pass is the final task. */
  lemma RowAfterPass(p: Plan, before: seq<Row>, i: nat)
    requires i < |before|
    ensures var row := ProgressRow(p, before, i, |before|);
            InstalledRow(p, before, i) ==
            if i + 1 == |before| then row.(contract := Some(FinalStage(p, row.contract.GetOr(EMPTY_CONTRACT)))) else row
  {
  }

  /** `SELECT ... WHERE key = 'LF-PRD-004'` */
  method FindRpnTask(rows: array<Row>) returns (found: nat)
    ensures found <= rows.Length
    ensures found < rows.Length ==> rows[found].key == RPN_KEY
    ensures forall i :: 0 <= i < found ==> rows[i].key != RPN_KEY
  {
    found := 0;
    while found < rows.Length && rows[found].key != RPN_KEY
      invariant found <= rows.Length
      invariant forall i :: 0 <= i < found ==> rows[i].key != RPN_KEY
    {
      found := found + 1;
    }
  }

  method FinishTable(p: Plan, ghost before: seq<Row>, rows: array<Row>)
    requires rows.Length > 0 && Progress(p, before, rows[..], rows.Length)
    modifies rows
    ensures rows[..] == Installed(p, before)
  {
    var last := rows.Length - 1;
    var final := RewriteFinal(p, rows[last].contract.GetOr(EMPTY_CONTRACT));
    forall i | 0 <= i < rows.Length
      ensures Installed(p, before)[i] ==
              if i == last then rows[last].(contract := Some(final)) else rows[i]
    {
      RowAfterPass(p, before, i);
    }
    rows[last] := rows[last].(contract := Some(final));
  }

  /** Without the RPN task nothing is written; with it the table becomes `Installed`. */
  method InstallContract(p: Plan, rows: array<Row>) returns (ok: bool)
    requires UniqueKeys(rows[..])
    modifies rows
    ensures ok <==> exists i :: 0 <= i < rows.Length && old(rows[i].key) == Prd(4)
    ensures rows[..] == if ok then Installed(p, old(rows[..])) else old(rows[..])
  {
    ghost var before := rows[..];
    var found := FindRpnTask(rows);
    if found == rows.Length {
      return false;
    }
    var rpn := RewriteRpnTask(p, rows[found].contract.GetOr(EMPTY_CONTRACT));
    rows[found] := rows[found].(contract := Some(rpn));
    PassOverRows(p, before, rows);
    FinishTable(p, before, rows);
    ok := true;
    assert before[found].key == RPN_KEY;
  }
}
