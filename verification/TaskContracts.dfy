/**
 The task table the HP12C acceptance run rewrites, and the pieces of its rewrite: the contract of
 the RPN task, the pass over all rows in id order, and the contract of the final task.
 */
module TaskContracts {
  import opened Basics
  import opened RouteLists

  /** A task contract; None is a key that is not in the dictionary, `other` every key not rewritten. */
  datatype Contract = Contract(
    ownerInstruction: Option<string>,
    allowedFiles: Option<seq<string>>,
    testCommand: Option<string>,
    fixtureSource: Option<string>,
    fixtureTarget: Option<string>,
    testPolicy: Option<string>,
    publicApis: Option<seq<string>>,
    productFiles: Option<seq<string>>,
    notes: Option<seq<string>>,
    seniority: Option<string>,
    visualRequired: Option<bool>,
    visualReference: Option<Option<string>>,
    visualOutput: Option<Option<string>>,
    testerCommand: Option<string>,
    securityCommand: Option<string>,
    other: map<string, string>)

  /** A task key: Prd(4) is LF-PRD-004, the only form the installation tests for. */
  datatype Key = Prd(number: nat) | OtherKey(text: string)

  /** A row; `dependencies` is None when the column holds nothing or something that is not a list. */
  datatype Row = Row(id: int, key: Key, dependencies: Option<seq<int>>, contract: Option<Contract>)

  const EMPTY_CONTRACT := Contract(None, None, None, None, None, None, None, None, None, None, None, None, None,
                                   None, None, map[])

  /** A protected acceptance test: where its fixture lives, where it goes, and the notes that come with it. */
  datatype Fixture = Fixture(source: string, target: string, notes: seq<string>)

  /** The texts of one installation; the results hold for any texts. */
  datatype Plan = Plan(
    ownerInstruction: string,
    rpn: Fixture, alg: Fixture, memory: Fixture, tvm: Fixture, challenge: Fixture,
    chiefNotes: seq<string>, singlePageNote: string, packagingNote: string)

  const INDEX_PAGE := "app/index.html"

  const RPN_APIS := ["RPNStack", "RPNStack.enter", "RPNStack.swap", "RPNStack.rollDown", "RPNStack.clx",
                     "RPNStack.X", "RPNStack.Y", "RPNStack.Z", "RPNStack.T"]
  const ALG_APIS := ["RPNStack.setMode", "RPNStack.evaluateExpression"]
  const MEMORY_APIS := ["RPNStack.sto", "RPNStack.rcl", "RPNStack.sto_plus", "RPNStack.sto_minus",
                        "RPNStack.sto_multiply", "RPNStack.sto_divide"]

  const OWNED_POLICY := "repository_owned_observable_behavior"
  const OBSERVED_POLICY := "observable_behavior_only"
  const DIFF_CHECK := "git diff --check"

  function AccumulatedApis(): seq<string> { RPN_APIS + ALG_APIS + MEMORY_APIS }

  function TestCommand(target: string): string { "python -m pytest " + target + " -q" }

  /** The protected tests are files of their own, never the product page. */
  predicate SeparateTargets(p: Plan) {
    && p.rpn.target != INDEX_PAGE && p.alg.target != INDEX_PAGE && p.memory.target != INDEX_PAGE
    && p.tvm.target != INDEX_PAGE && p.challenge.target != INDEX_PAGE
  }

  // ----- Lists -----

  /** Appends each of `ys`, in order, unless it is already there. */
  function AddMissing(xs: seq<string>, ys: seq<string>): seq<string>
    decreases |ys|
  {
    if ys == [] then xs
    else AddMissing(if ys[0] in xs then xs else xs + [ys[0]], ys[1..])
  }

  function OnlyIndex(files: seq<string>): seq<string> {
    if files == [] then []
    else (if files[0] == INDEX_PAGE then [files[0]] else []) + OnlyIndex(files[1..])
  }

  /** Only the product page stays, and the protected test comes with it. */
  function BindFiles(files: seq<string>, target: string): seq<string> {
    AddMissing(OnlyIndex(files), [target])
  }

  lemma {:induction false} AddMissingConcat(xs: seq<string>, ys: seq<string>, zs: seq<string>)
    ensures AddMissing(AddMissing(xs, ys), zs) == AddMissing(xs, ys + zs)
    decreases |ys|
  {
    if ys == [] {
      assert ys + zs == zs;
    } else {
      assert (ys + zs)[1..] == ys[1..] + zs;
      AddMissingConcat(if ys[0] in xs then xs else xs + [ys[0]], ys[1..], zs);
    }
  }

  /** Nothing is lost or moved, and everything asked for is there. */
  lemma {:induction false} AddMissingHolds(xs: seq<string>, ys: seq<string>)
    ensures xs <= AddMissing(xs, ys)
    ensures forall y :: y in ys ==> y in AddMissing(xs, ys)
    decreases |ys|
  {
    if ys == [] {
    } else {
      var next := if ys[0] in xs then xs else xs + [ys[0]];
      AddMissingHolds(next, ys[1..]);
      assert ys[0] in next;
      assert forall y :: y in ys ==> y == ys[0] || y in ys[1..];
    }
  }

  lemma {:induction false} AddMissingFixed(xs: seq<string>, ys: seq<string>)
    requires forall y :: y in ys ==> y in xs
    ensures AddMissing(xs, ys) == xs
    decreases |ys|
  {
    if ys == [] {
    } else {
      AddMissingFixed(xs, ys[1..]);
    }
  }

  /** What is appended: the missing elements, each once, in the order of their first occurrences. */
  lemma {:induction false} AddMissingAppends(xs: seq<string>, ys: seq<string>)
    ensures AddMissing(xs, ys) == xs + Distinct(ys, y => y !in xs)
    decreases |ys|
  {
    if ys == [] {
      assert Distinct(ys, y => y !in xs) == [];
    } else {
      var front, last := ys[..|ys| - 1], ys[|ys| - 1];
      assert ys == front + [last];
      AddMissingAppends(xs, front);
      AddMissingConcat(xs, front, [last]);
      AddOne(AddMissing(xs, front), last);
    }
  }

  lemma AddMissingIdempotent(xs: seq<string>, ys: seq<string>)
    ensures AddMissing(AddMissing(xs, ys), ys) == AddMissing(xs, ys)
  {
    AddMissingHolds(xs, ys);
    AddMissingFixed(AddMissing(xs, ys), ys);
  }

  lemma {:induction false} OnlyIndexSnoc(files: seq<string>, target: string)
    requires target != INDEX_PAGE
    ensures OnlyIndex(files + [target]) == OnlyIndex(files)
  {
    if files == [] {
      assert files + [target] == [target];
    } else {
      assert (files + [target])[1..] == files[1..] + [target];
      OnlyIndexSnoc(files[1..], target);
    }
  }

  lemma {:induction false} OnlyIndexTwice(files: seq<string>)
    ensures OnlyIndex(OnlyIndex(files)) == OnlyIndex(files)
  {
    if files == [] {
    } else {
      OnlyIndexTwice(files[1..]);
      if files[0] == INDEX_PAGE {
        assert OnlyIndex(files) == [INDEX_PAGE] + OnlyIndex(files[1..]);
        assert OnlyIndex(files)[1..] == OnlyIndex(files[1..]);
      } else {
        assert OnlyIndex(files) == OnlyIndex(files[1..]);
      }
    }
  }

  lemma AddOne(xs: seq<string>, y: string)
    ensures AddMissing(xs, [y]) == if y in xs then xs else xs + [y]
  {
    assert [y][1..] == [];
  }

  lemma OnlyIndexAfterAdd(files: seq<string>, target: string)
    requires target != INDEX_PAGE
    ensures OnlyIndex(AddMissing(files, [target])) == OnlyIndex(files)
  {
    AddOne(files, target);
    OnlyIndexSnoc(files, target);
  }

  /** What is kept is the product page, as often as it was there. */
  lemma {:induction false} OnlyIndexExact(files: seq<string>)
    ensures forall f :: f in OnlyIndex(files) ==> f == "app/index.html"
    ensures multiset(OnlyIndex(files))["app/index.html"] == multiset(files)["app/index.html"]
  {
    if files != [] {
      assert files == [files[0]] + files[1..];
      OnlyIndexExact(files[1..]);
    }
  }

  /** Binding leaves the product page and the protected test. */
  lemma BindKeepsPage(files: seq<string>, target: string)
    requires target != INDEX_PAGE
    ensures BindFiles(files, target) == OnlyIndex(files) + [target]
  {
    OnlyIndexExact(files);
    AddOne(OnlyIndex(files), target);
  }

  /** Whatever was bound before, the last binding or filtering decides. */
  lemma OnlyIndexAfterBind(files: seq<string>, target: string)
    requires target != INDEX_PAGE
    ensures OnlyIndex(BindFiles(files, target)) == OnlyIndex(files)
  {
    OnlyIndexTwice(files);
    OnlyIndexAfterAdd(OnlyIndex(files), target);
  }

  // ----- The rewrite, stage by stage -----

  function WithNotes(c: Contract, notes: seq<string>): Contract {
    c.(notes := Some(AddMissing(c.notes.GetOr([]), notes)))
  }

  /** Binds a repository-owned acceptance test to the contract. */
  function WithFixture(c: Contract, f: Fixture): Contract {
    c.(allowedFiles := Some(BindFiles(c.allowedFiles.GetOr([]), f.target)),
       testCommand := Some(TestCommand(f.target)),
       fixtureSource := Some(f.source),
       fixtureTarget := Some(f.target),
       testPolicy := Some(OWNED_POLICY))
  }

  /** The first statement of the installation, for the RPN task alone. */
  function RpnStage(p: Plan, c: Contract): Contract {
    var bound := WithFixture(c.(ownerInstruction := Some(p.ownerInstruction)), p.rpn);
    WithNotes(bound.(publicApis := Some(RPN_APIS), productFiles := Some([INDEX_PAGE])), p.rpn.notes)
  }

  function ChiefStage(p: Plan, index: nat, c: Contract): Contract {
    if index < 3 then c
    else
      WithNotes(c.(seniority := Some("chief_only"), productFiles := Some([INDEX_PAGE]),
                   publicApis := Some(if index >= 6 then AccumulatedApis() else RPN_APIS)), p.chiefNotes)
  }

  function KeyStage(p: Plan, key: Key, c: Contract): Contract {
    if key == Prd(5) then
      WithNotes(WithFixture(c.(publicApis := Some(RPN_APIS + ALG_APIS), productFiles := Some([INDEX_PAGE]),
                               seniority := Some("chief_only")), p.alg), p.alg.notes)
    else if key == Prd(6) then
      WithNotes(WithFixture(c.(publicApis := Some(AccumulatedApis()), productFiles := Some([INDEX_PAGE])), p.memory),
                p.memory.notes)
    else if key == Prd(7) then
      WithNotes(WithFixture(c.(publicApis := Some(AccumulatedApis() + ["TVM"])), p.tvm), p.tvm.notes)
    else c
  }

  predicate Intermediate(index: nat, count: nat) { 7 <= index < count - 1 }

  function IntermediateStage(p: Plan, index: nat, count: nat, key: Key, c: Contract): Contract {
    if !Intermediate(index, count) then c
    else
      var noted := WithNotes(c.(allowedFiles := Some(OnlyIndex(c.allowedFiles.GetOr([]))),
                                testCommand := Some(DIFF_CHECK), testPolicy := Some(OBSERVED_POLICY)),
                             [p.singlePageNote]);
      if key == Prd(8) then noted.(publicApis := Some(AccumulatedApis() + ["TVM"])) else noted
  }

  predicate Packaging(key: Key) { key == Prd(18) || key == Prd(19) }

  function PackagingStage(p: Plan, key: Key, c: Contract): Contract {
    if !Packaging(key) then c
    else
      WithNotes(c.(visualRequired := Some(false), visualReference := Some(None), visualOutput := Some(None)),
                [p.packagingNote])
  }

  /** What the pass over the rows does to the contract of a row other than the first. */
  function PassStage(p: Plan, index: nat, count: nat, key: Key, c: Contract): Contract {
    var owned := c.(ownerInstruction := Some(p.ownerInstruction));
    var keyed := KeyStage(p, key, ChiefStage(p, index, owned));
    PackagingStage(p, key, IntermediateStage(p, index, count, key, keyed))
  }

  /** The last statement of the installation, for the final task alone. */
  function FinalStage(p: Plan, c: Contract): Contract {
    var t := p.challenge.target;
    var added := c.(allowedFiles := Some(AddMissing(c.allowedFiles.GetOr([]), [t])));
    WithNotes(WithFixture(added, p.challenge)
                .(publicApis := Some(AccumulatedApis() + ["HP12CChallenge"]),
                  testerCommand := Some(TestCommand(t) + " -k complex"),
                  securityCommand := Some(TestCommand(t) + " -k security")), p.challenge.notes)
  }
}
