/**
 The backlog counters of the release check: the open checkboxes of a backlog text, and per phase
 heading the open, closed and total checkboxes up to the next heading.
 */
module Backlog {
  import opened PyText
  import opened Sums

  datatype Kind = Heading | OpenBox | ClosedBox | Other

  datatype PhaseState = NO_CHECKBOXES | CHECKBOXES_CLOSED | OPEN

  datatype Phase = Phase(heading: string, line: nat, open: nat, closed: nat, total: nat, status: PhaseState)

  datatype Entry = Entry(line: nat, text: string)

  /** How the phase counter reads a line; a heading is never also a checkbox. */
  function KindOf(line: string): Kind {
    if StartsWith(line, "## Phase ") then Heading
    else if StartsWith(StripLeft(line), "- [ ]") then OpenBox
    else if StartsWith(StripLeft(line), "- [x]") then ClosedBox
    else Other
  }

  lemma OpenLineIsOpenBox(line: string)
    ensures StartsWith(StripLeft(line), "- [ ]") <==> KindOf(line) == OpenBox
  {
    if StartsWith(line, "## Phase ") {
      assert line[0] == '#';
      assert StripLeft(line) == line;
      assert "- [ ]"[0] == '-';
    }
  }

  /** Headings start at the margin; a checkbox may be indented, and is no heading. */
  lemma KindsAsWritten(line: string)
    ensures KindOf(line) == Heading <==> "## Phase " <= line
    ensures KindOf(line) == OpenBox <==> "- [ ]" <= StripLeft(line)
    ensures KindOf(line) == ClosedBox <==> "- [x]" <= StripLeft(line)
  {
    OpenLineIsOpenBox(line);
    if "## Phase " <= line {
      assert line[0] == '#';
      assert StripLeft(line) == line;
      assert "- [x]"[0] == '-';
    }
    if "- [ ]" <= StripLeft(line) {
      assert StripLeft(line)[3] == ' ';
      assert "- [x]"[3] == 'x';
    }
  }

  /** The kinds of all lines; everything that is counted depends on these alone. */
  function KindsOf(lines: seq<string>): (ks: seq<Kind>)
    ensures |ks| == |lines| && forall n :: 0 <= n < |lines| ==> ks[n] == KindOf(lines[n])
  {
    seq(|lines|, n requires 0 <= n < |lines| => KindOf(lines[n]))
  }

  function Count(ks: seq<Kind>, kind: Kind): nat { CountIf(ks, k => k == kind) }

  lemma CountSnoc(ks: seq<Kind>, k: Kind, kind: Kind)
    ensures Count(ks + [k], kind) == Count(ks, kind) + (if k == kind then 1 else 0)
  {
    CountIfSnoc(ks, k, j => j == kind);
  }

  lemma CountConcat(xs: seq<Kind>, ys: seq<Kind>, kind: Kind)
    ensures Count(xs + ys, kind) == Count(xs, kind) + Count(ys, kind)
  {
    CountIfConcat(xs, ys, k => k == kind);
  }

  lemma KindsSnoc(lines: seq<string>, n: nat)
    requires n < |lines|
    ensures KindsOf(lines)[..n + 1] == KindsOf(lines)[..n] + [KindOf(lines[n])]
  {
  }

  // ----- The open checkboxes -----

  /** Entry `e` is the open checkbox on its line. */
  predicate IsOpenEntry(e: Entry, lines: seq<string>) {
    1 <= e.line <= |lines| && KindOf(lines[e.line - 1]) == OpenBox && e.text == Strip(lines[e.line - 1])
  }

  method OpenBacklogCheckboxes(lines: seq<string>) returns (entries: seq<Entry>)
    ensures |entries| == Count(KindsOf(lines), OpenBox)
    ensures forall k :: 0 <= k < |entries| ==> IsOpenEntry(entries[k], lines)
    ensures forall j, k :: 0 <= j < k < |entries| ==> entries[j].line < entries[k].line
  {
    ghost var ks := KindsOf(lines);
    entries := [];
    for n := 0 to |lines|
      invariant |entries| == Count(ks[..n], OpenBox)
      invariant forall k :: 0 <= k < |entries| ==> IsOpenEntry(entries[k], lines) && entries[k].line <= n
      invariant forall j, k :: 0 <= j < k < |entries| ==> entries[j].line < entries[k].line
    {
      OpenLineIsOpenBox(lines[n]);
      KindsSnoc(lines, n);
      CountSnoc(ks[..n], KindOf(lines[n]), OpenBox);
      var isOpen := StartsWith(StripLeft(lines[n]), "- [ ]");
      if isOpen {
        entries := entries + [Entry(n + 1, Strip(lines[n]))];
      }
    }
    assert ks[..|lines|] == ks;
  }

  // ----- Sections -----

  /** The lines before the first heading, and for each heading its line and those up to the next. */
  datatype Outline = Outline(preamble: seq<Kind>, sections: seq<seq<Kind>>)

  function AddLine(o: Outline, kind: Kind): Outline {
    if kind == Heading then o.(sections := o.sections + [[kind]])
    else if o.sections == [] then o.(preamble := o.preamble + [kind])
    else
      var last := |o.sections| - 1;
      o.(sections := o.sections[last := o.sections[last] + [kind]])
  }

  function OutlineOf(ks: seq<Kind>): Outline {
    if ks == [] then Outline([], []) else AddLine(OutlineOf(ks[..|ks| - 1]), ks[|ks| - 1])
  }

  function Flatten(sections: seq<seq<Kind>>): seq<Kind> { FlatMap(sections, (s: seq<Kind>) => s) }

  /** A section is one heading and no further one. */
  predicate IsSection(section: seq<Kind>) {
    section != [] && section[0] == Heading && Heading !in section[1..]
  }

  predicate WellOutlined(o: Outline) {
    Heading !in o.preamble && forall k :: 0 <= k < |o.sections| ==> IsSection(o.sections[k])
  }

  lemma AddLineKeeps(o: Outline, kind: Kind)
    requires WellOutlined(o)
    ensures WellOutlined(AddLine(o, kind))
    ensures AddLine(o, kind).preamble + Flatten(AddLine(o, kind).sections) == o.preamble + Flatten(o.sections) + [kind]
  {
    var after := AddLine(o, kind);
    if kind == Heading {
      assert after.sections[..|o.sections|] == o.sections;
    } else if o.sections != [] {
      var last := |o.sections| - 1;
      assert after.sections[..last] == o.sections[..last];
      assert after.sections[last][1..] == o.sections[last][1..] + [kind];
      forall k | 0 <= k < |after.sections| ensures IsSection(after.sections[k]) {
        assert IsSection(o.sections[k]);
      }
    }
  }

  /** The outline cuts the text at its headings and loses nothing. */
  lemma {:induction false} OutlineLossless(ks: seq<Kind>)
    ensures WellOutlined(OutlineOf(ks))
    ensures OutlineOf(ks).preamble + Flatten(OutlineOf(ks).sections) == ks
  {
    if ks == [] {
    } else {
      var front := ks[..|ks| - 1];
      OutlineLossless(front);
      AddLineKeeps(OutlineOf(front), ks[|ks| - 1]);
      assert ks == front + [ks[|ks| - 1]];
    }
  }

  // ----- Phases -----

  function StatusFor(open: nat, total: nat): PhaseState {
    if total == 0 then NO_CHECKBOXES else if open == 0 then CHECKBOXES_CLOSED else OPEN
  }

  /** `line.removeprefix("## ").strip()` */
  function HeadingText(line: string): string {
    Strip(if StartsWith(line, "## ") then line[3..] else line)
  }

  /** The heading texts of all lines. */
  function Titles(lines: seq<string>): (r: seq<string>)
    ensures |r| == |lines| && forall n :: 0 <= n < |lines| ==> r[n] == HeadingText(lines[n])
  {
    seq(|lines|, n requires 0 <= n < |lines| => HeadingText(lines[n]))
  }

  /** The counters of a phase are those of its section. */
  predicate PhaseCounts(p: Phase, section: seq<Kind>) {
    && p.open == Count(section, OpenBox)
    && p.closed == Count(section, ClosedBox)
    && p.total == p.open + p.closed
  }

  predicate Counted(phases: seq<Phase>, o: Outline) {
    |phases| == |o.sections| && forall k :: 0 <= k < |phases| ==> PhaseCounts(phases[k], o.sections[k])
  }

  /** The phase stands on a heading line and carries its text. */
  predicate Titled(p: Phase, ks: seq<Kind>, titles: seq<string>) {
    1 <= p.line <= |ks| == |titles| && ks[p.line - 1] == Heading && p.heading == titles[p.line - 1]
  }

  /** The phases stand on ascending heading lines. */
  predicate AllTitled(phases: seq<Phase>, ks: seq<Kind>, titles: seq<string>, upTo: nat) {
    && (forall k :: 0 <= k < |phases| ==> Titled(phases[k], ks, titles) && phases[k].line <= upTo)
    && (forall j, k :: 0 <= j < k < |phases| ==> phases[j].line < phases[k].line)
  }

  /** What one more line of its section makes of a phase. */
  function Absorb(p: Phase, kind: Kind): Phase {
    if kind == OpenBox then p.(total := p.total + 1, open := p.open + 1)
    else if kind == ClosedBox then p.(total := p.total + 1, closed := p.closed + 1)
    else p
  }

  /** The phases after one more line. */
  function Extended(phases: seq<Phase>, kind: Kind, heading: string, number: nat): seq<Phase> {
    if kind == Heading then phases + [Phase(heading, number, 0, 0, 0, NO_CHECKBOXES)]
    else if phases == [] then []
    else phases[|phases| - 1 := Absorb(phases[|phases| - 1], kind)]
  }

  lemma NewPhaseCounts(heading: string, number: nat)
    ensures PhaseCounts(Phase(heading, number, 0, 0, 0, NO_CHECKBOXES), [Heading])
  {
    assert [Heading][..0] == [];
  }

  lemma AbsorbCounts(p: Phase, section: seq<Kind>, kind: Kind)
    requires PhaseCounts(p, section)
    ensures PhaseCounts(Absorb(p, kind), section + [kind])
  {
    CountSnoc(section, kind, OpenBox);
    CountSnoc(section, kind, ClosedBox);
  }

  lemma ExtendedCounts(phases: seq<Phase>, o: Outline, kind: Kind, heading: string, number: nat)
    requires Counted(phases, o)
    ensures Counted(Extended(phases, kind, heading, number), AddLine(o, kind))
  {
    var after, next := Extended(phases, kind, heading, number), AddLine(o, kind);
    forall k | 0 <= k < |after| ensures PhaseCounts(after[k], next.sections[k]) {
      if kind == Heading && k == |phases| {
        NewPhaseCounts(heading, number);
      } else {
        assert PhaseCounts(phases[k], o.sections[k]);
        if kind != Heading && k == |phases| - 1 {
          AbsorbCounts(phases[k], o.sections[k], kind);
        }
      }
    }
  }

  lemma ExtendedTitles(phases: seq<Phase>, ks: seq<Kind>, titles: seq<string>, n: nat)
    requires n < |ks| == |titles| && AllTitled(phases, ks, titles, n)
    ensures AllTitled(Extended(phases, ks[n], titles[n], n + 1), ks, titles, n + 1)
  {
  }

  /** The body of the counting loop; the current phase is always the last one. */
  method ReadLine(phases: seq<Phase>, lines: seq<string>, n: nat) returns (r: seq<Phase>)
    requires n < |lines|
    ensures r == Extended(phases, KindsOf(lines)[n], Titles(lines)[n], n + 1)
  {
    var line := lines[n];
    if StartsWith(line, "## Phase ") {
      return phases + [Phase(HeadingText(line), n + 1, 0, 0, 0, NO_CHECKBOXES)];
    }
    if phases == [] {
      return [];
    }
    var last := |phases| - 1;
    var current := phases[last];
    var stripped := StripLeft(line);
    if StartsWith(stripped, "- [ ]") || StartsWith(stripped, "- [x]") {
      current := current.(total := current.total + 1);
      if StartsWith(stripped, "- [ ]") {
        current := current.(open := current.open + 1);
      } else {
        current := current.(closed := current.closed + 1);
      }
    }
    r := phases[last := current];
  }

  method CountPhases(lines: seq<string>) returns (phases: seq<Phase>)
    ensures Counted(phases, OutlineOf(KindsOf(lines)))
    ensures AllTitled(phases, KindsOf(lines), Titles(lines), |lines|)
  {
    ghost var ks, titles := KindsOf(lines), Titles(lines);
    phases := [];
    for n := 0 to |lines|
      invariant Counted(phases, OutlineOf(ks[..n]))
      invariant AllTitled(phases, ks, titles, n)
    {
      ExtendedCounts(phases, OutlineOf(ks[..n]), ks[n], titles[n], n + 1);
      ExtendedTitles(phases, ks, titles, n);
      phases := ReadLine(phases, lines, n);
      assert ks[..n + 1][..n] == ks[..n];
    }
    assert ks[..|lines|] == ks;
  }

  /**
   Every phase stands on its heading, counts exactly the checkboxes of its own section, and has
   the status that follows from them.
   */
  method PhaseBacklogStatus(lines: seq<string>) returns (phases: seq<Phase>)
    ensures Counted(phases, OutlineOf(KindsOf(lines)))
    ensures AllTitled(phases, KindsOf(lines), Titles(lines), |lines|)
    ensures forall k :: 0 <= k < |phases| ==> phases[k].status == StatusFor(phases[k].open, phases[k].total)
    ensures forall k :: 0 <= k < |phases| ==>
              && (phases[k].status == NO_CHECKBOXES <==> phases[k].total == 0)
              && (phases[k].status == OPEN <==> phases[k].open > 0)
    ensures forall k :: 0 <= k < |phases| ==>
              var line := lines[phases[k].line - 1];
              "## Phase " <= line && phases[k].heading == Strip(line[3..])
  {
    var counted := CountPhases(lines);
    phases := counted;
    for k := 0 to |phases|
      invariant |phases| == |counted|
      invariant forall j :: 0 <= j < |phases| ==>
                  phases[j] == if j < k then counted[j].(status := StatusFor(counted[j].open, counted[j].total))
                               else counted[j]
    {
      var p := phases[k];
      var status := OPEN;
      if p.total == 0 {
        status := NO_CHECKBOXES;
      } else if p.open == 0 {
        status := CHECKBOXES_CLOSED;
      }
      phases := phases[k := p.(status := status)];
    }
    forall k | 0 <= k < |phases| ensures phases[k].line == counted[k].line && phases[k].heading == counted[k].heading {
      HeadingOnLine(lines, counted[k]);
    }
    WithStatuses(counted, phases, OutlineOf(KindsOf(lines)), KindsOf(lines), Titles(lines), |lines|);
  }

  lemma HeadingOnLine(lines: seq<string>, p: Phase)
    requires Titled(p, KindsOf(lines), Titles(lines))
    ensures var line := lines[p.line - 1];
            "## Phase " <= line && p.heading == Strip(line[3..])
  {
    KindsAsWritten(lines[p.line - 1]);
  }

  lemma WithStatuses(counted: seq<Phase>, phases: seq<Phase>, o: Outline, ks: seq<Kind>, titles: seq<string>, upTo: nat)
    requires Counted(counted, o) && AllTitled(counted, ks, titles, upTo) && |phases| == |counted|
    requires forall k :: 0 <= k < |phases| ==> phases[k] == counted[k].(status := phases[k].status)
    ensures Counted(phases, o) && AllTitled(phases, ks, titles, upTo)
  {
    forall k | 0 <= k < |phases| ensures PhaseCounts(phases[k], o.sections[k]) && Titled(phases[k], ks, titles) {
      assert PhaseCounts(counted[k], o.sections[k]) && Titled(counted[k], ks, titles);
    }
  }

  // ----- The phases together -----

  function TotalOpen(phases: seq<Phase>): nat {
    if phases == [] then 0 else TotalOpen(phases[..|phases| - 1]) + phases[|phases| - 1].open
  }

  function TotalBoxes(phases: seq<Phase>): nat {
    if phases == [] then 0 else TotalBoxes(phases[..|phases| - 1]) + phases[|phases| - 1].total
  }

  function Boxes(ks: seq<Kind>): nat { Count(ks, OpenBox) + Count(ks, ClosedBox) }

  lemma {:induction false} SectionsAddUp(phases: seq<Phase>, sections: seq<seq<Kind>>)
    requires |phases| == |sections| && forall k :: 0 <= k < |phases| ==> PhaseCounts(phases[k], sections[k])
    ensures TotalOpen(phases) == Count(Flatten(sections), OpenBox)
    ensures TotalBoxes(phases) == Boxes(Flatten(sections))
  {
    if phases == [] {
    } else {
      var last := |phases| - 1;
      SectionsAddUp(phases[..last], sections[..last]);
      CountConcat(Flatten(sections[..last]), sections[last], OpenBox);
      CountConcat(Flatten(sections[..last]), sections[last], ClosedBox);
    }
  }

  /** The lines from the first heading on. */
  function AfterFirst(ks: seq<Kind>): seq<Kind> { Flatten(OutlineOf(ks).sections) }

  /**
   Nothing is lost between the two counters: open boxes before the first heading and over all
   phases are all open boxes of the text, and the totals are all boxes from the first heading on.
   */
  lemma PhasesConserveBoxes(phases: seq<Phase>, ks: seq<Kind>)
    requires Counted(phases, OutlineOf(ks))
    ensures Count(OutlineOf(ks).preamble, OpenBox) + TotalOpen(phases) == Count(ks, OpenBox)
    ensures TotalBoxes(phases) == Boxes(AfterFirst(ks))
  {
    SectionsAddUp(phases, OutlineOf(ks).sections);
    OutlineLossless(ks);
    CountConcat(OutlineOf(ks).preamble, AfterFirst(ks), OpenBox);
  }

  lemma {:induction false} NoOpenMeansZero(phases: seq<Phase>)
    ensures TotalOpen(phases) == 0 <==> forall k :: 0 <= k < |phases| ==> phases[k].open == 0
  {
    if phases == [] {
    } else {
      NoOpenMeansZero(phases[..|phases| - 1]);
      assert forall k :: 0 <= k < |phases| - 1 ==> phases[..|phases| - 1][k] == phases[k];
    }
  }

  /** No phase is OPEN exactly when no open checkbox follows the first heading. */
  lemma NoPhaseOpen(phases: seq<Phase>, ks: seq<Kind>)
    requires Counted(phases, OutlineOf(ks))
    requires forall k :: 0 <= k < |phases| ==> phases[k].status == StatusFor(phases[k].open, phases[k].total)
    ensures (forall k :: 0 <= k < |phases| ==> phases[k].status != OPEN) <==> Count(AfterFirst(ks), OpenBox) == 0
  {
    SectionsAddUp(phases, OutlineOf(ks).sections);
    NoOpenMeansZero(phases);
    forall k | 0 <= k < |phases| ensures phases[k].status == OPEN <==> phases[k].open > 0 {
      assert PhaseCounts(phases[k], OutlineOf(ks).sections[k]);
    }
  }
}
