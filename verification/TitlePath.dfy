/** The path of a DVD title as the sampler selects it: the programs of a range of
    chapters, the cells of those programs, and the streams they carry. */
module TitlePath {
  import opened Common

  /** One program chain: the first cell of each program, and how many cells and
      programs there are; `blocks` marks cells that belong to an angle block. */
  datatype Chain = Chain(programMap: seq<nat>, cells: nat, blocks: seq<bool>)

  datatype Part = Part(chain: nat, program: nat)

  datatype Step = Step(program: nat, cell: nat)

  /** Chapters all lie in one chain and begin at ascending programs of it. */
  predicate ChaptersOk(parts: seq<Part>, chain: nat, programs: nat) {
    && |parts| > 0
    && (forall k :: 0 <= k < |parts| ==> parts[k].chain == chain && 0 < parts[k].program <= programs)
    && (forall k :: 0 < k < |parts| ==> parts[k - 1].program < parts[k].program)
  }

  /** Programs begin at ascending cells of the chain. */
  predicate ProgramsOk(c: Chain) {
    && (forall k :: 0 <= k < |c.programMap| ==> 0 < c.programMap[k] <= c.cells)
    && (forall k :: 0 < k < |c.programMap| ==> c.programMap[k - 1] < c.programMap[k])
  }

  predicate Accepted(c: Chain, parts: seq<Part>, chain: nat) {
    && ChaptersOk(parts, chain, |c.programMap|) && ProgramsOk(c)
    && |c.blocks| == c.cells && forall k :: 0 <= k < c.cells ==> !c.blocks[k]
  }

  /** The first program of a chapter; after the last chapter, one past them all. */
  function FirstProgram(c: Chain, parts: seq<Part>, chapter: nat): nat
    requires 1 <= chapter <= |parts| + 1
  {
    if chapter == |parts| + 1 then |c.programMap| + 1 else parts[chapter - 1].program
  }

  /** The first cell of a program; after the last program, one past them all. */
  function FirstCell(c: Chain, program: nat): nat
    requires 1 <= program <= |c.programMap| + 1
  {
    if program == |c.programMap| + 1 then c.cells + 1 else c.programMap[program - 1]
  }

  method CheckTitle(c: Chain, parts: seq<Part>, chain: nat) returns (ok: bool)
    requires |c.blocks| == c.cells && |parts| > 0
    ensures ok <==> Accepted(c, parts, chain)
  {
    var chapter := 0;
    while chapter < |parts|
      invariant 0 <= chapter <= |parts|
      invariant forall k :: 0 <= k < chapter ==> parts[k].chain == chain && 0 < parts[k].program <= |c.programMap|
      invariant forall k :: 0 < k < chapter ==> parts[k - 1].program < parts[k].program
    {
      var program := parts[chapter].program;
      if parts[chapter].chain != chain || program == 0 || program > |c.programMap|
        || (chapter > 0 && program <= parts[chapter - 1].program)
      {
        return false;
      }
      chapter := chapter + 1;
    }
    var program := 1;
    while program <= |c.programMap|
      invariant 1 <= program <= |c.programMap| + 1
      invariant forall k :: 0 <= k < program - 1 ==> 0 < c.programMap[k] <= c.cells
      invariant forall k :: 0 < k < program - 1 ==> c.programMap[k - 1] < c.programMap[k]
    {
      var cell := c.programMap[program - 1];
      if cell == 0 || cell > c.cells || (program > 1 && cell <= c.programMap[program - 2]) {
        return false;
      }
      program := program + 1;
    }
    var cell := 0;
    while cell < c.cells
      invariant 0 <= cell <= c.cells
      invariant forall k :: 0 <= k < cell ==> !c.blocks[k]
    {
      if c.blocks[cell] {
        return false;
      }
      cell := cell + 1;
    }
    return true;
  }

  /** The cells from `lo` up to `hi`, all of one program. */
  function CellsOf(program: nat, lo: nat, hi: nat): (path: seq<Step>)
    ensures |path| == if lo < hi then hi - lo else 0
    ensures forall k :: 0 <= k < |path| ==> path[k] == Step(program, lo + k)
    decreases hi - lo
  {
    if lo >= hi then [] else CellsOf(program, lo, hi - 1) + [Step(program, hi - 1)]
  }

  /** The steps of the programs from `first` up to `next`. */
  function ProgramPath(c: Chain, first: nat, next: nat): seq<Step>
    requires 1 <= first <= next <= |c.programMap| + 1
    decreases next - first
  {
    if first == next then []
    else ProgramPath(c, first, next - 1) + CellsOf(next - 1, FirstCell(c, next - 1), FirstCell(c, next))
  }

  /** The path of chapters `start` to `end`, both included. */
  function ChapterPath(c: Chain, parts: seq<Part>, start: nat, end: nat): seq<Step>
    requires 1 <= start <= end <= |parts|
    requires 1 <= FirstProgram(c, parts, start) <= FirstProgram(c, parts, end + 1) <= |c.programMap| + 1
  {
    ProgramPath(c, FirstProgram(c, parts, start), FirstProgram(c, parts, end + 1))
  }

  lemma {:induction false} ProgramsAscend(parts: seq<Part>, chain: nat, programs: nat, j: nat, k: nat)
    requires ChaptersOk(parts, chain, programs) && j < k < |parts|
    ensures parts[j].program < parts[k].program
  {
    if j + 1 < k {
      ProgramsAscend(parts, chain, programs, j, k - 1);
    }
  }

  /** Chapters are never empty of programs. */
  lemma ChapterBounds(c: Chain, parts: seq<Part>, chain: nat, start: nat, end: nat)
    requires Accepted(c, parts, chain) && 1 <= start <= end <= |parts|
    ensures 1 <= FirstProgram(c, parts, start) < FirstProgram(c, parts, end + 1) <= |c.programMap| + 1
  {
    if end < |parts| {
      ProgramsAscend(parts, chain, |c.programMap|, start - 1, end);
    }
  }

  lemma {:induction false} PathSplits(c: Chain, a: nat, b: nat, d: nat)
    requires 1 <= a <= b <= d <= |c.programMap| + 1
    ensures ProgramPath(c, a, d) == ProgramPath(c, a, b) + ProgramPath(c, b, d)
    decreases d - b
  {
    if b < d {
      PathSplits(c, a, b, d - 1);
    }
  }

  /** The path of chapters a to b, followed by that of b + 1 to d, is that of a to d. */
  lemma PathsJoin(c: Chain, parts: seq<Part>, chain: nat, a: nat, b: nat, d: nat)
    requires Accepted(c, parts, chain) && 1 <= a <= b < d <= |parts|
    ensures 1 <= FirstProgram(c, parts, a) <= FirstProgram(c, parts, b + 1) <= FirstProgram(c, parts, d + 1)
            <= |c.programMap| + 1
    ensures ChapterPath(c, parts, a, d) == ChapterPath(c, parts, a, b) + ChapterPath(c, parts, b + 1, d)
  {
    ChapterBounds(c, parts, chain, a, b);
    ChapterBounds(c, parts, chain, b + 1, d);
    PathSplits(c, FirstProgram(c, parts, a), FirstProgram(c, parts, b + 1), FirstProgram(c, parts, d + 1));
  }

  lemma CellsAscend(c: Chain, program: nat)
    requires ProgramsOk(c) && 1 <= program <= |c.programMap|
    ensures 0 < FirstCell(c, program) < FirstCell(c, program + 1) <= c.cells + 1
  {
  }

  /** A path is a run of consecutive cells, each within the program it is listed
      under, from the first program's first cell up to the next one's. */
  lemma {:induction false} PathIsRun(c: Chain, first: nat, next: nat, k: nat)
    requires ProgramsOk(c) && 1 <= first <= next <= |c.programMap| + 1
    ensures FirstCell(c, first) + |ProgramPath(c, first, next)| == FirstCell(c, next) <= c.cells + 1
    ensures k < |ProgramPath(c, first, next)| ==>
              var step := ProgramPath(c, first, next)[k];
              && step.cell == FirstCell(c, first) + k && 0 < step.cell <= c.cells
              && first <= step.program < next
              && FirstCell(c, step.program) <= step.cell < FirstCell(c, step.program + 1)
    decreases next - first
  {
    if first < next {
      CellsAscend(c, next - 1);
      PathIsRun(c, first, next - 1, k);
    } else if first <= |c.programMap| {
      CellsAscend(c, first);
    }
  }

  /** Prints the path, program by program and cell by cell. */
  method SelectPath(c: Chain, parts: seq<Part>, chain: nat, start: nat, end: nat) returns (path: seq<Step>)
    requires Accepted(c, parts, chain) && 1 <= start <= end <= |parts|
    ensures 1 <= FirstProgram(c, parts, start) < FirstProgram(c, parts, end + 1) <= |c.programMap| + 1
    ensures path == ChapterPath(c, parts, start, end)
  {
    ChapterBounds(c, parts, chain, start, end);
    var first := parts[start - 1].program;
    var last := if end == |parts| then |c.programMap| else parts[end].program - 1;
    path := [];
    var program := first;
    while program <= last
      invariant first <= program <= last + 1
      invariant path == ProgramPath(c, first, program)
    {
      var from := c.programMap[program - 1];
      var to := if program == |c.programMap| then c.cells + 1 else c.programMap[program];
      CellsAscend(c, program);
      ghost var before := path;
      var cell := from;
      while cell < to
        invariant from <= cell <= to
        invariant path == before + CellsOf(program, from, cell)
      {
        path := path + [Step(program, cell)];
        cell := cell + 1;
      }
      program := program + 1;
    }
  }

  /** Every range of chapters has cells. */
  lemma ChaptersHaveCells(c: Chain, parts: seq<Part>, chain: nat, start: nat, end: nat)
    requires Accepted(c, parts, chain) && 1 <= start <= end <= |parts|
    ensures 1 <= FirstProgram(c, parts, start) < FirstProgram(c, parts, end + 1) <= |c.programMap| + 1
    ensures ChapterPath(c, parts, start, end) != []
  {
    ChapterBounds(c, parts, chain, start, end);
    var first := parts[start - 1].program;
    PathSplits(c, first, first + 1, FirstProgram(c, parts, end + 1));
    PathIsRun(c, first, first + 1, 0);
    CellsAscend(c, first);
  }

  datatype Style = FourByThree | Wide | Letterbox | PanScan

  datatype Subtitle = Subtitle(source: nat, physical: nat, style: Style)

  const SUBTITLE_BASE: nat := 32
  const SUBTITLE_SLOTS: nat := 32

  /** The stored subtitles: distinct physical ids of five bits above the base. */
  ghost predicate Stored(items: seq<Subtitle>) {
    && (forall k :: 0 <= k < |items| ==> SUBTITLE_BASE <= items[k].physical < SUBTITLE_BASE + 32)
    && (forall j, k :: 0 <= j < k < |items| ==> items[j].physical != items[k].physical)
  }

  function Ids(items: seq<Subtitle>): set<nat> {
    set s | s in items :: s.physical
  }

  /** However many insertions are tried, the stored subtitles fit their slots. */
  lemma FitsSlots(items: seq<Subtitle>)
    requires Stored(items)
    ensures |items| <= SUBTITLE_SLOTS
  {
    DistinctInRange(seq(|items|, k requires 0 <= k < |items| => items[k].physical), SUBTITLE_BASE, SUBTITLE_BASE + 32);
  }

  /** Stores a subtitle unless its physical id is there already; there is always a
      free slot when it is not. */
  method AddSubtitle(items: array<Subtitle>, count: nat, source: nat, physical: nat, style: Style) returns (next: nat)
    requires items.Length == SUBTITLE_SLOTS && count <= SUBTITLE_SLOTS && Stored(items[..count])
    requires SUBTITLE_BASE <= physical < SUBTITLE_BASE + 32
    modifies items
    ensures next <= SUBTITLE_SLOTS && Stored(items[..next])
    ensures Ids(items[..next]) == Ids(old(items[..count])) + {physical}
    ensures physical in Ids(old(items[..count])) ==> next == count && items[..next] == old(items[..count])
    ensures physical !in Ids(old(items[..count])) ==>
              items[..next] == old(items[..count]) + [Subtitle(source, physical, style)]
  {
    var i := 0;
    while i < count
      invariant 0 <= i <= count
      invariant forall k :: 0 <= k < i ==> items[k].physical != physical
    {
      if items[i].physical == physical {
        assert items[..count][i] in items[..count];
        return count;
      }
      i := i + 1;
    }
    var added := Subtitle(source, physical, style);
    assert Stored(items[..count] + [added]);
    FitsSlots(items[..count] + [added]);
    items[count] := added;
    assert items[..count + 1] == old(items[..count]) + [added];
    assert Ids(items[..count + 1]) == Ids(old(items[..count])) + {physical};
    return count + 1;
  }

  /** Five bits of a subpicture control word. */
  function Field(control: nat, shift: nat): (id: nat)
    requires shift > 0
    ensures id < 32
  {
    (control / shift) % 32
  }

  predicate Present(control: nat) {
    control / 2147483648 % 2 == 1
  }

  /** The ids that one control word asks for under the aspect ratio and the
      permitted display modes of the title set. */
  function Wanted(control: nat, aspect: nat, permitted: nat): set<nat> {
    if !Present(control) then {}
    else if aspect == 0 then {SUBTITLE_BASE + Field(control, 16777216)}
    else
      {SUBTITLE_BASE + Field(control, 65536)}
      + (if permitted % 2 == 0 then {SUBTITLE_BASE + Field(control, 256)} else {})
      + (if permitted / 2 % 2 == 0 then {SUBTITLE_BASE + Field(control, 1)} else {})
  }

  function WantedBy(controls: seq<nat>, aspect: nat, permitted: nat): set<nat> {
    if controls == [] then {}
    else
      WantedBy(controls[..|controls| - 1], aspect, permitted)
      + Wanted(controls[|controls| - 1], aspect, permitted)
  }

  method MapControl(control: nat, slot: nat, aspect: nat, permitted: nat, items: array<Subtitle>, count: nat)
    returns (next: nat)
    requires items.Length == SUBTITLE_SLOTS && count <= SUBTITLE_SLOTS && Stored(items[..count])
    modifies items
    ensures next <= SUBTITLE_SLOTS && Stored(items[..next])
    ensures Ids(items[..next]) == Ids(old(items[..count])) + Wanted(control, aspect, permitted)
  {
    hide Field, Present, Stored, Ids;
    next := count;
    if !Present(control) {
      return;
    }
    if aspect == 0 {
      next := AddSubtitle(items, next, SUBTITLE_BASE + slot, SUBTITLE_BASE + Field(control, 16777216), FourByThree);
    } else {
      next := AddSubtitle(items, next, SUBTITLE_BASE + slot, SUBTITLE_BASE + Field(control, 65536), Wide);
      if permitted % 2 == 0 {
        next := AddSubtitle(items, next, SUBTITLE_BASE + slot, SUBTITLE_BASE + Field(control, 256), Letterbox);
      }
      if permitted / 2 % 2 == 0 {
        next := AddSubtitle(items, next, SUBTITLE_BASE + slot, SUBTITLE_BASE + Field(control, 1), PanScan);
      }
    }
  }

  /** All slots of the title set, up to three ids each, into the fixed array: the
      stored ids are exactly the wanted ones, each once. */
  method MapSubtitles(controls: seq<nat>, aspect: nat, permitted: nat, items: array<Subtitle>) returns (count: nat)
    requires items.Length == SUBTITLE_SLOTS && |controls| <= 32
    modifies items
    ensures count <= SUBTITLE_SLOTS && Stored(items[..count])
    ensures Ids(items[..count]) == WantedBy(controls, aspect, permitted)
  {
    hide Wanted, Stored, Ids;
    count := 0;
    NoIds(items[..0]);
    var slot := 0;
    while slot < |controls|
      invariant 0 <= slot <= |controls| && count <= SUBTITLE_SLOTS && Stored(items[..count])
      invariant Ids(items[..count]) == WantedBy(controls[..slot], aspect, permitted)
    {
      count := MapControl(controls[slot], slot, aspect, permitted, items, count);
      assert controls[..slot + 1][..slot] == controls[..slot];
      slot := slot + 1;
    }
    assert controls[..slot] == controls;
  }

  lemma NoIds(items: seq<Subtitle>)
    requires items == []
    ensures Stored(items) && Ids(items) == {}
  {
  }
}
