/** Block surgery on the .tf files of a working copy: locating a resource block by brace counting
  * (src/remediators/terraform_mapper.py, locate_block), removing it and searching references
  * (src/remediators/terraform_editor.py).
  *
  * A line is what the regular expressions and brace counts of the source see of it.
  */
module TerraformFiles {
  import opened Wrappers

  /** A Terraform resource by type and name, as in `resource "aws_eip" "orphan"`. */
  datatype Ref = Ref(kind: string, name: string)

  /** `header`: what the block-header pattern matches, brace included.
    * `declares`: what the looser pattern without the brace matches, used to skip a block's own header.
    * `mentions`: the resources for which a `type.name` reference is found on the line. */
  datatype RawLine = RawLine(
    text: string, header: Option<Ref>, declares: Option<Ref>, mentions: set<Ref>,
    opens: nat, closes: nat, blank: bool, comment: bool)

  /** A whitespace-only line matches no pattern and holds no brace. */
  predicate Coherent(l: RawLine) {
    l.blank ==> l.header == None && l.mentions == {} && l.opens == 0 && l.closes == 0
  }

  type Line = l: RawLine | Coherent(l) witness RawLine("", None, None, {}, 0, 0, true, false)

  datatype TfFile = TfFile(name: string, readable: bool, lines: seq<Line>)

  /** The .tf files in the order of the sorted directory listing. */
  type Directory = seq<TfFile>

  predicate DistinctNames(dir: Directory) {
    forall f, g :: 0 <= f < g < |dir| ==> dir[f].name != dir[g].name
  }

  // ----- brace depth -----------------------------------------------------------------------------

  /** Braces opened minus braces closed. */
  function Net(lines: seq<Line>): int {
    if lines == [] then 0
    else Net(lines[..|lines|-1]) + lines[|lines|-1].opens - lines[|lines|-1].closes
  }

  lemma {:induction false} NetOfConcat(a: seq<Line>, b: seq<Line>)
    ensures Net(a + b) == Net(a) + Net(b)
  {
    if b == [] {
      assert a + b == a;
    } else {
      NetOfConcat(a, b[..|b|-1]);
      assert (a + b)[..|a + b|-1] == a + b[..|b|-1];
    }
  }

  lemma NetOfSplit(lines: seq<Line>, i: nat, j: nat, k: nat)
    requires i <= j <= k <= |lines|
    ensures Net(lines[i..k]) == Net(lines[i..j]) + Net(lines[j..k])
  {
    assert lines[i..k] == lines[i..j] + lines[j..k];
    NetOfConcat(lines[i..j], lines[j..k]);
  }

  /** The depth after line k, counted from line i. */
  function Depth(lines: seq<Line>, i: nat, k: nat): int
    requires i <= k < |lines|
  {
    Net(lines[i..k+1])
  }

  /** Lines i..j form a brace-balanced block that is not closed earlier. */
  predicate IsBlock(lines: seq<Line>, i: int, j: int) {
    && 0 <= i <= j < |lines|
    && Depth(lines, i, j) == 0
    && forall k :: i <= k < j ==> Depth(lines, i, k) != 0
  }

  // ----- locating a block ------------------------------------------------------------------------

  datatype Location =
    | NotFound
    | Unbalanced(file: string, start: nat)
    | Found(file: string, start: nat, end: nat)  // 1-based, inclusive

  /** The first line at or after i carrying the header of ref; |lines| if there is none. */
  function HeaderAt(lines: seq<Line>, ref: Ref, i: nat): (h: nat)
    requires i <= |lines|
    ensures i <= h <= |lines|
    ensures h < |lines| ==> lines[h].header == Some(ref)
    ensures forall k :: i <= k < h ==> lines[k].header != Some(ref)
    decreases |lines| - i
  {
    if i == |lines| || lines[i].header == Some(ref) then i else HeaderAt(lines, ref, i + 1)
  }

  /** The first line at or after j where the braces opened since i are closed; |lines| if none. */
  function EndAt(lines: seq<Line>, i: nat, j: nat): (e: nat)
    requires i <= j <= |lines|
    ensures j <= e <= |lines|
    ensures e < |lines| ==> Depth(lines, i, e) == 0
    ensures forall k :: j <= k < e ==> Depth(lines, i, k) != 0
    decreases |lines| - j
  {
    if j == |lines| || Depth(lines, i, j) == 0 then j else EndAt(lines, i, j + 1)
  }

  function LocateInFile(file: TfFile, ref: Ref): Location {
    var h := HeaderAt(file.lines, ref, 0);
    if !file.readable || h == |file.lines| then NotFound
    else
      var e := EndAt(file.lines, h, h);
      if e == |file.lines| then Unbalanced(file.name, h + 1) else Found(file.name, h + 1, e + 1)
  }

  function Locate(dir: Directory, ref: Ref): Location {
    if dir == [] then NotFound
    else
      var here := LocateInFile(dir[0], ref);
      if here != NotFound then here else Locate(dir[1..], ref)
  }

  // ----- removing a block ------------------------------------------------------------------------

  datatype EditError = NoSuchFile | CannotRead | InvalidRange

  /** The index past the blank lines that start at position `end`. */
  function PastBlanks(lines: seq<Line>, end: nat): (e: nat)
    requires end <= |lines|
    ensures end <= e <= |lines|
    ensures forall k :: end <= k < e ==> lines[k].blank
    ensures e < |lines| ==> !lines[e].blank
    decreases |lines| - end
  {
    if end == |lines| || !lines[end].blank then end else PastBlanks(lines, end + 1)
  }

  predicate ValidRange(lines: seq<Line>, start: nat, end: nat) { 1 <= start <= end <= |lines| }

  /** How many lines an edit of [start, end] takes out of the file. */
  function Shift(lines: seq<Line>, start: nat, end: nat): nat
    requires ValidRange(lines, start, end)
  {
    PastBlanks(lines, end) - (start - 1)
  }

  function Without(lines: seq<Line>, start: nat, end: nat): seq<Line>
    requires ValidRange(lines, start, end)
  {
    lines[..start-1] + lines[PastBlanks(lines, end)..]
  }

  function IndexOf(dir: Directory, name: string): (f: nat)
    ensures f <= |dir|
    ensures f < |dir| ==> dir[f].name == name
    ensures forall k :: 0 <= k < f ==> dir[k].name != name
  {
    if dir == [] || dir[0].name == name then 0 else 1 + IndexOf(dir[1..], name)
  }

  function Removed(dir: Directory, file: string, start: nat, end: nat): Result<Directory, EditError> {
    var f := IndexOf(dir, file);
    if f == |dir| then Failure(NoSuchFile)
    else if !dir[f].readable then Failure(CannotRead)
    else if !ValidRange(dir[f].lines, start, end) then Failure(InvalidRange)
    else Success(dir[f := dir[f].(lines := Without(dir[f].lines, start, end))])
  }

  // ----- references ------------------------------------------------------------------------------

  datatype Hit = Hit(file: string, line: nat)

  datatype Exclusion = Nothing | Lines(file: string, first: nat, last: nat)

  predicate Excluded(ex: Exclusion, file: string, line: nat) {
    ex.Lines? && ex.file == file && ex.first <= line <= ex.last
  }

  /** A line that refers to the resource: not a comment, not the resource's own header. */
  predicate Refers(l: Line, ref: Ref) {
    !l.comment && ref in l.mentions && l.declares != Some(ref)
  }

  function HitOn(file: string, line: Line, number: nat, ref: Ref, ex: Exclusion): seq<Hit> {
    if Refers(line, ref) && !Excluded(ex, file, number) then [Hit(file, number)] else []
  }

  /** Hits among `lines`, the first of which is numbered `before + 1`. */
  function HitsInLines(file: string, lines: seq<Line>, before: nat, ref: Ref, ex: Exclusion): seq<Hit> {
    if lines == [] then []
    else
      HitOn(file, lines[0], before + 1, ref, ex) + HitsInLines(file, lines[1..], before + 1, ref, ex)
  }

  predicate AllReadable(dir: Directory) { forall f :: 0 <= f < |dir| ==> dir[f].readable }

  function HitsInFiles(dir: Directory, ref: Ref, ex: Exclusion): seq<Hit> {
    if dir == [] then []
    else HitsInLines(dir[0].name, dir[0].lines, 0, ref, ex) + HitsInFiles(dir[1..], ref, ex)
  }

  /** Unlike locating, the search does not skip a file it cannot read. */
  function FindReferences(dir: Directory, ref: Ref, ex: Exclusion): Result<seq<Hit>, EditError> {
    if AllReadable(dir) then Success(HitsInFiles(dir, ref, ex)) else Failure(CannotRead)
  }

  lemma {:induction false} HitsSplit(file: string, a: seq<Line>, b: seq<Line>, before: nat, ref: Ref, ex: Exclusion)
    ensures HitsInLines(file, a + b, before, ref, ex)
         == HitsInLines(file, a, before, ref, ex) + HitsInLines(file, b, before + |a|, ref, ex)
  {
    if a == [] {
      assert a + b == b;
    } else {
      HitsSplit(file, a[1..], b, before + 1, ref, ex);
      assert (a + b)[0] == a[0] && (a + b)[1..] == a[1..] + b;
      Reassociate(HitOn(file, a[0], before + 1, ref, ex), HitsInLines(file, a[1..], before + 1, ref, ex),
                  HitsInLines(file, b, before + |a|, ref, ex));
    }
  }

  lemma {:induction false} HitsSplitFiles(a: Directory, b: Directory, ref: Ref, ex: Exclusion)
    ensures HitsInFiles(a + b, ref, ex) == HitsInFiles(a, ref, ex) + HitsInFiles(b, ref, ex)
  {
    if a == [] {
      assert a + b == b;
    } else {
      HitsSplitFiles(a[1..], b, ref, ex);
      assert (a + b)[0] == a[0] && (a + b)[1..] == a[1..] + b;
      Reassociate(HitsInLines(a[0].name, a[0].lines, 0, ref, ex), HitsInFiles(a[1..], ref, ex), HitsInFiles(b, ref, ex));
    }
  }

  lemma NoHits(dir: Directory, ref: Ref, ex: Exclusion)
    requires dir == []
    ensures HitsInFiles(dir, ref, ex) == []
  {
  }

  lemma HitsGrow(file: string, lines: seq<Line>, i: nat, ref: Ref, ex: Exclusion)
    requires i < |lines|
    ensures HitsInLines(file, lines[..i+1], 0, ref, ex)
         == HitsInLines(file, lines[..i], 0, ref, ex) + HitOn(file, lines[i], i + 1, ref, ex)
  {
    HitsSplit(file, lines[..i], [lines[i]], 0, ref, ex);
    assert lines[..i+1] == lines[..i] + [lines[i]];
    assert HitsInLines(file, [lines[i]], i, ref, ex) == HitOn(file, lines[i], i + 1, ref, ex) + [];
  }

  lemma HitsGrowFiles(dir: Directory, f: nat, ref: Ref, ex: Exclusion)
    requires f < |dir|
    ensures HitsInFiles(dir[..f+1], ref, ex)
         == HitsInFiles(dir[..f], ref, ex) + HitsInLines(dir[f].name, dir[f].lines, 0, ref, ex)
  {
    HitsSplitFiles(dir[..f], [dir[f]], ref, ex);
    assert dir[..f+1] == dir[..f] + [dir[f]];
    assert HitsInFiles([dir[f]], ref, ex) == HitsInLines(dir[f].name, dir[f].lines, 0, ref, ex) + [];
  }

  // ----- the operations on a working copy --------------------------------------------------------

  class WorkingCopy {
    var files: Directory

    constructor (files: Directory)
      ensures this.files == files
    {
      this.files := files;
    }

    static method FindEnd(lines: seq<Line>, i: nat) returns (e: nat)
      requires i < |lines|
      ensures e == EndAt(lines, i, i)
    {
      var depth := 0;
      for j := i to |lines|
        invariant depth == Net(lines[i..j])
        invariant EndAt(lines, i, i) == EndAt(lines, i, j)
      {
        depth := depth + lines[j].opens - lines[j].closes;
        assert lines[i..j+1][..j-i] == lines[i..j];
        if depth == 0 {
          return j;
        }
      }
      return |lines|;
    }

    method LocateBlock(ref: Ref) returns (where_: Location)
      ensures where_ == Locate(files, ref)
    {
      for f := 0 to |files|
        invariant Locate(files, ref) == Locate(files[f..], ref)
      {
        var file := files[f];
        if file.readable {
          var lines := file.lines;
          for i := 0 to |lines|
            invariant HeaderAt(lines, ref, 0) == HeaderAt(lines, ref, i)
          {
            if lines[i].header == Some(ref) {
              var e := FindEnd(lines, i);
              return if e == |lines| then Unbalanced(file.name, i + 1) else Found(file.name, i + 1, e + 1);
            }
          }
        }
        assert files[f..][1..] == files[f+1..];
      }
      return NotFound;
    }

    method RemoveBlock(file: string, start: nat, end: nat) returns (error: Option<EditError>)
      modifies this
      ensures match Removed(old(files), file, start, end)
              case Success(edited) => error == None && files == edited
              case Failure(e) => error == Some(e) && files == old(files)
    {
      var f := 0;
      while f < |files| && files[f].name != file
        invariant f <= |files| && IndexOf(files, file) == f + IndexOf(files[f..], file)
      {
        assert files[f..][1..] == files[f+1..];
        f := f + 1;
      }
      if f == |files| {
        return Some(NoSuchFile);
      }
      if !files[f].readable {
        return Some(CannotRead);
      }
      var oldLines := files[f].lines;
      if !(1 <= start <= end <= |oldLines|) {
        return Some(InvalidRange);
      }
      var e := end;
      while e < |oldLines| && oldLines[e].blank
        invariant end <= e <= |oldLines| && PastBlanks(oldLines, e) == PastBlanks(oldLines, end)
      {
        e := e + 1;
      }
      files := files[f := files[f].(lines := oldLines[..start-1] + oldLines[e..])];
      return None;
    }

    method References(ref: Ref, ex: Exclusion) returns (r: Result<seq<Hit>, EditError>)
      ensures r == FindReferences(files, ref, ex)
    {
      hide HitsInFiles;
      var references: seq<Hit> := [];
      assert HitsInFiles(files[..0], ref, ex) == [] by { NoHits(files[..0], ref, ex); }
      for f := 0 to |files|
        invariant forall k :: 0 <= k < f ==> files[k].readable
        invariant references == HitsInFiles(files[..f], ref, ex)
      {
        if !files[f].readable {
          return Failure(CannotRead);
        }
        var name, lines := files[f].name, files[f].lines;
        ghost var earlier := references;
        for i := 0 to |lines|
          invariant references == earlier + HitsInLines(name, lines[..i], 0, ref, ex)
        {
          HitsGrow(name, lines, i, ref, ex);
          Reassociate(earlier, HitsInLines(name, lines[..i], 0, ref, ex), HitOn(name, lines[i], i + 1, ref, ex));
          if Refers(lines[i], ref) && !Excluded(ex, name, i + 1) {
            references := references + [Hit(name, i + 1)];
          }
        }
        assert lines[..|lines|] == lines;
        HitsGrowFiles(files, f, ref, ex);
      }
      assert files[..|files|] == files;
      return Success(references);
    }
  }
}
