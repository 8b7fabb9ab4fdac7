/** What removing a located block does, and does not do, to the rest of a working copy. */
module TerraformSurgery {
  import opened Wrappers
  import opened TerraformFiles

  // ----- the lines of one file -------------------------------------------------------------------

  lemma {:induction false} BlanksAreNeutral(lines: seq<Line>)
    requires forall k :: 0 <= k < |lines| ==> lines[k].blank
    ensures Net(lines) == 0
  {
    if lines != [] {
      BlanksAreNeutral(lines[..|lines|-1]);
    }
  }

  /** A block has one end only. */
  lemma BlockEndIsUnique(lines: seq<Line>, i: nat, j: nat)
    requires IsBlock(lines, i, j)
    ensures EndAt(lines, i, i) == j
  {
    var e := EndAt(lines, i, i);
    assert j < |lines| && Depth(lines, i, j) == 0;
  }

  /** Taking out a balanced block and the blank lines after it leaves the running brace depth in
    * front of every surviving line as it was. */
  lemma DepthIsPreserved(lines: seq<Line>, i: nat, j: nat, k: nat)
    requires IsBlock(lines, i, j) && k <= |lines|
    ensures k <= i ==> Net(Without(lines, i + 1, j + 1)[..k]) == Net(lines[..k])
    ensures k >= PastBlanks(lines, j + 1) ==>
              Net(Without(lines, i + 1, j + 1)[..k - Shift(lines, i + 1, j + 1)]) == Net(lines[..k])
  {
    hide Net;
    var e, after := PastBlanks(lines, j + 1), Without(lines, i + 1, j + 1);
    assert lines[..k] == lines[0..k];
    if k <= i {
      SliceAfterCut(lines, i, e, 0, k);
      assert after[..k] == after[0..k];
    } else if k >= e {
      var m := k - (e - i);
      BlanksAreNeutral(lines[j+1..e]);
      assert Net(lines[i..j+1]) == Depth(lines, i, j);
      NetOfSplit(lines, i, j + 1, e);
      NetOfSplit(lines, 0, i, k);
      NetOfSplit(lines, i, e, k);
      SliceAfterCut(lines, i, e, 0, i);
      SliceAfterCut(lines, i, e, i, m);
      NetOfSplit(after, 0, i, m);
      assert after[..m] == after[0..m];
    }
  }

  /** Slices on either side of a cut. */
  lemma SliceAfterCut(lines: seq<Line>, i: nat, e: nat, a: nat, b: nat)
    requires i <= e <= |lines| && a <= b <= |lines| - (e - i) && (b <= i || i <= a)
    ensures (lines[..i] + lines[e..])[a..b] == if b <= i then lines[a..b] else lines[a + (e - i)..b + (e - i)]
  {
  }

  /** Blocks that start at depth 0 never overlap: they are the same block or disjoint. */
  lemma TopLevelBlocksAreDisjoint(lines: seq<Line>, i: nat, j: nat, i': nat, j': nat)
    requires IsBlock(lines, i, j) && IsBlock(lines, i', j')
    requires Net(lines[..i]) == 0 && Net(lines[..i']) == 0
    ensures (i == i' && j == j') || j < i' || j' < i
  {
    if i == i' {
      BlockEndIsUnique(lines, i, j);
      BlockEndIsUnique(lines, i', j');
    } else if i < i' <= j {
      DepthZeroInside(lines, i, j, i');
    } else if i' < i <= j' {
      DepthZeroInside(lines, i', j', i);
    }
  }

  lemma DepthZeroInside(lines: seq<Line>, i: nat, j: nat, m: nat)
    requires IsBlock(lines, i, j) && i < m <= j && Net(lines[..i]) == 0
    ensures Net(lines[..m]) != 0
  {
    NetOfSplit(lines, 0, i, m);
    assert lines[..m] == lines[0..m] && lines[..i] == lines[0..i];
    assert Depth(lines, i, m - 1) != 0;
  }

  // ----- a directory -----------------------------------------------------------------------------

  /** Line i (0-based) of a readable file f carries the header of ref. */
  predicate HeaderOn(dir: Directory, f: int, i: int, ref: Ref) {
    0 <= f < |dir| && dir[f].readable && 0 <= i < |dir[f].lines| && dir[f].lines[i].header == Some(ref)
  }

  predicate FirstHeader(dir: Directory, f: int, i: int, ref: Ref) {
    HeaderOn(dir, f, i, ref) && forall i' :: 0 <= i' < i ==> !HeaderOn(dir, f, i', ref)
  }

  /** Block at lines i..j (0-based) of file f is the one the search finds: its header is the first in
    * the first readable file that has one. */
  ghost predicate IsLocated(dir: Directory, ref: Ref, f: nat, i: nat, j: nat) {
    && f < |dir| && IsBlock(dir[f].lines, i, j)
    && FirstHeader(dir, f, i, ref)
    && (forall f', i' :: 0 <= f' < f ==> !HeaderOn(dir, f', i', ref))
  }

  lemma LocateInFileFacts(dir: Directory, f: nat, ref: Ref)
    requires f < |dir|
    ensures LocateInFile(dir[f], ref) == NotFound <==> forall i :: !HeaderOn(dir, f, i, ref)
    ensures forall i, j :: IsBlock(dir[f].lines, i, j) && FirstHeader(dir, f, i, ref) ==>
              LocateInFile(dir[f], ref) == Found(dir[f].name, i + 1, j + 1)
  {
    var lines, h := dir[f].lines, HeaderAt(dir[f].lines, ref, 0);
    if dir[f].readable && h < |lines| {
      assert HeaderOn(dir, f, h, ref);
    }
    forall i, j | IsBlock(lines, i, j) && FirstHeader(dir, f, i, ref)
      ensures LocateInFile(dir[f], ref) == Found(dir[f].name, i + 1, j + 1)
    {
      assert h < i ==> !HeaderOn(dir, f, h, ref);
      BlockEndIsUnique(lines, i, j);
    }
  }

  /** Locate from file f on. */
  lemma {:induction false} LocateFrom(dir: Directory, ref: Ref, f: nat)
    requires f <= |dir|
    requires forall f' :: 0 <= f' < f ==> LocateInFile(dir[f'], ref) == NotFound
    ensures Locate(dir, ref) == Locate(dir[f..], ref)
  {
    if f == 0 {
      assert dir[0..] == dir;
    } else {
      LocateFrom(dir, ref, f - 1);
      assert dir[f-1..][1..] == dir[f..];
    }
  }

  /** The search is complete: it comes back empty-handed iff no readable file has the header. */
  lemma {:induction false} NotFoundIffNoHeader(dir: Directory, ref: Ref)
    ensures Locate(dir, ref) == NotFound <==> forall f, i :: !HeaderOn(dir, f, i, ref)
    decreases |dir|
  {
    if dir != [] {
      LocateInFileFacts(dir, 0, ref);
      NotFoundIffNoHeader(dir[1..], ref);
      if Locate(dir, ref) == NotFound {
        forall f, i ensures !HeaderOn(dir, f, i, ref) {
          HeaderInTail(dir, f - 1, i, ref);
        }
      } else if LocateInFile(dir[0], ref) == NotFound {
        var f, i :| HeaderOn(dir[1..], f, i, ref);
        HeaderInTail(dir, f, i, ref);
      }
    }
  }

  lemma HeaderInTail(dir: Directory, f: int, i: int, ref: Ref)
    requires dir != []
    ensures HeaderOn(dir[1..], f, i, ref) <==> 0 <= f && HeaderOn(dir, f + 1, i, ref)
  {
  }

  lemma LocatedIsFound(dir: Directory, ref: Ref, f: nat, i: nat, j: nat)
    requires IsLocated(dir, ref, f, i, j)
    ensures Locate(dir, ref) == Found(dir[f].name, i + 1, j + 1)
  {
    forall f' | 0 <= f' < f ensures LocateInFile(dir[f'], ref) == NotFound {
      LocateInFileFacts(dir, f', ref);
    }
    LocateFrom(dir, ref, f);
    LocateInFileFacts(dir, f, ref);
    assert dir[f..][0] == dir[f];
  }

  /** A first header whose braces never close stops the search with its own line number. */
  lemma NeverClosedIsUnbalanced(dir: Directory, ref: Ref, f: nat, i: nat)
    requires FirstHeader(dir, f, i, ref) && forall f', i' :: 0 <= f' < f ==> !HeaderOn(dir, f', i', ref)
    requires forall k :: i <= k < |dir[f].lines| ==> Depth(dir[f].lines, i, k) != 0
    ensures Locate(dir, ref) == Unbalanced(dir[f].name, i + 1)
  {
    forall f' | 0 <= f' < f ensures LocateInFile(dir[f'], ref) == NotFound {
      LocateInFileFacts(dir, f', ref);
    }
    LocateFrom(dir, ref, f);
    assert dir[f..][0] == dir[f];
    var lines := dir[f].lines;
    assert HeaderAt(lines, ref, 0) == i by {
      var h := HeaderAt(lines, ref, 0);
      assert h < i ==> !HeaderOn(dir, f, h, ref);
      assert HeaderOn(dir, f, i, ref);
    }
    assert EndAt(lines, i, i) == |lines|;
  }

  lemma {:induction false} FoundIsLocated(dir: Directory, ref: Ref) returns (f: nat, i: nat, j: nat)
    requires Locate(dir, ref).Found?
    ensures IsLocated(dir, ref, f, i, j) && Locate(dir, ref) == Found(dir[f].name, i + 1, j + 1)
    decreases |dir|
  {
    LocateInFileFacts(dir, 0, ref);
    if LocateInFile(dir[0], ref) != NotFound {
      var lines := dir[0].lines;
      f, i := 0, HeaderAt(lines, ref, 0);
      j := EndAt(lines, i, i);
    } else {
      f, i, j := FoundIsLocated(dir[1..], ref);
      forall f', i' | 0 <= f' < f + 1 ensures !HeaderOn(dir, f', i', ref) {
        if f' > 0 { assert !HeaderOn(dir[1..], f' - 1, i', ref); }
      }
      forall g', i' | g' == f + 1 && 0 <= i' < i ensures !HeaderOn(dir, g', i', ref) {
        assert !HeaderOn(dir[1..], f, i', ref);
      }
      f := f + 1;
    }
  }

  // ----- after a removal -------------------------------------------------------------------------

  /** The directory after lines i..j (0-based) of file f, and the blank lines below, are gone. */
  function Cut(dir: Directory, f: nat, i: nat, j: nat): Directory
    requires f < |dir| && i <= j < |dir[f].lines|
  {
    dir[f := dir[f].(lines := Without(dir[f].lines, i + 1, j + 1))]
  }

  lemma RemovedIsCut(dir: Directory, f: nat, i: nat, j: nat)
    requires DistinctNames(dir) && f < |dir| && dir[f].readable && i <= j < |dir[f].lines|
    ensures Removed(dir, dir[f].name, i + 1, j + 1) == Success(Cut(dir, f, i, j))
    ensures DistinctNames(Cut(dir, f, i, j))
  {
    var g := IndexOf(dir, dir[f].name);
  }

  /** Where line k of file g is found after the cut. */
  function Moved(dir: Directory, f: nat, i: nat, j: nat, g: nat, k: nat): int
    requires f < |dir| && i <= j < |dir[f].lines|
  {
    if g == f && k > j then k - Shift(dir[f].lines, i + 1, j + 1) else k
  }

  lemma HeadersAfterCut(dir: Directory, f: nat, i: nat, j: nat, ref: Ref, g: nat, k: nat)
    requires f < |dir| && i <= j < |dir[f].lines|
    requires HeaderOn(dir, g, k, ref) && !(g == f && i <= k <= j)
    ensures Moved(dir, f, i, j, g, k) >= 0
    ensures HeaderOn(Cut(dir, f, i, j), g, Moved(dir, f, i, j, g, k), ref)
  {
    var lines := dir[f].lines;
    if g == f && k > j {
      assert k >= PastBlanks(lines, j + 1);
      assert Without(lines, i + 1, j + 1)[k - Shift(lines, i + 1, j + 1)] == lines[k];
    }
  }

  /** The line that ends up as line k of file g after the cut. */
  function Origin(dir: Directory, f: nat, i: nat, j: nat, g: nat, k: nat): nat
    requires f < |dir| && i <= j < |dir[f].lines|
  {
    if g == f && k >= i then k + Shift(dir[f].lines, i + 1, j + 1) else k
  }

  lemma HeadersBeforeCut(dir: Directory, f: nat, i: nat, j: nat, ref: Ref, g: nat, k: nat)
    requires f < |dir| && i <= j < |dir[f].lines|
    requires HeaderOn(Cut(dir, f, i, j), g, k, ref)
    ensures var o := Origin(dir, f, i, j, g, k);
            HeaderOn(dir, g, o, ref) && !(g == f && i <= o <= j) && Moved(dir, f, i, j, g, o) == k
  {
  }

  /** Removing lines makes a resource unlocatable exactly when every header of that resource, in every
    * readable file, lies inside the removed lines. */
  lemma RemovedBlockIsGone(dir: Directory, ref: Ref, f: nat, i: nat, j: nat)
    requires DistinctNames(dir) && f < |dir| && dir[f].readable && i <= j < |dir[f].lines|
    ensures Removed(dir, dir[f].name, i + 1, j + 1) == Success(Cut(dir, f, i, j))
    ensures Locate(Cut(dir, f, i, j), ref) == NotFound
       <==> forall g, k :: HeaderOn(dir, g, k, ref) ==> g == f && i <= k <= j
  {
    RemovedIsCut(dir, f, i, j);
    var after := Cut(dir, f, i, j);
    NotFoundIffNoHeader(after, ref);
    if forall g, k :: HeaderOn(dir, g, k, ref) ==> g == f && i <= k <= j {
      forall g, k ensures !HeaderOn(after, g, k, ref) {
        if HeaderOn(after, g, k, ref) { HeadersBeforeCut(dir, f, i, j, ref, g, k); }
      }
    } else {
      var g, k :| HeaderOn(dir, g, k, ref) && !(g == f && i <= k <= j);
      HeadersAfterCut(dir, f, i, j, ref, g, k);
    }
  }

  lemma BlockAfterCut(lines: seq<Line>, i: nat, j: nat, i': nat, j': nat)
    requires i <= j < |lines| && IsBlock(lines, i', j') && (j' < i || j < i')
    requires !lines[i'].blank
    ensures var shift := if i' > j then Shift(lines, i + 1, j + 1) else 0;
            && shift <= i'
            && IsBlock(Without(lines, i + 1, j + 1), i' - shift, j' - shift)
            && Without(lines, i + 1, j + 1)[i' - shift..j' - shift + 1] == lines[i'..j'+1]
  {
    var e := PastBlanks(lines, j + 1);
    assert i' > j ==> i' >= e;
    BlockMoves(lines, i, e, i', j', if i' > j then i' - (e - i) else i');
  }

  lemma BlockMoves(lines: seq<Line>, i: nat, e: nat, i': nat, j': nat, a: nat)
    requires i <= e <= |lines| && IsBlock(lines, i', j')
    requires (j' < i && a == i') || (e <= i' && a == i' - (e - i))
    ensures var after, b := lines[..i] + lines[e..], a + (j' - i');
            IsBlock(after, a, b) && after[a..b+1] == lines[i'..j'+1]
  {
    hide Depth;
    var after, b := lines[..i] + lines[e..], a + (j' - i');
    SliceAfterCut(lines, i, e, a, b + 1);
    forall k | a <= k <= b ensures Depth(after, a, k) == Depth(lines, i', k + (i' - a)) {
      DepthAfterCut(lines, i, e, a, k);
    }
  }

  lemma DepthAfterCut(lines: seq<Line>, i: nat, e: nat, a: nat, k: nat)
    requires i <= e <= |lines| && a <= k < |lines| - (e - i) && (k < i || i <= a)
    ensures Depth(lines[..i] + lines[e..], a, k)
         == if k < i then Depth(lines, a, k) else Depth(lines, a + (e - i), k + (e - i))
  {
    hide Net;
    SliceAfterCut(lines, i, e, a, k + 1);
  }

  /** Lines i..j of b are found in a, from line m on. */
  predicate SameLines(a: seq<Line>, m: int, b: seq<Line>, i: int, j: int) {
    0 <= m && m + (j - i) < |a| && 0 <= i <= j < |b| && a[m..m + (j - i) + 1] == b[i..j+1]
  }

  /** Any other located block whose lines are disjoint from the removed ones is still located, with
    * exactly the same lines. */
  lemma OtherBlockSurvives(dir: Directory, f: nat, i: nat, j: nat, ref: Ref, g: nat, i': nat, j': nat)
    requires f < |dir| && i <= j < |dir[f].lines|
    requires IsLocated(dir, ref, g, i', j') && (g != f || j' < i || j < i')
    ensures var after, m := Cut(dir, f, i, j), Moved(dir, f, i, j, g, i');
            && m >= 0 && g < |after| && IsLocated(after, ref, g, m, m + (j' - i'))
            && Locate(after, ref) == Found(dir[g].name, m + 1, m + (j' - i') + 1)
            && SameLines(after[g].lines, m, dir[g].lines, i', j')
  {
    FirstHeaderMoves(dir, f, i, j, ref, g, i');
    BlockInCut(dir, f, i, j, g, i', j');
    hide IsBlock, HeaderOn, Cut, Moved;
    var m := Moved(dir, f, i, j, g, i');
    LocatedIsFound(Cut(dir, f, i, j), ref, g, m, m + (j' - i'));
  }

  lemma BlockInCut(dir: Directory, f: nat, i: nat, j: nat, g: nat, i': nat, j': nat)
    requires f < |dir| && i <= j < |dir[f].lines| && g < |dir|
    requires IsBlock(dir[g].lines, i', j') && !dir[g].lines[i'].blank && (g != f || j' < i || j < i')
    ensures var m := Moved(dir, f, i, j, g, i');
            && m >= 0 && IsBlock(Cut(dir, f, i, j)[g].lines, m, m + (j' - i'))
            && SameLines(Cut(dir, f, i, j)[g].lines, m, dir[g].lines, i', j')
            && Cut(dir, f, i, j)[g].name == dir[g].name
  {
    if g == f {
      BlockAfterCut(dir[f].lines, i, j, i', j');
    }
  }

  lemma FirstHeaderMoves(dir: Directory, f: nat, i: nat, j: nat, ref: Ref, g: nat, k: nat)
    requires f < |dir| && i <= j < |dir[f].lines|
    requires FirstHeader(dir, g, k, ref) && !(g == f && i <= k <= j)
    requires forall f', i' :: 0 <= f' < g ==> !HeaderOn(dir, f', i', ref)
    ensures var m := Moved(dir, f, i, j, g, k);
            && m >= 0 && FirstHeader(Cut(dir, f, i, j), g, m, ref)
            && forall f', i' :: 0 <= f' < g ==> !HeaderOn(Cut(dir, f, i, j), f', i', ref)
  {
    var after, m := Cut(dir, f, i, j), Moved(dir, f, i, j, g, k);
    HeadersAfterCut(dir, f, i, j, ref, g, k);
    forall g', k' | HeaderOn(after, g', k', ref) ensures g < g' || (g == g' && m <= k') {
      HeadersBeforeCut(dir, f, i, j, ref, g', k');
    }
  }

  /** In particular every other block located at depth 0 survives the removal of a depth-0 block, with
    * exactly the same lines. */
  lemma TopLevelNeighbourSurvives(dir: Directory, removed: Ref, f: nat, i: nat, j: nat,
                                  ref: Ref, g: nat, i': nat, j': nat)
    requires IsLocated(dir, removed, f, i, j) && IsLocated(dir, ref, g, i', j') && ref != removed
    requires Net(dir[f].lines[..i]) == 0 && Net(dir[g].lines[..i']) == 0
    ensures var after, m := Cut(dir, f, i, j), Moved(dir, f, i, j, g, i');
            && m >= 0 && g < |after| && IsLocated(after, ref, g, m, m + (j' - i'))
            && Locate(after, ref) == Found(dir[g].name, m + 1, m + (j' - i') + 1)
            && SameLines(after[g].lines, m, dir[g].lines, i', j')
  {
    if f == g {
      TopLevelBlocksAreDisjoint(dir[f].lines, i, j, i', j');
    }
    OtherBlockSurvives(dir, f, i, j, ref, g, i', j');
  }

  // ----- references ------------------------------------------------------------------------------

  lemma {:induction false} LineIsHitIff(file: string, lines: seq<Line>, before: nat, ref: Ref, ex: Exclusion, hit: Hit)
    ensures hit in HitsInLines(file, lines, before, ref, ex) <==>
            exists i :: 0 <= i < |lines| && hit == Hit(file, before + 1 + i)
                        && !lines[i].comment && ref in lines[i].mentions && lines[i].declares != Some(ref)
                        && !(ex.Lines? && ex.file == file && ex.first <= before + 1 + i <= ex.last)
  {
    if lines != [] {
      LineIsHitIff(file, lines[1..], before + 1, ref, ex, hit);
      assert forall i :: 0 < i < |lines| ==> lines[i] == lines[1..][i-1];
      if hit in HitsInLines(file, lines[1..], before + 1, ref, ex) {
        var i :| 0 <= i < |lines[1..]| && hit == Hit(file, before + 1 + 1 + i)
                 && !lines[1..][i].comment && ref in lines[1..][i].mentions && lines[1..][i].declares != Some(ref)
                 && !(ex.Lines? && ex.file == file && ex.first <= before + 1 + 1 + i <= ex.last);
        assert hit == Hit(file, before + 1 + (i + 1)) && lines[i+1] == lines[1..][i];
      }
    }
  }

  /** A search reports a line iff it is no comment, mentions the resource, does not declare it and is not
    * excluded; it fails iff a file cannot be read. */
  lemma ReportedIff(dir: Directory, ref: Ref, ex: Exclusion, hit: Hit)
    ensures FindReferences(dir, ref, ex).Failure? <==> exists f :: 0 <= f < |dir| && !dir[f].readable
    ensures FindReferences(dir, ref, ex).Success? ==>
              (hit in FindReferences(dir, ref, ex).value <==>
               exists f, i :: 0 <= f < |dir| && 0 <= i < |dir[f].lines| && hit == Hit(dir[f].name, i + 1)
                              && !dir[f].lines[i].comment && ref in dir[f].lines[i].mentions
                              && dir[f].lines[i].declares != Some(ref)
                              && !(ex.Lines? && ex.file == dir[f].name && ex.first <= i + 1 <= ex.last))
  {
    hide HitsInFiles;
    FileIsHitIff(dir, ref, ex, hit);
    if hit in HitsInFiles(dir, ref, ex) {
      var f :| 0 <= f < |dir| && hit in HitsInLines(dir[f].name, dir[f].lines, 0, ref, ex);
      LineIsHitIff(dir[f].name, dir[f].lines, 0, ref, ex, hit);
    }
    forall f, i | 0 <= f < |dir| && 0 <= i < |dir[f].lines| && hit == Hit(dir[f].name, i + 1)
                  && !dir[f].lines[i].comment && ref in dir[f].lines[i].mentions && dir[f].lines[i].declares != Some(ref)
                  && !(ex.Lines? && ex.file == dir[f].name && ex.first <= i + 1 <= ex.last)
      ensures hit in HitsInFiles(dir, ref, ex)
    {
      LineIsHitIff(dir[f].name, dir[f].lines, 0, ref, ex, hit);
    }
  }

  lemma {:induction false} FileIsHitIff(dir: Directory, ref: Ref, ex: Exclusion, hit: Hit)
    ensures hit in HitsInFiles(dir, ref, ex) <==>
            exists f :: 0 <= f < |dir| && hit in HitsInLines(dir[f].name, dir[f].lines, 0, ref, ex)
  {
    hide HitsInLines;
    if dir != [] {
      FileIsHitIff(dir[1..], ref, ex, hit);
      if f :| 0 <= f < |dir[1..]| && hit in HitsInLines(dir[1..][f].name, dir[1..][f].lines, 0, ref, ex) {
        assert dir[f+1] == dir[1..][f];
      }
      if f :| 0 < f < |dir| && hit in HitsInLines(dir[f].name, dir[f].lines, 0, ref, ex) {
        assert dir[1..][f-1] == dir[f];
      }
    }
  }

  // ----- references after a removal --------------------------------------------------------------

  /** The hits of a search, renumbered for a file that lost `shift` lines ending at `last`. */
  function Renumber(hits: seq<Hit>, file: string, last: nat, shift: int): (r: seq<Hit>)
  {
    if hits == [] then [] else [RenumberOne(hits[0], file, last, shift)] + Renumber(hits[1..], file, last, shift)
  }

  function RenumberOne(hit: Hit, file: string, last: nat, shift: int): Hit {
    if hit.file == file && hit.line > last then Hit(file, if hit.line < shift then 0 else hit.line - shift) else hit
  }

  lemma {:induction false} RenumberConcat(a: seq<Hit>, b: seq<Hit>, file: string, last: nat, shift: int)
    ensures Renumber(a + b, file, last, shift) == Renumber(a, file, last, shift) + Renumber(b, file, last, shift)
  {
    if a == [] {
      assert a + b == b;
    } else {
      hide RenumberOne;
      RenumberConcat(a[1..], b, file, last, shift);
      assert (a + b)[0] == a[0] && (a + b)[1..] == a[1..] + b;
      Reassociate([RenumberOne(a[0], file, last, shift)], Renumber(a[1..], file, last, shift), Renumber(b, file, last, shift));
    }
  }

  /** Excluded lines and blank lines have no hits. */
  lemma {:induction false} NoHitsInRange(file: string, lines: seq<Line>, before: nat, ref: Ref, ex: Exclusion)
    requires forall k :: 0 <= k < |lines| ==> lines[k].blank || Excluded(ex, file, before + 1 + k)
    ensures HitsInLines(file, lines, before, ref, ex) == []
  {
    if lines != [] {
      assert forall k :: 0 <= k < |lines[1..]| ==> lines[1..][k] == lines[k + 1];
      NoHitsInRange(file, lines[1..], before + 1, ref, ex);
    }
  }

  /** No line numbered above `from` and up to `to` is excluded. */
  predicate Clear(ex: Exclusion, file: string, from: nat, to: nat) {
    forall n :: from < n <= to ==> !Excluded(ex, file, n)
  }

  /** Lines the exclusion does not touch have the same hits without it, renumbered by the shift:
    * lines of other files and lines above the cut keep their number, lines below it move up. */
  lemma {:induction false} HitsRenumbered(file: string, lines: seq<Line>, before: nat, before': nat, ref: Ref,
                                          ex: Exclusion, changed: string, last: nat, shift: nat)
    requires Clear(ex, file, before, before + |lines|)
    requires if file == changed && last <= before then before == before' + shift
             else before == before' && (file == changed ==> before + |lines| <= last)
    ensures Renumber(HitsInLines(file, lines, before, ref, ex), changed, last, shift)
         == HitsInLines(file, lines, before', ref, Nothing)
  {
    hide HitOn, RenumberOne;
    if lines != [] {
      assert !Excluded(ex, file, before + 1);
      if |lines| > 1 {
        HitsRenumbered(file, lines[1..], before + 1, before' + 1, ref, ex, changed, last, shift);
      }
      RenumberConcat(HitOn(file, lines[0], before + 1, ref, ex), HitsInLines(file, lines[1..], before + 1, ref, ex),
                     changed, last, shift);
      HitRenumbered(file, lines[0], before + 1, before' + 1, ref, ex, changed, last, shift);
    }
  }

  lemma HitRenumbered(file: string, line: Line, n: nat, n': nat, ref: Ref,
                      ex: Exclusion, changed: string, last: nat, shift: nat)
    requires !Excluded(ex, file, n)
    requires if file == changed && last < n then n == n' + shift else n == n'
    ensures Renumber(HitOn(file, line, n, ref, ex), changed, last, shift) == HitOn(file, line, n', ref, Nothing)
  {
  }

  lemma {:induction false} FilesRenumbered(dir: Directory, ref: Ref, ex: Exclusion, changed: string, last: nat, shift: nat)
    requires forall f :: 0 <= f < |dir| ==> dir[f].name != changed
    requires ex == Nothing || ex.file == changed
    ensures Renumber(HitsInFiles(dir, ref, ex), changed, last, shift) == HitsInFiles(dir, ref, Nothing)
  {
    if dir != [] {
      HitsRenumbered(dir[0].name, dir[0].lines, 0, 0, ref, ex, changed, last, shift);
      FilesRenumbered(dir[1..], ref, ex, changed, last, shift);
      RenumberConcat(HitsInLines(dir[0].name, dir[0].lines, 0, ref, ex), HitsInFiles(dir[1..], ref, ex), changed, last, shift);
    }
  }

  lemma ChangedFileRenumbered(file: string, lines: seq<Line>, start: nat, end: nat, ref: Ref)
    requires ValidRange(lines, start, end)
    ensures Renumber(HitsInLines(file, lines, 0, ref, Lines(file, start, end)), file, end, Shift(lines, start, end))
         == HitsInLines(file, Without(lines, start, end), 0, ref, Nothing)
  {
    hide HitsInLines, Renumber;
    var e, ex, shift := PastBlanks(lines, end), Lines(file, start, end), Shift(lines, start, end);
    var a, cut, b := lines[..start-1], lines[start-1..e], lines[e..];
    assert lines == a + (cut + b);
    HitsSplit(file, a, cut + b, 0, ref, ex);
    HitsSplit(file, cut, b, start - 1, ref, ex);
    NoHitsInRange(file, cut, start - 1, ref, ex);
    assert HitsInLines(file, cut + b, start - 1, ref, ex) == HitsInLines(file, b, e, ref, ex);
    HitsRenumbered(file, a, 0, 0, ref, ex, file, end, shift);
    HitsRenumbered(file, b, e, start - 1, ref, ex, file, end, shift);
    RenumberConcat(HitsInLines(file, a, 0, ref, ex), HitsInLines(file, b, e, ref, ex), file, end, shift);
    HitsSplit(file, a, b, 0, ref, Nothing);
  }

  /** Searching after the removal, with nothing excluded, finds what the search before it found with
    * the removed range excluded, later lines renumbered: an empty pre-check leaves no dangling
    * reference, and a non-empty one is not a false alarm. */
  lemma PreCheckIsExact(dir: Directory, file: string, start: nat, end: nat, ref: Ref)
    requires DistinctNames(dir) && Removed(dir, file, start, end).Success?
    ensures var before := FindReferences(dir, ref, Lines(file, start, end));
            var after := FindReferences(Removed(dir, file, start, end).value, ref, Nothing);
            && before.Success? == after.Success?
            && (before.Success? ==>
                  var shift := Shift(dir[IndexOf(dir, file)].lines, start, end);
                  && after.value == Renumber(before.value, file, end, shift)
                  && (after.value == [] <==> before.value == []))
  {
    hide HitsInLines, Without;
    var f, ex := IndexOf(dir, file), Lines(file, start, end);
    var dir' := Removed(dir, file, start, end).value;
    var shift := Shift(dir[f].lines, start, end);
    assert forall g :: 0 <= g < |dir| ==> dir'[g].readable == dir[g].readable;
    assert AllReadable(dir) == AllReadable(dir') by {
      if AllReadable(dir') { assert forall g :: 0 <= g < |dir| ==> dir'[g].readable; }
    }
    HitsAround(dir, f, ref, ex);
    HitsAround(dir', f, ref, Nothing);
    assert dir'[..f] == dir[..f] && dir'[f+1..] == dir[f+1..];
    FilesRenumbered(dir[..f], ref, ex, file, end, shift);
    FilesRenumbered(dir[f+1..], ref, ex, file, end, shift);
    ChangedFileRenumbered(file, dir[f].lines, start, end, ref);
    var a, m, b := HitsInFiles(dir[..f], ref, ex), HitsInLines(file, dir[f].lines, 0, ref, ex), HitsInFiles(dir[f+1..], ref, ex);
    RenumberConcat(a + m, b, file, end, shift);
    RenumberConcat(a, m, file, end, shift);
    RenumberKeepsLength(HitsInFiles(dir, ref, ex), file, end, shift);
  }

  lemma HitsAround(dir: Directory, f: nat, ref: Ref, ex: Exclusion)
    requires f < |dir|
    ensures HitsInFiles(dir, ref, ex)
         == HitsInFiles(dir[..f], ref, ex) + HitsInLines(dir[f].name, dir[f].lines, 0, ref, ex) + HitsInFiles(dir[f+1..], ref, ex)
  {
    HitsGrowFiles(dir, f, ref, ex);
    HitsSplitFiles(dir[..f+1], dir[f+1..], ref, ex);
    assert dir == dir[..f+1] + dir[f+1..];
  }

  lemma {:induction false} RenumberKeepsLength(hits: seq<Hit>, file: string, last: nat, shift: int)
    ensures |Renumber(hits, file, last, shift)| == |hits|
  {
    if hits != [] {
      RenumberKeepsLength(hits[1..], file, last, shift);
    }
  }
}
