/** Blocks as they are written in a .tf file, and how the brace counting of src/remediators/terraform_mapper.py
  * (locate_block) finds them. */
module TerraformBlocks {
  import opened Wrappers
  import opened TerraformFiles
  import opened TerraformSurgery

  /** A block as it is written: on one line, or an opening line, a body of lines that open as many braces as
    * they close and of nested blocks, and a closing line. */
  datatype Block =
    | Inline(line: Line)
    | Multiline(open: Line, body: seq<Item>, close: Line)

  datatype Item = Plain(line: Line) | Nested(block: Block)

  predicate WellFormed(b: Block) {
    match b
    case Inline(line) => line.opens == line.closes
    case Multiline(open, body, close) =>
      && open.opens == open.closes + 1 && close.closes == close.opens + 1
      && forall i :: 0 <= i < |body| ==>
           match body[i] case Plain(line) => line.opens == line.closes case Nested(block) => WellFormed(block)
  }

  function Written(b: Block): (lines: seq<Line>)
    ensures lines != []
    decreases b, 0
  {
    match b
    case Inline(line) => [line]
    case Multiline(open, body, close) => [open] + WrittenBody(b, |body|) + [close]
  }

  /** The first k items of the body of b. */
  function WrittenBody(b: Block, k: nat): seq<Line>
    requires b.Multiline? && k <= |b.body|
    decreases b, 0, k
  {
    if k == 0 then []
    else WrittenBody(b, k - 1) + match b.body[k-1] case Plain(line) => [line] case Nested(block) => Written(block)
  }

  lemma NetOfOne(line: Line)
    ensures Net([line]) == line.opens - line.closes
  {
    assert [line][..0] == [];
  }

  /** A written block closes all the braces it opens, and not before its last line. */
  lemma {:induction false} WrittenIsBalanced(b: Block, k: nat)
    requires WellFormed(b) && k <= |Written(b)|
    ensures Net(Written(b)) == 0
    ensures b.Multiline? && 0 < k < |Written(b)| ==> 0 < Net(Written(b)[..k])
    ensures 0 <= Net(Written(b)[..k])
    decreases b, 0
  {
    hide Net;
    var lines := Written(b);
    NetOfNone();
    match b
    case Inline(line) =>
      NetOfOne(line);
      assert lines[..k] == if k == 0 then [] else lines;
    case Multiline(open, body, close) =>
      var inner := WrittenBody(b, |body|);
      NetOfOne(open);
      NetOfOne(close);
      BodyIsBalanced(b, |body|, |inner|);
      NetOfConcat([open], inner);
      NetOfConcat([open] + inner, [close]);
      if 0 < k < |lines| {
        BodyIsBalanced(b, |body|, k - 1);
        assert lines[..k] == [open] + inner[..k-1];
        NetOfConcat([open], inner[..k-1]);
      } else if k > 0 {
        assert lines[..k] == lines;
      }
  }

  lemma NetOfNone()
    ensures Net([]) == 0
  {
  }

  lemma {:induction false} BodyIsBalanced(b: Block, n: nat, k: nat)
    requires b.Multiline? && WellFormed(b) && n <= |b.body| && k <= |WrittenBody(b, n)|
    ensures Net(WrittenBody(b, n)) == 0 && 0 <= Net(WrittenBody(b, n)[..k])
    decreases b, 0, n
  {
    hide Net;
    NetOfNone();
    if n > 0 {
      var before, last := WrittenBody(b, n - 1), b.body[n-1];
      var lines := match last case Plain(line) => [line] case Nested(block) => Written(block);
      BodyIsBalanced(b, n - 1, if k <= |before| then k else |before|);
      NetOfConcat(before, lines);
      var m := if k <= |before| then 0 else k - |before|;
      match last {
        case Plain(line) => NetOfOne(line);
        case Nested(block) => WrittenIsBalanced(block, m);
      }
      if k <= |before| {
        assert (before + lines)[..k] == before[..k];
      } else {
        assert (before + lines)[..k] == before + lines[..m];
        NetOfConcat(before, lines[..m]);
        assert last.Plain? ==> lines[..m] == lines;
      }
    }
  }

  /** A block written into a file, with no header of the resource before its own, is found whole: from its
    * opening line to its closing line, whatever blocks are nested in it. */
  lemma WrittenIsLocated(dir: Directory, f: nat, before: seq<Line>, b: Block, after: seq<Line>, ref: Ref)
    requires f < |dir| && dir[f].readable && dir[f].lines == before + Written(b) + after
    requires WellFormed(b) && Written(b)[0].header == Some(ref)
    requires forall i :: 0 <= i < |before| ==> before[i].header != Some(ref)
    requires forall g, i :: 0 <= g < f && dir[g].readable && 0 <= i < |dir[g].lines| ==> dir[g].lines[i].header != Some(ref)
    ensures Locate(dir, ref) == Found(dir[f].name, |before| + 1, |before| + |Written(b)|)
  {
    hide Net;
    var lines, w, i := dir[f].lines, Written(b), |before|;
    var j := i + |w| - 1;
    WrittenIsBalanced(b, |w|);
    forall k | i <= k <= j ensures Depth(lines, i, k) == Net(w[..k-i+1]) {
      assert lines[i..k+1] == w[..k-i+1];
    }
    assert w[..|w|] == w;
    forall k | i <= k < j ensures Depth(lines, i, k) != 0 {
      WrittenIsBalanced(b, k - i + 1);
    }
    assert FirstHeader(dir, f, i, ref) by {
      assert lines[i] == w[0];
      assert forall i' :: 0 <= i' < i ==> lines[i'] == before[i'];
    }
    LocatedIsFound(dir, ref, f, i, j);
  }

  /** Removing it takes out the block and the blank lines after it, and nothing else. */
  lemma WrittenIsRemoved(dir: Directory, f: nat, before: seq<Line>, b: Block, blanks: seq<Line>, after: seq<Line>)
    requires DistinctNames(dir) && f < |dir| && dir[f].readable && dir[f].lines == before + Written(b) + blanks + after
    requires (forall i :: 0 <= i < |blanks| ==> blanks[i].blank) && (after == [] || !after[0].blank)
    ensures Removed(dir, dir[f].name, |before| + 1, |before| + |Written(b)|)
         == Success(dir[f := TfFile(dir[f].name, true, before + after)])
  {
    hide Written;
    var lines, end, past := dir[f].lines, |before| + |Written(b)|, |before| + |Written(b)| + |blanks|;
    assert IndexOf(dir, dir[f].name) == f;
    var e := PastBlanks(lines, end);
    assert forall i :: end <= i < past ==> lines[i] == blanks[i-end];
    assert past < |lines| ==> lines[past] == after[0];
    assert e == past;
    assert lines[..|before|] == before && lines[past..] == after;
  }
}
