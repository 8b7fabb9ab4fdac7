/** Mapping a live AWS id to the Terraform block that declares it (src/remediators/terraform_mapper.py)
  * and the removal proposal built on it (src/remediators/terraform_pr.py, propose_removal). */
module TerraformMapper {
  import opened Wrappers
  import opened TerraformFiles
  import opened TerraformSurgery

  /** The identifying attributes of a resource in the state; None when absent or not a string. */
  datatype Values = Values(
    id: Option<string>, arn: Option<string>, allocationId: Option<string>,
    publicIp: Option<string>, associationId: Option<string>)
  {
    function InOrder(): seq<Option<string>> { [id, arn, allocationId, publicIp, associationId] }
  }

  datatype StateResource = StateResource(managed: bool, address: string, ref: Ref, values: Values)

  datatype Module = Module(address: string, resources: seq<StateResource>, children: seq<Module>)

  /** Locating raises when the braces of the block never balance. */
  datatype MappingError = UnbalancedBraces

  datatype Span = Span(file: string, start: nat, end: nat)

  /** An indexed resource; `location` is the field that locating fills in. */
  datatype TerraformResource = TerraformResource(
    address: string, ref: Ref, values: Values, modulePath: string, location: Option<Span>)

  predicate Carries(r: TerraformResource, id: string) {
    id != "" && Some(id) in r.values.InOrder()
  }

  // ----- the pure lookup ---------------------------------------------------------------------------

  function Managed(resources: seq<StateResource>, path: string): seq<TerraformResource> {
    if resources == [] then []
    else
      var r := resources[0];
      (if r.managed then [TerraformResource(r.address, r.ref, r.values, path, None)] else [])
      + Managed(resources[1..], path)
  }

  /** Managed resources in preorder: a module's own resources, then its children's. */
  function Preorder(m: Module, path: string): seq<TerraformResource>
    decreases m, 1, 0
  {
    Managed(m.resources, path) + PreorderOf(m, |m.children|)
  }

  /** The preorder of the first k children of m. */
  function PreorderOf(m: Module, k: nat): seq<TerraformResource>
    requires k <= |m.children|
    decreases m, 0, k
  {
    if k == 0 then [] else PreorderOf(m, k - 1) + Preorder(m.children[k-1], m.children[k-1].address)
  }

  /** The first of rs carrying the id; |rs| when none does. */
  function FirstCarrying(rs: seq<TerraformResource>, id: string): (k: nat)
    ensures k <= |rs|
    ensures k < |rs| ==> Carries(rs[k], id)
    ensures forall i :: 0 <= i < k ==> !Carries(rs[i], id)
  {
    if rs == [] || Carries(rs[0], id) then 0 else 1 + FirstCarrying(rs[1..], id)
  }

  /** The index points every id at the first resource carrying it, and knows no other id. */
  ghost predicate Indexed(rs: seq<TerraformResource>, byId: map<string, nat>) {
    && (forall id :: id in byId <==> FirstCarrying(rs, id) < |rs|)
    && (forall id :: id in byId ==> byId[id] == FirstCarrying(rs, id))
  }

  lemma FirstCarryingGrows(rs: seq<TerraformResource>, r: TerraformResource, id: string)
    ensures FirstCarrying(rs + [r], id) ==
            if FirstCarrying(rs, id) < |rs| then FirstCarrying(rs, id)
            else if Carries(r, id) then |rs| else |rs| + 1
  {
    hide Carries;
    var k, k' := FirstCarrying(rs, id), FirstCarrying(rs + [r], id);
    assert k < |rs| ==> (rs + [r])[k] == rs[k];
    assert k' < |rs| ==> (rs + [r])[k'] == rs[k'];
    assert (rs + [r])[|rs|] == r;
  }

  lemma FirstCarryingIgnoresLocation(rs: seq<TerraformResource>, k: nat, l: Option<Span>, id: string)
    requires k < |rs|
    ensures FirstCarrying(rs[k := rs[k].(location := l)], id) == FirstCarrying(rs, id)
  {
    var rs' := rs[k := rs[k].(location := l)];
    assert forall i :: 0 <= i < |rs| ==> Carries(rs'[i], id) == Carries(rs[i], id);
  }

  function CurrentSpan(dir: Directory, ref: Ref): Option<Span> {
    match Locate(dir, ref)
    case Found(file, start, end) => Some(Span(file, start, end))
    case _ => None
  }

  /** What locating a resource reports: the block the files have now or, when they have none, whatever an
    * earlier call left on the resource. */
  function Reported(r: TerraformResource, dir: Directory): Result<Option<Span>, MappingError> {
    if r.modulePath != "" then Success(r.location)
    else match Locate(dir, r.ref)
      case Unbalanced(_, _) => Failure(UnbalancedBraces)
      case Found(file, start, end) => Success(Some(Span(file, start, end)))
      case NotFound => Success(r.location)
  }

  class Mapper {
    /** The resources indexed so far, in order of creation. */
    var resources: seq<TerraformResource>
    var byId: map<string, nat>

    /** Only resources of the root module are ever located. */
    ghost predicate Valid()
      reads this
    {
      Indexed(resources, byId) && forall r :: r in resources && r.location.Some? ==> r.modulePath == ""
    }

    constructor (root: Module)
      ensures Valid() && resources == Preorder(root, "")
    {
      resources, byId := [], map[];
      new;
      IndexModule(root, "");
    }

    method IndexModule(m: Module, path: string)
      requires Valid()
      modifies this
      ensures Valid() && resources == old(resources) + Preorder(m, path)
      decreases m
    {
      hide Indexed, Managed;
      ghost var before := resources;
      assert Managed(m.resources[..0], path) == [] by { NothingManaged(m.resources[..0], path); }
      for i := 0 to |m.resources|
        invariant Valid() && resources == before + Managed(m.resources[..i], path)
      {
        var res := m.resources[i];
        ManagedGrows(m.resources, i, path);
        if res.managed {
          AddResource(TerraformResource(res.address, res.ref, res.values, path, None));
        }
      }
      assert m.resources[..|m.resources|] == m.resources;
      ghost var own := resources;
      for i := 0 to |m.children|
        invariant Valid() && resources == own + PreorderOf(m, i)
      {
        IndexModule(m.children[i], m.children[i].address);
      }
    }

    /** One resource enters the index: each of its ids, unless an earlier resource has it. */
    method AddResource(r: TerraformResource)
      requires Valid() && r.location == None
      modifies this
      ensures Valid() && resources == old(resources) + [r]
    {
      var values, k := r.values.InOrder(), |resources|;
      ghost var before := byId;
      for i := 0 to |values|
        invariant resources == old(resources)
        invariant forall id :: id in byId <==> id in before || (id != "" && Some(id) in values[..i])
        invariant forall id :: id in byId ==> byId[id] == if id in before then before[id] else k
      {
        assert values[..i+1] == values[..i] + [values[i]];
        if values[i].Some? && values[i].value != "" && values[i].value !in byId {
          byId := byId[values[i].value := k];
        }
      }
      assert values[..|values|] == values;
      forall id ensures FirstCarrying(resources + [r], id) ==
                        if id in before then before[id] else if Carries(r, id) then k else k + 1
      {
        FirstCarryingGrows(resources, r, id);
      }
      resources := resources + [r];
    }

    /** The resource found for an id: the first in preorder among those carrying it. */
    function Lookup(id: string): Option<TerraformResource>
      reads this
    {
      var k := FirstCarrying(resources, id);
      if k < |resources| then Some(resources[k]) else None
    }

    /** The first indexed resource that has the value as its id, ARN, allocation id, public IP or association
      * id; an empty value finds nothing. */
    method FindById(id: string) returns (r: Option<TerraformResource>)
      requires Valid()
      ensures r == Lookup(id)
      ensures id == "" ==> r == None
      ensures id != "" && r == None ==>
                forall i :: 0 <= i < |resources| ==>
                  var v := resources[i].values;
                  Some(id) !in {v.id, v.arn, v.allocationId, v.publicIp, v.associationId}
      ensures r.Some? ==>
                exists i :: 0 <= i < |resources| && r.value == resources[i]
                  && (var v := r.value.values; Some(id) in {v.id, v.arn, v.allocationId, v.publicIp, v.associationId})
                  && forall j :: 0 <= j < i ==>
                       var v := resources[j].values;
                       Some(id) !in {v.id, v.arn, v.allocationId, v.publicIp, v.associationId}
    {
      if id in byId { r := Some(resources[byId[id]]); } else { r := None; }
    }

    /** Locating remembers the block on the resource, and touches no other.  What it reports for a resource
      * of the root module is the block the files have now iff they have one or no earlier call left an
      * answer on the resource. */
    method Locate(id: string, copy: WorkingCopy) returns (r: Result<Option<TerraformResource>, MappingError>)
      requires Valid()
      modifies this
      ensures Valid()
      ensures old(Lookup(id)) == None ==> r == Success(None) && resources == old(resources)
      ensures old(Lookup(id)).Some? ==>
                match Reported(old(Lookup(id)).value, copy.files)
                case Failure(e) => r == Failure(e) && resources == old(resources)
                case Success(l) =>
                  && r == Success(Some(old(Lookup(id)).value.(location := l))) && Lookup(id) == r.value
                  && resources == old(resources[FirstCarrying(resources, id) := Lookup(id).value.(location := l)])
      ensures r.Success? && r.value.Some? && r.value.value.modulePath == "" ==>
                var block := CurrentSpan(copy.files, r.value.value.ref);
                r.value.value.location == block <==> block.Some? || old(Lookup(id)).value.location == None
    {
      if id !in byId {
        return Success(None);
      }
      var k := byId[id];
      var resource := resources[k];
      if resource.modulePath != "" {
        return Success(Some(resource));
      }
      var location := copy.LocateBlock(resource.ref);
      match location
      case Unbalanced(_, _) =>
        return Failure(UnbalancedBraces);
      case NotFound =>
        return Success(Some(resource));
      case Found(file, start, end) =>
        resource := resource.(location := Some(Span(file, start, end)));
        forall other ensures FirstCarrying(resources[k := resource], other) == FirstCarrying(resources, other) {
          FirstCarryingIgnoresLocation(resources, k, resource.location, other);
        }
        resources := resources[k := resource];
        return Success(Some(resource));
    }
  }

  lemma NothingManaged(resources: seq<StateResource>, path: string)
    requires resources == []
    ensures Managed(resources, path) == []
  {
  }

  lemma {:induction false} ManagedGrows(resources: seq<StateResource>, i: nat, path: string)
    requires i < |resources|
    ensures var r := resources[i];
            Managed(resources[..i+1], path) == Managed(resources[..i], path)
              + if r.managed then [TerraformResource(r.address, r.ref, r.values, path, None)] else []
  {
    if i == 0 {
      assert resources[..1] == [resources[0]];
    } else {
      ManagedGrows(resources[1..], i - 1, path);
      assert resources[..i+1][1..] == resources[1..][..i] && resources[..i][1..] == resources[1..][..i-1];
    }
  }

  /** A module's own managed resources come first, in order and under its own path; then each child's, in
    * order and under the child's address. */
  lemma PreorderLaws(address: string, own: seq<StateResource>, children: seq<Module>, r: StateResource, c: Module, path: string)
    ensures Preorder(Module(address, [], []), path) == []
    ensures Preorder(Module(address, own + [r], []), path)
         == Preorder(Module(address, own, []), path)
          + if r.managed then [TerraformResource(r.address, r.ref, r.values, path, None)] else []
    ensures Preorder(Module(address, own, children + [c]), path)
         == Preorder(Module(address, own, children), path) + Preorder(c, c.address)
  {
    NothingManaged([], path);
    OneMoreResource(own, r, path);
    OneMoreChild(address, own, children, c, path);
    hide Managed;
  }

  lemma OneMoreChild(address: string, own: seq<StateResource>, children: seq<Module>, c: Module, path: string)
    ensures Preorder(Module(address, own, children + [c]), path)
         == Preorder(Module(address, own, children), path) + Preorder(c, c.address)
  {
    hide Managed;
    var fewer, more := Module(address, own, children), Module(address, own, children + [c]);
    SameChildren(fewer, more, |children|);
    ghost var last := Preorder(c, c.address);
    assert PreorderOf(more, |children| + 1) == PreorderOf(more, |children|) + last by {
      assert more.children[|children|] == c;
    }
    assert Preorder(fewer, path) == Managed(own, path) + PreorderOf(fewer, |children|);
    assert Preorder(more, path) == Managed(own, path) + PreorderOf(more, |children| + 1);
    Reassociate(Managed(own, path), PreorderOf(fewer, |children|), last);
  }

  lemma OneMoreResource(own: seq<StateResource>, r: StateResource, path: string)
    ensures Managed(own + [r], path)
         == Managed(own, path) + if r.managed then [TerraformResource(r.address, r.ref, r.values, path, None)] else []
  {
    hide Managed;
    ManagedGrows(own + [r], |own|, path);
    assert (own + [r])[..|own|+1] == own + [r] && (own + [r])[..|own|] == own;
  }

  lemma {:induction false} SameChildren(m: Module, m': Module, k: nat)
    requires k <= |m.children| && m.children <= m'.children
    ensures PreorderOf(m, k) == PreorderOf(m', k)
    decreases k
  {
    hide Preorder;
    if k > 0 { SameChildren(m, m', k - 1); }
  }

  // ----- the removal proposal ------------------------------------------------------------------------

  datatype Refusal = CannotLocate | DanglingReferences(hits: seq<Hit>) | CannotEdit | InvalidPlan | PullRequestFailed

  datatype Proposal =
    | NotManaged                              // caller falls back to the API remediation
    | Refused(why: Refusal)
    | Proposed(url: Option<string>)           // None under dry-run

  /** Every header of the resource, in every readable file, lies inside the span. */
  ghost predicate OnlyWithin(dir: Directory, ref: Ref, l: Span) {
    forall g, k :: HeaderOn(dir, g, k, ref) ==> dir[g].name == l.file && l.start <= k + 1 <= l.end
  }

  ghost predicate HasHeader(dir: Directory, ref: Ref) { exists f, i :: HeaderOn(dir, f, i, ref) }

  /** The lines are the block the resource has in the files. */
  ghost predicate OwnBlock(dir: Directory, ref: Ref, l: Span) {
    exists f: nat, i: nat, j: nat :: IsLocated(dir, ref, f, i, j) && l == Span(dir[f].name, i + 1, j + 1)
  }

  lemma OwnBlockIsCurrent(dir: Directory, ref: Ref, l: Span)
    requires DistinctNames(dir)
    ensures OwnBlock(dir, ref, l) <==> CurrentSpan(dir, ref) == Some(l)
  {
    if f: nat, i: nat, j: nat :| IsLocated(dir, ref, f, i, j) && l == Span(dir[f].name, i + 1, j + 1) {
      LocatedIsFound(dir, ref, f, i, j);
    }
    if CurrentSpan(dir, ref) == Some(l) {
      var f, i, j := FoundIsLocated(dir, ref);
    }
  }

  /** A search that does not stumble over unbalanced braces has found a block iff a header is left. */
  lemma HeaderIffCurrent(dir: Directory, ref: Ref)
    requires !Locate(dir, ref).Unbalanced?
    ensures HasHeader(dir, ref) <==> CurrentSpan(dir, ref).Some?
  {
    NotFoundIffNoHeader(dir, ref);
  }

  /** Removing any lines makes a resource unlocatable iff it has no header elsewhere. */
  lemma RemovedLinesIff(dir: Directory, ref: Ref, l: Span)
    requires DistinctNames(dir) && Removed(dir, l.file, l.start, l.end).Success?
    ensures Locate(Removed(dir, l.file, l.start, l.end).value, ref) == NotFound <==> OnlyWithin(dir, ref, l)
  {
    var f, i, j := IndexOf(dir, l.file), l.start - 1, l.end - 1;
    RemovedBlockIsGone(dir, ref, f, i, j);
    forall g | 0 <= g < |dir| ensures dir[g].name == l.file <==> g == f {
      assert g < f ==> dir[g].name != dir[f].name;
      assert f < g ==> dir[f].name != dir[g].name;
    }
    if OnlyWithin(dir, ref, l) {
      forall g, k | HeaderOn(dir, g, k, ref) ensures g == f && i <= k <= j {}
    } else {
      var g, k :| HeaderOn(dir, g, k, ref) && !(dir[g].name == l.file && l.start <= k + 1 <= l.end);
      assert !(g == f && i <= k <= j);
    }
  }

  lemma OwnBlockCanGo(dir: Directory, ref: Ref, l: Span)
    requires DistinctNames(dir) && OwnBlock(dir, ref, l)
    ensures Removed(dir, l.file, l.start, l.end).Success?
  {
    var f: nat, i: nat, j: nat :| IsLocated(dir, ref, f, i, j) && l == Span(dir[f].name, i + 1, j + 1);
    RemovedIsCut(dir, f, i, j);
  }

  /** Locating, removing what was found and locating again through the same mapper: the second answer is the
    * removed lines, although the files have no such block, iff every header was inside them. */
  method LocateRemoveLocate(mapper: Mapper, copy: WorkingCopy, id: string)
    returns (once: TerraformResource, again: Result<Option<TerraformResource>, MappingError>)
    requires mapper.Valid() && DistinctNames(copy.files)
    requires mapper.Lookup(id).Some? && mapper.Lookup(id).value.modulePath == ""
    requires CurrentSpan(copy.files, mapper.Lookup(id).value.ref).Some?
    modifies mapper, copy
    ensures mapper.Valid() && once.ref == old(mapper.Lookup(id)).value.ref
    ensures once.location.Some? && once.location == CurrentSpan(old(copy.files), once.ref)
    ensures var l := once.location.value; Removed(old(copy.files), l.file, l.start, l.end) == Success(copy.files)
    ensures again == Success(Some(once)) && CurrentSpan(copy.files, once.ref) == None
       <==> OnlyWithin(old(copy.files), once.ref, once.location.value)
  {
    var found := mapper.Locate(id, copy);
    once := found.value.value;
    var l := once.location.value;
    ghost var before := copy.files;
    OwnBlockIsCurrent(before, once.ref, l);
    OwnBlockCanGo(before, once.ref, l);
    var error := copy.RemoveBlock(l.file, l.start, l.end);
    RemovedLinesIff(before, once.ref, l);
    hide OwnBlock, OnlyWithin, Removed;
    again := mapper.Locate(id, copy);
  }

  /** The lines the mapper would report can be taken out, and nothing refers to the resource from elsewhere. */
  ghost predicate Removable(found: Option<TerraformResource>, dir: Directory) {
    && found.Some? && Reported(found.value, dir).Success? && Reported(found.value, dir).value.Some?
    && var l := Reported(found.value, dir).value.value;
       && FindReferences(dir, found.value.ref, Lines(l.file, l.start, l.end)) == Success([])
       && Removed(dir, l.file, l.start, l.end).Success?
  }

  /** `validates` and `pullRequest` are what terraform and the git/gh commands answer.
    *
    * A proposal removes the block of its own resource iff the files still have a header of it; the first
    * proposal for a resource through a mapper always does. */
  method ProposeRemoval(mapper: Mapper, copy: WorkingCopy, id: string, dryRun: bool,
                        validates: bool, pullRequest: Option<string>) returns (p: Proposal)
    requires mapper.Valid() && DistinctNames(copy.files)
    modifies mapper, copy
    ensures mapper.Valid()
    ensures old(mapper.Lookup(id)).Some? && Reported(old(mapper.Lookup(id)).value, old(copy.files)).Success? ==>
              mapper.Lookup(id) == Some(old(mapper.Lookup(id)).value.(
                location := Reported(old(mapper.Lookup(id)).value, old(copy.files)).value))
    ensures p == NotManaged <==>
              old(mapper.Lookup(id)) == None || Reported(old(mapper.Lookup(id)).value, old(copy.files)) == Success(None)
    ensures p == NotManaged ==> copy.files == old(copy.files)
    ensures p.Refused? && p.why != InvalidPlan && p.why != PullRequestFailed ==> copy.files == old(copy.files)
    ensures p.Proposed? <==>
              Removable(old(mapper.Lookup(id)), old(copy.files)) && validates && (dryRun || pullRequest.Some?)
    ensures p.Proposed? ==>
              && p.url == (if dryRun then None else pullRequest)
              && var ref, l := old(mapper.Lookup(id)).value.ref, Reported(old(mapper.Lookup(id)).value, old(copy.files)).value.value;
                 && Removed(old(copy.files), l.file, l.start, l.end) == Success(copy.files)
                 && FindReferences(copy.files, ref, Nothing) == Success([])
                 && (OwnBlock(old(copy.files), ref, l) <==> HasHeader(old(copy.files), ref))
                 && (old(mapper.Lookup(id)).value.location == None ==> OwnBlock(old(copy.files), ref, l))
                 && (Locate(copy.files, ref) == NotFound <==> OnlyWithin(old(copy.files), ref, l))
  {
    var found := mapper.Locate(id, copy);
    if found.Failure? {
      return Refused(CannotLocate);
    }
    if found.value == None || found.value.value.location == None {
      return NotManaged;
    }
    var resource := found.value.value;
    var l := resource.location.value;
    var references := copy.References(resource.ref, Lines(l.file, l.start, l.end));
    if references.Failure? {
      return Refused(CannotEdit);
    }
    if references.value != [] {
      return Refused(DanglingReferences(references.value));
    }
    ghost var before := copy.files;
    var error := copy.RemoveBlock(l.file, l.start, l.end);
    if error.Some? {
      return Refused(CannotEdit);
    }
    PreCheckIsExact(before, l.file, l.start, l.end, resource.ref);
    RemovedLinesIff(before, resource.ref, l);
    OwnBlockIsCurrent(before, resource.ref, l);
    HeaderIffCurrent(before, resource.ref);
    if !validates {
      return Refused(InvalidPlan);
    }
    if dryRun {
      return Proposed(None);
    }
    return if pullRequest.Some? then Proposed(pullRequest) else Refused(PullRequestFailed);
  }

  // ----- a second proposal for a resource that is already gone ---------------------------------------

  const A := Ref("aws_eip", "a")
  const B := Ref("aws_eip", "b")

  /** A one-line block: the header and a brace that opens and closes on it. */
  function OneLine(ref: Ref): Line { RawLine("resource", Some(ref), Some(ref), {}, 1, 1, false, false) }

  function MainTf(lines: seq<Line>): Directory { [TfFile("main.tf", true, lines)] }

  function Eip(ref: Ref, id: string): StateResource {
    StateResource(true, ref.name, ref, Values(Some(id), None, None, None, None))
  }

  /** A file that starts with a one-line block and has no references. */
  lemma OneLiners(ref: Ref, lines: seq<Line>)
    requires lines != [] && lines[0] == OneLine(ref)
    requires forall k :: 0 <= k < |lines| ==> lines[k].mentions == {}
    ensures IsBlock(lines, 0, 0)
    ensures forall r, ex :: FindReferences(MainTf(lines), r, ex) == Success([])
    ensures Removed(MainTf(lines), "main.tf", 1, 1) == Success(MainTf(Without(lines, 1, 1)))
  {
    var first := lines[0..1];
    assert first == [OneLine(ref)] && first[..|first|-1] == [] && Net(first) == 0;
    var dir := MainTf(lines);
    assert dir[1..] == [] && IndexOf(dir, "main.tf") == 0;
    assert dir[0 := dir[0].(lines := Without(lines, 1, 1))] == MainTf(Without(lines, 1, 1));
    forall r, ex ensures HitsInFiles(dir, r, ex) == [] {
      NoMentionsNoHits(lines, 0, r, ex);
      NoHits(dir[1..], r, ex);
    }
  }

  lemma {:induction false} NoMentionsNoHits(lines: seq<Line>, before: nat, ref: Ref, ex: Exclusion)
    requires forall k :: 0 <= k < |lines| ==> lines[k].mentions == {}
    ensures HitsInLines("main.tf", lines, before, ref, ex) == []
  {
    if lines != [] { NoMentionsNoHits(lines[1..], before + 1, ref, ex); }
  }

  lemma FirstOfTwo()
    ensures Locate(MainTf([OneLine(A), OneLine(B)]), A) == Found("main.tf", 1, 1)
    ensures FindReferences(MainTf([OneLine(A), OneLine(B)]), A, Lines("main.tf", 1, 1)) == Success([])
    ensures Removed(MainTf([OneLine(A), OneLine(B)]), "main.tf", 1, 1) == Success(MainTf([OneLine(B)]))
  {
    var lines := [OneLine(A), OneLine(B)];
    OneLiners(A, lines);
    LocatedIsFound(MainTf(lines), A, 0, 0, 0);
    assert Without(lines, 1, 1) == [OneLine(B)];
  }

  /** After that the lines once reported for A are the block of B, and nothing stands in the way of removing
    * them as A. */
  lemma StaleLinesAreAnothers()
    ensures var dir, l := MainTf([OneLine(B)]), Span("main.tf", 1, 1);
            && !HasHeader(dir, A) && !OwnBlock(dir, A, l) && OwnBlock(dir, B, l)
            && Locate(dir, A) == NotFound
            && FindReferences(dir, A, Lines("main.tf", 1, 1)) == Success([])
            && Removed(dir, "main.tf", 1, 1) == Success(MainTf([]))
  {
    var lines, dir := [OneLine(B)], MainTf([OneLine(B)]);
    NotFoundIffNoHeader(dir, A);
    OneLiners(B, lines);
    assert IsLocated(dir, B, 0, 0, 0);
    assert Without(lines, 1, 1) == [];
  }

  const STATE := Module("", [Eip(A, "eipalloc-a"), Eip(B, "eipalloc-b")], [])

  lemma TwoEips()
    ensures var rs := Preorder(STATE, "");
            FirstCarrying(rs, "eipalloc-a") == 0 && rs != [] && rs[0].ref == A && rs[0].modulePath == "" && rs[0].location == None
  {
    hide FirstCarrying;
    var rs := Preorder(STATE, "");
    assert STATE.resources[1..][1..] == [];
    assert Carries(rs[0], "eipalloc-a");
  }

  /** Two proposals for A through one mapper, both accepted: the second removes B. */
  method ProposeTwice() returns (first: Proposal, second: Proposal, copy: WorkingCopy)
    ensures first == Proposed(None) && second == Proposed(None)
    ensures copy.files == MainTf([])
  {
    hide Preorder, FirstCarrying, Locate, FindReferences, Removed, OwnBlock, HasHeader, OnlyWithin, Carries;
    TwoEips();
    var mapper := new Mapper(STATE);
    copy := new WorkingCopy(MainTf([OneLine(A), OneLine(B)]));
    FirstOfTwo();
    first := ProposeRemoval(mapper, copy, "eipalloc-a", true, true, None);
    StaleLinesAreAnothers();
    second := ProposeRemoval(mapper, copy, "eipalloc-a", true, true, None);
  }
}
