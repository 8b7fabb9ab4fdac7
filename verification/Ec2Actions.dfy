/** Stopping or terminating an instance by trying regions in turn (ui/jobs.py, _execute_ec2_boto3). */
module Ec2Actions {
  import opened Wrappers

  /** What one region answers: an error (its text may contain "not found"), no such instance, an instance
    * already terminated or shutting down, or an instance on which the write call succeeds or raises. */
  datatype Answer =
    | Raises(saysNotFound: bool)
    | Absent
    | AlreadyGone
    | Writable(ok: bool, saysNotFound: bool)

  datatype Failure = NotFoundAnywhere | Errors(saysNotFound: bool)

  /** `writes` are the positions of the regions where the write call was issued. */
  datatype Outcome = Outcome(error: Option<Failure>, writes: seq<nat>)

  /** The tried regions: the stored one first, then the others. */
  function Order(regions: seq<string>, stored: Option<string>): seq<string> {
    if stored == None || stored.value == "" then regions else [stored.value] + Others(regions, stored.value)
  }

  function Others(regions: seq<string>, r: string): seq<string> {
    if regions == [] then []
    else (if regions[0] == r then [] else [regions[0]]) + Others(regions[1..], r)
  }

  /** The stored region adds to the sweep but never takes a region out of it. */
  lemma {:induction false} EveryRegionIsTried(regions: seq<string>, stored: Option<string>, r: string)
    ensures r in regions ==> r in Order(regions, stored)
    ensures r in Order(regions, stored) ==> r in regions || stored == Some(r)
    ensures (forall i, j :: 0 <= i < j < |regions| ==> regions[i] != regions[j]) ==>
              forall i, j :: 0 <= i < j < |Order(regions, stored)| ==> Order(regions, stored)[i] != Order(regions, stored)[j]
  {
    if stored.Some? && stored.value != "" {
      OthersFacts(regions, stored.value, stored.value);
      if forall i, j :: 0 <= i < j < |regions| ==> regions[i] != regions[j] { OthersAreDistinct(regions, stored.value); }
    }
    if stored.Some? && stored.value != "" {
      OthersFacts(regions, stored.value, r);
    }
  }

  lemma {:induction false} OthersFacts(regions: seq<string>, s: string, r: string)
    ensures r in Others(regions, s) <==> r in regions && r != s
  {
    if regions != [] {
      OthersFacts(regions[1..], s, r);
      assert r in regions <==> r == regions[0] || r in regions[1..];
    }
  }

  lemma {:induction false} OthersAreDistinct(regions: seq<string>, s: string)
    requires forall i, j :: 0 <= i < j < |regions| ==> regions[i] != regions[j]
    ensures forall i, j :: 0 <= i < j < |Others(regions, s)| ==> Others(regions, s)[i] != Others(regions, s)[j]
  {
    if regions != [] {
      OthersAreDistinct(regions[1..], s);
      OthersFacts(regions[1..], s, regions[0]);
      assert forall i :: 0 < i < |regions| ==> regions[1..][i-1] == regions[i];
      var rest := Others(regions[1..], s);
      assert forall i :: 0 <= i < |rest| ==> rest[i] in rest;
    }
  }

  predicate Fails(a: Answer) { a.Raises? || (a.Writable? && !a.ok) }

  predicate Ends(a: Answer) { a.AlreadyGone? || (a.Writable? && a.ok) }

  /** The first region that ends the search; |answers| if none does. */
  function FirstEnd(answers: seq<Answer>): (k: nat)
    ensures k <= |answers|
    ensures k < |answers| ==> Ends(answers[k])
    ensures forall i :: 0 <= i < k ==> !Ends(answers[i])
  {
    if answers == [] || Ends(answers[0]) then 0 else 1 + FirstEnd(answers[1..])
  }

  predicate Tried(answers: seq<Answer>, i: nat) {
    i < |answers| && i <= FirstEnd(answers) && answers[i].Writable?
  }

  predicate Succeeds(answers: seq<Answer>) { FirstEnd(answers) < |answers| }

  predicate NowhereFound(answers: seq<Answer>) { forall i :: 0 <= i < |answers| ==> answers[i] == Absent }

  /** One of the first n regions fails; and with an error that says "not found". */
  predicate SomeFail(answers: seq<Answer>, n: nat) { exists i :: 0 <= i < n <= |answers| && Fails(answers[i]) }

  predicate SomeSay(answers: seq<Answer>, n: nat) {
    exists i :: 0 <= i < n <= |answers| && Fails(answers[i]) && answers[i].saysNotFound
  }

  lemma OneMoreAnswer(answers: seq<Answer>, n: nat)
    requires n < |answers|
    ensures !SomeFail(answers, 0) && !SomeSay(answers, 0)
    ensures SomeFail(answers, n + 1) <==> SomeFail(answers, n) || Fails(answers[n])
    ensures SomeSay(answers, n + 1) <==> SomeSay(answers, n) || (Fails(answers[n]) && answers[n].saysNotFound)
  {
  }

  /** The reported error contains the words "not found": either no region has the instance, or the text
    * of some region's error says so. */
  predicate SaysNotFound(answers: seq<Answer>) {
    !Succeeds(answers) && (NowhereFound(answers) || SomeSay(answers, |answers|))
  }

  predicate Writes(answers: seq<Answer>) { exists i: nat :: i < |answers| && Tried(answers, i) }

  lemma WritesIff(answers: seq<Answer>, writes: seq<nat>)
    requires forall i :: i in writes <==> Tried(answers, i)
    ensures writes != [] <==> Writes(answers)
  {
    if writes != [] {
      assert writes[0] in writes;
    }
  }

  /** What the tried regions answer, in the order they are tried. */
  function Tries(order: seq<string>, answer: string -> Answer): (answers: seq<Answer>)
    ensures |answers| == |order| && forall i :: 0 <= i < |order| ==> answers[i] == answer(order[i])
  {
    seq(|order|, i requires 0 <= i < |order| => answer(order[i]))
  }

  /** The call succeeds iff some region ends the search; writes go to the live instances met up to there;
    * the error is "not found" iff no region has the instance, and otherwise quotes every region's.  The
    * stored region is the first to be asked, and a write that succeeds is the last one issued. */
  method Execute(regions: seq<string>, stored: Option<string>, answer: string -> Answer) returns (o: Outcome)
    ensures var answers := Tries(Order(regions, stored), answer);
            && (o.error == None <==> Succeeds(answers))
            && (forall i :: i in o.writes <==> Tried(answers, i))
            && (o.writes != [] <==> Writes(answers))
            && (o.error == Some(NotFoundAnywhere) <==> NowhereFound(answers))
            && (o.error.Some? ==> (SaysNotFound(answers) <==> o.error.value == NotFoundAnywhere || o.error.value.saysNotFound))
    ensures var order := Order(regions, stored);
            && (o.error == None <==>
                  exists i :: 0 <= i < |order| &&
                    (answer(order[i]) == AlreadyGone || (answer(order[i]).Writable? && answer(order[i]).ok)))
            && (forall i :: i in o.writes <==>
                  && 0 <= i < |order| && answer(order[i]).Writable?
                  && forall j :: 0 <= j < i ==>
                       answer(order[j]) != AlreadyGone && !(answer(order[j]).Writable? && answer(order[j]).ok))
    ensures var answers := Tries(Order(regions, stored), answer);
            forall i, j :: i in o.writes && j in o.writes && answers[i].ok ==> j <= i
    ensures o.error == Some(NotFoundAnywhere) ==>
              (forall r :: r in regions ==> answer(r) == Absent)
              && (stored.Some? && stored.value != "" ==> answer(stored.value) == Absent)
    ensures stored.Some? && stored.value != "" && Ends(answer(stored.value)) ==>
              o.error == None && o.writes == if answer(stored.value).Writable? then [0] else []
  {
    InAnswersOf(regions, stored, answer);
    hide Order, Tries, SomeFail, SomeSay, Writes, SaysNotFound, NowhereFound, Fails;
    var order := Order(regions, stored);
    ghost var answers := Tries(order, answer);
    StoredIsFirst(regions, stored);
    var writes: seq<nat> := [];
    var errors, notFound := false, false;
    for r := 0 to |order|
      invariant forall i :: 0 <= i < r ==> !Ends(answers[i])
      invariant forall i :: i in writes <==> 0 <= i < r && answers[i].Writable?
      invariant r == 0 ==> writes == []
      invariant r > 0 ==> errors == SomeFail(answers, r) && notFound == SomeSay(answers, r)
      invariant r == 0 ==> !errors && !notFound
    {
      OneMoreAnswer(answers, r);
      WhichFail(answers[r]);
      match answer(order[r])
      case Absent =>
      case Raises(says) =>
        errors, notFound := true, notFound || says;
      case AlreadyGone =>
        Ended(answers, r, writes);
        return Outcome(None, writes);
      case Writable(ok, says) =>
        writes := writes + [r];
        if ok {
          Ended(answers, r, writes);
          return Outcome(None, writes);
        }
        errors, notFound := true, notFound || says;
    }
    NothingEnded(answers, writes);
    if errors {
      return Outcome(Some(Errors(notFound)), writes);
    }
    NobodyHasIt(regions, stored, answer);
    return Outcome(Some(NotFoundAnywhere), writes);
  }

  /** In terms of the answers alone: the call succeeds iff some region has the instance gone or stops it; a
    * write goes to every live instance met before that; nobody has it iff every region says so. */
  lemma InTermsOfAnswers(answers: seq<Answer>, i: nat)
    ensures Succeeds(answers) <==>
            exists j :: 0 <= j < |answers| && (answers[j] == AlreadyGone || (answers[j].Writable? && answers[j].ok))
    ensures Tried(answers, i) <==>
            i < |answers| && answers[i].Writable?
            && forall j :: 0 <= j < i ==> answers[j] != AlreadyGone && !(answers[j].Writable? && answers[j].ok)
    ensures Writes(answers) <==>
            exists j :: 0 <= j < |answers| && answers[j].Writable?
                        && forall l :: 0 <= l < j ==> answers[l] != AlreadyGone && !(answers[l].Writable? && answers[l].ok)
    ensures SaysNotFound(answers) <==>
            && (forall j :: 0 <= j < |answers| ==> answers[j] != AlreadyGone && !(answers[j].Writable? && answers[j].ok))
            && ((forall j :: 0 <= j < |answers| ==> answers[j] == Absent)
                || exists j :: 0 <= j < |answers| && (answers[j].Raises? || answers[j].Writable?) && answers[j].saysNotFound)
  {
    if j: nat :| j < |answers| && Tried(answers, j) {
      assert answers[j].Writable? && forall l :: 0 <= l < j ==> !Ends(answers[l]);
    }
    if j: nat :| j < |answers| && answers[j].Writable?
                 && forall l :: 0 <= l < j ==> answers[l] != AlreadyGone && !(answers[l].Writable? && answers[l].ok) {
      assert forall l :: 0 <= l < j ==> !Ends(answers[l]);
      assert Tried(answers, j);
    }
    if j: nat :| j < |answers| && (answers[j] == AlreadyGone || (answers[j].Writable? && answers[j].ok)) {
      assert Ends(answers[j]);
    }
  }

  lemma InAnswersOf(regions: seq<string>, stored: Option<string>, answer: string -> Answer)
    ensures var order := Order(regions, stored);
            var answers := Tries(order, answer);
            && (Succeeds(answers) <==>
                  exists i :: 0 <= i < |order| &&
                    (answer(order[i]) == AlreadyGone || (answer(order[i]).Writable? && answer(order[i]).ok)))
            && (forall i: nat :: Tried(answers, i) <==>
                  && i < |order| && answer(order[i]).Writable?
                  && forall j :: 0 <= j < i ==>
                       answer(order[j]) != AlreadyGone && !(answer(order[j]).Writable? && answer(order[j]).ok))
  {
    hide Succeeds, Tried, SaysNotFound, Writes, Order, Tries;
    var order := Order(regions, stored);
    var answers := Tries(order, answer);
    InTermsOfAnswers(answers, 0);
    forall i: nat
      ensures Tried(answers, i) <==>
              && i < |order| && answer(order[i]).Writable?
              && forall j :: 0 <= j < i ==>
                   answer(order[j]) != AlreadyGone && !(answer(order[j]).Writable? && answer(order[j]).ok)
    {
      InTermsOfAnswers(answers, i);
      assert forall j :: 0 <= j < |order| ==> answers[j] == answer(order[j]);
    }
    assert forall j :: 0 <= j < |order| ==> answers[j] == answer(order[j]);
  }

  lemma WhichFail(a: Answer)
    ensures Fails(a) <==> a.Raises? || (a.Writable? && !a.ok)
  {
  }

  lemma StoredIsFirst(regions: seq<string>, stored: Option<string>)
    ensures stored.Some? && stored.value != "" ==> Order(regions, stored) != [] && Order(regions, stored)[0] == stored.value
  {
  }

  lemma Ended(answers: seq<Answer>, r: nat, writes: seq<nat>)
    requires r < |answers| && Ends(answers[r]) && forall i :: 0 <= i < r ==> !Ends(answers[i])
    requires forall i :: i in writes <==> 0 <= i <= r && answers[i].Writable?
    ensures Succeeds(answers) && !NowhereFound(answers)
    ensures forall i, j :: i in writes && j in writes && answers[i].ok ==> j <= i
    ensures (forall i :: i in writes <==> Tried(answers, i)) && (writes != [] <==> Writes(answers))
  {
    assert FirstEnd(answers) == r;
    WritesIff(answers, writes);
  }

  lemma NothingEnded(answers: seq<Answer>, writes: seq<nat>)
    requires forall i :: 0 <= i < |answers| ==> !Ends(answers[i])
    requires forall i :: i in writes <==> 0 <= i < |answers| && answers[i].Writable?
    ensures !Succeeds(answers) && (forall i :: i in writes <==> Tried(answers, i)) && (writes != [] <==> Writes(answers))
    ensures NowhereFound(answers) <==> !SomeFail(answers, |answers|)
    ensures SaysNotFound(answers) <==> NowhereFound(answers) || SomeSay(answers, |answers|)
    ensures forall i, j :: i in writes && j in writes && answers[i].ok ==> j <= i
    ensures SomeSay(answers, |answers|) ==> SomeFail(answers, |answers|)
    ensures |answers| == 0 ==> !SomeFail(answers, 0) && !SomeSay(answers, 0)
  {
    assert FirstEnd(answers) == |answers|;
    WritesIff(answers, writes);
  }

  lemma NobodyHasIt(regions: seq<string>, stored: Option<string>, answer: string -> Answer)
    requires NowhereFound(Tries(Order(regions, stored), answer))
    ensures forall r :: r in regions ==> answer(r) == Absent
    ensures stored.Some? && stored.value != "" ==> answer(stored.value) == Absent
  {
    var order := Order(regions, stored);
    var answers := Tries(order, answer);
    forall r | r in regions ensures answer(r) == Absent {
      EveryRegionIsTried(regions, stored, r);
      var i :| 0 <= i < |order| && order[i] == r;
      assert answers[i] == Absent;
    }
    if stored.Some? && stored.value != "" { assert answers[0] == answer(stored.value); }
  }
}
