/**
 * The highlight of the report and its most active user. The highlight is the
 * first activity of the most interesting kind present: a created repository,
 * then a pull request, then a star, then anything else.
 */
module ReportHighlight {
  import opened Wrappers
  import opened Report
  import ReportLabels

  const FreshOffThePress := "\U{1F680} Fresh off the press!"
  const MakingThingsHappen := "\U{1F4AA} Making things happen!"
  const SpottedSomethingCool := "\U{1F440} Spotted something cool!"
  const CheckThisOut := "\U{2728} Check this out!"

  /** How interesting an activity type is: created repo > pull request > starred > anything else. */
  function Priority(t: ActivityType): nat {
    if t == CreatedRepo then 3
    else if t == PullRequest then 2
    else if t == Starred then 1
    else 0
  }

  /** The reason shown with a highlighted activity of type `t`. */
  function Reason(t: ActivityType): string {
    if t == CreatedRepo then FreshOffThePress
    else if t == PullRequest then MakingThingsHappen
    else if t == Starred then SpottedSomethingCool
    else CheckThisOut
  }

  function Candidate(ua: UserActivity, a: Activity): Highlight {
    Highlight(a, ua.user, ua.avatarUrl, Reason(a.activityType))
  }

  /** The candidate highlights of one user, one per activity. */
  function UserCandidates(ua: UserActivity): (r: seq<Highlight>)
    ensures |r| == |ua.activities|
  {
    seq(|ua.activities|, i requires 0 <= i < |ua.activities| => Candidate(ua, ua.activities[i]))
  }

  /** The candidate highlights of the report, in iteration order. */
  function Candidates(uas: seq<UserActivity>): seq<Highlight> {
    if uas == [] then [] else Candidates(uas[..|uas| - 1]) + UserCandidates(uas[|uas| - 1])
  }

  /** Whether `c` takes the place of the best so far: only a strictly more interesting candidate does. */
  predicate Replaces(best: Option<Highlight>, c: Highlight) {
    best.None? || Priority(best.value.activity.activityType) < Priority(c.activity.activityType)
  }

  /** The highlight among `cs` as the loop keeps it. */
  function BestOf(cs: seq<Highlight>): Option<Highlight> {
    if cs == [] then None
    else
      var best := BestOf(cs[..|cs| - 1]);
      var c := cs[|cs| - 1];
      if Replaces(best, c) then Some(c) else best
  }

  /** What `GetHighlight` computes. */
  function Highlighted(r: Report): Option<Highlight> {
    BestOf(Candidates(r.userActivities))
  }

  function Interest(c: Highlight): nat {
    Priority(c.activity.activityType)
  }

  /** `cs[i]` is the first candidate of the highest priority in `cs`. */
  predicate FirstMaximal(cs: seq<Highlight>, i: int) {
    && 0 <= i < |cs|
    && (forall j :: 0 <= j < |cs| ==> Interest(cs[j]) <= Interest(cs[i]))
    && (forall j :: 0 <= j < i ==> Interest(cs[j]) < Interest(cs[i]))
  }

  lemma FirstMaximalSnoc(cs: seq<Highlight>, i: nat, c: Highlight)
    requires FirstMaximal(cs, i)
    ensures Interest(cs[i]) < Interest(c) ==> FirstMaximal(cs + [c], |cs|)
    ensures Interest(c) <= Interest(cs[i]) ==> FirstMaximal(cs + [c], i)
  {
    assert forall j :: 0 <= j < |cs| ==> (cs + [c])[j] == cs[j];
  }

  /** The best of `cs` is its first candidate of the highest priority present, and there is none only for no candidates. */
  lemma {:induction false} BestOfIsFirstMaximal(cs: seq<Highlight>)
    ensures BestOf(cs).None? <==> cs == []
    ensures BestOf(cs).Some? ==> exists i :: FirstMaximal(cs, i) && BestOf(cs) == Some(cs[i])
    decreases |cs|
  {
    if cs != [] {
      var n := |cs| - 1;
      var prev := cs[..n];
      var c := cs[n];
      assert cs == prev + [c];
      BestOfIsFirstMaximal(prev);
      if BestOf(prev).Some? {
        var i :| FirstMaximal(prev, i) && BestOf(prev) == Some(prev[i]);
        FirstMaximalSnoc(prev, i, c);
        if Replaces(BestOf(prev), c) {
          assert FirstMaximal(cs, n) && BestOf(cs) == Some(cs[n]);
        } else {
          assert FirstMaximal(cs, i) && BestOf(cs) == Some(cs[i]);
        }
      } else {
        assert prev == [];
        assert FirstMaximal(cs, 0) && BestOf(cs) == Some(cs[0]);
      }
    }
  }

  /** `c` names the user and avatar of an entry of `uas` whose activities hold `c`'s activity. */
  predicate HeldBy(uas: seq<UserActivity>, c: Highlight) {
    exists k :: 0 <= k < |uas| && c.activity in uas[k].activities
      && c.user == uas[k].user && c.avatarUrl == uas[k].avatarUrl
  }

  /**
   * The candidates follow the activities one to one, each carrying the reason
   * for its type and the user and avatar of the entry holding its activity.
   */
  lemma {:induction false} CandidatesFollowActivities(uas: seq<UserActivity>)
    ensures |Candidates(uas)| == |AllActivities(uas)|
    ensures forall i :: 0 <= i < |Candidates(uas)| ==>
      Candidates(uas)[i].activity == AllActivities(uas)[i] &&
      Candidates(uas)[i].reason == Reason(AllActivities(uas)[i].activityType) &&
      HeldBy(uas, Candidates(uas)[i])
    decreases |uas|
  {
    if uas != [] {
      var n := |uas| - 1;
      CandidatesFollowActivities(uas[..n]);
      var prev := Candidates(uas[..n]);
      var acts := AllActivities(uas[..n]);
      forall i | 0 <= i < |Candidates(uas)|
        ensures Candidates(uas)[i].activity == AllActivities(uas)[i]
        ensures Candidates(uas)[i].reason == Reason(AllActivities(uas)[i].activityType)
        ensures HeldBy(uas, Candidates(uas)[i])
      {
        if i < |prev| {
          assert Candidates(uas)[i] == prev[i];
          assert AllActivities(uas)[i] == acts[i];
          assert HeldBy(uas[..n], prev[i]);
          var k :| 0 <= k < n && prev[i].activity in uas[..n][k].activities
            && prev[i].user == uas[..n][k].user && prev[i].avatarUrl == uas[..n][k].avatarUrl;
          assert uas[..n][k] == uas[k];
        } else {
          var m := i - |prev|;
          assert Candidates(uas)[i] == UserCandidates(uas[n])[m];
          assert AllActivities(uas)[i] == uas[n].activities[i - |acts|];
          assert uas[n].activities[m] in uas[n].activities;
        }
      }
    }
  }

  /**
   * `GetHighlight` returns nothing exactly when the report has no activity;
   * otherwise it returns the first activity, in iteration order, of the most
   * interesting type present, with the reason for that type.
   */
  lemma HighlightIsFirstMostInteresting(r: Report)
    ensures var acts := AllActivities(r.userActivities);
      && (Highlighted(r).None? <==> acts == [])
      && (Highlighted(r).Some? ==> exists i :: (
        && 0 <= i < |acts| && Highlighted(r).value.activity == acts[i]
        && Highlighted(r).value.reason == Reason(acts[i].activityType)
        && (forall j :: 0 <= j < |acts| ==> Priority(acts[j].activityType) <= Priority(acts[i].activityType))
        && (forall j :: 0 <= j < i ==> Priority(acts[j].activityType) < Priority(acts[i].activityType))))
      && (Highlighted(r).Some? ==> exists k :: (
        && 0 <= k < |r.userActivities| && Highlighted(r).value.activity in r.userActivities[k].activities
        && Highlighted(r).value.user == r.userActivities[k].user
        && Highlighted(r).value.avatarUrl == r.userActivities[k].avatarUrl))
  {
    var cs := Candidates(r.userActivities);
    var acts := AllActivities(r.userActivities);
    CandidatesFollowActivities(r.userActivities);
    BestOfIsFirstMaximal(cs);
    if cs != [] {
      var i :| FirstMaximal(cs, i) && BestOf(cs) == Some(cs[i]);
      assert forall j :: 0 <= j < |cs| ==> Interest(cs[j]) == Priority(acts[j].activityType);
      assert Highlighted(r).value.activity == acts[i];
      assert HeldBy(r.userActivities, cs[i]);
    }
  }

  /** The hot types are exactly the two most interesting ones. */
  lemma HotMeansTopPriority(t: ActivityType)
    ensures ReportLabels.IsHotActivity(t) <==> Priority(t) >= 2
  {
  }

  /** The inner loop of `GetHighlight`: considers one user's activities in turn. */
  method ConsiderUser(best: Option<Highlight>, ghost before: seq<Highlight>, ua: UserActivity)
    returns (r: Option<Highlight>)
    requires best == BestOf(before)
    ensures r == BestOf(before + UserCandidates(ua))
  {
    r := best;
    ghost var cs := UserCandidates(ua);
    assert before + cs[..0] == before;
    for j := 0 to |ua.activities|
      invariant r == BestOf(before + cs[..j])
    {
      assert before + cs[..j + 1] == (before + cs[..j]) + [cs[j]];
      var a := ua.activities[j];
      var candidate := Highlight(a, ua.user, ua.avatarUrl, "");
      if a.activityType == CreatedRepo {
        candidate := candidate.(reason := FreshOffThePress);
        if r.None? || r.value.activity.activityType != CreatedRepo {
          r := Some(candidate);
        }
      } else if a.activityType == PullRequest {
        candidate := candidate.(reason := MakingThingsHappen);
        if r.None? || (r.value.activity.activityType != CreatedRepo && r.value.activity.activityType != PullRequest) {
          r := Some(candidate);
        }
      } else if a.activityType == Starred {
        candidate := candidate.(reason := SpottedSomethingCool);
        if r.None? || (r.value.activity.activityType != CreatedRepo &&
                       r.value.activity.activityType != PullRequest &&
                       r.value.activity.activityType != Starred) {
          r := Some(candidate);
        }
      } else {
        if r.None? {
          candidate := candidate.(reason := CheckThisOut);
          r := Some(candidate);
        }
      }
    }
    assert cs[..|cs|] == cs;
  }

  /** `GetHighlight`. */
  method GetHighlight(rep: Report) returns (best: Option<Highlight>)
    ensures best == Highlighted(rep)
  {
    var uas := rep.userActivities;
    best := None;
    for i := 0 to |uas|
      invariant best == BestOf(Candidates(uas[..i]))
    {
      assert uas[..i + 1][..i] == uas[..i];
      best := ConsiderUser(best, Candidates(uas[..i]), uas[i]);
    }
    assert uas[..|uas|] == uas;
  }

  // ---------------------------------------------------------------------
  // The most active user
  // ---------------------------------------------------------------------

  /** The position of a user with the most activities: the first such user. */
  function MostActiveIndex(uas: seq<UserActivity>): (i: nat)
    requires uas != []
    ensures i < |uas|
    ensures forall j :: 0 <= j < |uas| ==> |uas[j].activities| <= |uas[i].activities|
  {
    if |uas| == 1 then 0
    else
      var n := |uas| - 1;
      var p := MostActiveIndex(uas[..n]);
      assert forall j :: 0 <= j < n ==> uas[..n][j] == uas[j];
      if |uas[p].activities| < |uas[n].activities| then n else p
  }

  /** `MostActiveUser`: empty for an empty report, otherwise a user with no fewer activities than any other. */
  function MostActiveUser(r: Report): (u: string)
    ensures r.userActivities == [] ==> u == ""
    ensures r.userActivities != [] ==> exists i :: (
      && 0 <= i < |r.userActivities| && r.userActivities[i].user == u
      && forall j :: 0 <= j < |r.userActivities| ==>
           |r.userActivities[j].activities| <= |r.userActivities[i].activities|)
  {
    if r.userActivities == [] then "" else r.userActivities[MostActiveIndex(r.userActivities)].user
  }
}
