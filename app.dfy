/**
 * The command's own logic: fetching the activity of the followed users into a
 * snapshot, loading the previous snapshot, turning a comparison result into a
 * report, and the text of the desktop notification.
 *
 * The GitHub client is taken as the answers it gives (`Api`); the snapshot
 * store as the answer of its query and a decoding function.
 */
module App {
  import opened Wrappers
  import opened Timestamps
  import opened Seqs
  import Text
  import Diff
  import GitHub
  import Report

  /** The answers of the four GitHub operations the command uses. */
  datatype Api = Api(
    followedUsers: Result<seq<GitHub.User>, string>,
    starredRepos: string -> Result<seq<GitHub.Repository>, string>,
    ownedRepos: string -> Result<seq<GitHub.Repository>, string>,
    recentEvents: string -> Result<seq<GitHub.Event>, string>)

  const FollowedUsersError := "fetching followed users: "
  const LoadingError := "loading snapshots: "

  // ---------------------------------------------------------------------
  // Conversions
  // ---------------------------------------------------------------------

  /** `convertRepo`. */
  function ConvertRepo(r: GitHub.Repository): Diff.Repo {
    Diff.Repo(r.createdAt, r.owner.login, r.name, r.description, r.language, r.starCount)
  }

  /** `convertEvent`. */
  function ConvertEvent(e: GitHub.Event): Diff.Event {
    Diff.Event(e.createdAt, e.eventType, e.actor.login, e.repo.name)
  }

  /**
   * A converted repo keeps creation time, description, language and star
   * count, and is identified by the owner's login and the name alone.
   */
  lemma ConvertRepoIdentity(a: GitHub.Repository, b: GitHub.Repository)
    requires '/' !in a.owner.login && '/' !in b.owner.login
    ensures ConvertRepo(a).createdAt == a.createdAt && ConvertRepo(a).description == a.description
    ensures ConvertRepo(a).language == a.language && ConvertRepo(a).stars == a.starCount
    ensures Diff.FullName(ConvertRepo(a)) == Diff.FullName(ConvertRepo(b)) <==>
      a.owner.login == b.owner.login && a.name == b.name
  {
    Diff.FullNameIdentity(ConvertRepo(a), ConvertRepo(b));
  }

  /**
   * A converted event is identified by its type, the actor's login, the
   * repository's name and the second it happened in; payload and id play no part.
   */
  lemma ConvertEventIdentity(a: GitHub.Event, b: GitHub.Event)
    requires '|' !in a.eventType && '|' !in a.actor.login && '|' !in a.repo.name
    requires '|' !in b.eventType && '|' !in b.actor.login && '|' !in b.repo.name
    ensures Diff.EventKey(ConvertEvent(a)) == Diff.EventKey(ConvertEvent(b)) <==>
      a.eventType == b.eventType && a.actor.login == b.actor.login && a.repo.name == b.repo.name
      && UnixSeconds(a.createdAt) == UnixSeconds(b.createdAt)
  {
    Diff.EventKeyIdentity(ConvertEvent(a), ConvertEvent(b));
  }

  // ---------------------------------------------------------------------
  // fetchActivity
  // ---------------------------------------------------------------------

  /** The repos created at or after `cutoff`, converted, in order. */
  function KeepRepos(repos: seq<GitHub.Repository>, cutoff: Time): (r: seq<Diff.Repo>)
    ensures |r| <= |repos|
  {
    if repos == [] then []
    else
      var last := repos[|repos| - 1];
      KeepRepos(repos[..|repos| - 1], cutoff) + (if !(last.createdAt < cutoff) then [ConvertRepo(last)] else [])
  }

  /** The events created at or after `cutoff`, converted, in order. */
  function KeepEvents(events: seq<GitHub.Event>, cutoff: Time): (r: seq<Diff.Event>)
    ensures |r| <= |events|
  {
    if events == [] then []
    else
      var last := events[|events| - 1];
      KeepEvents(events[..|events| - 1], cutoff) + (if !(last.createdAt < cutoff) then [ConvertEvent(last)] else [])
  }

  /** The cutoff is inclusive: a repo is kept exactly when it was created at or after it. */
  lemma {:induction false} KeepReposInclusive(repos: seq<GitHub.Repository>, cutoff: Time)
    ensures forall r :: r in repos && cutoff <= r.createdAt ==> ConvertRepo(r) in KeepRepos(repos, cutoff)
    ensures forall d :: d in KeepRepos(repos, cutoff) ==>
      cutoff <= d.createdAt && exists r :: r in repos && ConvertRepo(r) == d
    decreases |repos|
  {
    if repos != [] {
      var n := |repos| - 1;
      assert repos == repos[..n] + [repos[n]];
      KeepReposInclusive(repos[..n], cutoff);
    }
  }

  /** The cutoff is inclusive: an event is kept exactly when it was created at or after it. */
  lemma {:induction false} KeepEventsInclusive(events: seq<GitHub.Event>, cutoff: Time)
    ensures forall e :: e in events && cutoff <= e.createdAt ==> ConvertEvent(e) in KeepEvents(events, cutoff)
    ensures forall d :: d in KeepEvents(events, cutoff) ==>
      cutoff <= d.createdAt && exists e :: e in events && ConvertEvent(e) == d
    decreases |events|
  {
    if events != [] {
      var n := |events| - 1;
      assert events == events[..n] + [events[n]];
      KeepEventsInclusive(events[..n], cutoff);
    }
  }

  /** The recent repos of one category: none when the category could not be fetched. */
  function RecentRepos(fetched: Result<seq<GitHub.Repository>, string>, cutoff: Time): seq<Diff.Repo> {
    if fetched.Failure? then [] else KeepRepos(fetched.value, cutoff)
  }

  function RecentEvents(fetched: Result<seq<GitHub.Event>, string>, cutoff: Time): seq<Diff.Event> {
    if fetched.Failure? then [] else KeepEvents(fetched.value, cutoff)
  }

  /** The activity recorded for one followed user. */
  function UserActivityOf(api: Api, login: string, cutoff: Time): Diff.UserActivity {
    Diff.UserActivity(
      login,
      RecentRepos(api.starredRepos(login), cutoff),
      RecentRepos(api.ownedRepos(login), cutoff),
      RecentEvents(api.recentEvents(login), cutoff))
  }

  /** The users of the snapshot after visiting `users` in order; a login listed twice is fetched twice. */
  function FetchedUsers(api: Api, users: seq<GitHub.User>, cutoff: Time): map<string, Diff.UserActivity> {
    if users == [] then map[]
    else
      var login := users[|users| - 1].login;
      FetchedUsers(api, users[..|users| - 1], cutoff)[login := UserActivityOf(api, login, cutoff)]
  }

  function Logins(users: seq<GitHub.User>): set<string> {
    set u | u in users :: u.login
  }

  /**
   * Every followed user is a key of the snapshot, even one with nothing
   * recent, and nobody else is; a category whose fetch failed is empty while
   * the others are kept as fetched.
   */
  lemma {:induction false} FetchedUsersShape(api: Api, users: seq<GitHub.User>, cutoff: Time)
    ensures var m := FetchedUsers(api, users, cutoff);
      && m.Keys == Logins(users)
      && (forall k :: k in m ==>
            && m[k].username == k
            && (api.starredRepos(k).Failure? ==> m[k].starredRepos == [])
            && (api.ownedRepos(k).Failure? ==> m[k].ownedRepos == [])
            && (api.recentEvents(k).Failure? ==> m[k].events == [])
            && (api.starredRepos(k).Success? ==> m[k].starredRepos == KeepRepos(api.starredRepos(k).value, cutoff))
            && (api.ownedRepos(k).Success? ==> m[k].ownedRepos == KeepRepos(api.ownedRepos(k).value, cutoff))
            && (api.recentEvents(k).Success? ==> m[k].events == KeepEvents(api.recentEvents(k).value, cutoff)))
    decreases |users|
  {
    if users != [] {
      var n := |users| - 1;
      assert users == users[..n] + [users[n]];
      FetchedUsersShape(api, users[..n], cutoff);
      assert Logins(users) == Logins(users[..n]) + {users[n].login};
    }
  }

  /** The filtering loop over one category of repos. */
  method FilterRepos(repos: seq<GitHub.Repository>, cutoff: Time) returns (kept: seq<Diff.Repo>)
    ensures kept == KeepRepos(repos, cutoff)
  {
    kept := [];
    for i := 0 to |repos|
      invariant kept == KeepRepos(repos[..i], cutoff)
    {
      assert repos[..i + 1][..i] == repos[..i];
      if !(repos[i].createdAt < cutoff) {
        kept := kept + [ConvertRepo(repos[i])];
      }
    }
    assert repos[..|repos|] == repos;
  }

  /** The filtering loop over the events. */
  method FilterEvents(events: seq<GitHub.Event>, cutoff: Time) returns (kept: seq<Diff.Event>)
    ensures kept == KeepEvents(events, cutoff)
  {
    kept := [];
    for i := 0 to |events|
      invariant kept == KeepEvents(events[..i], cutoff)
    {
      assert events[..i + 1][..i] == events[..i];
      if !(events[i].createdAt < cutoff) {
        kept := kept + [ConvertEvent(events[i])];
      }
    }
    assert events[..|events|] == events;
  }

  /** The body of the user loop of `fetchActivity`: three fetches, each allowed to fail on its own. */
  method FetchUser(api: Api, login: string, cutoff: Time) returns (activity: Diff.UserActivity)
    ensures activity == UserActivityOf(api, login, cutoff)
  {
    activity := Diff.UserActivity(login, [], [], []);
    var starred := api.starredRepos(login);
    if starred.Success? {
      var kept := FilterRepos(starred.value, cutoff);
      activity := activity.(starredRepos := kept);
    }
    var owned := api.ownedRepos(login);
    if owned.Success? {
      var kept := FilterRepos(owned.value, cutoff);
      activity := activity.(ownedRepos := kept);
    }
    var events := api.recentEvents(login);
    if events.Success? {
      var kept := FilterEvents(events.value, cutoff);
      activity := activity.(events := kept);
    }
  }

  /** `fetchActivity`: an error when the followed users cannot be listed, otherwise the snapshot taken `now`. */
  method FetchActivity(api: Api, now: Time, cutoff: Time) returns (r: Result<Diff.Snapshot, string>)
    ensures api.followedUsers.Failure? ==> r == Failure(FollowedUsersError + api.followedUsers.error)
    ensures api.followedUsers.Success? ==>
      r == Success(Diff.Snapshot(now, FetchedUsers(api, api.followedUsers.value, cutoff)))
  {
    if api.followedUsers.Failure? {
      return Failure(FollowedUsersError + api.followedUsers.error);
    }
    var users := api.followedUsers.value;
    var snapshot := Diff.NewSnapshot(now);
    for i := 0 to |users|
      invariant snapshot == Diff.Snapshot(now, FetchedUsers(api, users[..i], cutoff))
    {
      assert users[..i + 1][..i] == users[..i];
      var activity := FetchUser(api, users[i].login, cutoff);
      snapshot := snapshot.(users := snapshot.users[users[i].login := activity]);
    }
    assert users[..|users|] == users;
    return Success(snapshot);
  }

  // ---------------------------------------------------------------------
  // loadPreviousSnapshot
  // ---------------------------------------------------------------------

  /**
   * `loadPreviousSnapshot`, given the answer of the store's query for the
   * latest snapshot and the decoding of a stored snapshot.
   */
  function LoadPreviousSnapshot<S>(stored: Result<seq<S>, string>, decode: S -> Result<Diff.Snapshot, string>)
    : (r: Result<Diff.Snapshot, string>)
    ensures stored.Failure? ==> r == Failure(LoadingError + stored.error)
    ensures stored == Success([]) ==> r.Success? && r.value.capturedAt == ZeroTime && r.value.users == map[]
    ensures stored.Success? && stored.value != [] ==> r == decode(stored.value[0])
  {
    if stored.Failure? then Failure(LoadingError + stored.error)
    else if |stored.value| == 0 then Success(Diff.NewSnapshot(ZeroTime))
    else decode(stored.value[0])
  }

  /**
   * On the first run, with nothing stored, every user of the new snapshot is
   * new, none is gone, and the comparison starts from the zero time.
   */
  lemma FirstRunEveryoneIsNew<S>(
    decode: S -> Result<Diff.Snapshot, string>, newer: Diff.Snapshot,
    newUsersOrder: seq<string>, goneUsersOrder: seq<string>, changesOrder: seq<string>)
    requires Diff.ValidOrders(Diff.NewSnapshot(ZeroTime), newer, newUsersOrder, goneUsersOrder, changesOrder)
    ensures var older := LoadPreviousSnapshot(Success([]), decode).value;
      var r := Diff.CompareSpec(older, newer, newUsersOrder, goneUsersOrder, changesOrder);
      && r.oldCapturedAt == ZeroTime
      && (forall u :: u in r.newUsers <==> u in newer.users)
      && r.goneUsers == []
  {
    var older := Diff.NewSnapshot(ZeroTime);
    Diff.CompareUsers(older, newer, newUsersOrder, goneUsersOrder, changesOrder);
  }

  // ---------------------------------------------------------------------
  // buildReportWithLogging
  // ---------------------------------------------------------------------

  const GitHubUrl := "https://github.com/"

  /** The avatar of a user of the report. */
  function AvatarUrl(username: string): string {
    GitHubUrl + username + ".png"
  }

  /** `eventTypeToActivityType`: the six GitHub event types the report knows, and any other type unchanged. */
  function EventTypeToActivityType(eventType: string): Report.ActivityType {
    if eventType == "WatchEvent" then Report.Starred
    else if eventType == "CreateEvent" then Report.CreatedRepo
    else if eventType == "ForkEvent" then Report.Forked
    else if eventType == "PushEvent" then Report.Pushed
    else if eventType == "PullRequestEvent" then Report.PullRequest
    else if eventType == "IssuesEvent" then Report.Issue
    else eventType
  }

  /** The GitHub event types, in the order of the report's categories. */
  const EventTypes: seq<string> := ["WatchEvent", "CreateEvent", "ForkEvent", "PushEvent", "PullRequestEvent", "IssuesEvent"]

  /** The six event types map to the six categories in order, and every other type passes through. */
  lemma EventTypeMapping(eventType: string)
    ensures forall i :: 0 <= i < |EventTypes| ==> EventTypeToActivityType(EventTypes[i]) == Report.CategoryOrder[i]
    ensures eventType !in EventTypes ==> EventTypeToActivityType(eventType) == eventType
    ensures Report.IsKnown(EventTypeToActivityType(eventType)) <==> eventType in EventTypes || Report.IsKnown(eventType)
  {
  }

  /** The activity for a newly starred repo. */
  function StarActivity(c: Diff.RepoChange): Report.Activity {
    Report.Activity(
      Report.Starred, c.username, "", Diff.FullName(c.repo), GitHubUrl + Diff.FullName(c.repo),
      c.repo.createdAt, c.repo.description)
  }

  /** The activity for a newly created repo. */
  function CreatedActivity(c: Diff.RepoChange): Report.Activity {
    Report.Activity(
      Report.CreatedRepo, c.username, "", Diff.FullName(c.repo), GitHubUrl + Diff.FullName(c.repo),
      c.repo.createdAt, c.repo.description)
  }

  /** The activity for a new event. */
  function EventActivity(c: Diff.EventChange): Report.Activity {
    Report.Activity(
      EventTypeToActivityType(c.event.eventType), c.username, "", c.event.repo, GitHubUrl + c.event.repo,
      c.event.createdAt, "")
  }

  function StarActivities(cs: seq<Diff.RepoChange>): (r: seq<Report.Activity>)
    ensures |r| == |cs|
  {
    if cs == [] then [] else StarActivities(cs[..|cs| - 1]) + [StarActivity(cs[|cs| - 1])]
  }

  function CreatedActivities(cs: seq<Diff.RepoChange>): (r: seq<Report.Activity>)
    ensures |r| == |cs|
  {
    if cs == [] then [] else CreatedActivities(cs[..|cs| - 1]) + [CreatedActivity(cs[|cs| - 1])]
  }

  function EventActivities(cs: seq<Diff.EventChange>): (r: seq<Report.Activity>)
    ensures |r| == |cs|
  {
    if cs == [] then [] else EventActivities(cs[..|cs| - 1]) + [EventActivity(cs[|cs| - 1])]
  }

  /** Every activity of the report, in the order it is added: stars, then repos, then events. */
  function NewActivities(result: Diff.Result): seq<Report.Activity> {
    StarActivities(result.newStars) + CreatedActivities(result.newRepos) + EventActivities(result.newEvents)
  }

  /** The activities of user `u`, in order. */
  function ActivitiesOf(acts: seq<Report.Activity>, u: string): (r: seq<Report.Activity>)
    ensures |r| <= |acts|
  {
    if acts == [] then []
    else
      var last := acts[|acts| - 1];
      ActivitiesOf(acts[..|acts| - 1], u) + (if last.user == u then [last] else [])
  }

  function Users(acts: seq<Report.Activity>): set<string> {
    set a | a in acts :: a.user
  }

  /** The entry of user `u` once `acts` have been added. */
  function UserEntry(u: string, acts: seq<Report.Activity>): Report.UserActivity {
    Report.UserActivity(u, AvatarUrl(u), ActivitiesOf(acts, u))
  }

  /** The map of user entries holds an entry for exactly the users of `acts`, each with their activities. */
  ghost predicate Grouped(m: map<string, Report.UserActivity>, acts: seq<Report.Activity>) {
    && m.Keys == Users(acts)
    && forall u :: u in m ==> m[u] == UserEntry(u, acts)
  }

  /** The entries of the users of `order`, in that order. */
  function UserEntries(order: seq<string>, acts: seq<Report.Activity>): (r: seq<Report.UserActivity>)
    ensures |r| == |order|
  {
    if order == [] then [] else UserEntries(order[..|order| - 1], acts) + [UserEntry(order[|order| - 1], acts)]
  }

  /** What `buildReportWithLogging` builds, the users in the order the map is visited in. */
  function BuiltReport(result: Diff.Result, periodStart: Time, periodEnd: Time, generatedAt: Time, order: seq<string>)
    : Report.Report
  {
    Report.Report(generatedAt, periodStart, periodEnd, UserEntries(order, NewActivities(result)))
  }

  /** `getOrCreateUserActivity`: the entry of `username`, added with no activities if missing. */
  method GetOrCreateUserActivity(m: map<string, Report.UserActivity>, username: string)
    returns (m': map<string, Report.UserActivity>, ua: Report.UserActivity)
    ensures username in m' && m'[username] == ua
    ensures username in m ==> m' == m
    ensures username !in m ==> m' == m[username := Report.UserActivity(username, AvatarUrl(username), [])]
  {
    if username in m {
      return m, m[username];
    }
    ua := Report.UserActivity(username, AvatarUrl(username), []);
    m' := m[username := ua];
  }

  lemma ActivitiesOfSnoc(acts: seq<Report.Activity>, a: Report.Activity)
    ensures forall u :: ActivitiesOf(acts + [a], u) == ActivitiesOf(acts, u) + (if a.user == u then [a] else [])
  {
    assert (acts + [a])[..|acts|] == acts;
  }

  lemma {:induction false} NoActivitiesOfOthers(acts: seq<Report.Activity>, u: string)
    requires u !in Users(acts)
    ensures ActivitiesOf(acts, u) == []
    decreases |acts|
  {
    if acts != [] {
      var n := |acts| - 1;
      assert acts[n] in acts;
      assert Users(acts[..n]) <= Users(acts) by {
        forall a | a in acts[..n] ensures a in acts { }
      }
      NoActivitiesOfOthers(acts[..n], u);
    }
  }

  /** One step of the three adding loops: the activity is appended to its user's entry. */
  method AddActivity(m: map<string, Report.UserActivity>, ghost done: seq<Report.Activity>, a: Report.Activity)
    returns (m': map<string, Report.UserActivity>)
    requires Grouped(m, done)
    ensures Grouped(m', done + [a])
  {
    var m1, ua := GetOrCreateUserActivity(m, a.user);
    m' := m1[a.user := ua.(activities := ua.activities + [a])];
    ActivitiesOfSnoc(done, a);
    assert Users(done + [a]) == Users(done) + {a.user};
    if a.user !in m {
      NoActivitiesOfOthers(done, a.user);
    }
  }

  /** The loop adding the new stars. */
  method AddStars(m: map<string, Report.UserActivity>, ghost done: seq<Report.Activity>, cs: seq<Diff.RepoChange>)
    returns (m': map<string, Report.UserActivity>)
    requires Grouped(m, done)
    ensures Grouped(m', done + StarActivities(cs))
  {
    m' := m;
    assert done + StarActivities(cs[..0]) == done;
    for i := 0 to |cs|
      invariant Grouped(m', done + StarActivities(cs[..i]))
    {
      assert cs[..i + 1][..i] == cs[..i];
      var a := StarActivity(cs[i]);
      assert (done + StarActivities(cs[..i])) + [a] == done + StarActivities(cs[..i + 1]);
      m' := AddActivity(m', done + StarActivities(cs[..i]), a);
    }
    assert cs[..|cs|] == cs;
  }

  /** The loop adding the new repos. */
  method AddRepos(m: map<string, Report.UserActivity>, ghost done: seq<Report.Activity>, cs: seq<Diff.RepoChange>)
    returns (m': map<string, Report.UserActivity>)
    requires Grouped(m, done)
    ensures Grouped(m', done + CreatedActivities(cs))
  {
    m' := m;
    assert done + CreatedActivities(cs[..0]) == done;
    for i := 0 to |cs|
      invariant Grouped(m', done + CreatedActivities(cs[..i]))
    {
      assert cs[..i + 1][..i] == cs[..i];
      var a := CreatedActivity(cs[i]);
      assert (done + CreatedActivities(cs[..i])) + [a] == done + CreatedActivities(cs[..i + 1]);
      m' := AddActivity(m', done + CreatedActivities(cs[..i]), a);
    }
    assert cs[..|cs|] == cs;
  }

  /** The loop adding the new events. */
  method AddEvents(m: map<string, Report.UserActivity>, ghost done: seq<Report.Activity>, cs: seq<Diff.EventChange>)
    returns (m': map<string, Report.UserActivity>)
    requires Grouped(m, done)
    ensures Grouped(m', done + EventActivities(cs))
  {
    m' := m;
    assert done + EventActivities(cs[..0]) == done;
    for i := 0 to |cs|
      invariant Grouped(m', done + EventActivities(cs[..i]))
    {
      assert cs[..i + 1][..i] == cs[..i];
      var a := EventActivity(cs[i]);
      assert (done + EventActivities(cs[..i])) + [a] == done + EventActivities(cs[..i + 1]);
      m' := AddActivity(m', done + EventActivities(cs[..i]), a);
    }
    assert cs[..|cs|] == cs;
  }

  /** The final loop: the entries of the map, in the order it is visited in. */
  method EntriesInOrder(m: map<string, Report.UserActivity>, ghost acts: seq<Report.Activity>, order: seq<string>)
    returns (uas: seq<Report.UserActivity>)
    requires Grouped(m, acts)
    requires IsEnumeration(order, m.Keys)
    ensures uas == UserEntries(order, acts)
  {
    uas := [];
    for j := 0 to |order|
      invariant uas == UserEntries(order[..j], acts)
    {
      assert order[..j + 1][..j] == order[..j];
      assert order[j] in order;
      uas := uas + [m[order[j]]];
    }
    assert order[..|order|] == order;
  }

  /** `buildReportWithLogging`, with the visiting order of the final `range` over the map as an input. */
  method BuildReport(
    result: Diff.Result, periodStart: Time, periodEnd: Time, generatedAt: Time, order: seq<string>)
    returns (rpt: Report.Report)
    requires IsEnumeration(order, Users(NewActivities(result)))
    ensures rpt == BuiltReport(result, periodStart, periodEnd, generatedAt, order)
  {
    var m: map<string, Report.UserActivity> := map[];
    assert Grouped(m, []);
    m := AddStars(m, [], result.newStars);
    assert [] + StarActivities(result.newStars) == StarActivities(result.newStars);
    m := AddRepos(m, StarActivities(result.newStars), result.newRepos);
    m := AddEvents(m, StarActivities(result.newStars) + CreatedActivities(result.newRepos), result.newEvents);
    var uas := EntriesInOrder(m, NewActivities(result), order);
    rpt := Report.Report(generatedAt, periodStart, periodEnd, uas);
  }

  /** The total size of the activity lists of the users of `order`. */
  function SumSizes(order: seq<string>, acts: seq<Report.Activity>): nat {
    if order == [] then 0 else SumSizes(order[..|order| - 1], acts) + |ActivitiesOf(acts, order[|order| - 1])|
  }

  lemma {:induction false} SumSizesOfNothing(order: seq<string>)
    ensures SumSizes(order, []) == 0
    decreases |order|
  {
    if order != [] {
      SumSizesOfNothing(order[..|order| - 1]);
    }
  }

  lemma {:induction false} SumSizesSnoc(order: seq<string>, acts: seq<Report.Activity>, a: Report.Activity)
    requires Distinct(order)
    ensures SumSizes(order, acts + [a]) == SumSizes(order, acts) + (if a.user in order then 1 else 0)
    decreases |order|
  {
    if order != [] {
      var n := |order| - 1;
      assert Distinct(order[..n]);
      SumSizesSnoc(order[..n], acts, a);
      ActivitiesOfSnoc(acts, a);
      assert order == order[..n] + [order[n]];
    }
  }

  lemma {:induction false} SumSizesAll(order: seq<string>, acts: seq<Report.Activity>)
    requires Distinct(order)
    requires forall a :: a in acts ==> a.user in order
    ensures SumSizes(order, acts) == |acts|
    decreases |acts|
  {
    if acts == [] {
      SumSizesOfNothing(order);
    } else {
      var n := |acts| - 1;
      assert acts == acts[..n] + [acts[n]];
      SumSizesAll(order, acts[..n]);
      SumSizesSnoc(order, acts[..n], acts[n]);
    }
  }

  lemma {:induction false} AllActivitiesOfEntries(order: seq<string>, acts: seq<Report.Activity>)
    ensures |Report.AllActivities(UserEntries(order, acts))| == SumSizes(order, acts)
    decreases |order|
  {
    if order != [] {
      var n := |order| - 1;
      var prev := UserEntries(order[..n], acts);
      AllActivitiesOfEntries(order[..n], acts);
      assert UserEntries(order, acts)[..n] == prev;
    }
  }

  lemma {:induction false} ActivitiesOfMembers(acts: seq<Report.Activity>, u: string)
    ensures forall a :: a in ActivitiesOf(acts, u) <==> a in acts && a.user == u
    decreases |acts|
  {
    if acts != [] {
      var n := |acts| - 1;
      assert acts == acts[..n] + [acts[n]];
      ActivitiesOfMembers(acts[..n], u);
    }
  }

  /**
   * The report holds one entry per distinct user of the result, with their
   * avatar and exactly their activities, and as many activities in all as the
   * result has new stars, repos and events; new and gone users add nothing.
   */
  lemma BuiltReportShape(
    result: Diff.Result, periodStart: Time, periodEnd: Time, generatedAt: Time, order: seq<string>)
    requires IsEnumeration(order, Users(NewActivities(result)))
    ensures var rpt := BuiltReport(result, periodStart, periodEnd, generatedAt, order);
      && |Report.AllActivities(rpt.userActivities)| == |result.newStars| + |result.newRepos| + |result.newEvents|
      && |rpt.userActivities| == |order|
      && (forall i :: 0 <= i < |order| ==>
            && rpt.userActivities[i].user == order[i]
            && rpt.userActivities[i].avatarUrl == AvatarUrl(order[i])
            && (forall a :: a in rpt.userActivities[i].activities <==> a in NewActivities(result) && a.user == order[i]))
      && (forall i, j :: 0 <= i < j < |order| ==> rpt.userActivities[i].user != rpt.userActivities[j].user)
      && rpt == BuiltReport(result.(newUsers := [], goneUsers := []), periodStart, periodEnd, generatedAt, order)
  {
    var acts := NewActivities(result);
    AllActivitiesOfEntries(order, acts);
    SumSizesAll(order, acts);
    var uas := UserEntries(order, acts);
    forall i | 0 <= i < |order|
      ensures uas[i] == UserEntry(order[i], acts)
    {
      UserEntriesAt(order, acts, i);
    }
    forall i | 0 <= i < |order|
      ensures forall a :: a in uas[i].activities <==> a in acts && a.user == order[i]
    {
      ActivitiesOfMembers(acts, order[i]);
    }
  }

  lemma {:induction false} UserEntriesAt(order: seq<string>, acts: seq<Report.Activity>, i: nat)
    requires i < |order|
    ensures UserEntries(order, acts)[i] == UserEntry(order[i], acts)
    decreases |order|
  {
    var n := |order| - 1;
    if i < n {
      assert order[..n][i] == order[i];
      UserEntriesAt(order[..n], acts, i);
    }
  }

  // ---------------------------------------------------------------------
  // formatNotificationMessage
  // ---------------------------------------------------------------------

  const NoDetails := "New activity detected"

  /** `%d` followed by the noun. */
  function CountPart(n: int, noun: string): string {
    Text.FormatDecimal(n) + noun
  }

  /** The parts of the message: the non-zero counts of new stars, repos, events and users, in that order. */
  function Parts(r: Diff.Result): seq<string> {
    (if |r.newStars| > 0 then [CountPart(|r.newStars|, " new stars")] else [])
    + (if |r.newRepos| > 0 then [CountPart(|r.newRepos|, " new repos")] else [])
    + (if |r.newEvents| > 0 then [CountPart(|r.newEvents|, " events")] else [])
    + (if |r.newUsers| > 0 then [CountPart(|r.newUsers|, " new users")] else [])
  }

  /** What the joining loop puts before part `i` of `n`. */
  function Separator(i: nat, n: nat): string {
    if i == 0 then "" else if i == n - 1 then " and " else ", "
  }

  /** The message after the joining loop has added the first `i` parts. */
  function JoinedPrefix(parts: seq<string>, i: nat): string
    requires i <= |parts|
  {
    if i == 0 then "" else JoinedPrefix(parts, i - 1) + Separator(i - 1, |parts|) + parts[i - 1]
  }

  /** What `formatNotificationMessage` returns. */
  function NotificationMessage(r: Diff.Result): string {
    var parts := Parts(r);
    if parts == [] then NoDetails else JoinedPrefix(parts, |parts|)
  }

  /** The parts joined with ", ". */
  function CommaJoin(xs: seq<string>): string
    requires xs != []
  {
    if |xs| == 1 then xs[0] else CommaJoin(xs[..|xs| - 1]) + ", " + xs[|xs| - 1]
  }

  lemma {:induction false} JoinedPrefixIsCommaJoin(parts: seq<string>, i: nat)
    requires 1 <= i < |parts|
    ensures JoinedPrefix(parts, i) == CommaJoin(parts[..i])
    decreases i
  {
    if i > 1 {
      JoinedPrefixIsCommaJoin(parts, i - 1);
      assert parts[..i][..i - 1] == parts[..i - 1];
    }
  }

  /**
   * The message is its single part, or the parts joined with ", " except for
   * " and " before the last one.
   */
  lemma NotificationJoin(r: Diff.Result)
    ensures var parts := Parts(r);
      && (|parts| == 1 ==> NotificationMessage(r) == parts[0])
      && (|parts| >= 2 ==>
            NotificationMessage(r) == CommaJoin(parts[..|parts| - 1]) + " and " + parts[|parts| - 1])
  {
    var parts := Parts(r);
    if |parts| == 1 {
      assert JoinedPrefix(parts, 1) == "" + "" + parts[0];
    } else if |parts| >= 2 {
      JoinedPrefixIsCommaJoin(parts, |parts| - 1);
    }
  }

  lemma {:induction false} JoinedPrefixStart(parts: seq<string>, i: nat)
    requires 1 <= i <= |parts| && parts[0] != []
    ensures JoinedPrefix(parts, i) != [] && JoinedPrefix(parts, i)[0] == parts[0][0]
    decreases i
  {
    if i > 1 {
      JoinedPrefixStart(parts, i - 1);
    }
  }

  /** The fallback text is used exactly when there is no new star, repo, event or user. */
  lemma NotificationFallbackIff(r: Diff.Result)
    ensures NotificationMessage(r) == NoDetails <==>
      |r.newStars| == 0 && |r.newRepos| == 0 && |r.newEvents| == 0 && |r.newUsers| == 0
  {
    var parts := Parts(r);
    if parts != [] {
      var n :| n > 0 && exists noun :: parts[0] == CountPart(n, noun);
      JoinedPrefixStart(parts, |parts|);
      assert Text.IsDigit(parts[0][0]);
    }
  }

  /** Gone users never appear in the notification. */
  lemma NotificationIgnoresGoneUsers(r: Diff.Result, gone: seq<string>)
    ensures NotificationMessage(r.(goneUsers := gone)) == NotificationMessage(r)
  {
    assert Parts(r.(goneUsers := gone)) == Parts(r);
  }

  /** The joining loop of `formatNotificationMessage`. */
  method JoinParts(parts: seq<string>) returns (msg: string)
    ensures msg == JoinedPrefix(parts, |parts|)
  {
    msg := "";
    for i := 0 to |parts|
      invariant msg == JoinedPrefix(parts, i)
    {
      if i > 0 {
        if i == |parts| - 1 {
          msg := msg + " and ";
        } else {
          msg := msg + ", ";
        }
      }
      msg := msg + parts[i];
    }
  }

  /** `formatNotificationMessage`. */
  method FormatNotificationMessage(r: Diff.Result) returns (msg: string)
    ensures msg == NotificationMessage(r)
  {
    var parts: seq<string> := [];
    if |r.newStars| > 0 {
      parts := parts + [Text.FormatDecimal(|r.newStars|) + " new stars"];
    }
    if |r.newRepos| > 0 {
      parts := parts + [Text.FormatDecimal(|r.newRepos|) + " new repos"];
    }
    if |r.newEvents| > 0 {
      parts := parts + [Text.FormatDecimal(|r.newEvents|) + " events"];
    }
    if |r.newUsers| > 0 {
      parts := parts + [Text.FormatDecimal(|r.newUsers|) + " new users"];
    }
    assert parts == Parts(r);
    if |parts| == 0 {
      return NoDetails;
    }
    msg := JoinParts(parts);
  }
}
