/**
 * Package diff: snapshots of the followed users' activity and the comparison
 * that reports what is new between two of them.
 *
 * Repos are identified by their full name `owner/name`; events by the key
 * `type|actor|repo|time`, whose time has second precision. Go's
 * `map[string]bool` lookup sets are modelled as `set<string>`.
 */
module Diff {
  import opened Timestamps
  import opened Seqs
  import Text

  datatype Repo = Repo(
    createdAt: Time,
    owner: string,
    name: string,
    description: string,
    language: string,
    stars: int)

  datatype Event = Event(createdAt: Time, eventType: string, actor: string, repo: string)

  datatype UserActivity = UserActivity(
    username: string,
    starredRepos: seq<Repo>,
    ownedRepos: seq<Repo>,
    events: seq<Event>)

  datatype Snapshot = Snapshot(capturedAt: Time, users: map<string, UserActivity>)

  datatype RepoChange = RepoChange(username: string, repo: Repo)

  datatype EventChange = EventChange(event: Event, username: string)

  datatype Result = Result(
    oldCapturedAt: Time,
    newCapturedAt: Time,
    newStars: seq<RepoChange>,
    newRepos: seq<RepoChange>,
    newEvents: seq<EventChange>,
    newUsers: seq<string>,
    goneUsers: seq<string>)

  /** `Repo.FullName`. */
  function FullName(r: Repo): string {
    r.owner + "/" + r.name
  }

  /**
   * Two repos have the same identity exactly when owner and name agree
   * (GitHub owners contain no `/`); description, language, star count and
   * creation time play no part.
   */
  lemma FullNameIdentity(a: Repo, b: Repo)
    requires '/' !in a.owner && '/' !in b.owner
    ensures FullName(a) == FullName(b) <==> a.owner == b.owner && a.name == b.name
  {
    if FullName(a) == FullName(b) {
      Text.SplitAtSeparator(a.owner, a.name, b.owner, b.name, '/');
    }
  }

  /** `Result.IsEmpty`: no new star, repo, event or user, and no gone user. */
  predicate IsEmpty(r: Result) {
    |r.newStars| == 0 && |r.newRepos| == 0 && |r.newEvents| == 0
    && |r.newUsers| == 0 && |r.goneUsers| == 0
  }

  /** `NewSnapshot`: a snapshot with no users. */
  function NewSnapshot(capturedAt: Time): (s: Snapshot)
    ensures s.capturedAt == capturedAt && |s.users| == 0
  {
    Snapshot(capturedAt, map[])
  }

  /** `eventKey`. */
  function EventKey(e: Event): string {
    e.eventType + "|" + e.actor + "|" + e.repo + "|" + Rfc3339(e.createdAt)
  }

  /**
   * Two events share a key exactly when type, actor and repo agree and they
   * happened in the same second (none of the three names contains `|`): two
   * events less than a second apart collapse into one.
   */
  lemma EventKeyIdentity(a: Event, b: Event)
    requires '|' !in a.eventType && '|' !in a.actor && '|' !in a.repo
    requires '|' !in b.eventType && '|' !in b.actor && '|' !in b.repo
    ensures EventKey(a) == EventKey(b) <==>
      a.eventType == b.eventType && a.actor == b.actor && a.repo == b.repo
      && UnixSeconds(a.createdAt) == UnixSeconds(b.createdAt)
  {
    var ta, tb := Rfc3339(a.createdAt), Rfc3339(b.createdAt);
    assert EventKey(a) == a.eventType + ['|'] + (a.actor + ['|'] + (a.repo + ['|'] + ta));
    assert EventKey(b) == b.eventType + ['|'] + (b.actor + ['|'] + (b.repo + ['|'] + tb));
    if EventKey(a) == EventKey(b) {
      Text.SplitAtSeparator(a.eventType, a.actor + ['|'] + (a.repo + ['|'] + ta),
                            b.eventType, b.actor + ['|'] + (b.repo + ['|'] + tb), '|');
      Text.SplitAtSeparator(a.actor, a.repo + ['|'] + ta, b.actor, b.repo + ['|'] + tb, '|');
      Text.SplitAtSeparator(a.repo, ta, b.repo, tb, '|');
    }
    Rfc3339SecondPrecision(a.createdAt, b.createdAt);
  }

  /** The full names of `repos`: what `repoSet` builds. */
  function RepoNames(repos: seq<Repo>): set<string> {
    set r | r in repos :: FullName(r)
  }

  /** The keys of `events`: what `eventSet` builds. */
  function EventKeys(events: seq<Event>): set<string> {
    set e | e in events :: EventKey(e)
  }

  /** `repoSet`. */
  method RepoSet(repos: seq<Repo>) returns (names: set<string>)
    ensures names == RepoNames(repos)
  {
    names := {};
    for i := 0 to |repos|
      invariant names == RepoNames(repos[..i])
    {
      assert repos[..i + 1] == repos[..i] + [repos[i]];
      names := names + {FullName(repos[i])};
    }
    assert repos[..|repos|] == repos;
  }

  /** `eventSet`. */
  method EventSet(events: seq<Event>) returns (keys: set<string>)
    ensures keys == EventKeys(events)
  {
    keys := {};
    for i := 0 to |events|
      invariant keys == EventKeys(events[..i])
    {
      assert events[..i + 1] == events[..i] + [events[i]];
      keys := keys + {EventKey(events[i])};
    }
    assert events[..|events|] == events;
  }

  // ---------------------------------------------------------------------
  // Specification of Compare
  // ---------------------------------------------------------------------

  /** Which of a user's two repo lists a comparison looks at. */
  datatype RepoList = Starred | Owned

  function ReposOf(a: UserActivity, list: RepoList): seq<Repo> {
    match list
    case Starred => a.starredRepos
    case Owned => a.ownedRepos
  }

  /** Each repo of `repos`, in order, attributed to `u`. */
  function TagRepos(u: string, repos: seq<Repo>): (r: seq<RepoChange>)
    ensures |r| == |repos|
  {
    if repos == [] then [] else TagRepos(u, repos[..|repos| - 1]) + [RepoChange(u, repos[|repos| - 1])]
  }

  lemma {:induction false} TagReposAppend(u: string, xs: seq<Repo>, ys: seq<Repo>)
    ensures TagRepos(u, xs + ys) == TagRepos(u, xs) + TagRepos(u, ys)
    decreases |ys|
  {
    if ys != [] {
      var n := |ys| - 1;
      assert (xs + ys)[..|xs + ys| - 1] == xs + ys[..n];
      TagReposAppend(u, xs, ys[..n]);
      assert TagRepos(u, ys) == TagRepos(u, ys[..n]) + [RepoChange(u, ys[n])];
    } else {
      assert xs + ys == xs;
    }
  }

  /** Each event of `events`, in order, attributed to `u`. */
  function TagEvents(u: string, events: seq<Event>): (r: seq<EventChange>)
    ensures |r| == |events|
  {
    if events == [] then [] else TagEvents(u, events[..|events| - 1]) + [EventChange(events[|events| - 1], u)]
  }

  lemma {:induction false} TagEventsAppend(u: string, xs: seq<Event>, ys: seq<Event>)
    ensures TagEvents(u, xs + ys) == TagEvents(u, xs) + TagEvents(u, ys)
    decreases |ys|
  {
    if ys != [] {
      var n := |ys| - 1;
      assert (xs + ys)[..|xs + ys| - 1] == xs + ys[..n];
      TagEventsAppend(u, xs, ys[..n]);
      assert TagEvents(u, ys) == TagEvents(u, ys[..n]) + [EventChange(ys[n], u)];
    } else {
      assert xs + ys == xs;
    }
  }

  /** The repos of `repos`, in order, whose full name is not in `seen`. */
  function UnseenRepos(repos: seq<Repo>, seen: set<string>): (r: seq<Repo>)
    ensures forall x :: x in r <==> x in repos && FullName(x) !in seen
  {
    if repos == [] then []
    else
      var last := repos[|repos| - 1];
      UnseenRepos(repos[..|repos| - 1], seen) + (if FullName(last) in seen then [] else [last])
  }

  /** The events of `events`, in order, whose key is not in `seen`. */
  function UnseenEvents(events: seq<Event>, seen: set<string>): (r: seq<Event>)
    ensures forall x :: x in r <==> x in events && EventKey(x) !in seen
  {
    if events == [] then []
    else
      var last := events[|events| - 1];
      UnseenEvents(events[..|events| - 1], seen) + (if EventKey(last) in seen then [] else [last])
  }

  /**
   * The repo changes reported for user `u`: none when `u` is not in `newer`;
   * every repo of the list when `u` is not in `older`; otherwise the repos
   * whose full name the older list does not have.
   */
  function UserRepoChanges(u: string, older: Snapshot, newer: Snapshot, list: RepoList): seq<RepoChange> {
    if u !in newer.users then []
    else if u !in older.users then TagRepos(u, ReposOf(newer.users[u], list))
    else TagRepos(u, UnseenRepos(ReposOf(newer.users[u], list), RepoNames(ReposOf(older.users[u], list))))
  }

  /** The event changes reported for user `u`, by the same three cases. */
  function UserEventChanges(u: string, older: Snapshot, newer: Snapshot): seq<EventChange> {
    if u !in newer.users then []
    else if u !in older.users then TagEvents(u, newer.users[u].events)
    else TagEvents(u, UnseenEvents(newer.users[u].events, EventKeys(older.users[u].events)))
  }

  /** The per-user repo changes, concatenated in the order `order` visits the users. */
  function RepoChanges(order: seq<string>, older: Snapshot, newer: Snapshot, list: RepoList): seq<RepoChange> {
    if order == [] then []
    else RepoChanges(order[..|order| - 1], older, newer, list) + UserRepoChanges(order[|order| - 1], older, newer, list)
  }

  function EventChanges(order: seq<string>, older: Snapshot, newer: Snapshot): seq<EventChange> {
    if order == [] then []
    else EventChanges(order[..|order| - 1], older, newer) + UserEventChanges(order[|order| - 1], older, newer)
  }

  /** The users of `order`, in order, that are not in `keys`. */
  function UsersNotIn(order: seq<string>, keys: set<string>): (r: seq<string>)
    ensures forall u :: u in r <==> u in order && u !in keys
    ensures Distinct(order) ==> Distinct(r)
  {
    if order == [] then []
    else
      var last := order[|order| - 1];
      UsersNotIn(order[..|order| - 1], keys) + (if last in keys then [] else [last])
  }

  /**
   * What `Compare` returns when its three `range` loops visit the users in
   * the orders given.
   */
  function CompareSpec(
    older: Snapshot, newer: Snapshot,
    newUsersOrder: seq<string>, goneUsersOrder: seq<string>, changesOrder: seq<string>): Result
  {
    Result(
      older.capturedAt,
      newer.capturedAt,
      RepoChanges(changesOrder, older, newer, Starred),
      RepoChanges(changesOrder, older, newer, Owned),
      EventChanges(changesOrder, older, newer),
      UsersNotIn(newUsersOrder, older.users.Keys),
      UsersNotIn(goneUsersOrder, newer.users.Keys))
  }

  /** The conditions under which the three loops visit exactly the users of the two snapshots. */
  predicate ValidOrders(
    older: Snapshot, newer: Snapshot,
    newUsersOrder: seq<string>, goneUsersOrder: seq<string>, changesOrder: seq<string>)
  {
    IsEnumeration(newUsersOrder, newer.users.Keys)
    && IsEnumeration(goneUsersOrder, older.users.Keys)
    && IsEnumeration(changesOrder, newer.users.Keys)
  }

  // ---------------------------------------------------------------------
  // Compare
  // ---------------------------------------------------------------------

  /** `Compare`, with the visiting order of each `range` loop as an input. */
  method Compare(
    older: Snapshot, newer: Snapshot,
    newUsersOrder: seq<string>, goneUsersOrder: seq<string>, changesOrder: seq<string>)
    returns (result: Result)
    requires ValidOrders(older, newer, newUsersOrder, goneUsersOrder, changesOrder)
    ensures result == CompareSpec(older, newer, newUsersOrder, goneUsersOrder, changesOrder)
  {
    // find new and gone users
    var newUsers := UsersMissingFrom(newUsersOrder, older.users.Keys);
    var goneUsers := UsersMissingFrom(goneUsersOrder, newer.users.Keys);

    var newStars: seq<RepoChange> := [];
    var newRepos: seq<RepoChange> := [];
    var newEvents: seq<EventChange> := [];
    for i := 0 to |changesOrder|
      invariant newStars == RepoChanges(changesOrder[..i], older, newer, Starred)
      invariant newRepos == RepoChanges(changesOrder[..i], older, newer, Owned)
      invariant newEvents == EventChanges(changesOrder[..i], older, newer)
    {
      assert changesOrder[..i + 1][..i] == changesOrder[..i];
      var username := changesOrder[i];
      var newActivity := newer.users[username];
      if username !in older.users {
        // a new user: all of their activity is new
        newStars := AppendAll(newStars, username, newActivity.starredRepos);
        newRepos := AppendAll(newRepos, username, newActivity.ownedRepos);
        newEvents := AppendAllEvents(newEvents, username, newActivity.events);
      } else {
        var oldActivity := older.users[username];
        var oldStars := RepoSet(oldActivity.starredRepos);
        newStars := AppendUnseen(newStars, username, newActivity.starredRepos, oldStars);
        var oldOwned := RepoSet(oldActivity.ownedRepos);
        newRepos := AppendUnseen(newRepos, username, newActivity.ownedRepos, oldOwned);
        var oldEvents := EventSet(oldActivity.events);
        newEvents := AppendUnseenEvents(newEvents, username, newActivity.events, oldEvents);
      }
    }
    assert changesOrder[..|changesOrder|] == changesOrder;

    result := Result(older.capturedAt, newer.capturedAt, newStars, newRepos, newEvents, newUsers, goneUsers);
  }

  /** The loops of `Compare` that collect the users of one snapshot missing from the other. */
  method UsersMissingFrom(order: seq<string>, keys: set<string>) returns (r: seq<string>)
    ensures r == UsersNotIn(order, keys)
  {
    r := [];
    for i := 0 to |order|
      invariant r == UsersNotIn(order[..i], keys)
    {
      assert order[..i + 1][..i] == order[..i];
      if order[i] !in keys {
        r := r + [order[i]];
      }
    }
    assert order[..|order|] == order;
  }

  /** The loop of `Compare` that reports every repo of a new user. */
  method AppendAll(acc: seq<RepoChange>, username: string, repos: seq<Repo>) returns (r: seq<RepoChange>)
    ensures r == acc + TagRepos(username, repos)
  {
    r := acc;
    for j := 0 to |repos|
      invariant r == acc + TagRepos(username, repos[..j])
    {
      assert repos[..j + 1][..j] == repos[..j];
      r := r + [RepoChange(username, repos[j])];
    }
    assert repos[..|repos|] == repos;
  }

  /** The loop of `Compare` that reports every event of a new user. */
  method AppendAllEvents(acc: seq<EventChange>, username: string, events: seq<Event>) returns (r: seq<EventChange>)
    ensures r == acc + TagEvents(username, events)
  {
    r := acc;
    for j := 0 to |events|
      invariant r == acc + TagEvents(username, events[..j])
    {
      assert events[..j + 1][..j] == events[..j];
      r := r + [EventChange(events[j], username)];
    }
    assert events[..|events|] == events;
  }

  /** Extending the list by one repo adds its change exactly when its name is unseen. */
  lemma TagUnseenReposStep(username: string, repos: seq<Repo>, j: nat, seen: set<string>)
    requires j < |repos|
    ensures TagRepos(username, UnseenRepos(repos[..j + 1], seen))
         == TagRepos(username, UnseenRepos(repos[..j], seen))
            + (if FullName(repos[j]) in seen then [] else [RepoChange(username, repos[j])])
  {
    assert repos[..j + 1][..j] == repos[..j];
    var kept := if FullName(repos[j]) in seen then [] else [repos[j]];
    assert UnseenRepos(repos[..j + 1], seen) == UnseenRepos(repos[..j], seen) + kept;
    TagReposAppend(username, UnseenRepos(repos[..j], seen), kept);
    if FullName(repos[j]) !in seen {
      assert TagRepos(username, kept) == [RepoChange(username, repos[j])];
    } else {
      assert TagRepos(username, kept) == [];
    }
  }

  /** Extending the list by one event adds its change exactly when its key is unseen. */
  lemma TagUnseenEventsStep(username: string, events: seq<Event>, j: nat, seen: set<string>)
    requires j < |events|
    ensures TagEvents(username, UnseenEvents(events[..j + 1], seen))
         == TagEvents(username, UnseenEvents(events[..j], seen))
            + (if EventKey(events[j]) in seen then [] else [EventChange(events[j], username)])
  {
    assert events[..j + 1][..j] == events[..j];
    var key := EventKey(events[j]);
    var kept := if key in seen then [] else [events[j]];
    assert UnseenEvents(events[..j + 1], seen) == UnseenEvents(events[..j], seen) + kept;
    TagEventsAppend(username, UnseenEvents(events[..j], seen), kept);
    if key !in seen {
      assert TagEvents(username, kept) == [EventChange(events[j], username)];
    } else {
      assert TagEvents(username, kept) == [];
    }
  }

  /** The loop of `Compare` that reports the repos whose full name is not in the older set. */
  method AppendUnseen(acc: seq<RepoChange>, username: string, repos: seq<Repo>, seen: set<string>)
    returns (r: seq<RepoChange>)
    ensures r == acc + TagRepos(username, UnseenRepos(repos, seen))
  {
    r := acc;
    for j := 0 to |repos|
      invariant r == acc + TagRepos(username, UnseenRepos(repos[..j], seen))
    {
      ghost var done := TagRepos(username, UnseenRepos(repos[..j], seen));
      TagUnseenReposStep(username, repos, j, seen);
      if FullName(repos[j]) !in seen {
        var c := RepoChange(username, repos[j]);
        assert (acc + done) + [c] == acc + (done + [c]);
        r := r + [c];
      } else {
        assert done + [] == done;
      }
    }
    assert repos[..|repos|] == repos;
  }

  /** The loop of `Compare` that reports the events whose key is not in the older set. */
  method AppendUnseenEvents(acc: seq<EventChange>, username: string, events: seq<Event>, seen: set<string>)
    returns (r: seq<EventChange>)
    ensures r == acc + TagEvents(username, UnseenEvents(events, seen))
  {
    r := acc;
    for j := 0 to |events|
      invariant r == acc + TagEvents(username, UnseenEvents(events[..j], seen))
    {
      ghost var done := TagEvents(username, UnseenEvents(events[..j], seen));
      TagUnseenEventsStep(username, events, j, seen);
      if EventKey(events[j]) !in seen {
        var c := EventChange(events[j], username);
        assert (acc + done) + [c] == acc + (done + [c]);
        r := r + [c];
      } else {
        assert done + [] == done;
      }
    }
    assert events[..|events|] == events;
  }

  // ---------------------------------------------------------------------
  // What Compare promises
  // ---------------------------------------------------------------------

  /** The changes of `cs` attributed to `u` by `owner`, in their order in `cs`. */
  function ChangesFor<C(!new)>(cs: seq<C>, owner: C -> string, u: string): (r: seq<C>)
    ensures forall c :: c in r <==> c in cs && owner(c) == u
  {
    if cs == [] then []
    else
      var last := cs[|cs| - 1];
      ChangesFor(cs[..|cs| - 1], owner, u) + (if owner(last) == u then [last] else [])
  }

  function RepoOwner(c: RepoChange): string { c.username }

  function EventOwner(c: EventChange): string { c.username }

  function RepoChangesFor(cs: seq<RepoChange>, u: string): seq<RepoChange> {
    ChangesFor(cs, RepoOwner, u)
  }

  function EventChangesFor(cs: seq<EventChange>, u: string): seq<EventChange> {
    ChangesFor(cs, EventOwner, u)
  }

  /** Selecting one user's changes distributes over concatenation. */
  lemma {:induction false} ChangesForAppend<C(!new)>(xs: seq<C>, ys: seq<C>, owner: C -> string, u: string)
    ensures ChangesFor(xs + ys, owner, u) == ChangesFor(xs, owner, u) + ChangesFor(ys, owner, u)
    decreases |ys|
  {
    if ys == [] {
      assert xs + ys == xs;
    } else {
      var n := |ys| - 1;
      assert (xs + ys)[..|xs + ys| - 1] == xs + ys[..n];
      ChangesForAppend(xs, ys[..n], owner, u);
    }
  }

  /** Tagging with `v` and then selecting `u` keeps everything or nothing. */
  lemma {:induction false} TagReposFor(v: string, repos: seq<Repo>, u: string)
    ensures RepoChangesFor(TagRepos(v, repos), u) == if u == v then TagRepos(v, repos) else []
    decreases |repos|
  {
    if repos != [] {
      TagReposFor(v, repos[..|repos| - 1], u);
    }
  }

  lemma {:induction false} TagEventsFor(v: string, events: seq<Event>, u: string)
    ensures EventChangesFor(TagEvents(v, events), u) == if u == v then TagEvents(v, events) else []
    decreases |events|
  {
    if events != [] {
      TagEventsFor(v, events[..|events| - 1], u);
    }
  }

  lemma {:induction false} TagReposMembers(u: string, repos: seq<Repo>)
    ensures forall c :: c in TagRepos(u, repos) <==> c.username == u && c.repo in repos
    decreases |repos|
  {
    if repos != [] {
      TagReposMembers(u, repos[..|repos| - 1]);
      assert repos == repos[..|repos| - 1] + [repos[|repos| - 1]];
    }
  }

  lemma {:induction false} TagEventsMembers(u: string, events: seq<Event>)
    ensures forall c :: c in TagEvents(u, events) <==> c.username == u && c.event in events
    decreases |events|
  {
    if events != [] {
      TagEventsMembers(u, events[..|events| - 1]);
      assert events == events[..|events| - 1] + [events[|events| - 1]];
    }
  }

  /**
   * Selecting one user from the concatenation over a loop order that visits
   * each user once gives exactly that user's changes, or none.
   */
  lemma {:induction false} RepoChangesPerUser(
    order: seq<string>, older: Snapshot, newer: Snapshot, list: RepoList, u: string)
    requires Distinct(order)
    ensures RepoChangesFor(RepoChanges(order, older, newer, list), u)
         == if u in order then UserRepoChanges(u, older, newer, list) else []
    decreases |order|
  {
    if order != [] {
      var n := |order| - 1;
      var v := order[n];
      var before, last := RepoChanges(order[..n], older, newer, list), UserRepoChanges(v, older, newer, list);
      assert RepoChanges(order, older, newer, list) == before + last;
      DistinctLast(order, u);
      RepoChangesPerUser(order[..n], older, newer, list, u);
      ChangesForAppend(before, last, RepoOwner, u);
      UserRepoChangesFor(v, older, newer, list, u);
      assert u in order <==> u in order[..n] || u == v;
    }
  }

  lemma UserRepoChangesFor(v: string, older: Snapshot, newer: Snapshot, list: RepoList, u: string)
    ensures RepoChangesFor(UserRepoChanges(v, older, newer, list), u)
         == if u == v then UserRepoChanges(v, older, newer, list) else []
  {
    var tagged := if v !in newer.users then []
      else if v !in older.users then ReposOf(newer.users[v], list)
      else UnseenRepos(ReposOf(newer.users[v], list), RepoNames(ReposOf(older.users[v], list)));
    assert UserRepoChanges(v, older, newer, list) == TagRepos(v, tagged);
    TagReposFor(v, tagged, u);
  }

  lemma {:induction false} EventChangesPerUser(order: seq<string>, older: Snapshot, newer: Snapshot, u: string)
    requires Distinct(order)
    ensures EventChangesFor(EventChanges(order, older, newer), u)
         == if u in order then UserEventChanges(u, older, newer) else []
    decreases |order|
  {
    if order != [] {
      var n := |order| - 1;
      var v := order[n];
      var before, last := EventChanges(order[..n], older, newer), UserEventChanges(v, older, newer);
      assert EventChanges(order, older, newer) == before + last;
      DistinctLast(order, u);
      EventChangesPerUser(order[..n], older, newer, u);
      ChangesForAppend(before, last, EventOwner, u);
      UserEventChangesFor(v, older, newer, u);
      assert u in order <==> u in order[..n] || u == v;
    }
  }

  lemma UserEventChangesFor(v: string, older: Snapshot, newer: Snapshot, u: string)
    ensures EventChangesFor(UserEventChanges(v, older, newer), u)
         == if u == v then UserEventChanges(v, older, newer) else []
  {
    var tagged := if v !in newer.users then []
      else if v !in older.users then newer.users[v].events
      else UnseenEvents(newer.users[v].events, EventKeys(older.users[v].events));
    assert UserEventChanges(v, older, newer) == TagEvents(v, tagged);
    TagEventsFor(v, tagged, u);
  }

  /**
   * Compare copies both capture times, and reports as new users exactly the
   * keys of `newer` missing from `older` and as gone users exactly the keys
   * of `older` missing from `newer`, each once; no user is both.
   */
  lemma CompareUsers(
    older: Snapshot, newer: Snapshot,
    newUsersOrder: seq<string>, goneUsersOrder: seq<string>, changesOrder: seq<string>)
    requires ValidOrders(older, newer, newUsersOrder, goneUsersOrder, changesOrder)
    ensures var r := CompareSpec(older, newer, newUsersOrder, goneUsersOrder, changesOrder);
      && r.oldCapturedAt == older.capturedAt && r.newCapturedAt == newer.capturedAt
      && (forall u :: u in r.newUsers <==> u in newer.users && u !in older.users)
      && (forall u :: u in r.goneUsers <==> u in older.users && u !in newer.users)
      && Distinct(r.newUsers) && Distinct(r.goneUsers)
      && (forall u :: !(u in r.newUsers && u in r.goneUsers))
  {
  }

  /**
   * For a user absent from `older`, every starred repo, owned repo and event
   * of theirs in `newer` is reported, in order, tagged with their name: as
   * many changes as the lists have entries.
   */
  lemma CompareNewUser(
    older: Snapshot, newer: Snapshot,
    newUsersOrder: seq<string>, goneUsersOrder: seq<string>, changesOrder: seq<string>, u: string)
    requires ValidOrders(older, newer, newUsersOrder, goneUsersOrder, changesOrder)
    requires u in newer.users && u !in older.users
    ensures var r := CompareSpec(older, newer, newUsersOrder, goneUsersOrder, changesOrder);
      && RepoChangesFor(r.newStars, u) == TagRepos(u, newer.users[u].starredRepos)
      && RepoChangesFor(r.newRepos, u) == TagRepos(u, newer.users[u].ownedRepos)
      && EventChangesFor(r.newEvents, u) == TagEvents(u, newer.users[u].events)
      && |RepoChangesFor(r.newStars, u)| == |newer.users[u].starredRepos|
      && |RepoChangesFor(r.newRepos, u)| == |newer.users[u].ownedRepos|
      && |EventChangesFor(r.newEvents, u)| == |newer.users[u].events|
  {
    RepoChangesPerUser(changesOrder, older, newer, Starred, u);
    RepoChangesPerUser(changesOrder, older, newer, Owned, u);
    EventChangesPerUser(changesOrder, older, newer, u);
  }

  /** Compare's repo changes for a user present in both snapshots, for one list. */
  lemma ReturningUserRepos(order: seq<string>, older: Snapshot, newer: Snapshot, list: RepoList, u: string)
    requires Distinct(order) && u in order
    requires u in newer.users && u in older.users
    ensures var now, seen := ReposOf(newer.users[u], list), RepoNames(ReposOf(older.users[u], list));
      var cs := RepoChanges(order, older, newer, list);
      && RepoChangesFor(cs, u) == TagRepos(u, UnseenRepos(now, seen))
      && forall x :: RepoChange(u, x) in cs <==> x in now && FullName(x) !in seen
  {
    var now, seen := ReposOf(newer.users[u], list), RepoNames(ReposOf(older.users[u], list));
    var cs := RepoChanges(order, older, newer, list);
    RepoChangesPerUser(order, older, newer, list, u);
    TagReposMembers(u, UnseenRepos(now, seen));
    forall x ensures RepoChange(u, x) in cs <==> RepoChange(u, x) in RepoChangesFor(cs, u) {
    }
  }

  /** Compare's event changes for a user present in both snapshots. */
  lemma ReturningUserEvents(order: seq<string>, older: Snapshot, newer: Snapshot, u: string)
    requires Distinct(order) && u in order
    requires u in newer.users && u in older.users
    ensures var now, seen := newer.users[u].events, EventKeys(older.users[u].events);
      var cs := EventChanges(order, older, newer);
      && EventChangesFor(cs, u) == TagEvents(u, UnseenEvents(now, seen))
      && forall e :: EventChange(e, u) in cs <==> e in now && EventKey(e) !in seen
  {
    var now, seen := newer.users[u].events, EventKeys(older.users[u].events);
    var cs := EventChanges(order, older, newer);
    EventChangesPerUser(order, older, newer, u);
    TagEventsMembers(u, UnseenEvents(now, seen));
    forall e ensures EventChange(e, u) in cs <==> EventChange(e, u) in EventChangesFor(cs, u) {
    }
  }

  /**
   * For a user in both snapshots, a starred repo is reported exactly when
   * its full name is not among the old starred full names, and likewise,
   * independently, for owned repos; an event is reported exactly when its
   * key is not among the old event keys. The reported changes keep the
   * order of the new lists.
   */
  lemma CompareReturningUser(
    older: Snapshot, newer: Snapshot,
    newUsersOrder: seq<string>, goneUsersOrder: seq<string>, changesOrder: seq<string>, u: string)
    requires ValidOrders(older, newer, newUsersOrder, goneUsersOrder, changesOrder)
    requires u in newer.users && u in older.users
    ensures var r := CompareSpec(older, newer, newUsersOrder, goneUsersOrder, changesOrder);
      var was, now := older.users[u], newer.users[u];
      && RepoChangesFor(r.newStars, u) == TagRepos(u, UnseenRepos(now.starredRepos, RepoNames(was.starredRepos)))
      && RepoChangesFor(r.newRepos, u) == TagRepos(u, UnseenRepos(now.ownedRepos, RepoNames(was.ownedRepos)))
      && EventChangesFor(r.newEvents, u) == TagEvents(u, UnseenEvents(now.events, EventKeys(was.events)))
      && (forall x :: RepoChange(u, x) in r.newStars <==>
            x in now.starredRepos && FullName(x) !in RepoNames(was.starredRepos))
      && (forall x :: RepoChange(u, x) in r.newRepos <==>
            x in now.ownedRepos && FullName(x) !in RepoNames(was.ownedRepos))
      && (forall e :: EventChange(e, u) in r.newEvents <==>
            e in now.events && EventKey(e) !in EventKeys(was.events))
  {
    ReturningUserRepos(changesOrder, older, newer, Starred, u);
    ReturningUserRepos(changesOrder, older, newer, Owned, u);
    ReturningUserEvents(changesOrder, older, newer, u);
  }

  /** A user present only in `older` contributes no star, repo or event change. */
  lemma CompareGoneUser(
    older: Snapshot, newer: Snapshot,
    newUsersOrder: seq<string>, goneUsersOrder: seq<string>, changesOrder: seq<string>, u: string)
    requires ValidOrders(older, newer, newUsersOrder, goneUsersOrder, changesOrder)
    requires u !in newer.users
    ensures var r := CompareSpec(older, newer, newUsersOrder, goneUsersOrder, changesOrder);
      && (forall c :: c in r.newStars ==> c.username != u)
      && (forall c :: c in r.newRepos ==> c.username != u)
      && (forall c :: c in r.newEvents ==> c.username != u)
  {
    RepoChangesPerUser(changesOrder, older, newer, Starred, u);
    RepoChangesPerUser(changesOrder, older, newer, Owned, u);
    EventChangesPerUser(changesOrder, older, newer, u);
  }

  /**
   * Everything `now` lists was already in `was`: every starred and owned
   * repo by full name, every event by key.
   */
  predicate SawEverything(was: UserActivity, now: UserActivity) {
    && (forall x :: x in now.starredRepos ==> FullName(x) in RepoNames(was.starredRepos))
    && (forall x :: x in now.ownedRepos ==> FullName(x) in RepoNames(was.ownedRepos))
    && (forall e :: e in now.events ==> EventKey(e) in EventKeys(was.events))
  }

  /** Nothing is new between two snapshots: the same users, and nothing unseen for any of them. */
  predicate NothingNew(older: Snapshot, newer: Snapshot) {
    older.users.Keys == newer.users.Keys
    && forall u :: u in newer.users && u in older.users ==> SawEverything(older.users[u], newer.users[u])
  }

  predicate NoUserChanges(u: string, older: Snapshot, newer: Snapshot) {
    && UserRepoChanges(u, older, newer, Starred) == []
    && UserRepoChanges(u, older, newer, Owned) == []
    && UserEventChanges(u, older, newer) == []
  }

  /** The three change lists are empty exactly when no visited user contributes to any of them. */
  lemma {:induction false} ChangesEmpty(order: seq<string>, older: Snapshot, newer: Snapshot)
    ensures (&& RepoChanges(order, older, newer, Starred) == []
             && RepoChanges(order, older, newer, Owned) == []
             && EventChanges(order, older, newer) == [])
        <==> forall u :: u in order ==> NoUserChanges(u, older, newer)
    decreases |order|
  {
    if order != [] {
      var n := |order| - 1;
      var v := order[n];
      assert order == order[..n] + [v];
      ChangesEmpty(order[..n], older, newer);
      assert RepoChanges(order, older, newer, Starred)
          == RepoChanges(order[..n], older, newer, Starred) + UserRepoChanges(v, older, newer, Starred);
      assert RepoChanges(order, older, newer, Owned)
          == RepoChanges(order[..n], older, newer, Owned) + UserRepoChanges(v, older, newer, Owned);
      assert EventChanges(order, older, newer)
          == EventChanges(order[..n], older, newer) + UserEventChanges(v, older, newer);
      assert (forall u :: u in order ==> NoUserChanges(u, older, newer))
          <==> (forall u :: u in order[..n] ==> NoUserChanges(u, older, newer)) && NoUserChanges(v, older, newer);
    }
  }

  /** For a user in both snapshots, no change is reported exactly when nothing of theirs is new. */
  lemma UserNothingNew(u: string, older: Snapshot, newer: Snapshot)
    requires u in newer.users && u in older.users
    ensures NoUserChanges(u, older, newer) <==> SawEverything(older.users[u], newer.users[u])
  {
    var was, now := older.users[u], newer.users[u];
    var s := UnseenRepos(now.starredRepos, RepoNames(was.starredRepos));
    var o := UnseenRepos(now.ownedRepos, RepoNames(was.ownedRepos));
    var e := UnseenEvents(now.events, EventKeys(was.events));
    if s != [] { assert s[0] in s; }
    if o != [] { assert o[0] in o; }
    if e != [] { assert e[0] in e; }
  }

  /** `IsEmpty` holds of the comparison exactly when nothing is new. */
  lemma CompareEmptyIff(
    older: Snapshot, newer: Snapshot,
    newUsersOrder: seq<string>, goneUsersOrder: seq<string>, changesOrder: seq<string>)
    requires ValidOrders(older, newer, newUsersOrder, goneUsersOrder, changesOrder)
    ensures IsEmpty(CompareSpec(older, newer, newUsersOrder, goneUsersOrder, changesOrder)) <==> NothingNew(older, newer)
  {
    var r := CompareSpec(older, newer, newUsersOrder, goneUsersOrder, changesOrder);
    var sameUsers := older.users.Keys == newer.users.Keys;
    assert sameUsers <==> |r.newUsers| == 0 && |r.goneUsers| == 0 by {
      if |r.newUsers| != 0 { assert r.newUsers[0] in r.newUsers; }
      if |r.goneUsers| != 0 { assert r.goneUsers[0] in r.goneUsers; }
    }
    if sameUsers {
      ChangesEmpty(changesOrder, older, newer);
      forall u | u in newer.users
        ensures NoUserChanges(u, older, newer) <==> SawEverything(older.users[u], newer.users[u])
      {
        UserNothingNew(u, older, newer);
      }
    }
  }

  /** Comparing a snapshot with an identical copy of itself finds nothing. */
  lemma CompareIdenticalIsEmpty(
    s: Snapshot, newUsersOrder: seq<string>, goneUsersOrder: seq<string>, changesOrder: seq<string>)
    requires ValidOrders(s, s, newUsersOrder, goneUsersOrder, changesOrder)
    ensures IsEmpty(CompareSpec(s, s, newUsersOrder, goneUsersOrder, changesOrder))
  {
    CompareEmptyIff(s, s, newUsersOrder, goneUsersOrder, changesOrder);
  }
}
