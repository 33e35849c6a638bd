/**
 * Backend/routes/admin_routes.py: the activity log and user reports.  Only
 * `get_user_details` checks that the caller is an administrator; the other
 * three routes answer any signed-in user.  A query without `ORDER BY` returns
 * rows in table order.
 */
module AdminRoutes {
  import opened Wrappers
  import opened Store
  import opened Queries
  import opened Sorting

  const AdminRequired := HttpError(403, "Admin access required")

  /** `UserActivityResponse`. */
  datatype ActivityView = ActivityView(id: nat, userId: nat, userName: string, action: string,
                                       endpoint: Option<string>, ipAddress: Option<string>,
                                       userAgent: Option<string>, timestamp: int, details: Option<string>)

  function View(a: Activity, userName: string): ActivityView {
    ActivityView(a.id, a.userId, userName, a.action, a.endpoint, a.ipAddress, a.userAgent, a.timestamp, a.details)
  }

  function Timestamp(a: Activity): int {
    a.timestamp
  }

  /** `join(User)`: the activity's user exists. */
  predicate HasUser(users: seq<User>, userId: nat) {
    exists i :: 0 <= i < |users| && users[i].id == userId
  }

  /** `activity.user.full_name`, for an activity that joined. */
  function NameOf(users: seq<User>, userId: nat): string {
    match First(users, (u: User) => u.id == userId)
    case None => ""
    case Some(i) => users[i].fullName
  }

  /** The `user_id` query parameter is truthy: present and not zero. */
  predicate Truthy(userIdFilter: Option<int>) {
    userIdFilter.Some? && userIdFilter.value != 0
  }

  /** The rows the join and the optional filter of `get_user_activities` keep. */
  predicate Selected(users: seq<User>, userIdFilter: Option<int>, a: Activity) {
    HasUser(users, a.userId) && (Truthy(userIdFilter) ==> a.userId == userIdFilter.value)
  }

  /** The activity rows of `get_user_activities`: joined, filtered, newest first, limited. */
  function ActivityRows(users: seq<User>, activities: seq<Activity>, userIdFilter: Option<int>, limit: int): seq<Activity> {
    Limit(SortDesc(Filter(activities, (a: Activity) => Selected(users, userIdFilter, a)), Timestamp), limit)
  }

  /** The response rows, each named after the user it joined. */
  function JoinedViews(users: seq<User>, rows: seq<Activity>): (r: seq<ActivityView>)
    ensures |r| == |rows|
  {
    seq(|rows|, k requires 0 <= k < |rows| => View(rows[k], NameOf(users, rows[k].userId)))
  }

  /** `get_user_activities`: the loop building `result` from the queried rows. */
  method GetUserActivities(db: Database, limit: int, userIdFilter: Option<int>) returns (result: seq<ActivityView>)
    ensures result == JoinedViews(db.users, ActivityRows(db.users, db.activities, userIdFilter, limit))
  {
    var rows := ActivityRows(db.users, db.activities, userIdFilter, limit);
    result := [];
    for k := 0 to |rows|
      invariant |result| == k
      invariant forall j :: 0 <= j < k ==> result[j] == View(rows[j], NameOf(db.users, rows[j].userId))
    {
      result := result + [View(rows[k], NameOf(db.users, rows[k].userId))];
    }
  }

  /** `UserStatsResponse`. */
  datatype UserStats = UserStats(userId: nat, fullName: string, email: string, createdAt: int,
                                 lastLogin: Option<int>, totalActivities: nat, recentActivities: seq<string>)

  /** `filter(UserActivity.user_id == user.id)`, in table order. */
  function OwnActivities(activities: seq<Activity>, userId: nat): seq<Activity> {
    Filter(activities, (a: Activity) => a.userId == userId)
  }

  /** Python's `s[-5:]`. */
  function LastFive<T>(s: seq<T>): seq<T> {
    if |s| <= 5 then s else s[|s| - 5..]
  }

  function Actions(rows: seq<Activity>): (r: seq<string>)
    ensures |r| == |rows|
  {
    seq(|rows|, k requires 0 <= k < |rows| => rows[k].action)
  }

  /** The statistics entry of one user. */
  function StatsOf(u: User, activities: seq<Activity>): UserStats {
    var own := OwnActivities(activities, u.id);
    UserStats(u.id, u.fullName, u.email, u.createdAt, u.lastLogin, |own|, Actions(LastFive(own)))
  }

  /** `get_user_stats`: one entry per user, in table order. */
  method GetUserStats(db: Database) returns (result: seq<UserStats>)
    ensures |result| == |db.users|
    ensures forall i :: 0 <= i < |db.users| ==> result[i] == StatsOf(db.users[i], db.activities)
  {
    result := [];
    for i := 0 to |db.users|
      invariant |result| == i
      invariant forall j :: 0 <= j < i ==> result[j] == StatsOf(db.users[j], db.activities)
    {
      var own := OwnActivities(db.activities, db.users[i].id);
      var u := db.users[i];
      result := result + [UserStats(u.id, u.fullName, u.email, u.createdAt, u.lastLogin, |own|, Actions(LastFive(own)))];
    }
  }

  /** `UserDetailsResponse`, which exposes the stored password hash. */
  datatype UserDetails = UserDetails(userId: nat, fullName: string, email: string, hashedPassword: Hash,
                                     createdAt: int, lastLogin: Option<int>, isActive: bool, isAdmin: bool)

  function DetailsOf(u: User): UserDetails {
    UserDetails(u.id, u.fullName, u.email, u.hashedPassword, u.createdAt, u.lastLogin, u.isActive, u.isAdmin)
  }

  /** `get_user_details`: 403 for a non-administrator, otherwise every user's full record. */
  method GetUserDetails(db: Database, current: User) returns (r: Result<seq<UserDetails>, HttpError>)
    ensures !current.isAdmin ==> r == Err(AdminRequired)
    ensures current.isAdmin ==> r.Ok? && |r.value| == |db.users|
    ensures current.isAdmin ==> forall i :: 0 <= i < |db.users| ==> r.value[i] == DetailsOf(db.users[i])
  {
    if !current.isAdmin {
      return Err(AdminRequired);
    }
    var result: seq<UserDetails> := [];
    for i := 0 to |db.users|
      invariant |result| == i
      invariant forall j :: 0 <= j < i ==> result[j] == DetailsOf(db.users[j])
    {
      result := result + [DetailsOf(db.users[i])];
    }
    r := Ok(result);
  }

  /** The activity rows of `get_my_activities`: the caller's, newest first, limited. */
  function MyRows(activities: seq<Activity>, userId: nat, limit: int): seq<Activity> {
    Limit(SortDesc(OwnActivities(activities, userId), Timestamp), limit)
  }

  /** `get_my_activities`: each row named after the caller. */
  method GetMyActivities(db: Database, current: User, limit: int) returns (result: seq<ActivityView>)
    ensures var rows := MyRows(db.activities, current.id, limit);
      |result| == |rows| && forall k :: 0 <= k < |rows| ==> result[k] == View(rows[k], current.fullName)
  {
    var rows := MyRows(db.activities, current.id, limit);
    result := [];
    for k := 0 to |rows|
      invariant |result| == k
      invariant forall j :: 0 <= j < k ==> result[j] == View(rows[j], current.fullName)
    {
      result := result + [View(rows[k], current.fullName)];
    }
  }

  // ---------------------------------------------------------------- properties

  /**
   * Sorting then limiting keeps rows of the input only, newest first: the
   * `limit` newest of them, or all of them when the limit is negative or
   * larger than the input, and no row left out is newer than a row kept.
   */
  lemma NewestFirst(rows: seq<Activity>, limit: int)
    ensures var r := Limit(SortDesc(rows, Timestamp), limit);
      && (forall x :: x in r ==> x in rows)
      && (forall i, j :: 0 <= i < j < |r| ==> r[i].timestamp >= r[j].timestamp)
      && |r| == (if 0 <= limit < |rows| then limit else |rows|)
      && (forall i, x :: 0 <= i < |r| && x in rows && x !in r ==> x.timestamp <= r[i].timestamp)
      && (limit < 0 || |r| < limit ==> multiset(r) == multiset(rows))
  {
    var sorted := SortDesc(rows, Timestamp);
    SortDescSorted(rows, Timestamp);
    SortDescMembers(rows, Timestamp);
    LimitPrefix(sorted, limit);
    var r := Limit(sorted, limit);
    assert |sorted| == |rows| by {
      assert |multiset(sorted)| == |multiset(rows)|;
    }
    forall x | x in r ensures x in rows {
      assert x in sorted;
    }
    forall i, x | 0 <= i < |r| && x in rows && x !in r ensures x.timestamp <= r[i].timestamp {
      assert x in sorted;
      var j :| 0 <= j < |sorted| && sorted[j] == x;
      assert r[i] == sorted[i];
    }
    if limit < 0 || |r| < limit {
      assert r == sorted;
    }
  }

  /**
   * Filtering, sorting newest first and limiting returns the `limit` newest
   * kept rows, or every kept row when the limit is negative or not reached.
   */
  lemma NewestKept(activities: seq<Activity>, keep: Activity -> bool, limit: int)
    ensures var kept := Filter(activities, keep);
      var r := Limit(SortDesc(kept, Timestamp), limit);
      && (forall x :: x in r ==> x in activities && keep(x))
      && (forall i, j :: 0 <= i < j < |r| ==> r[i].timestamp >= r[j].timestamp)
      && |r| == (if 0 <= limit < |kept| then limit else |kept|)
      && (forall i, x :: 0 <= i < |r| && x in activities && keep(x) && x !in r ==> x.timestamp <= r[i].timestamp)
      && (limit < 0 || |r| < limit ==> forall x :: x in activities && keep(x) ==> x in r)
  {
    var kept := Filter(activities, keep);
    FilterMembers(activities, keep);
    NewestFirst(kept, limit);
    var r := Limit(SortDesc(kept, Timestamp), limit);
    if limit < 0 || |r| < limit {
      forall x | x in activities && keep(x) ensures x in r {
        assert x in multiset(kept);
      }
    }
  }

  /**
   * `get_user_activities` returns only activities whose user exists, only the
   * requested user's when the filter is truthy, newest first: the `limit`
   * newest such activities, or every one of them when the limit is negative
   * or not reached.
   */
  lemma ActivityRowsSpec(users: seq<User>, activities: seq<Activity>, userIdFilter: Option<int>, limit: int)
    ensures var r := ActivityRows(users, activities, userIdFilter, limit);
      var kept := Filter(activities, (a: Activity) => Selected(users, userIdFilter, a));
      && (forall x :: x in r ==> x in activities && HasUser(users, x.userId))
      && (Truthy(userIdFilter) ==> forall x :: x in r ==> x.userId == userIdFilter.value)
      && (forall i, j :: 0 <= i < j < |r| ==> r[i].timestamp >= r[j].timestamp)
      && |r| == (if 0 <= limit < |kept| then limit else |kept|)
      && (forall i, x :: 0 <= i < |r| && x in activities && Selected(users, userIdFilter, x) && x !in r
            ==> x.timestamp <= r[i].timestamp)
      && (limit < 0 || |r| < limit ==> forall x :: x in activities && Selected(users, userIdFilter, x) ==> x in r)
  {
    NewestKept(activities, (a: Activity) => Selected(users, userIdFilter, a), limit);
  }

  /** `user_id = 0` is falsy: it filters nothing, exactly as no `user_id` at all. */
  lemma ZeroUserIdMeansAll(users: seq<User>, activities: seq<Activity>, limit: int)
    ensures ActivityRows(users, activities, Some(0), limit) == ActivityRows(users, activities, None, limit)
  {
    FilterSame(activities, (a: Activity) => Selected(users, Some(0), a), (a: Activity) => Selected(users, None, a));
  }

  /** Every row of `get_user_activities` carries the name of the user it belongs to. */
  lemma JoinedViewsNamed(users: seq<User>, rows: seq<Activity>, k: nat)
    requires UsersWellFormed(users) && k < |rows| && HasUser(users, rows[k].userId)
    ensures var v := JoinedViews(users, rows)[k];
      v.userId == rows[k].userId && v.userName == users[rows[k].userId - 1].fullName
  {
  }

  /**
   * A user's statistics count that user's activities, and `recent_activities`
   * holds the actions of the last (at most five) of them, in table order.
   */
  lemma StatsSpec(u: User, activities: seq<Activity>)
    ensures var s := StatsOf(u, activities);
      var own := OwnActivities(activities, u.id);
      && s.userId == u.id && s.totalActivities == |own|
      && (forall x :: x in own <==> x in activities && x.userId == u.id)
      && |s.recentActivities| == (if |own| < 5 then |own| else 5)
      && forall k :: 0 <= k < |s.recentActivities| ==>
           s.recentActivities[k] == own[|own| - |s.recentActivities| + k].action
  {
    FilterMembers(activities, (a: Activity) => a.userId == u.id);
  }

  /**
   * Logging one more activity for a user raises that user's total by one and
   * makes its action the last of the recent ones.
   */
  lemma StatsAfterLog(u: User, activities: seq<Activity>, a: Activity)
    requires a.userId == u.id
    ensures var before := StatsOf(u, activities);
      var after := StatsOf(u, activities + [a]);
      && after.totalActivities == before.totalActivities + 1
      && after.recentActivities[|after.recentActivities| - 1] == a.action
  {
    var own := OwnActivities(activities, u.id);
    FilterAppend(activities, [a], (x: Activity) => x.userId == u.id);
    assert Filter([a], (x: Activity) => x.userId == u.id) == [a];
    assert OwnActivities(activities + [a], u.id) == own + [a];
    var recent := LastFive(own + [a]);
    assert recent[|recent| - 1] == a;
  }

  /** Logging an activity for one user leaves every other user's statistics as they were. */
  lemma StatsOthersUnchanged(other: User, activities: seq<Activity>, a: Activity)
    requires a.userId != other.id
    ensures StatsOf(other, activities + [a]) == StatsOf(other, activities)
  {
    FilterAppend(activities, [a], (x: Activity) => x.userId == other.id);
    assert Filter([a], (x: Activity) => x.userId == other.id) == [];
    assert OwnActivities(activities + [a], other.id) == OwnActivities(activities, other.id);
  }

  /**
   * `get_my_activities` returns only the caller's activities, newest first:
   * the `limit` newest of them, or all of them when the limit is negative or
   * not reached.
   */
  lemma MyRowsSpec(activities: seq<Activity>, current: User, limit: int)
    ensures var r := MyRows(activities, current.id, limit);
      var own := OwnActivities(activities, current.id);
      && (forall x :: x in r ==> x in activities && x.userId == current.id)
      && (forall i, j :: 0 <= i < j < |r| ==> r[i].timestamp >= r[j].timestamp)
      && |r| == (if 0 <= limit < |own| then limit else |own|)
      && (forall i, x :: 0 <= i < |r| && x in activities && x.userId == current.id && x !in r
            ==> x.timestamp <= r[i].timestamp)
      && (limit < 0 || |r| < limit ==> forall x :: x in activities && x.userId == current.id ==> x in r)
  {
    NewestKept(activities, (a: Activity) => a.userId == current.id, limit);
  }
}
