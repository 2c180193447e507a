/**
 * The bot's SQLite store (core/database.py) as one object whose fields are
 * the tables: open voice sessions, accumulated totals, goals, awarded goals,
 * weekly-reset configuration and state, log channels, prohibited channels
 * and the weekly history. Every table keyed by a primary key is a map from
 * that key; the goals table, whose rows the bot lists in id order, is a
 * sequence. Instants are whole seconds since the Unix epoch, in UTC.
 */
module Database {
  import opened Wrappers

  type UserId = int
  type GuildId = int
  type ChannelId = int
  type RoleId = int
  type GoalId = int
  type MessageId = int
  /** Whole seconds since the Unix epoch, UTC. */
  type Instant = int

  /** A row of `sessions`: where the user is and since when. */
  datatype Session = Session(channel: ChannelId, start: Instant)

  /**
   * A row of `goals`. `requiredRolesCsv` is the `required_role_ids` column,
   * comma-separated role ids, with "" standing for NULL.
   */
  datatype Goal = Goal(
    id: GoalId,
    guild: GuildId,
    name: string,
    secondsRequired: int,
    rewardRole: Option<RoleId>,
    requiredRolesCsv: string,
    resetOnWeekly: bool)

  /** A row of `weekly_reset_config`, in local time. */
  datatype ResetConfig = ResetConfig(weekday: int, hour: int, minute: int)

  /**
   * One archived week of a guild: each user's total at the reset, and the pin
   * that protects the week from the retention cleanup.
   */
  datatype HistoryWeek = HistoryWeek(totals: map<UserId, int>, pinned: bool)

  /** The history settings of a guild: where the weekly ranking is posted and how many days weeks are kept. */
  datatype HistoryConfig = HistoryConfig(postChannel: Option<ChannelId>, retentionDays: Option<int>)

  const SecondsPerDay := 86400

  /** The seconds a session from `start` to `end` credits: never negative. */
  function Duration(start: Instant, end: Instant): (d: nat)
    ensures start <= end ==> d == end - start
    ensures end < start ==> d == 0
  {
    if end - start < 0 then 0 else end - start
  }

  /** The `total_times` value of a key, 0 when there is no row. */
  function TotalOr0(totals: map<(UserId, GuildId), int>, k: (UserId, GuildId)): int {
    if k in totals then totals[k] else 0
  }

  /** `totals` after `d` seconds are credited to `k`, creating the row when absent. */
  function Credit(totals: map<(UserId, GuildId), int>, k: (UserId, GuildId), d: int): (r: map<(UserId, GuildId), int>)
    ensures r.Keys == totals.Keys + {k}
    ensures r[k] == TotalOr0(totals, k) + d
    ensures forall k' :: k' in totals && k' != k ==> r[k'] == totals[k']
  {
    totals[k := TotalOr0(totals, k) + d]
  }

  /** The `awarded_goals` rows left after deleting those of `guild` whose goal is in `ids`. */
  function WithoutAwards(awarded: map<(UserId, GuildId, GoalId), Instant>, guild: GuildId, ids: set<GoalId>)
    : (r: map<(UserId, GuildId, GoalId), Instant>)
    ensures forall k :: k in r <==> k in awarded && !(k.1 == guild && k.2 in ids)
    ensures forall k :: k in r ==> r[k] == awarded[k]
  {
    map k | k in awarded && !(k.1 == guild && k.2 in ids) :: awarded[k]
  }

  /** The goals of one guild, in id order. */
  function GuildGoals(gs: seq<Goal>, guild: GuildId): (r: seq<Goal>)
    ensures forall g :: g in r <==> g in gs && g.guild == guild
  {
    if gs == [] then []
    else if gs[0].guild == guild then [gs[0]] + GuildGoals(gs[1..], guild)
    else GuildGoals(gs[1..], guild)
  }

  predicate SortedBySeconds(gs: seq<Goal>) {
    forall i, j :: 0 <= i < j < |gs| ==> gs[i].secondsRequired <= gs[j].secondsRequired
  }

  /** Inserts `g` before the first goal that needs at least as many seconds. */
  function InsertBySeconds(g: Goal, gs: seq<Goal>): (r: seq<Goal>)
    requires SortedBySeconds(gs)
    ensures SortedBySeconds(r)
    ensures multiset(r) == multiset(gs) + multiset{g}
    decreases |gs|
  {
    if gs == [] || g.secondsRequired <= gs[0].secondsRequired then [g] + gs
    else
      var rest := InsertBySeconds(g, gs[1..]);
      assert gs == [gs[0]] + gs[1..];
      HeadBound(gs[0], g, gs[1..], rest);
      [gs[0]] + rest
  }

  /** Every element of `rest`, a permutation of `tail` plus `g`, needs at least `h`'s seconds. */
  lemma HeadBound(h: Goal, g: Goal, tail: seq<Goal>, rest: seq<Goal>)
    requires h.secondsRequired <= g.secondsRequired
    requires forall x :: x in tail ==> h.secondsRequired <= x.secondsRequired
    requires SortedBySeconds(rest)
    requires multiset(rest) == multiset(tail) + multiset{g}
    ensures SortedBySeconds([h] + rest)
  {
    forall j | 0 <= j < |rest|
      ensures h.secondsRequired <= rest[j].secondsRequired
    {
      assert rest[j] in multiset(rest);
    }
  }

  /** `ORDER BY seconds_required ASC`: a sorted permutation of the rows. */
  function SortBySeconds(gs: seq<Goal>): (r: seq<Goal>)
    ensures SortedBySeconds(r)
    ensures multiset(r) == multiset(gs)
    decreases |gs|
  {
    if gs == [] then []
    else
      assert gs == [gs[0]] + gs[1..];
      InsertBySeconds(gs[0], SortBySeconds(gs[1..]))
  }

  /** Ranking order on users: more seconds first, ties by the smaller user id. */
  predicate RanksBefore(score: map<UserId, int>, a: UserId, b: UserId) {
    a in score && b in score && (score[a] > score[b] || (score[a] == score[b] && a <= b))
  }

  /** Distinct users, each row before the rows after it in the ranking order. */
  predicate RankSorted(score: map<UserId, int>, r: seq<(UserId, int)>) {
    forall i, j :: 0 <= i < j < |r| ==> r[i].0 != r[j].0 && RanksBefore(score, r[i].0, r[j].0)
  }

  /** A set that is not empty has an element. */
  lemma Inhabited(s: set<int>)
    ensures s == {} || exists x :: x in s
  {
    if !exists x :: x in s {
      assert s == {};
    }
  }

  lemma BestExists(users: set<UserId>, score: map<UserId, int>)
    requires users != {} && users <= score.Keys
    ensures exists b :: b in users && forall u :: u in users ==> RanksBefore(score, b, u)
    decreases |users|
  {
    Inhabited(users);
    var x :| x in users;
    var others := users - {x};
    if others == {} {
      assert users == {x};
      assert RanksBefore(score, x, x);
    } else {
      BestExists(others, score);
      var b :| b in others && forall u :: u in others ==> RanksBefore(score, b, u);
      if RanksBefore(score, x, b) {
        forall u | u in users
          ensures RanksBefore(score, x, u)
        {
          if u != x { assert u in others; }
        }
      } else {
        forall u | u in users
          ensures RanksBefore(score, b, u)
        {
          if u != x { assert u in others; }
        }
      }
    }
  }

  /** The user that comes first in the ranking order. */
  function Best(users: set<UserId>, score: map<UserId, int>): (b: UserId)
    requires users != {} && users <= score.Keys
    ensures b in users && forall u :: u in users ==> RanksBefore(score, b, u)
  {
    BestExists(users, score);
    var b :| b in users && forall u :: u in users ==> RanksBefore(score, b, u);
    b
  }

  /**
   * The users in ranking order, each with their score: `ORDER BY total_seconds
   * DESC`, with ties broken by user id.
   */
  function RankOrder(users: set<UserId>, score: map<UserId, int>): (r: seq<(UserId, int)>)
    requires users <= score.Keys
    ensures |r| == |users|
    ensures forall i :: 0 <= i < |r| ==> r[i].0 in users && r[i].1 == score[r[i].0]
    decreases |users|
  {
    if users == {} then []
    else
      var b := Best(users, score);
      [(b, score[b])] + RankOrder(users - {b}, score)
  }

  /** Every user of the set has a row in the ranking. */
  lemma {:induction false} RankOrderCovers(users: set<UserId>, score: map<UserId, int>)
    requires users <= score.Keys
    ensures forall u :: u in users ==> exists i :: 0 <= i < |RankOrder(users, score)| && RankOrder(users, score)[i].0 == u
    decreases |users|
  {
    if users != {} {
      var b := Best(users, score);
      var rest := RankOrder(users - {b}, score);
      var r := RankOrder(users, score);
      assert r == [(b, score[b])] + rest;
      RankOrderCovers(users - {b}, score);
      forall u | u in users
        ensures exists i :: 0 <= i < |r| && r[i].0 == u
      {
        if u == b {
          assert r[0].0 == u;
        } else {
          assert u in users - {b};
          var i :| 0 <= i < |rest| && rest[i].0 == u;
          assert r[i + 1].0 == u;
        }
      }
      assert forall u :: u in users ==> exists i :: 0 <= i < |r| && r[i].0 == u;
      assert r == RankOrder(users, score);
      assert forall u :: u in users ==> exists i :: 0 <= i < |RankOrder(users, score)| && RankOrder(users, score)[i].0 == u;
    } else {
      assert forall u :: u in users ==> false;
    }
  }

  /**
   * The ranking lists each user once, and every row comes before the rows
   * after it in the ranking order: at least as many seconds, and on a tie
   * a smaller user id.
   */
  lemma {:induction false} RankOrderSorted(users: set<UserId>, score: map<UserId, int>)
    requires users <= score.Keys
    ensures RankSorted(score, RankOrder(users, score))
    decreases |users|
  {
    if users != {} {
      var b := Best(users, score);
      var rest := RankOrder(users - {b}, score);
      var r := RankOrder(users, score);
      assert r == [(b, score[b])] + rest;
      RankOrderSorted(users - {b}, score);
      forall i, j | 0 <= i < j < |r|
        ensures r[i].0 != r[j].0 && RanksBefore(score, r[i].0, r[j].0)
      {
        if i == 0 {
          assert r[0].0 == b;
          assert r[j] == rest[j - 1];
          assert r[j].0 in users - {b};
          assert RanksBefore(score, b, r[j].0);
        } else {
          assert r[i] == rest[i - 1] && r[j] == rest[j - 1];
          assert rest[i - 1].0 != rest[j - 1].0 && RanksBefore(score, rest[i - 1].0, rest[j - 1].0);
        }
      }
    }
  }

  /**
   * The users of `guild` with a row in a table keyed by user and guild:
   * a `total_times` row, or an open session.
   */
  function GuildUsers<V>(rows: map<(UserId, GuildId), V>, guild: GuildId): (us: set<UserId>)
    ensures forall u :: u in us <==> (u, guild) in rows
  {
    set k | k in rows && k.1 == guild :: k.0
  }

  /** The totals of `guild` keyed by user. */
  function GuildScores(totals: map<(UserId, GuildId), int>, guild: GuildId): (m: map<UserId, int>)
    ensures forall u :: u in m <==> (u, guild) in totals
    ensures forall u :: u in m ==> m[u] == totals[(u, guild)]
  {
    map u | u in GuildUsers(totals, guild) :: totals[(u, guild)]
  }

  /** The week a reset archives: the guild's nonzero totals keyed by user. */
  function WeekScores(totals: map<(UserId, GuildId), int>, guild: GuildId): (m: map<UserId, int>)
    ensures forall u :: u in m <==> (u, guild) in totals && totals[(u, guild)] != 0
    ensures forall u :: u in m ==> m[u] == totals[(u, guild)]
  {
    map u | u in GuildUsers(totals, guild) && totals[(u, guild)] != 0 :: totals[(u, guild)]
  }

  /** `SELECT user_id, total_seconds FROM total_times WHERE guild_id=? ORDER BY total_seconds DESC`. */
  function RankingRows(totals: map<(UserId, GuildId), int>, guild: GuildId): seq<(UserId, int)> {
    RankOrder(GuildUsers(totals, guild), GuildScores(totals, guild))
  }

  class Store {
    var sessions: map<(UserId, GuildId), Session>
    var totals: map<(UserId, GuildId), int>
    var logChannels: map<(GuildId, string), ChannelId>
    var prohibited: set<(GuildId, ChannelId)>
    /** The goals table in id (insertion) order. */
    var goals: seq<Goal>
    /** The next AUTOINCREMENT id of the goals table. */
    var nextGoalId: GoalId
    var awarded: map<(UserId, GuildId, GoalId), Instant>
    var resetConfig: map<GuildId, ResetConfig>
    var lastReset: map<GuildId, Instant>
    /** The archived weeks, keyed by guild and archive instant. */
    var history: map<(GuildId, Instant), HistoryWeek>
    var historyConfig: map<GuildId, HistoryConfig>

    /** Totals are never negative; goal ids are increasing and below the next id. */
    ghost predicate Valid()
      reads this`totals, this`nextGoalId, this`goals
    {
      && (forall k :: k in totals ==> totals[k] >= 0)
      && nextGoalId >= 1
      && (forall i :: 0 <= i < |goals| ==> 1 <= goals[i].id < nextGoalId)
      && (forall i, j :: 0 <= i < j < |goals| ==> goals[i].id < goals[j].id)
    }

    /** `init_db` on a fresh database: every table empty. */
    constructor ()
      ensures Valid()
      ensures sessions == map[] && totals == map[] && goals == [] && awarded == map[]
      ensures logChannels == map[] && prohibited == {} && resetConfig == map[]
      ensures lastReset == map[] && history == map[] && historyConfig == map[]
    {
      sessions, totals, logChannels, prohibited := map[], map[], map[], {};
      goals, nextGoalId, awarded := [], 1, map[];
      resetConfig, lastReset, history, historyConfig := map[], map[], map[], map[];
    }

    /** `start_session`: INSERT OR REPLACE, so any earlier open session of the key is discarded. */
    method StartSession(user: UserId, guild: GuildId, channel: ChannelId, start: Instant)
      modifies this`sessions
      ensures sessions == old(sessions)[(user, guild) := Session(channel, start)]
    {
      sessions := sessions[(user, guild) := Session(channel, start)];
    }

    /**
     * `end_session`. `end` is `None` when the end timestamp does not parse.
     * Returns the start of the open session, or `None` when there is none.
     */
    method EndSession(user: UserId, guild: GuildId, end: Option<Instant>) returns (r: Option<Instant>)
      requires Valid()
      modifies this`sessions, this`totals
      ensures Valid()
      ensures (user, guild) !in old(sessions) ==>
        r == None && sessions == old(sessions) && totals == old(totals)
      ensures (user, guild) in old(sessions) ==> r == Some(old(sessions)[(user, guild)].start)
      ensures (user, guild) in old(sessions) && end.Some? ==>
        && sessions == old(sessions) - {(user, guild)}
        && totals == Credit(old(totals), (user, guild), Duration(old(sessions)[(user, guild)].start, end.value))
      ensures end.None? ==> sessions == old(sessions) && totals == old(totals)
    {
      var k := (user, guild);
      if k !in sessions {
        return None;
      }
      var start := sessions[k].start;
      r := Some(start);
      if end.Some? {
        var duration := Duration(start, end.value);
        totals := Credit(totals, k, duration);
        sessions := sessions - {k};
      }
    }

    /** `total_time`: the accumulated seconds, 0 without a row. */
    function TotalTime(user: UserId, guild: GuildId): (t: int)
      reads this`totals, this`nextGoalId, this`goals
      requires Valid()
      ensures t >= 0
      ensures (user, guild) !in totals ==> t == 0
      ensures (user, guild) in totals ==> t == totals[(user, guild)]
    {
      TotalOr0(totals, (user, guild))
    }

    /**
     * `current_session_time` at instant `now`: the live seconds of the open
     * session, counted from the later of its start and the guild's last reset.
     */
    function CurrentSessionTime(user: UserId, guild: GuildId, now: Instant): (t: int)
      reads this`sessions, this`lastReset
      ensures t >= 0
      ensures (user, guild) !in sessions ==> t == 0
      ensures (user, guild) in sessions ==> t <= Duration(sessions[(user, guild)].start, now)
      ensures (user, guild) in sessions && guild in lastReset ==> t <= Duration(lastReset[guild], now)
      ensures (user, guild) in sessions && (guild !in lastReset || lastReset[guild] <= sessions[(user, guild)].start) ==>
        t == Duration(sessions[(user, guild)].start, now)
      ensures (user, guild) in sessions && guild in lastReset && sessions[(user, guild)].start < lastReset[guild] ==>
        t == Duration(lastReset[guild], now)
    {
      if (user, guild) !in sessions then 0
      else
        var start := sessions[(user, guild)].start;
        var from := if guild in lastReset && start < lastReset[guild] then lastReset[guild] else start;
        Duration(from, now)
    }

    /** `set_log_channel`: one channel per guild and purpose. */
    method SetLogChannel(guild: GuildId, channel: ChannelId, kind: string)
      modifies this`logChannels
      ensures logChannels == old(logChannels)[(guild, kind) := channel]
      ensures GetLogChannel(guild, kind) == Some(channel)
    {
      logChannels := logChannels[(guild, kind) := channel];
    }

    /** `get_log_channel`. */
    function GetLogChannel(guild: GuildId, kind: string): Option<ChannelId>
      reads this`logChannels
    {
      if (guild, kind) in logChannels then Some(logChannels[(guild, kind)]) else None
    }

    /** `add_prohibited_channel`: an upsert of the pair. */
    method AddProhibitedChannel(guild: GuildId, channel: ChannelId)
      modifies this`prohibited
      ensures prohibited == old(prohibited) + {(guild, channel)}
      ensures IsChannelProhibited(guild, channel)
    {
      prohibited := prohibited + {(guild, channel)};
    }

    /** `remove_prohibited_channel`. */
    method RemoveProhibitedChannel(guild: GuildId, channel: ChannelId)
      modifies this`prohibited
      ensures prohibited == old(prohibited) - {(guild, channel)}
      ensures !IsChannelProhibited(guild, channel)
    {
      prohibited := prohibited - {(guild, channel)};
    }

    /** `list_prohibited_channels`: the channel ids of one guild. */
    function ListProhibitedChannels(guild: GuildId): (cs: set<ChannelId>)
      reads this`prohibited
      ensures forall c :: c in cs <==> IsChannelProhibited(guild, c)
    {
      set p | p in prohibited && p.0 == guild :: p.1
    }

    /** `is_channel_prohibited`. */
    predicate IsChannelProhibited(guild: GuildId, channel: ChannelId)
      reads this`prohibited
    {
      (guild, channel) in prohibited
    }

    /** `add_goal`: appends a row with the next AUTOINCREMENT id. */
    method AddGoal(guild: GuildId, name: string, secondsRequired: int, rewardRole: Option<RoleId>,
                   requiredRolesCsv: string, resetOnWeekly: bool)
      requires Valid()
      modifies this`goals, this`nextGoalId
      ensures Valid()
      ensures goals == old(goals) + [Goal(old(nextGoalId), guild, name, secondsRequired, rewardRole, requiredRolesCsv, resetOnWeekly)]
      ensures nextGoalId == old(nextGoalId) + 1
    {
      goals := goals + [Goal(nextGoalId, guild, name, secondsRequired, rewardRole, requiredRolesCsv, resetOnWeekly)];
      nextGoalId := nextGoalId + 1;
    }

    /**
     * `remove_goal`: deletes the goal row of that guild and id, and every
     * awarded row of that guild and goal id.
     */
    method RemoveGoal(guild: GuildId, goalId: GoalId)
      requires Valid()
      modifies this`goals, this`awarded
      ensures Valid()
      ensures forall g :: g in goals <==> g in old(goals) && !(g.guild == guild && g.id == goalId)
      ensures |goals| <= |old(goals)|
      ensures awarded == WithoutAwards(old(awarded), guild, {goalId})
      ensures GetGoal(guild, goalId) == None
    {
      goals := KeepGoals(goals, guild, goalId);
      awarded := WithoutAwards(awarded, guild, {goalId});
    }

    /** `list_goals`: the guild's goals by ascending `seconds_required`. */
    function ListGoals(guild: GuildId): (gs: seq<Goal>)
      reads this`goals
      ensures SortedBySeconds(gs)
      ensures multiset(gs) == multiset(GuildGoals(goals, guild))
      ensures forall g :: g in gs <==> g in goals && g.guild == guild
    {
      var own := GuildGoals(goals, guild);
      var r := SortBySeconds(own);
      assert forall g :: g in r <==> g in own by {
        forall g ensures g in r <==> g in own {
          assert g in r <==> g in multiset(r);
        }
      }
      r
    }

    /** `get_goal`. */
    function GetGoal(guild: GuildId, goalId: GoalId): (r: Option<Goal>)
      reads this`goals
      ensures r.Some? ==> r.value in goals && r.value.guild == guild && r.value.id == goalId
      ensures r.None? ==> forall g :: g in goals ==> !(g.guild == guild && g.id == goalId)
    {
      FindGoal(goals, guild, goalId)
    }

    /** `mark_awarded`: INSERT OR REPLACE, so the key is present exactly once afterwards. */
    method MarkAwarded(user: UserId, guild: GuildId, goalId: GoalId, now: Instant)
      modifies this`awarded
      ensures awarded == old(awarded)[(user, guild, goalId) := now]
      ensures awarded.Keys == old(awarded).Keys + {(user, guild, goalId)}
      ensures HasAwarded(user, guild, goalId)
    {
      awarded := awarded[(user, guild, goalId) := now];
    }

    /** `has_awarded`. */
    predicate HasAwarded(user: UserId, guild: GuildId, goalId: GoalId)
      reads this`awarded
    {
      (user, guild, goalId) in awarded
    }

    /** `SELECT COUNT(*) FROM awarded_goals WHERE guild_id=? AND goal_id=?` (core/logic.py). */
    function AwardCount(guild: GuildId, goalId: GoalId): nat
      reads this`awarded
    {
      |AwardedUsers(awarded, guild, goalId)|
    }

    /** `update_goal_reset_flag`: rewrites `reset_on_weekly` of the matching goal only. */
    method UpdateGoalResetFlag(guild: GuildId, goalId: GoalId, flag: bool)
      requires Valid()
      modifies this`goals
      ensures Valid()
      ensures |goals| == |old(goals)|
      ensures forall i :: 0 <= i < |goals| ==>
        goals[i] == if old(goals)[i].guild == guild && old(goals)[i].id == goalId
                    then old(goals)[i].(resetOnWeekly := flag) else old(goals)[i]
    {
      goals := seq(|goals|, i requires 0 <= i < |goals| reads this =>
        if goals[i].guild == guild && goals[i].id == goalId then goals[i].(resetOnWeekly := flag) else goals[i]);
    }

    /** `set_reset_config`. */
    method SetResetConfig(guild: GuildId, weekday: int, hour: int, minute: int)
      modifies this`resetConfig
      ensures resetConfig == old(resetConfig)[guild := ResetConfig(weekday, hour, minute)]
      ensures GetResetConfig(guild) == Some(ResetConfig(weekday, hour, minute))
    {
      resetConfig := resetConfig[guild := ResetConfig(weekday, hour, minute)];
    }

    /** `get_reset_config`; `None` stands for `(None, None, None)`. */
    function GetResetConfig(guild: GuildId): Option<ResetConfig>
      reads this`resetConfig
    {
      if guild in resetConfig then Some(resetConfig[guild]) else None
    }

    /** `get_last_reset`. */
    function GetLastReset(guild: GuildId): Option<Instant>
      reads this`lastReset
    {
      if guild in lastReset then Some(lastReset[guild]) else None
    }

    /** `set_last_reset`. */
    method SetLastReset(guild: GuildId, t: Instant)
      modifies this`lastReset
      ensures lastReset == old(lastReset)[guild := t]
      ensures GetLastReset(guild) == Some(t)
    {
      lastReset := lastReset[guild := t];
    }

    /**
     * `get_rank`: scans the guild's rows in descending-total order with a
     * 1-based counter and stops at the user's row.
     */
    method GetRank(user: UserId, guild: GuildId) returns (r: Option<nat>)
      ensures r.None? <==> (user, guild) !in totals
      ensures r.Some? ==>
        var rows := RankingRows(totals, guild);
        1 <= r.value <= |rows| && rows[r.value - 1].0 == user
        && forall j :: 0 <= j < r.value - 1 ==> rows[j].0 != user
    {
      var rows := RankingRows(totals, guild);
      RankOrderCovers(GuildUsers(totals, guild), GuildScores(totals, guild));
      var i := 0;
      while i < |rows|
        invariant 0 <= i <= |rows|
        invariant forall j :: 0 <= j < i ==> rows[j].0 != user
      {
        if rows[i].0 == user {
          return Some(i + 1);
        }
        i := i + 1;
      }
      assert user !in GuildUsers(totals, guild);
      return None;
    }

    /**
     * `archive_weekly_times`, whose body is not part of this model: the week
     * ending at `now` is archived, unpinned, with one entry per user of the
     * guild whose total is not zero.
     */
    method ArchiveWeeklyTimes(guild: GuildId, now: Instant)
      modifies this`history
      ensures history == old(history)[(guild, now) := HistoryWeek(WeekScores(totals, guild), false)]
    {
      history := history[(guild, now) := HistoryWeek(WeekScores(totals, guild), false)];
    }

    /**
     * `cleanup_old_history`, whose body is not part of this model: the weeks
     * of the guild archived more than `retentionDays` days before `now` are
     * deleted unless pinned.
     */
    method CleanupOldHistory(guild: GuildId, retentionDays: int, now: Instant)
      modifies this`history
      ensures history == CleanedHistory(old(history), guild, retentionDays, now)
    {
      history := CleanedHistory(history, guild, retentionDays, now);
    }

    /** `get_history_config`, whose body is not part of this model. */
    function GetHistoryConfig(guild: GuildId): Option<HistoryConfig>
      reads this`historyConfig
    {
      if guild in historyConfig then Some(historyConfig[guild]) else None
    }

    /** `get_active_sessions` (its body is not part of this model): the users of the guild with an open session. */
    function ActiveGuildUsers(guild: GuildId): (us: set<UserId>)
      reads this`sessions
      ensures forall u :: u in us <==> (u, guild) in sessions
    {
      GuildUsers(sessions, guild)
    }
  }

  /** The goals rows minus the one of `guild` with id `goalId`, in their order. */
  function KeepGoals(gs: seq<Goal>, guild: GuildId, goalId: GoalId): (r: seq<Goal>)
    requires forall i, j :: 0 <= i < j < |gs| ==> gs[i].id < gs[j].id
    ensures forall g :: g in r <==> g in gs && !(g.guild == guild && g.id == goalId)
    ensures |r| <= |gs|
    ensures forall i, j :: 0 <= i < j < |r| ==> r[i].id < r[j].id
  {
    if gs == [] then []
    else
      var rest := KeepGoals(gs[1..], guild, goalId);
      if gs[0].guild == guild && gs[0].id == goalId then rest
      else
        assert forall j :: 0 <= j < |rest| ==> gs[0].id < rest[j].id by {
          forall j | 0 <= j < |rest|
            ensures gs[0].id < rest[j].id
          {
            assert rest[j] in gs[1..];
          }
        }
        [gs[0]] + rest
  }

  /** The first goal of `guild` with id `goalId`. */
  function FindGoal(gs: seq<Goal>, guild: GuildId, goalId: GoalId): (r: Option<Goal>)
    ensures r.Some? ==> r.value in gs && r.value.guild == guild && r.value.id == goalId
    ensures r.None? ==> forall g :: g in gs ==> !(g.guild == guild && g.id == goalId)
  {
    if gs == [] then None
    else if gs[0].guild == guild && gs[0].id == goalId then Some(gs[0])
    else FindGoal(gs[1..], guild, goalId)
  }

  /** Whether an archived week falls to the retention cleanup. */
  predicate Expired(key: (GuildId, Instant), w: HistoryWeek, guild: GuildId, retentionDays: int, now: Instant) {
    key.0 == guild && !w.pinned && key.1 < now - retentionDays * SecondsPerDay
  }

  /**
   * The history after the retention cleanup: exactly the expired weeks are
   * gone, so pinned weeks, recent weeks and other guilds' weeks all stay.
   */
  function CleanedHistory(history: map<(GuildId, Instant), HistoryWeek>, guild: GuildId, retentionDays: int, now: Instant)
    : (r: map<(GuildId, Instant), HistoryWeek>)
    ensures forall k :: k in r <==> k in history && !Expired(k, history[k], guild, retentionDays, now)
    ensures forall k :: k in r ==> r[k] == history[k]
    ensures forall k :: k in history && history[k].pinned ==> k in r
  {
    map k | k in history && !Expired(k, history[k], guild, retentionDays, now) :: history[k]
  }

  /** The users holding an award for one goal of one guild. */
  function AwardedUsers(awarded: map<(UserId, GuildId, GoalId), Instant>, guild: GuildId, goalId: GoalId): (us: set<UserId>)
    ensures forall u :: u in us <==> (u, guild, goalId) in awarded
  {
    set k | k in awarded && k.1 == guild && k.2 == goalId :: k.0
  }
}
