/**
 * Goal awarding (core/logic.py): for one member, every goal of the guild
 * that the member has not yet received, whose seconds the member's
 * accumulated plus live time reaches, and whose required roles (any one of
 * them) the member holds, is marked as awarded; its reward role is granted
 * when it exists, and a notice with the member's place among those who
 * completed it goes to the goal-log channel.
 */
module Logic {
  import opened Wrappers
  import opened Text
  import opened Helpers
  import opened Database

  /** Each comma-separated part through `int(part.strip())`; `None` when one of them raises. */
  function ParseIdParts(parts: seq<string>): (r: Option<set<int>>)
    ensures r.Some? ==> forall p :: p in parts ==> PyInt(p).Some? && PyInt(p).value in r.value
    ensures r.Some? ==> forall x :: x in r.value ==> exists p :: p in parts && PyInt(p) == Some(x)
    ensures r.None? ==> exists p :: p in parts && PyInt(p).None?
  {
    if parts == [] then Some({})
    else match (PyInt(parts[0]), ParseIdParts(parts[1..]))
      case (Some(v), Some(rest)) => Some({v} + rest)
      case (None, _) => None
      case (_, None) => None
  }

  /** The required role ids of a goal as `{int(rid.strip()) for rid in csv.split(',')}`. */
  function ParseRoleCsv(csv: string): Option<set<int>> {
    ParseIdParts(SplitOn(csv, ','))
  }

  /**
   * The role condition of a goal: an empty column asks for nothing; otherwise
   * the member must hold at least one listed role. A column that does not
   * parse raises, and the goal is skipped.
   */
  predicate RolesOk(csv: string, roles: set<RoleId>) {
    csv == "" || (ParseRoleCsv(csv).Some? && ParseRoleCsv(csv).value * roles != {})
  }

  /** What one call knows about the member and the guild. */
  datatype Context = Context(
    user: UserId,
    guild: GuildId,
    total: int,
    current: int,
    /** The ids of the member's roles. */
    roles: set<RoleId>,
    /** The ids of the roles that exist in the guild (`guild.get_role`). */
    guildRoles: set<RoleId>,
    /** The goal-log channel when it is configured and exists. */
    goalLog: Option<ChannelId>,
    now: Instant)

  /** The congratulation message, by its variable parts. */
  datatype Announcement = Announcement(channel: ChannelId, user: UserId, roleText: string, timeText: string, ordinal: nat)

  /** The awarded table as the loop leaves it, and the roles granted and notices sent so far. */
  datatype RunState = RunState(awarded: map<(UserId, GuildId, GoalId), Instant>, grants: seq<RoleId>, notes: seq<Announcement>)

  /** The goal-log channel a notice goes to: configured, non-zero, and present in the guild. */
  function GoalLogChannel(store: Store, guild: GuildId, guildChannels: set<ChannelId>): (r: Option<ChannelId>)
    reads store
    ensures r.Some? <==> (guild, "goallog") in store.logChannels && store.logChannels[(guild, "goallog")] != 0
                         && store.logChannels[(guild, "goallog")] in guildChannels
    ensures r.Some? ==> r.value == store.logChannels[(guild, "goallog")]
  {
    match store.GetLogChannel(guild, "goallog")
    case None => None
    case Some(ch) => if ch != 0 && ch in guildChannels then Some(ch) else None
  }

  /** `f"<@&{reward_role_id}>" if reward_role_id else "N/A"`. */
  function RoleText(reward: Option<RoleId>): string {
    if reward.Some? && reward.value != 0 then "<@&" + IntToString(reward.value) + ">" else "N/A"
  }

  /** A goal's time and role conditions hold for the member. */
  predicate Qualifies(g: Goal, c: Context) {
    c.total + c.current >= g.secondsRequired && RolesOk(g.requiredRolesCsv, c.roles)
  }

  /** The award key of a goal for the member. */
  function Key(g: Goal, c: Context): (UserId, GuildId, GoalId) {
    (c.user, c.guild, g.id)
  }

  /** One iteration of the loop over the goals. */
  function AwardStep(st: RunState, g: Goal, c: Context): RunState {
    if Key(g, c) in st.awarded || !Qualifies(g, c) then st
    else
      var awarded := st.awarded[Key(g, c) := c.now];
      var grants :=
        if g.rewardRole.Some? && g.rewardRole.value != 0 && g.rewardRole.value in c.guildRoles
        then st.grants + [g.rewardRole.value] else st.grants;
      var notes :=
        if c.goalLog.Some?
        then st.notes + [Announcement(c.goalLog.value, c.user, RoleText(g.rewardRole),
                                      HumanHoursMinutes(g.secondsRequired), |AwardedUsers(awarded, c.guild, g.id)|)]
        else st.notes;
      RunState(awarded, grants, notes)
  }

  /** The loop over `rows`, in order, from state `st`. */
  function AwardRun(rows: seq<Goal>, c: Context, st: RunState): RunState
    decreases |rows|
  {
    if rows == [] then st else AwardStep(AwardRun(rows[..|rows| - 1], c, st), rows[|rows| - 1], c)
  }

  /**
   * `check_and_award_goals_for_user`. `member` is `None` when the guild or
   * the member cannot be found; `guildRoles` and `guildChannels` are the ids
   * of the roles and channels the guild has.
   */
  method CheckAndAwardGoalsForUser(store: Store, user: UserId, guild: GuildId, total: int, current: int,
                                   member: Option<set<RoleId>>, guildRoles: set<RoleId>,
                                   guildChannels: set<ChannelId>, now: Instant)
    returns (grants: seq<RoleId>, notes: seq<Announcement>)
    modifies store`awarded
    ensures var rows := old(store.ListGoals(guild));
      if rows == [] || member.None? then store.awarded == old(store.awarded) && grants == [] && notes == []
      else
        var c := Context(user, guild, total, current, member.value, guildRoles,
                         old(GoalLogChannel(store, guild, guildChannels)), now);
        AwardRun(rows, c, RunState(old(store.awarded), [], [])) == RunState(store.awarded, grants, notes)
  {
    var rows := store.ListGoals(guild);
    if rows == [] || member.None? {
      return [], [];
    }
    var c := Context(user, guild, total, current, member.value, guildRoles,
                     GoalLogChannel(store, guild, guildChannels), now);
    ghost var start := RunState(store.awarded, [], []);
    grants, notes := [], [];
    var i := 0;
    while i < |rows|
      invariant 0 <= i <= |rows|
      invariant AwardRun(rows[..i], c, start) == RunState(store.awarded, grants, notes)
    {
      assert rows[..i + 1][..i] == rows[..i];
      grants, notes := AwardGoal(store, rows[i], c, grants, notes);
      i := i + 1;
    }
    assert rows[..i] == rows;
  }

  /**
   * The body of the loop for one goal: skip it when already awarded, when the
   * time falls short or when no required role is held; otherwise mark it,
   * grant the reward role if the guild has it and announce it.
   */
  method AwardGoal(store: Store, g: Goal, c: Context, grants: seq<RoleId>, notes: seq<Announcement>)
    returns (grants': seq<RoleId>, notes': seq<Announcement>)
    modifies store`awarded
    ensures RunState(store.awarded, grants', notes') == AwardStep(RunState(old(store.awarded), grants, notes), g, c)
  {
    grants', notes' := grants, notes;
    if store.HasAwarded(c.user, c.guild, g.id) {
      return;
    }
    if c.total + c.current < g.secondsRequired {
      return;
    }
    if !RolesOk(g.requiredRolesCsv, c.roles) {
      return;
    }
    store.MarkAwarded(c.user, c.guild, g.id, c.now);
    if g.rewardRole.Some? && g.rewardRole.value != 0 && g.rewardRole.value in c.guildRoles {
      grants' := grants' + [g.rewardRole.value];
    }
    if c.goalLog.Some? {
      var ordinal := store.AwardCount(c.guild, g.id);
      notes' := notes' + [Announcement(c.goalLog.value, c.user, RoleText(g.rewardRole),
                                       HumanHoursMinutes(g.secondsRequired), ordinal)];
    }
  }

  /** One step adds the goal's key, at `now`, exactly when it was missing and the goal qualifies. */
  lemma AwardStepAwarded(st: RunState, g: Goal, c: Context)
    ensures AwardStep(st, g, c).awarded
      == if Key(g, c) in st.awarded || !Qualifies(g, c) then st.awarded else st.awarded[Key(g, c) := c.now]
  {
  }

  /**
   * After a run the member holds an award for exactly the keys held before
   * and those of the goals they qualify for; earlier award times are kept.
   */
  /** Some goal among `rows` that the member qualifies for has key `k`. */
  ghost predicate Earned(rows: seq<Goal>, c: Context, k: (UserId, GuildId, GoalId)) {
    exists g :: g in rows && Qualifies(g, c) && k == Key(g, c)
  }

  lemma EarnedSnoc(init: seq<Goal>, last: Goal, c: Context, k: (UserId, GuildId, GoalId))
    ensures Earned(init + [last], c, k) <==> Earned(init, c, k) || (Qualifies(last, c) && k == Key(last, c))
  {
    if Earned(init + [last], c, k) {
      var g :| g in init + [last] && Qualifies(g, c) && k == Key(g, c);
      if g != last {
        assert g in init;
      }
    }
    if Earned(init, c, k) {
      var g :| g in init && Qualifies(g, c) && k == Key(g, c);
      assert g in init + [last];
    }
    if Qualifies(last, c) && k == Key(last, c) {
      assert last in init + [last];
    }
  }

  lemma {:induction false} AwardRunKeys(rows: seq<Goal>, c: Context, st: RunState)
    ensures forall k :: k in AwardRun(rows, c, st).awarded <==> k in st.awarded || Earned(rows, c, k)
    decreases |rows|
  {
    if rows != [] {
      var init, last := rows[..|rows| - 1], rows[|rows| - 1];
      AwardRunKeys(init, c, st);
      var prev := AwardRun(init, c, st);
      assert AwardRun(rows, c, st) == AwardStep(prev, last, c);
      AwardStepAwarded(prev, last, c);
      assert rows == init + [last];
      forall k ensures k in AwardRun(rows, c, st).awarded <==> k in st.awarded || Earned(rows, c, k) {
        EarnedSnoc(init, last, c, k);
      }
    }
  }

  lemma {:induction false} AwardRunKeeps(rows: seq<Goal>, c: Context, st: RunState)
    ensures forall k :: k in st.awarded ==>
      (k in AwardRun(rows, c, st).awarded && AwardRun(rows, c, st).awarded[k] == st.awarded[k])
    decreases |rows|
  {
    if rows != [] {
      var init, last := rows[..|rows| - 1], rows[|rows| - 1];
      AwardRunKeeps(init, c, st);
      var prev := AwardRun(init, c, st);
      assert AwardRun(rows, c, st) == AwardStep(prev, last, c);
      AwardStepAwarded(prev, last, c);
    }
  }

  /**
   * After a run the member holds an award for exactly the keys held before
   * and those of the goals they qualify for; earlier award times are kept.
   */
  lemma AwardRunAwards(rows: seq<Goal>, c: Context, st: RunState)
    ensures var a := AwardRun(rows, c, st).awarded;
      forall k :: k in a <==> k in st.awarded || exists g :: g in rows && Qualifies(g, c) && k == Key(g, c)
    ensures var a := AwardRun(rows, c, st).awarded;
      forall k :: k in st.awarded ==> a[k] == st.awarded[k]
  {
    AwardRunKeys(rows, c, st);
    AwardRunKeeps(rows, c, st);
  }

  /** A run that finds every qualifying goal already awarded changes nothing. */
  lemma {:induction false} AwardRunNoop(rows: seq<Goal>, c: Context, st: RunState)
    requires forall g :: g in rows && Qualifies(g, c) ==> Key(g, c) in st.awarded
    ensures AwardRun(rows, c, st) == st
    decreases |rows|
  {
    if rows != [] {
      var init := rows[..|rows| - 1];
      assert forall g :: g in init ==> g in rows;
      AwardRunNoop(init, c, st);
    }
  }

  /**
   * Checking the same member twice in a row awards, grants and announces
   * nothing the second time.
   */
  lemma AwardRunIdempotent(rows: seq<Goal>, c: Context, st: RunState)
    ensures var once := AwardRun(rows, c, st);
      AwardRun(rows, c, once) == once
  {
    AwardRunAwards(rows, c, st);
    AwardRunNoop(rows, c, AwardRun(rows, c, st));
  }

  /** One step keeps the earlier grants and notices and adds at most one of each, a notice placing the member at least first. */
  lemma AwardStepNotices(st: RunState, g: Goal, c: Context)
    ensures var r := AwardStep(st, g, c);
      && st.grants <= r.grants && |r.grants| <= |st.grants| + 1
      && st.notes <= r.notes && |r.notes| <= |st.notes| + 1
      && (|r.notes| > |st.notes| ==> r.notes[|st.notes|].user == c.user && r.notes[|st.notes|].ordinal >= 1)
  {
    if Key(g, c) !in st.awarded && Qualifies(g, c) {
      var awarded := st.awarded[Key(g, c) := c.now];
      assert c.user in AwardedUsers(awarded, c.guild, g.id);
    }
  }

  /**
   * A run only adds grants and notices, at most one of each per goal, and
   * every notice it adds names the member and counts them among those who
   * completed the goal, so its place is at least 1.
   */
  lemma {:induction false} AwardRunNotices(rows: seq<Goal>, c: Context, st: RunState)
    ensures var r := AwardRun(rows, c, st);
      && st.grants <= r.grants && |r.grants| <= |st.grants| + |rows|
      && st.notes <= r.notes && |r.notes| <= |st.notes| + |rows|
      && (forall i :: |st.notes| <= i < |r.notes| ==> r.notes[i].user == c.user && r.notes[i].ordinal >= 1)
    decreases |rows|
  {
    if rows != [] {
      var mid := AwardRun(rows[..|rows| - 1], c, st);
      AwardRunNotices(rows[..|rows| - 1], c, st);
      AwardStepNotices(mid, rows[|rows| - 1], c);
      var r := AwardStep(mid, rows[|rows| - 1], c);
      assert forall i :: |st.notes| <= i < |mid.notes| ==> r.notes[i] == mid.notes[i];
    }
  }

  /** A member who does not reach a goal's seconds is never awarded it by a run. */
  lemma ShortTimeNeverAwarded(rows: seq<Goal>, c: Context, st: RunState, g: Goal)
    requires g in rows && c.total + c.current < g.secondsRequired
    requires Key(g, c) !in st.awarded
    requires forall h :: h in rows && h.id == g.id ==> h == g
    ensures Key(g, c) !in AwardRun(rows, c, st).awarded
  {
    AwardRunAwards(rows, c, st);
  }
}
