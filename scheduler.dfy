/**
 * The weekly reset (core/scheduler.py): the day parser used by `setreset`,
 * the computation of the next scheduled reset instant, the fire condition
 * of the polling loop, and the reset run for one guild.
 *
 * Local time is the fixed UTC-3 offset of config.py. Instants are whole
 * seconds since the Unix epoch; 1970-01-01 was a Thursday, weekday 3 with
 * Monday = 0 as in Python.
 */
module Scheduler {
  import opened Wrappers
  import opened Text
  import opened Database

  const UtcOffset := -3 * 3600
  const SecondsPerWeek := 7 * SecondsPerDay

  /** The seven keys of `_DIAS`, in its order: key `i` stands for weekday `i`. */
  const DayKeys: seq<string> := ["seg", "ter", "qua", "qui", "sex", "sab", "dom"]

  /** The first key, from position `i` on, that occurs in `t`. */
  function FirstDayKey(t: string, i: nat): (r: Option<int>)
    requires i <= 7
    ensures r.Some? ==>
      && i <= r.value < 7
      && Contains(t, DayKeys[r.value])
      && (forall j :: i <= j < r.value ==> !Contains(t, DayKeys[j]))
    ensures r.None? ==> forall j :: i <= j < 7 ==> !Contains(t, DayKeys[j])
    decreases 7 - i
  {
    if i == 7 then None
    else if Contains(t, DayKeys[i]) then Some(i)
    else FirstDayKey(t, i + 1)
  }

  /** The weekday a stripped, lower-cased text names (the body of `_parse_day`). */
  function DayOf(t: string): (r: Option<int>)
    ensures r.Some? ==> 0 <= r.value <= 6
  {
    if IsDigits(t) && ParseNat(t) <= 6 then Some(ParseNat(t)) else FirstDayKey(t, 0)
  }

  /**
   * `_parse_day`: after strip and lower, a digit string with value at most
   * 6 is that weekday; otherwise the first key of `_DIAS` the text contains.
   */
  function ParseDay(s: string): (r: Option<int>)
    ensures r.Some? ==> 0 <= r.value <= 6
  {
    DayOf(Lower(Strip(s)))
  }

  /** Text without whitespace or capitals is parsed as it stands. */
  lemma ParseDayPlain(t: string)
    requires forall i :: 0 <= i < |t| ==> Plain(t[i])
    ensures ParseDay(t) == DayOf(t)
  {
    LowerStripPlain(t);
  }

  /** The first key from position `from` on that `t` contains is key `i`. */
  lemma {:induction false} FirstDayKeyIs(t: string, from: nat, i: nat)
    requires from <= i < 7
    requires Contains(t, DayKeys[i])
    requires forall j :: from <= j < i ==> !Contains(t, DayKeys[j])
    ensures FirstDayKey(t, from) == Some(i)
    decreases i - from
  {
    if from < i {
      FirstDayKeyIs(t, from + 1, i);
    }
  }

  lemma DayOfKey(i: nat)
    requires i < 7
    ensures DayOf(DayKeys[i]) == Some(i)
  {
    var k := DayKeys[i];
    assert |k| == 3 && !IsDigit(k[0]);
    ContainsSelf(k);
    forall j | 0 <= j < i
      ensures !Contains(k, DayKeys[j])
    {
      ContainsSameLength(k, DayKeys[j]);
    }
    FirstDayKeyIs(k, 0, i);
  }

  /** Key `i` of `_DIAS`, as typed, parses to weekday `i`. */
  lemma ParseDayKey(i: nat)
    requires i < 7
    ensures ParseDay(DayKeys[i]) == Some(i)
  {
    var k := DayKeys[i];
    assert |k| == 3 && 'a' <= k[0] <= 'z' && 'a' <= k[1] <= 'z' && 'a' <= k[2] <= 'z';
    ParseDayPlain(k);
    DayOfKey(i);
  }

  lemma DayOfDigit(d: nat)
    requires d <= 6
    ensures DayOf([DigitChar(d)]) == Some(d)
  {
    var t := [DigitChar(d)];
    assert t[..|t| - 1] == [];
    assert ParseNat(t) == d;
  }

  /** A single digit 0..6 parses to its weekday. */
  lemma ParseDayDigit(d: nat)
    requires d <= 6
    ensures ParseDay([DigitChar(d)]) == Some(d)
  {
    var t := [DigitChar(d)];
    assert forall i :: 0 <= i < |t| ==> Plain(t[i]);
    ParseDayPlain(t);
    DayOfDigit(d);
  }

  /** The texts "7" and "sábado" contain no key. */
  lemma NoKeyIn(t: string)
    requires t == "7" || t == "sábado"
    ensures forall j :: 0 <= j < 7 ==> !Contains(t, DayKeys[j])
  {
    forall j | 0 <= j < 7
      ensures !Contains(t, DayKeys[j])
    {
      var k := DayKeys[j];
      assert k[0] in "stqd" && k[1] != 'á';
      forall i: nat
        ensures !OccursAt(t, k, i)
      {
        if i + 3 <= |t| {
          assert t[i..i + 3][0] == t[i] && t[i..i + 3][1] == t[i + 1];
        }
      }
      NotContainsAt(t, k);
    }
  }

  /** "7" is no weekday: it is a digit string out of range and contains no key. */
  lemma ParseDaySeven()
    ensures ParseDay("7") == None
  {
    var t := "7";
    ParseDayPlain(t);
    assert t[..0] == [];
    NoKeyIn(t);
  }

  lemma DayOfSabadoAccent()
    ensures DayOf("sábado") == None
  {
    var s := "sábado";
    assert !IsDigit(s[0]);
    NoKeyIn(s);
  }

  /** "sábado" is not accepted: its accent keeps it from containing "sab". */
  lemma ParseDaySabadoAccent()
    ensures ParseDay("sábado") == None
  {
    var s := "sábado";
    assert forall i :: 0 <= i < |s| ==> Plain(s[i]);
    ParseDayPlain(s);
    DayOfSabadoAccent();
  }

  /** The local (UTC-3) day number of an instant, counted from 1970-01-01. */
  function LocalDay(t: Instant): int {
    (t + UtcOffset) / SecondsPerDay
  }

  /** The local second of the day of an instant. */
  function SecondOfDay(t: Instant): int {
    (t + UtcOffset) % SecondsPerDay
  }

  /** Python's `weekday()` of the local date: Monday is 0. */
  function Weekday(t: Instant): int {
    (LocalDay(t) + 3) % 7
  }

  /** The instant is a scheduled reset: the configured weekday at `hour:minute` local time. */
  predicate OnSchedule(t: Instant, weekday: int, hour: int, minute: int) {
    Weekday(t) == weekday % 7 && SecondOfDay(t) == hour * 3600 + minute * 60
  }

  /**
   * `_next_weekly_dt`: the configured weekday of this local week at
   * `hour:minute`, one week later when that is not after now. `None` when
   * `datetime` rejects the hour or the minute.
   */
  function NextWeeklyDt(now: Instant, weekday: int, hour: int, minute: int): Option<Instant> {
    if !(0 <= hour < 24 && 0 <= minute < 60) then None
    else
      var nowLocal := now + UtcOffset;
      var daysAhead := (weekday - Weekday(now) + 7) % 7;
      var targetLocal := (LocalDay(now) + daysAhead) * SecondsPerDay + hour * 3600 + minute * 60;
      var target := if targetLocal <= nowLocal then targetLocal + SecondsPerWeek else targetLocal;
      Some(target - UtcOffset)
  }

  lemma DayParts(day: int, s: int)
    requires 0 <= s < SecondsPerDay
    ensures (day * SecondsPerDay + s) / SecondsPerDay == day
    ensures (day * SecondsPerDay + s) % SecondsPerDay == s
  {
  }

  lemma WeekdayShift(d: int, w: int)
    ensures (d + (w - (d + 3) % 7 + 7) % 7 + 3) % 7 == w % 7
    ensures (d + (w - (d + 3) % 7 + 7) % 7 + 7 + 3) % 7 == w % 7
  {
    var a := (d + 3) % 7;
    var k := (w - a + 7) % 7;
    assert d + 3 == ((d + 3) / 7) * 7 + a;
    assert w - a + 7 == ((w - a + 7) / 7) * 7 + k;
    var x := d + k + 3;
    assert x == ((d + 3) / 7 - (w - a + 7) / 7 + 1) * 7 + w - 7 + 7;
    ModOfShift(w, (d + 3) / 7 - (w - a + 7) / 7 + 1);
    ModOfShift(w, (d + 3) / 7 - (w - a + 7) / 7 + 2);
  }

  lemma ModOfShift(w: int, m: int)
    ensures (m * 7 + w) % 7 == w % 7
  {
    var q, r := w / 7, w % 7;
    assert m * 7 + w == (m + q) * 7 + r;
    DayPartsSeven(m + q, r);
  }

  lemma DayPartsSeven(q: int, r: int)
    requires 0 <= r < 7
    ensures (q * 7 + r) % 7 == r
  {
  }

  /**
   * The next reset is strictly after `now`, at most one week after it, on
   * the configured weekday at exactly `hour:minute` local time.
   */
  lemma NextWeeklyDtOnSchedule(now: Instant, weekday: int, hour: int, minute: int)
    requires 0 <= hour < 24 && 0 <= minute < 60
    ensures NextWeeklyDt(now, weekday, hour, minute).Some?
    ensures var r := NextWeeklyDt(now, weekday, hour, minute).value;
      now < r <= now + SecondsPerWeek && OnSchedule(r, weekday, hour, minute)
  {
    var d := LocalDay(now);
    var s := hour * 3600 + minute * 60;
    var daysAhead := (weekday - Weekday(now) + 7) % 7;
    var targetLocal := (d + daysAhead) * SecondsPerDay + s;
    var nowLocal := now + UtcOffset;
    var r := NextWeeklyDt(now, weekday, hour, minute).value;
    assert nowLocal == d * SecondsPerDay + SecondOfDay(now);
    WeekdayShift(d, weekday);
    if targetLocal <= nowLocal {
      assert daysAhead == 0;
      assert r + UtcOffset == (d + daysAhead + 7) * SecondsPerDay + s;
      DayParts(d + daysAhead + 7, s);
    } else {
      DayParts(d + daysAhead, s);
    }
  }

  /** Two scheduled instants of the same configuration lie a whole number of weeks apart. */
  lemma SameScheduleWholeWeeks(t: Instant, u: Instant, weekday: int, hour: int, minute: int) returns (k: int)
    requires OnSchedule(t, weekday, hour, minute) && OnSchedule(u, weekday, hour, minute)
    ensures t - u == k * SecondsPerWeek
  {
    var dt, du := LocalDay(t), LocalDay(u);
    assert t + UtcOffset == dt * SecondsPerDay + SecondOfDay(t);
    assert u + UtcOffset == du * SecondsPerDay + SecondOfDay(u);
    assert t - u == (dt - du) * SecondsPerDay;
    var at, au := (dt + 3) / 7, (du + 3) / 7;
    assert dt + 3 == at * 7 + Weekday(t);
    assert du + 3 == au * 7 + Weekday(u);
    k := at - au;
    assert dt - du == k * 7;
  }

  /** No scheduled instant lies strictly between `now` and the next reset. */
  lemma NextWeeklyDtIsFirst(now: Instant, weekday: int, hour: int, minute: int, t: Instant)
    requires 0 <= hour < 24 && 0 <= minute < 60
    requires OnSchedule(t, weekday, hour, minute) && now < t
    ensures NextWeeklyDt(now, weekday, hour, minute).value <= t
  {
    NextWeeklyDtOnSchedule(now, weekday, hour, minute);
    var r := NextWeeklyDt(now, weekday, hour, minute).value;
    var k := SameScheduleWholeWeeks(t, r, weekday, hour, minute);
  }

  /** The fire condition of `weekly_reset_scheduler` as written. */
  predicate ShouldFireAsWritten(now: Instant, cfg: ResetConfig, last: Option<Instant>) {
    match NextWeeklyDt(now, cfg.weekday, cfg.hour, cfg.minute)
    case None => false
    case Some(target) => now >= target && (last.None? || last.value < target)
  }

  /** As written the condition compares `now` with an instant after `now`, so the reset never fires. */
  lemma ShouldFireAsWrittenNever(now: Instant, cfg: ResetConfig, last: Option<Instant>)
    ensures !ShouldFireAsWritten(now, cfg, last)
  {
    if 0 <= cfg.hour < 24 && 0 <= cfg.minute < 60 {
      NextWeeklyDtOnSchedule(now, cfg.weekday, cfg.hour, cfg.minute);
    }
  }

  /** The latest scheduled instant at or before `now`: one week before the next one. */
  function PrevWeeklyDt(now: Instant, weekday: int, hour: int, minute: int): Option<Instant> {
    match NextWeeklyDt(now, weekday, hour, minute)
    case None => None
    case Some(next) => Some(next - SecondsPerWeek)
  }

  /** The previous reset is scheduled, at or before `now`, and every scheduled instant at or before `now` is at or before it. */
  lemma PrevWeeklyDtIsLatest(now: Instant, weekday: int, hour: int, minute: int)
    requires 0 <= hour < 24 && 0 <= minute < 60
    ensures PrevWeeklyDt(now, weekday, hour, minute).Some?
    ensures var p := PrevWeeklyDt(now, weekday, hour, minute).value;
      now - SecondsPerWeek < p <= now && OnSchedule(p, weekday, hour, minute)
      && forall t :: OnSchedule(t, weekday, hour, minute) && t <= now ==> t <= p
  {
    NextWeeklyDtOnSchedule(now, weekday, hour, minute);
    var r := NextWeeklyDt(now, weekday, hour, minute).value;
    var p := r - SecondsPerWeek;
    assert p + UtcOffset == (r + UtcOffset) - 7 * SecondsPerDay;
    DayParts(LocalDay(r), SecondOfDay(r));
    DayParts(LocalDay(r) - 7, SecondOfDay(r));
    assert r + UtcOffset == LocalDay(r) * SecondsPerDay + SecondOfDay(r);
    assert p + UtcOffset == (LocalDay(r) - 7) * SecondsPerDay + SecondOfDay(r);
    assert LocalDay(p) == LocalDay(r) - 7;
    ModOfShift(LocalDay(r) + 3, -1);
    forall t | OnSchedule(t, weekday, hour, minute) && t <= now
      ensures t <= p
    {
      var k := SameScheduleWholeWeeks(t, r, weekday, hour, minute);
    }
  }

  /**
   * The fire condition as evidently intended: a reset is due when no reset
   * has been recorded since the latest scheduled instant.
   */
  predicate ShouldFire(now: Instant, cfg: ResetConfig, last: Option<Instant>) {
    match PrevWeeklyDt(now, cfg.weekday, cfg.hour, cfg.minute)
    case None => false
    case Some(target) => now >= target && (last.None? || last.value < target)
  }

  /** A reset recorded at `now` is not due again before the next scheduled instant. */
  lemma ShouldFireOncePerWeek(now: Instant, later: Instant, cfg: ResetConfig)
    requires 0 <= cfg.hour < 24 && 0 <= cfg.minute < 60
    requires now <= later < NextWeeklyDt(now, cfg.weekday, cfg.hour, cfg.minute).value
    ensures !ShouldFire(later, cfg, Some(now))
  {
    PrevWeeklyDtIsLatest(later, cfg.weekday, cfg.hour, cfg.minute);
    var p := PrevWeeklyDt(later, cfg.weekday, cfg.hour, cfg.minute).value;
    if now < p {
      NextWeeklyDtIsFirst(now, cfg.weekday, cfg.hour, cfg.minute, p);
    }
  }

  /** Once the next scheduled instant is reached, a reset recorded before it is due again. */
  lemma ShouldFireNextWeek(now: Instant, later: Instant, cfg: ResetConfig)
    requires 0 <= cfg.hour < 24 && 0 <= cfg.minute < 60
    requires NextWeeklyDt(now, cfg.weekday, cfg.hour, cfg.minute).value <= later
    ensures ShouldFire(later, cfg, Some(now))
  {
    NextWeeklyDtOnSchedule(now, cfg.weekday, cfg.hour, cfg.minute);
    PrevWeeklyDtIsLatest(later, cfg.weekday, cfg.hour, cfg.minute);
  }

  /*
   * The reset run of one guild. The run is one `try` block: the first step
   * that raises ends it, the steps before keep their effect (each store
   * call commits on its own), and `last_reset` is recorded only when every
   * step completed.
   */

  /** The steps of `_weekly_reset_run_for_guild`, in the order they run. */
  datatype Step = Flush | Archive | Post | Cleanup | Clear | Notice | Record

  function StepIndex(s: Step): nat {
    match s
    case Flush => 0
    case Archive => 1
    case Post => 2
    case Cleanup => 3
    case Clear => 4
    case Notice => 5
    case Record => 6
  }

  /** Step `s` takes effect when the run raises at `failAt` (or never raises). */
  predicate Runs(s: Step, failAt: Option<Step>) {
    failAt.None? || StepIndex(s) < StepIndex(failAt.value)
  }

  /** The tables the reset run changes. */
  datatype Tables = Tables(
    sessions: map<(UserId, GuildId), Session>,
    totals: map<(UserId, GuildId), int>,
    awarded: map<(UserId, GuildId, GoalId), Instant>,
    history: map<(GuildId, Instant), HistoryWeek>,
    lastReset: map<GuildId, Instant>)

  function Snapshot(store: Store): Tables
    reads store
  {
    Tables(store.sessions, store.totals, store.awarded, store.history, store.lastReset)
  }

  /** The sessions left once those of `users` in `guild` are closed. */
  function DropSessions(sessions: map<(UserId, GuildId), Session>, guild: GuildId, users: set<UserId>)
    : (r: map<(UserId, GuildId), Session>)
    ensures forall k :: k in r <==> k in sessions && !(k.1 == guild && k.0 in users)
    ensures forall k :: k in r ==> r[k] == sessions[k]
  {
    map k | k in sessions && !(k.1 == guild && k.0 in users) :: sessions[k]
  }

  /** The totals once the open sessions of `users` in `guild` are credited up to `now`. */
  function FlushTotals(sessions: map<(UserId, GuildId), Session>, totals: map<(UserId, GuildId), int>,
                       guild: GuildId, users: set<UserId>, now: Instant): (r: map<(UserId, GuildId), int>)
    requires forall u :: u in users ==> (u, guild) in sessions
    ensures forall k :: k in r <==> k in totals || (k.1 == guild && k.0 in users)
    ensures forall u :: u in users ==>
      r[(u, guild)] == TotalOr0(totals, (u, guild)) + Duration(sessions[(u, guild)].start, now)
    ensures forall k :: k in totals && !(k.1 == guild && k.0 in users) ==> r[k] == totals[k]
  {
    map k | k in totals.Keys + UserKeys(users, guild) ::
      TotalOr0(totals, k) + (if k.1 == guild && k.0 in users then Duration(sessions[(k.0, guild)].start, now) else 0)
  }

  /** The keys of `users` in `guild`. */
  function UserKeys(users: set<UserId>, guild: GuildId): (ks: set<(UserId, GuildId)>)
    ensures forall k :: k in ks <==> k.1 == guild && k.0 in users
  {
    var ks := set u | u in users :: (u, guild);
    assert forall k: (UserId, GuildId) :: k.1 == guild && k.0 in users ==> k in ks by {
      forall k: (UserId, GuildId) | k.1 == guild && k.0 in users
        ensures k in ks
      {
        var u := k.0;
        assert (u, guild) in ks;
      }
    }
    ks
  }

  /** The totals without any row of `guild` (`DELETE FROM total_times WHERE guild_id=?`). */
  function WithoutGuild(totals: map<(UserId, GuildId), int>, guild: GuildId): (r: map<(UserId, GuildId), int>)
    ensures forall k :: k in r <==> k in totals && k.1 != guild
    ensures forall k :: k in r ==> r[k] == totals[k]
  {
    map k | k in totals && k.1 != guild :: totals[k]
  }

  /** The ids of the goals of `guild` whose `reset_on_weekly` flag is set. */
  function ResettableGoalIds(goals: seq<Goal>, guild: GuildId): (ids: set<GoalId>)
    ensures forall id :: id in ids <==> exists g :: g in goals && g.guild == guild && g.resetOnWeekly && g.id == id
  {
    set g | g in goals && g.guild == guild && g.resetOnWeekly :: g.id
  }

  /** The retention period: the configured number of days, 90 when the guild has none. */
  function RetentionDays(cfg: Option<HistoryConfig>): (d: int)
    ensures cfg.None? ==> d == 90
    ensures cfg.Some? && cfg.value.retentionDays.None? ==> d == 90
    ensures cfg.Some? && cfg.value.retentionDays.Some? ==> d == cfg.value.retentionDays.value
  {
    if cfg.Some? && cfg.value.retentionDays.Some? then cfg.value.retentionDays.value else 90
  }

  /** Closing every open session of `guild` at `now` and crediting its time. */
  function FlushStep(t: Tables, guild: GuildId, now: Instant): Tables {
    var active := GuildUsers(t.sessions, guild);
    t.(sessions := DropSessions(t.sessions, guild, active),
       totals := FlushTotals(t.sessions, t.totals, guild, active, now))
  }

  /** Archiving the guild's week, as it stands, under the key `(guild, now)`. */
  function ArchiveStep(t: Tables, guild: GuildId, now: Instant): Tables {
    t.(history := t.history[(guild, now) := HistoryWeek(WeekScores(t.totals, guild), false)])
  }

  function CleanupStep(t: Tables, cfg: Option<HistoryConfig>, guild: GuildId, now: Instant): Tables {
    t.(history := CleanedHistory(t.history, guild, RetentionDays(cfg), now))
  }

  function ClearStep(t: Tables, goals: seq<Goal>, guild: GuildId): Tables {
    t.(totals := WithoutGuild(t.totals, guild),
       awarded := WithoutAwards(t.awarded, guild, ResettableGoalIds(goals, guild)))
  }

  /** Recording the reset (`set_last_reset`), which happens only when nothing raised. */
  function RecordStep(t: Tables, guild: GuildId, now: Instant, failAt: Option<Step>): Tables {
    if failAt.Some? then t else t.(lastReset := t.lastReset[guild := now])
  }

  /**
   * The tables after a reset run of `guild` at `now` that raises at
   * `failAt` (`None`: it completes).
   */
  function ResetRun(t: Tables, goals: seq<Goal>, cfg: Option<HistoryConfig>, guild: GuildId, now: Instant,
                    failAt: Option<Step>): Tables
  {
    if !Runs(Flush, failAt) then t else AfterFlush(FlushStep(t, guild, now), goals, cfg, guild, now, failAt)
  }

  function AfterFlush(t: Tables, goals: seq<Goal>, cfg: Option<HistoryConfig>, guild: GuildId, now: Instant,
                      failAt: Option<Step>): Tables
  {
    if !Runs(Archive, failAt) then t else AfterArchive(ArchiveStep(t, guild, now), goals, cfg, guild, now, failAt)
  }

  /** Posting the ranking card has no effect on the tables, but it may raise. */
  function AfterArchive(t: Tables, goals: seq<Goal>, cfg: Option<HistoryConfig>, guild: GuildId, now: Instant,
                        failAt: Option<Step>): Tables
  {
    if !Runs(Cleanup, failAt) then t else AfterCleanup(CleanupStep(t, cfg, guild, now), goals, guild, now, failAt)
  }

  function AfterCleanup(t: Tables, goals: seq<Goal>, guild: GuildId, now: Instant, failAt: Option<Step>): Tables {
    if !Runs(Clear, failAt) then t else RecordStep(ClearStep(t, goals, guild), guild, now, failAt)
  }

  lemma DropSessionsStep(sessions: map<(UserId, GuildId), Session>, guild: GuildId, users: set<UserId>, u: UserId)
    ensures DropSessions(sessions, guild, users + {u}) == DropSessions(sessions, guild, users) - {(u, guild)}
  {
    var a, b := DropSessions(sessions, guild, users + {u}), DropSessions(sessions, guild, users) - {(u, guild)};
    assert a.Keys == b.Keys;
  }

  lemma FlushTotalsStep(sessions: map<(UserId, GuildId), Session>, totals: map<(UserId, GuildId), int>,
                        guild: GuildId, users: set<UserId>, u: UserId, now: Instant)
    requires forall v :: v in users ==> (v, guild) in sessions
    requires (u, guild) in sessions && u !in users
    ensures FlushTotals(sessions, totals, guild, users + {u}, now)
      == Credit(FlushTotals(sessions, totals, guild, users, now), (u, guild), Duration(sessions[(u, guild)].start, now))
  {
    var a := FlushTotals(sessions, totals, guild, users + {u}, now);
    var f := FlushTotals(sessions, totals, guild, users, now);
    var b := Credit(f, (u, guild), Duration(sessions[(u, guild)].start, now));
    assert a.Keys == b.Keys;
    forall k | k in a
      ensures a[k] == b[k]
    {
      if k != (u, guild) && !(k.1 == guild && k.0 in users) {
        assert k in totals;
      }
    }
  }

  /** Ending the session of one more user `u` moves the flush one user further. */
  lemma FlushLoopStep(s0: map<(UserId, GuildId), Session>, t0: map<(UserId, GuildId), int>,
                      guild: GuildId, done: set<UserId>, u: UserId, now: Instant)
    requires done <= GuildUsers(s0, guild) && u in GuildUsers(s0, guild) && u !in done
    ensures var cur := DropSessions(s0, guild, done);
      && (u, guild) in cur && cur[(u, guild)] == s0[(u, guild)]
      && DropSessions(s0, guild, done + {u}) == cur - {(u, guild)}
      && FlushTotals(s0, t0, guild, done + {u}, now)
        == Credit(FlushTotals(s0, t0, guild, done, now), (u, guild), Duration(cur[(u, guild)].start, now))
  {
    DropSessionsStep(s0, guild, done, u);
    FlushTotalsStep(s0, t0, guild, done, u, now);
  }

  /**
   * One turn of the loop of lines 53-54: some user still `pending` is
   * picked and `end_session(user_id, guild.id, now)` is called for it.
   */
  method CloseNextSession(store: Store, guild: GuildId, now: Instant, pending: set<UserId>,
                          ghost s0: map<(UserId, GuildId), Session>, ghost t0: map<(UserId, GuildId), int>)
    returns (pending': set<UserId>)
    requires store.Valid()
    requires pending != {} && pending <= GuildUsers(s0, guild)
    requires store.sessions == DropSessions(s0, guild, GuildUsers(s0, guild) - pending)
    requires store.totals == FlushTotals(s0, t0, guild, GuildUsers(s0, guild) - pending, now)
    modifies store`sessions, store`totals
    ensures store.Valid()
    ensures pending' < pending
    ensures store.sessions == DropSessions(s0, guild, GuildUsers(s0, guild) - pending')
    ensures store.totals == FlushTotals(s0, t0, guild, GuildUsers(s0, guild) - pending', now)
  {
    Inhabited(pending);
    var u :| u in pending;
    ghost var done := GuildUsers(s0, guild) - pending;
    FlushLoopStep(s0, t0, guild, done, u, now);
    var _ := store.EndSession(u, guild, Some(now));
    pending' := pending - {u};
    assert GuildUsers(s0, guild) - pending' == done + {u};
  }

  /** Lines 50-54: every open session of the guild is ended at `now`, crediting its time. */
  method FlushSessions(store: Store, guild: GuildId, now: Instant)
    requires store.Valid()
    modifies store`sessions, store`totals
    ensures store.Valid()
    ensures var active := GuildUsers(old(store.sessions), guild);
      && store.sessions == DropSessions(old(store.sessions), guild, active)
      && store.totals == FlushTotals(old(store.sessions), old(store.totals), guild, active, now)
  {
    ghost var s0, t0 := store.sessions, store.totals;
    var pending := store.ActiveGuildUsers(guild);
    assert GuildUsers(s0, guild) - pending == {};
    assert store.sessions == DropSessions(s0, guild, {});
    assert store.totals == FlushTotals(s0, t0, guild, {}, now);
    while pending != {}
      invariant store.Valid()
      invariant pending <= GuildUsers(s0, guild)
      invariant store.sessions == DropSessions(s0, guild, GuildUsers(s0, guild) - pending)
      invariant store.totals == FlushTotals(s0, t0, guild, GuildUsers(s0, guild) - pending, now)
      decreases pending
    {
      pending := CloseNextSession(store, guild, now, pending, s0, t0);
    }
    assert GuildUsers(s0, guild) - pending == GuildUsers(s0, guild);
  }

  /** Lines 85-92: one transaction deletes the guild's totals and the awards of its resettable goals. */
  method ClearWeek(store: Store, guild: GuildId)
    requires store.Valid()
    modifies store`totals, store`awarded
    ensures store.Valid()
    ensures store.totals == WithoutGuild(old(store.totals), guild)
    ensures store.awarded == WithoutAwards(old(store.awarded), guild, ResettableGoalIds(store.goals, guild))
  {
    var ids := ResettableGoalIds(store.ListGoals(guild), guild);
    assert ids == ResettableGoalIds(store.goals, guild);
    store.totals := WithoutGuild(store.totals, guild);
    store.awarded := WithoutAwards(store.awarded, guild, ids);
  }

  /**
   * `_weekly_reset_run_for_guild` at instant `now`. `failAt` is the step at
   * which a store call or a message send raises, if one does.
   */
  method WeeklyResetRunForGuild(store: Store, guild: GuildId, now: Instant, failAt: Option<Step>)
    requires store.Valid()
    modifies store`sessions, store`totals, store`awarded, store`history, store`lastReset
    ensures store.Valid()
    ensures Snapshot(store)
      == ResetRun(old(Snapshot(store)), store.goals, store.GetHistoryConfig(guild), guild, now, failAt)
  {
    if !Runs(Flush, failAt) {
      return;
    }
    ghost var t1 := FlushStep(Snapshot(store), guild, now);
    FlushSessions(store, guild, now);
    assert Snapshot(store) == t1;
    RunAfterFlush(store, guild, now, failAt);
  }

  /** Lines 56-102, once the sessions are closed. */
  method RunAfterFlush(store: Store, guild: GuildId, now: Instant, failAt: Option<Step>)
    requires store.Valid()
    modifies store`totals, store`awarded, store`history, store`lastReset
    ensures store.Valid()
    ensures Snapshot(store)
      == AfterFlush(old(Snapshot(store)), store.goals, store.GetHistoryConfig(guild), guild, now, failAt)
  {
    if !Runs(Archive, failAt) {
      return;
    }
    ghost var t2 := ArchiveStep(Snapshot(store), guild, now);
    store.ArchiveWeeklyTimes(guild, now);
    assert Snapshot(store) == t2;
    RunAfterArchive(store, guild, now, failAt);
  }

  /** Lines 59-102, once the week is archived. */
  method RunAfterArchive(store: Store, guild: GuildId, now: Instant, failAt: Option<Step>)
    requires store.Valid()
    modifies store`totals, store`awarded, store`history, store`lastReset
    ensures store.Valid()
    ensures Snapshot(store)
      == AfterArchive(old(Snapshot(store)), store.goals, store.GetHistoryConfig(guild), guild, now, failAt)
  {
    var cfg := store.GetHistoryConfig(guild);
    var retention := RetentionDays(cfg);
    // Posting the final ranking card is I/O; a failure there only ends the run.
    if !Runs(Cleanup, failAt) {
      return;
    }
    ghost var t3 := CleanupStep(Snapshot(store), cfg, guild, now);
    store.CleanupOldHistory(guild, retention, now);
    assert Snapshot(store) == t3;
    RunAfterCleanup(store, guild, now, failAt);
  }

  /** Lines 84-102, once old history is cleaned up. */
  method RunAfterCleanup(store: Store, guild: GuildId, now: Instant, failAt: Option<Step>)
    requires store.Valid()
    modifies store`totals, store`awarded, store`lastReset
    ensures store.Valid()
    ensures Snapshot(store) == AfterCleanup(old(Snapshot(store)), store.goals, guild, now, failAt)
  {
    if !Runs(Clear, failAt) {
      return;
    }
    ghost var t4 := ClearStep(Snapshot(store), store.goals, guild);
    ClearWeek(store, guild);
    assert Snapshot(store) == t4;
    // The goal-log notice is I/O; a failure there skips recording the reset.
    if failAt.Some? {
      return;
    }
    store.SetLastReset(guild, now);
  }

  /** The total of `user` once the open session, if any, is credited up to `now`. */
  function FlushedTotal(t: Tables, guild: GuildId, now: Instant, user: UserId): int {
    TotalOr0(t.totals, (user, guild))
      + if (user, guild) in t.sessions then Duration(t.sessions[(user, guild)].start, now) else 0
  }

  /**
   * The week archived by a reset: one entry per user of the guild with a
   * total or an open session whose flushed total is not zero, holding that
   * flushed total.
   */
  ghost predicate ArchivedWeek(t: Tables, guild: GuildId, now: Instant, week: map<UserId, int>) {
    && (forall u :: u in week <==>
          ((u, guild) in t.totals || (u, guild) in t.sessions) && FlushedTotal(t, guild, now, u) != 0)
    && (forall u :: u in week ==> week[u] == FlushedTotal(t, guild, now, u))
  }

  /**
   * Lines 50-57: every open session of the guild is closed before the week
   * is archived, so the archive holds the time of the sessions still open
   * at the reset; other guilds keep their sessions. The week survives the
   * cleanup of the same run only for a non-negative retention: the default
   * is 90 days (line 62), but `set_historico` stores any integer it is given
   * (cogs/admin_commands.py:284-286), and `NegativeRetentionDropsWeek`
   * shows what a negative one does.
   */
  lemma ResetArchivesFlushedWeek(t: Tables, goals: seq<Goal>, cfg: Option<HistoryConfig>, guild: GuildId,
                                 now: Instant, failAt: Option<Step>)
    requires Runs(Archive, failAt)
    requires Runs(Cleanup, failAt) ==> RetentionDays(cfg) >= 0
    ensures var r := ResetRun(t, goals, cfg, guild, now, failAt);
      && (forall k :: k in r.sessions <==> k in t.sessions && k.1 != guild)
      && (guild, now) in r.history && !r.history[(guild, now)].pinned
      && ArchivedWeek(t, guild, now, r.history[(guild, now)].totals)
  {
    var t1 := FlushStep(t, guild, now);
    var t2 := ArchiveStep(t1, guild, now);
    assert ResetRun(t, goals, cfg, guild, now, failAt) == AfterArchive(t2, goals, cfg, guild, now, failAt);
    AfterArchiveKeeps(t2, goals, cfg, guild, now, failAt);
    FlushedWeek(t, guild, now);
    if Runs(Cleanup, failAt) {
      assert !Expired((guild, now), t2.history[(guild, now)], guild, RetentionDays(cfg), now);
    }
  }

  /**
   * With a negative retention the cut-off lies after `now`, so the cleanup
   * of the same run deletes the week it has just archived.
   */
  lemma NegativeRetentionDropsWeek(t: Tables, goals: seq<Goal>, cfg: Option<HistoryConfig>, guild: GuildId,
                                   now: Instant, failAt: Option<Step>)
    requires Runs(Cleanup, failAt) && RetentionDays(cfg) < 0
    ensures (guild, now) !in ResetRun(t, goals, cfg, guild, now, failAt).history
  {
    assert Runs(Flush, failAt) && Runs(Archive, failAt);
    var t1 := FlushStep(t, guild, now);
    var t2 := ArchiveStep(t1, guild, now);
    assert (guild, now) in t2.history && !t2.history[(guild, now)].pinned;
    assert ResetRun(t, goals, cfg, guild, now, failAt) == AfterArchive(t2, goals, cfg, guild, now, failAt);
    AfterArchiveKeeps(t2, goals, cfg, guild, now, failAt);
    assert Expired((guild, now), t2.history[(guild, now)], guild, RetentionDays(cfg), now);
  }

  /** The week archived after the flush is the flushed week of the guild. */
  lemma FlushedWeek(t: Tables, guild: GuildId, now: Instant)
    ensures ArchivedWeek(t, guild, now, WeekScores(FlushStep(t, guild, now).totals, guild))
  {
    var active := GuildUsers(t.sessions, guild);
    var totals := FlushTotals(t.sessions, t.totals, guild, active, now);
    assert FlushStep(t, guild, now).totals == totals;
    assert forall u :: (u, guild) in totals <==> (u, guild) in t.totals || u in active;
    assert forall u :: (u, guild) in totals ==> totals[(u, guild)] == FlushedTotal(t, guild, now, u);
  }

  /** After the archive, the sessions stay as they are and only the cleanup touches the history. */
  lemma AfterArchiveKeeps(t: Tables, goals: seq<Goal>, cfg: Option<HistoryConfig>, guild: GuildId, now: Instant,
                          failAt: Option<Step>)
    ensures var r := AfterArchive(t, goals, cfg, guild, now, failAt);
      && r.sessions == t.sessions
      && r.history == (if Runs(Cleanup, failAt) then CleanedHistory(t.history, guild, RetentionDays(cfg), now) else t.history)
  {
    if Runs(Cleanup, failAt) {
      var t3 := CleanupStep(t, cfg, guild, now);
      AfterCleanupKeeps(t3, goals, guild, now, failAt);
    }
  }

  lemma AfterCleanupKeeps(t: Tables, goals: seq<Goal>, guild: GuildId, now: Instant, failAt: Option<Step>)
    ensures var r := AfterCleanup(t, goals, guild, now, failAt);
      r.sessions == t.sessions && r.history == t.history
  {
  }

  /**
   * Lines 85-98: a completed reset deletes every total of the guild, deletes
   * the awards of the guild's resettable goals and only those, and records
   * `now` as the guild's last reset; other guilds' totals are untouched.
   */
  lemma ResetRunCompletes(t: Tables, goals: seq<Goal>, cfg: Option<HistoryConfig>, guild: GuildId, now: Instant)
    ensures var r := ResetRun(t, goals, cfg, guild, now, None);
      && (forall k :: k in r.sessions <==> k in t.sessions && k.1 != guild)
      && (forall k :: k in r.totals <==> k in t.totals && k.1 != guild)
      && (forall k :: k in r.totals ==> r.totals[k] == t.totals[k])
      && (forall k :: k in r.awarded <==>
            k in t.awarded && !(k.1 == guild && exists g :: g in goals && g.guild == guild && g.resetOnWeekly && g.id == k.2))
      && (forall k :: k in r.awarded ==> r.awarded[k] == t.awarded[k])
      && r.lastReset == t.lastReset[guild := now]
  {
    ResetRunNone(t, goals, cfg, guild, now);
    ResetRunSessions(t, goals, cfg, guild, now);
    ResetRunTotals(t, goals, cfg, guild, now);
  }

  /** The sessions a completed run leaves: those of the other guilds. */
  lemma ResetRunSessions(t: Tables, goals: seq<Goal>, cfg: Option<HistoryConfig>, guild: GuildId, now: Instant)
    ensures forall k :: k in ResetRun(t, goals, cfg, guild, now, None).sessions <==> k in t.sessions && k.1 != guild
  {
    var t1 := FlushStep(t, guild, now);
    var t3 := CleanupStep(ArchiveStep(t1, guild, now), cfg, guild, now);
    ResetRunNone(t, goals, cfg, guild, now);
    assert ResetRun(t, goals, cfg, guild, now, None).sessions == t3.sessions == t1.sessions;
  }

  /** The totals a completed run leaves: those of the other guilds, unchanged. */
  lemma ResetRunTotals(t: Tables, goals: seq<Goal>, cfg: Option<HistoryConfig>, guild: GuildId, now: Instant)
    ensures var r := ResetRun(t, goals, cfg, guild, now, None);
      && (forall k :: k in r.totals <==> k in t.totals && k.1 != guild)
      && (forall k :: k in r.totals ==> r.totals[k] == t.totals[k])
  {
    var t1 := FlushStep(t, guild, now);
    var t3 := CleanupStep(ArchiveStep(t1, guild, now), cfg, guild, now);
    ResetRunNone(t, goals, cfg, guild, now);
    assert ResetRun(t, goals, cfg, guild, now, None).totals == WithoutGuild(t3.totals, guild);
    FlushStepOthers(t, guild, now);
    assert t3.totals == t1.totals;
  }

  /** Closing the sessions of one guild leaves the totals of the other guilds as they were. */
  lemma FlushStepOthers(t: Tables, guild: GuildId, now: Instant)
    ensures forall k :: k in FlushStep(t, guild, now).totals && k.1 != guild ==>
      k in t.totals && FlushStep(t, guild, now).totals[k] == t.totals[k]
  {
  }

  /** A run that completes goes through every step. */
  lemma ResetRunNone(t: Tables, goals: seq<Goal>, cfg: Option<HistoryConfig>, guild: GuildId, now: Instant)
    ensures ResetRun(t, goals, cfg, guild, now, None)
      == RecordStep(ClearStep(CleanupStep(ArchiveStep(FlushStep(t, guild, now), guild, now), cfg, guild, now),
                              goals, guild), guild, now, None)
  {
    var t1 := FlushStep(t, guild, now);
    var t2 := ArchiveStep(t1, guild, now);
    var t3 := CleanupStep(t2, cfg, guild, now);
    assert AfterArchive(t2, goals, cfg, guild, now, None) == AfterCleanup(t3, goals, guild, now, None);
    assert AfterFlush(t1, goals, cfg, guild, now, None) == AfterArchive(t2, goals, cfg, guild, now, None);
  }

  /** A run that raises leaves `last_reset` alone; one that raises while closing sessions changes nothing. */
  lemma ResetRunFails(t: Tables, goals: seq<Goal>, cfg: Option<HistoryConfig>, guild: GuildId, now: Instant,
                      failAt: Option<Step>)
    requires failAt.Some?
    ensures ResetRun(t, goals, cfg, guild, now, failAt).lastReset == t.lastReset
    ensures failAt == Some(Flush) ==> ResetRun(t, goals, cfg, guild, now, failAt) == t
  {
    ResetRunLastReset(t, goals, cfg, guild, now, failAt);
  }

  /** Whatever happens, a reset run changes `last_reset` of its own guild only, and only to `now`. */
  lemma ResetRunLastReset(t: Tables, goals: seq<Goal>, cfg: Option<HistoryConfig>, guild: GuildId, now: Instant,
                          failAt: Option<Step>)
    ensures var r := ResetRun(t, goals, cfg, guild, now, failAt);
      r.lastReset == (if failAt.None? then t.lastReset[guild := now] else t.lastReset)
  {
    if Runs(Flush, failAt) {
      AfterFlushLastReset(FlushStep(t, guild, now), goals, cfg, guild, now, failAt);
    }
  }

  lemma AfterFlushLastReset(t: Tables, goals: seq<Goal>, cfg: Option<HistoryConfig>, guild: GuildId, now: Instant,
                            failAt: Option<Step>)
    requires Runs(Flush, failAt)
    ensures var r := AfterFlush(t, goals, cfg, guild, now, failAt);
      r.lastReset == (if failAt.None? then t.lastReset[guild := now] else t.lastReset)
  {
    if Runs(Archive, failAt) {
      AfterArchiveLastReset(ArchiveStep(t, guild, now), goals, cfg, guild, now, failAt);
    }
  }

  lemma AfterArchiveLastReset(t: Tables, goals: seq<Goal>, cfg: Option<HistoryConfig>, guild: GuildId, now: Instant,
                              failAt: Option<Step>)
    requires Runs(Archive, failAt)
    ensures var r := AfterArchive(t, goals, cfg, guild, now, failAt);
      r.lastReset == (if failAt.None? then t.lastReset[guild := now] else t.lastReset)
  {
    if Runs(Cleanup, failAt) {
      AfterCleanupLastReset(CleanupStep(t, cfg, guild, now), goals, guild, now, failAt);
    }
  }

  lemma AfterCleanupLastReset(t: Tables, goals: seq<Goal>, guild: GuildId, now: Instant, failAt: Option<Step>)
    requires Runs(Cleanup, failAt)
    ensures var r := AfterCleanup(t, goals, guild, now, failAt);
      r.lastReset == (if failAt.None? then t.lastReset[guild := now] else t.lastReset)
  {
  }

  /** `get_last_reset` on a snapshot. */
  function LastOf(lastReset: map<GuildId, Instant>, guild: GuildId): Option<Instant> {
    if guild in lastReset then Some(lastReset[guild]) else None
  }

  /** The guild has a reset configuration and, by the corrected condition, a reset is due. */
  predicate Due(resetConfig: map<GuildId, ResetConfig>, lastReset: map<GuildId, Instant>, guild: GuildId, now: Instant) {
    guild in resetConfig && ShouldFire(now, resetConfig[guild], LastOf(lastReset, guild))
  }

  function FaultOf(faults: map<GuildId, Step>, guild: GuildId): Option<Step> {
    if guild in faults then Some(faults[guild]) else None
  }

  function HistoryConfigOf(historyConfig: map<GuildId, HistoryConfig>, guild: GuildId): Option<HistoryConfig> {
    if guild in historyConfig then Some(historyConfig[guild]) else None
  }

  /**
   * One pass of the polling loop over `guilds` at `now`: each guild whose
   * reset is due runs it, raising at `faults[guild]` if present.
   */
  function TickRun(t: Tables, guilds: seq<GuildId>, resetConfig: map<GuildId, ResetConfig>, goals: seq<Goal>,
                   historyConfig: map<GuildId, HistoryConfig>, now: Instant, faults: map<GuildId, Step>): Tables
    decreases |guilds|
  {
    if guilds == [] then t
    else
      var before := TickRun(t, guilds[..|guilds| - 1], resetConfig, goals, historyConfig, now, faults);
      var g := guilds[|guilds| - 1];
      if Due(resetConfig, before.lastReset, g, now) then
        ResetRun(before, goals, HistoryConfigOf(historyConfig, g), g, now, FaultOf(faults, g))
      else before
  }

  /** A reset recorded at `now` is not due at `now`. */
  lemma NotDueAfterReset(now: Instant, cfg: ResetConfig)
    ensures !ShouldFire(now, cfg, Some(now))
  {
    if 0 <= cfg.hour < 24 && 0 <= cfg.minute < 60 {
      PrevWeeklyDtIsLatest(now, cfg.weekday, cfg.hour, cfg.minute);
    }
  }

  /**
   * After one pass, no guild of the pass whose run did not raise is still
   * due at `now`: a second pass at the same instant resets none of them.
   */
  lemma {:induction false} TickRunSettles(t: Tables, guilds: seq<GuildId>, resetConfig: map<GuildId, ResetConfig>,
                                          goals: seq<Goal>, historyConfig: map<GuildId, HistoryConfig>, now: Instant,
                                          faults: map<GuildId, Step>)
    ensures var r := TickRun(t, guilds, resetConfig, goals, historyConfig, now, faults);
      forall g :: g in guilds && g !in faults ==> !Due(resetConfig, r.lastReset, g, now)
    decreases |guilds|
  {
    if guilds != [] {
      var prefix := guilds[..|guilds| - 1];
      var before := TickRun(t, prefix, resetConfig, goals, historyConfig, now, faults);
      var h := guilds[|guilds| - 1];
      var r := TickRun(t, guilds, resetConfig, goals, historyConfig, now, faults);
      TickRunSettles(t, prefix, resetConfig, goals, historyConfig, now, faults);
      if Due(resetConfig, before.lastReset, h, now) {
        ResetRunLastReset(before, goals, HistoryConfigOf(historyConfig, h), h, now, FaultOf(faults, h));
        if h !in faults {
          NotDueAfterReset(now, resetConfig[h]);
        }
      }
      forall g | g in guilds && g !in faults
        ensures !Due(resetConfig, r.lastReset, g, now)
      {
        if g != h {
          assert g in prefix;
          assert LastOf(r.lastReset, g) == LastOf(before.lastReset, g);
        }
      }
    }
  }

  /**
   * `weekly_reset_scheduler`, one pass after its 60-second sleep: for every
   * guild with a reset configuration, the reset runs when it is due.
   */
  method SchedulerTick(store: Store, guilds: seq<GuildId>, now: Instant, faults: map<GuildId, Step>)
    requires store.Valid()
    modifies store`sessions, store`totals, store`awarded, store`history, store`lastReset
    ensures store.Valid()
    ensures Snapshot(store)
      == TickRun(old(Snapshot(store)), guilds, store.resetConfig, store.goals, store.historyConfig, now, faults)
  {
    for i := 0 to |guilds|
      invariant store.Valid()
      invariant Snapshot(store)
        == TickRun(old(Snapshot(store)), guilds[..i], store.resetConfig, store.goals, store.historyConfig, now, faults)
    {
      var g := guilds[i];
      assert guilds[..i + 1][..i] == guilds[..i];
      var cfg := store.GetResetConfig(g);
      if cfg.Some? && ShouldFire(now, cfg.value, store.GetLastReset(g)) {
        WeeklyResetRunForGuild(store, g, now, FaultOf(faults, g));
      }
    }
    assert guilds[..|guilds|] == guilds;
  }
}
