/**
 * The voice listeners (cogs/listeners.py): classification of a voice state
 * change, the session bookkeeping of `on_voice_state_update`, and the map
 * of live call cards kept by the cog (`active_call_messages`).
 *
 * Discord objects are reduced to ids: a voice state is the id of its
 * channel, if any, and a card is the id of the message that shows it.
 */
module Listeners {
  import opened Wrappers
  import opened Database

  /** Line 34: the member was in no channel and now is in one. */
  predicate IsJoin(before: Option<ChannelId>, after: Option<ChannelId>) {
    before.None? && after.Some?
  }

  /** Line 35: the member was in a channel and now is in none. */
  predicate IsLeave(before: Option<ChannelId>, after: Option<ChannelId>) {
    before.Some? && after.None?
  }

  /** Line 36: the member moved between two different channels. */
  predicate IsSwitch(before: Option<ChannelId>, after: Option<ChannelId>) {
    before.Some? && after.Some? && before.value != after.value
  }

  /**
   * The three kinds of change exclude each other, and a state change is
   * none of them exactly when the member stays where they were.
   */
  lemma ClassifyExclusive(before: Option<ChannelId>, after: Option<ChannelId>)
    ensures !(IsJoin(before, after) && IsLeave(before, after))
    ensures !(IsJoin(before, after) && IsSwitch(before, after))
    ensures !(IsLeave(before, after) && IsSwitch(before, after))
    ensures !IsJoin(before, after) && !IsLeave(before, after) && !IsSwitch(before, after) <==> before == after
  {
  }

  /** `end_session` at `now` on the tables: the open session, if any, is closed and credited. */
  function Closed(sessions: map<(UserId, GuildId), Session>, totals: map<(UserId, GuildId), int>,
                  key: (UserId, GuildId), now: Instant): (map<(UserId, GuildId), Session>, map<(UserId, GuildId), int>)
  {
    if key in sessions then (sessions - {key}, Credit(totals, key, Duration(sessions[key].start, now)))
    else (sessions, totals)
  }

  /**
   * Lines 39-55 on the tables: a leave or a switch first ends the session,
   * then a join or a switch starts one in the new channel at the same instant.
   */
  function HandleVoice(sessions: map<(UserId, GuildId), Session>, totals: map<(UserId, GuildId), int>,
                       user: UserId, guild: GuildId, before: Option<ChannelId>, after: Option<ChannelId>,
                       now: Instant): (map<(UserId, GuildId), Session>, map<(UserId, GuildId), int>)
  {
    var key := (user, guild);
    var (s1, t1) := if IsLeave(before, after) || IsSwitch(before, after) then Closed(sessions, totals, key, now)
                    else (sessions, totals);
    if IsJoin(before, after) || IsSwitch(before, after) then (s1[key := Session(after.value, now)], t1)
    else (s1, t1)
  }

  /** A switch is a leave from the old channel followed by a join to the new one at the same instant. */
  lemma SwitchIsLeaveThenJoin(sessions: map<(UserId, GuildId), Session>, totals: map<(UserId, GuildId), int>,
                              user: UserId, guild: GuildId, from: ChannelId, to: ChannelId, now: Instant)
    requires from != to
    ensures var (s1, t1) := HandleVoice(sessions, totals, user, guild, Some(from), None, now);
      HandleVoice(sessions, totals, user, guild, Some(from), Some(to), now)
        == HandleVoice(s1, t1, user, guild, None, Some(to), now)
  {
  }

  /**
   * After a leave the member has no open session, and the seconds of the
   * closed session, never negative, are added to their total; nothing else
   * changes.
   */
  lemma LeaveCredits(sessions: map<(UserId, GuildId), Session>, totals: map<(UserId, GuildId), int>,
                     user: UserId, guild: GuildId, from: ChannelId, now: Instant)
    requires (user, guild) in sessions
    ensures var (s, t) := HandleVoice(sessions, totals, user, guild, Some(from), None, now);
      && (user, guild) !in s
      && (forall k :: k in s <==> k in sessions && k != (user, guild))
      && t[(user, guild)] >= TotalOr0(totals, (user, guild))
      && t[(user, guild)] == TotalOr0(totals, (user, guild)) + Duration(sessions[(user, guild)].start, now)
      && (forall k :: k in totals && k != (user, guild) ==> t[k] == totals[k])
  {
  }

  /** After a join or a switch the member has exactly one open session: in the new channel, from `now`. */
  lemma JoinOpens(sessions: map<(UserId, GuildId), Session>, totals: map<(UserId, GuildId), int>,
                  user: UserId, guild: GuildId, before: Option<ChannelId>, after: Option<ChannelId>, now: Instant)
    requires IsJoin(before, after) || IsSwitch(before, after)
    ensures var (s, _) := HandleVoice(sessions, totals, user, guild, before, after, now);
      (user, guild) in s && s[(user, guild)] == Session(after.value, now)
  {
  }

  /** Staying in the same channel (a mute, a deafen) changes no table. */
  lemma StayKeeps(sessions: map<(UserId, GuildId), Session>, totals: map<(UserId, GuildId), int>,
                  user: UserId, guild: GuildId, state: Option<ChannelId>, now: Instant)
    ensures HandleVoice(sessions, totals, user, guild, state, state, now) == (sessions, totals)
  {
  }

  /**
   * Line 48 as written: `datetime` is not imported in this file, so the
   * expression raises `NameError`, the bare `except` swallows it, and the
   * duration stays 0.
   */
  function ExitDurationAsWritten(start: Instant, now: Instant): int {
    0
  }

  /** Line 48 as evidently intended: the whole seconds between the session start and `now`. */
  function ExitDuration(start: Instant, now: Instant): int {
    now - start
  }

  /** As written, every exit card reports a duration of zero, even for an hour-long call. */
  lemma ExitDurationAsWrittenIsZero(start: Instant, now: Instant)
    ensures ExitDurationAsWritten(start, now) == 0
    ensures start < now ==> ExitDurationAsWritten(start, now) != ExitDuration(start, now)
  {
  }

  /** The intended duration is the time the leave credited to the member's total. */
  lemma ExitDurationIsCredited(sessions: map<(UserId, GuildId), Session>, totals: map<(UserId, GuildId), int>,
                               user: UserId, guild: GuildId, from: ChannelId, now: Instant)
    requires (user, guild) in sessions && sessions[(user, guild)].start <= now
    ensures var (_, t) := HandleVoice(sessions, totals, user, guild, Some(from), None, now);
      t[(user, guild)] - TotalOr0(totals, (user, guild)) == ExitDuration(sessions[(user, guild)].start, now)
  {
  }

  /** `active_call_messages`: per guild, the card message of each member in a call. */
  class CallCards {
    var messages: map<GuildId, map<UserId, MessageId>>

    constructor ()
      ensures messages == map[]
    {
      messages := map[];
    }

    /** The card of `user` in `guild`, if the map holds one. */
    function CardOf(guild: GuildId, user: UserId): Option<MessageId>
      reads this`messages
    {
      CardIn(messages, guild, user)
    }

    /**
     * `_ensure_user_call_message` as written: `setdefault` creates the
     * guild's map, then `gerar_stats_card` raises (its `buf.seak(0)` names a
     * method `BytesIO` lacks) and the handler swallows the error before a
     * card is sent or stored.
     */
    method EnsureCardAsWritten(guild: GuildId, user: UserId)
      modifies this`messages
      ensures messages == SetDefault(old(messages), guild)
    {
      messages := SetDefault(messages, guild);
    }

    /**
     * `_ensure_user_call_message` after the card image is drawn. The guild's
     * map is created first; without a call-log channel nothing else happens;
     * an existing card is edited in place, and when its message is gone
     * (`editFails`) it is dropped and a new card `newMsg` is sent; without a
     * card a new one is sent.
     */
    method EnsureCard(guild: GuildId, user: UserId, hasCallLog: bool, editFails: bool, newMsg: MessageId)
      modifies this`messages
      ensures guild in messages
      ensures forall g :: g in messages <==> g in old(messages) || g == guild
      ensures forall g :: g in old(messages) && g != guild ==> messages[g] == old(messages)[g]
      ensures var before := if guild in old(messages) then old(messages)[guild] else map[];
        messages[guild] == (
          if !hasCallLog then before
          else if user in before && !editFails then before
          else before[user := newMsg])
    {
      if guild !in messages {
        messages := messages[guild := map[]];
      }
      if !hasCallLog {
        return;
      }
      var gmap := messages[guild];
      if user in gmap && !editFails {
        return;
      }
      messages := messages[guild := gmap[user := newMsg]];
    }

    /**
     * The card part of `_mark_user_exit_and_cleanup`: the card of `user` is
     * removed from the map (`gmap.pop`); `had` tells whether there was one,
     * and only then is the exit message written.
     */
    method MarkExit(guild: GuildId, user: UserId) returns (had: bool)
      modifies this`messages
      ensures had <==> old(CardOf(guild, user)).Some?
      ensures CardOf(guild, user) == None
      ensures guild in old(messages) ==> messages == old(messages)[guild := old(messages)[guild] - {user}]
      ensures guild !in old(messages) ==> messages == old(messages)
    {
      had := CardOf(guild, user).Some?;
      if guild in messages {
        messages := messages[guild := messages[guild] - {user}];
      }
    }

    /**
     * Lines 144-150 of `update_call_cards`: every card of a member no longer
     * in any voice channel of the guild is removed from the map; the ids of
     * the removed messages are returned, to be deleted.
     */
    method RemoveStale(guild: GuildId, current: set<UserId>) returns (removed: set<MessageId>)
      modifies this`messages
      ensures guild !in old(messages) ==> messages == old(messages) && removed == {}
      ensures guild in old(messages) ==>
        && messages == old(messages)[guild := KeepUsers(old(messages)[guild], current)]
        && removed == StaleCards(old(messages)[guild], current)
    {
      if guild !in messages {
        return {};
      }
      ghost var m0 := messages[guild];
      var stale := messages[guild].Keys - current;
      removed := {};
      while stale != {}
        invariant guild in messages && messages == old(messages)[guild := messages[guild]]
        invariant stale <= m0.Keys - current
        invariant messages[guild] == KeepUsers(m0, current + stale)
        invariant removed == StaleCards(m0, current + stale)
        decreases stale
      {
        Inhabited(stale);
        var uid :| uid in stale;
        var gmap := messages[guild];
        removed := removed + {gmap[uid]};
        messages := messages[guild := gmap - {uid}];
        StaleStep(m0, current, stale, uid);
        stale := stale - {uid};
      }
      assert current + stale == current;
    }
  }

  /** The card of `user` in `guild` in a card map, if it holds one. */
  function CardIn(messages: map<GuildId, map<UserId, MessageId>>, guild: GuildId, user: UserId): Option<MessageId> {
    if guild in messages && user in messages[guild] then Some(messages[guild][user]) else None
  }

  /** `active_call_messages.setdefault(guild, {})`. */
  function SetDefault(messages: map<GuildId, map<UserId, MessageId>>, guild: GuildId)
    : (r: map<GuildId, map<UserId, MessageId>>)
    ensures guild in r && forall g :: g in r <==> g in messages || g == guild
    ensures forall g :: g in messages ==> r[g] == messages[g]
    ensures guild !in messages ==> r[guild] == map[]
  {
    if guild in messages then messages else messages[guild := map[]]
  }

  /** What happens to the card map: a card is ensured, a member leaves, or the periodic sweep runs. */
  datatype CardEvent =
    | Ensure(guild: GuildId, user: UserId)
    | Exit(guild: GuildId, user: UserId)
    | Sweep(guild: GuildId, current: set<UserId>)

  /**
   * One event as the code is written: `EnsureCardAsWritten`, the `pop` of
   * `MarkExit`, the removal of `RemoveStale`.
   */
  function CardStepAsWritten(messages: map<GuildId, map<UserId, MessageId>>, e: CardEvent)
    : map<GuildId, map<UserId, MessageId>>
  {
    match e
    case Ensure(g, _) => SetDefault(messages, g)
    case Exit(g, u) => if g in messages then messages[g := messages[g] - {u}] else messages
    case Sweep(g, current) => if g in messages then messages[g := KeepUsers(messages[g], current)] else messages
  }

  /** The card map after `events`, from the empty map the cog starts with. */
  function CardsAsWritten(events: seq<CardEvent>): map<GuildId, map<UserId, MessageId>>
    decreases |events|
  {
    if events == [] then map[]
    else CardStepAsWritten(CardsAsWritten(events[..|events| - 1]), events[|events| - 1])
  }

  /**
   * As written, no card is ever stored: whatever happens, every guild's map
   * stays empty, so no join card is kept and no exit card is ever edited.
   */
  lemma {:induction false} NoCardAsWritten(events: seq<CardEvent>)
    ensures forall g :: g in CardsAsWritten(events) ==> CardsAsWritten(events)[g] == map[]
    ensures forall g, u :: CardIn(CardsAsWritten(events), g, u) == None
    decreases |events|
  {
    if events != [] {
      var prev := CardsAsWritten(events[..|events| - 1]);
      NoCardAsWritten(events[..|events| - 1]);
      var e := events[|events| - 1];
      match e
      case Ensure(g, _) =>
      case Exit(g, u) =>
        if g in prev { assert prev[g] - {u} == map[]; }
      case Sweep(g, current) =>
        if g in prev { assert KeepUsers(prev[g], current) == map[]; }
    }
  }

  /** The cards of the members still in a call. */
  function KeepUsers(m: map<UserId, MessageId>, users: set<UserId>): (r: map<UserId, MessageId>)
    ensures forall u :: u in r <==> u in m && u in users
    ensures forall u :: u in r ==> r[u] == m[u]
  {
    map u | u in m && u in users :: m[u]
  }

  /** The messages of the cards of members no longer in a call. */
  function StaleCards(m: map<UserId, MessageId>, users: set<UserId>): (r: set<MessageId>)
    ensures forall x :: x in r <==> exists u :: u in m && u !in users && m[u] == x
  {
    set u | u in m && u !in users :: m[u]
  }

  /** Removing one more stale card `uid` keeps the loop invariant of `RemoveStale`. */
  lemma StaleStep(m0: map<UserId, MessageId>, current: set<UserId>, stale: set<UserId>, uid: UserId)
    requires stale <= m0.Keys - current && uid in stale
    ensures KeepUsers(m0, current + stale) - {uid} == KeepUsers(m0, current + (stale - {uid}))
    ensures KeepUsers(m0, current + stale)[uid] == m0[uid]
    ensures StaleCards(m0, current + stale) + {m0[uid]} == StaleCards(m0, current + (stale - {uid}))
  {
    var a, b := KeepUsers(m0, current + stale) - {uid}, KeepUsers(m0, current + (stale - {uid}));
    assert a.Keys == b.Keys;
    var x, y := StaleCards(m0, current + stale) + {m0[uid]}, StaleCards(m0, current + (stale - {uid}));
    assert forall v :: v in x ==> v in y;
    assert forall v :: v in y ==> v in x;
  }

  /**
   * `on_voice_state_update` for a member of `guild` at `now`. The goal
   * check and the drawing of cards are left out; `hasCallLog`, `editFails`
   * and `newMsg` stand for what Discord answers when the join card is
   * sent. Returns the duration and the new total of an exit card, when one
   * is written.
   */
  method OnVoiceStateUpdate(store: Store, cards: CallCards, isBot: bool, user: UserId, guild: GuildId,
                            before: Option<ChannelId>, after: Option<ChannelId>, now: Instant,
                            hasCallLog: bool, editFails: bool, newMsg: MessageId)
    returns (exit: Option<(int, int)>)
    requires store.Valid()
    modifies store`sessions, store`totals, cards`messages
    ensures store.Valid()
    ensures isBot ==>
      && store.sessions == old(store.sessions) && store.totals == old(store.totals)
      && cards.messages == old(cards.messages) && exit == None
    ensures !isBot ==>
      (store.sessions, store.totals) == HandleVoice(old(store.sessions), old(store.totals), user, guild, before, after, now)
    ensures exit.Some? ==>
      && (user, guild) in old(store.sessions) && old(cards.CardOf(guild, user)).Some?
      && exit.value.0 == ExitDuration(old(store.sessions)[(user, guild)].start, now)
      && exit.value.1 == TotalOr0(store.totals, (user, guild))
    ensures (!isBot && (IsLeave(before, after) || IsSwitch(before, after))
      && (user, guild) in old(store.sessions) && old(cards.CardOf(guild, user)).Some?) ==> exit.Some?
    ensures !isBot && (IsJoin(before, after) || IsSwitch(before, after)) && hasCallLog ==>
      cards.CardOf(guild, user).Some?
  {
    exit := None;
    if isBot {
      return;
    }
    var key := (user, guild);
    ghost var s0, t0 := store.sessions, store.totals;
    if IsLeave(before, after) || IsSwitch(before, after) {
      var start := store.EndSession(user, guild, Some(now));
      if start.Some? {
        var duration := ExitDuration(start.value, now);
        var totalAfter := store.TotalTime(user, guild);
        var had := cards.MarkExit(guild, user);
        if had {
          exit := Some((duration, totalAfter));
        }
      }
    }
    assert (store.sessions, store.totals)
      == (if IsLeave(before, after) || IsSwitch(before, after) then Closed(s0, t0, key, now) else (s0, t0));
    if IsJoin(before, after) || IsSwitch(before, after) {
      store.StartSession(user, guild, after.value, now);
      cards.EnsureCard(guild, user, hasCallLog, editFails, newMsg);
    }
  }
}
