/**
 * Giveaways (cogs/giveaway_commands.py): the duration syntax of
 * `gsortear`, the split of its text into prize words and required role
 * mentions, the entry button's role check, and the periodic pass that
 * draws the winners of every finished giveaway and removes it. The
 * drawing is random in the source; here it is any choice of the right
 * number of distinct participants.
 */
module Giveaways {
  import opened Wrappers
  import opened Text
  import opened Database

  // ---------------------------------------------------------------------
  // parse_duration
  // ---------------------------------------------------------------------

  predicate IsUnit(c: char) {
    c == 's' || c == 'm' || c == 'h' || c == 'd'
  }

  /** Seconds per unit: `timedelta(seconds=, minutes=, hours=, days=)`. */
  function UnitSeconds(u: char): (k: nat)
    requires IsUnit(u)
    ensures k in {1, 60, 3600, 86400}
  {
    match u
    case 's' => 1
    case 'm' => 60
    case 'h' => 3600
    case 'd' => 86400
  }

  /** The length of the run of digits at the start of `t`. */
  function DigitRun(t: string): (n: nat)
    ensures n <= |t| && AllDigits(t[..n])
    ensures n < |t| ==> !IsDigit(t[n])
    decreases |t|
  {
    if t != [] && IsDigit(t[0]) then
      var n := 1 + DigitRun(t[1..]);
      assert t[..n] == [t[0]] + t[1..][..n - 1];
      n
    else 0
  }

  /**
   * The first number of seconds `timedelta` refuses: its days are at most
   * 999999999, so 10^9 days raise `OverflowError`.
   */
  const MaxDeltaSeconds: nat := 1_000_000_000 * 86400

  /** Why `parse_duration` raises: `ValueError` for the format, `OverflowError` from `timedelta`. */
  datatype DurationError = Malformed | TooLong

  /**
   * `parse_duration`: `re.match(r"(\d+)([smhd])", s.lower())`, so digits
   * and a unit at the very start, anything after them ignored; then the
   * `timedelta` of that many units, which overflows from 10^9 days on.
   */
  function ParseDuration(text: string): (r: Result<nat, DurationError>)
    ensures r.Ok? ==> |text| >= 2 && IsDigit(text[0]) && r.value < MaxDeltaSeconds
  {
    var t := Lower(text);
    var n := DigitRun(t);
    if 0 < n < |t| && IsUnit(t[n]) then
      assert IsDigit(t[0]);
      var seconds := ParseNat(t[..n]) * UnitSeconds(t[n]);
      if seconds < MaxDeltaSeconds then Ok(seconds) else Err(TooLong)
    else Err(Malformed)
  }

  lemma LowerDigits(v: nat)
    ensures Lower(NatToString(v)) == NatToString(v)
  {
    var d := NatToString(v);
    assert forall i :: 0 <= i < |d| ==> IsDigit(d[i]);
  }

  /**
   * A number followed by a unit, in either case and followed by anything,
   * is that many units in seconds.
   */
  lemma ParseDurationOf(v: nat, u: char, rest: string)
    requires IsUnit(LowerChar(u))
    ensures ParseDuration(NatToString(v) + [u] + rest)
      == if v * UnitSeconds(LowerChar(u)) < MaxDeltaSeconds then Ok(v * UnitSeconds(LowerChar(u))) else Err(TooLong)
  {
    var d := NatToString(v);
    var text := d + [u] + rest;
    var t := Lower(text);
    LowerDigits(v);
    assert t[..|d|] == d by {
      assert forall i :: 0 <= i < |d| ==> t[i] == LowerChar(d[i]) == Lower(d)[i];
    }
    assert t[|d|] == LowerChar(u);
    assert !IsDigit(t[|d|]);
    assert AllDigits(d);
    DigitRunOf(t, |d|);
    ParseNatToString(v);
  }

  /** 999999999 days is the longest duration accepted; one day more overflows. */
  lemma DaysLimit()
    ensures ParseDuration(NatToString(999_999_999) + "d") == Ok(999_999_999 * 86400)
    ensures ParseDuration(NatToString(1_000_000_000) + "d") == Err(TooLong)
  {
    ParseDurationOf(999_999_999, 'd', "");
    assert NatToString(999_999_999) + "d" == NatToString(999_999_999) + ['d'] + "";
    ParseDurationOf(1_000_000_000, 'd', "");
    assert NatToString(1_000_000_000) + "d" == NatToString(1_000_000_000) + ['d'] + "";
  }

  /** A digit run followed by a non-digit has exactly that length. */
  lemma {:induction false} DigitRunOf(t: string, n: nat)
    requires n < |t| && AllDigits(t[..n]) && !IsDigit(t[n])
    ensures DigitRun(t) == n
    decreases n
  {
    if n > 0 {
      assert IsDigit(t[..n][0]);
      assert t[1..][..n - 1] == t[1..n];
      DigitRunOf(t[1..], n - 1);
    }
  }

  /** Text that does not begin with a digit is refused. */
  lemma ParseDurationNeedsDigit(text: string)
    requires text == [] || !IsDigit(text[0])
    ensures ParseDuration(text) == Err(Malformed)
  {
  }

  // ---------------------------------------------------------------------
  // gsortear
  // ---------------------------------------------------------------------

  /** The characters `part.strip("<@&>")` removes from both ends. */
  predicate MentionChar(c: char) {
    c == '<' || c == '@' || c == '&' || c == '>'
  }

  /** `s.strip("<@&>")`. */
  function StripMention(s: string): (r: string)
    ensures |r| <= |s|
    ensures r != [] ==> !MentionChar(r[0]) && !MentionChar(r[|r| - 1])
    decreases |s|
  {
    if s == [] then []
    else if MentionChar(s[0]) then StripMention(s[1..])
    else if MentionChar(s[|s| - 1]) then StripMention(s[..|s| - 1])
    else s
  }

  /** The prize words and the required roles taken out of the giveaway text. */
  datatype PrizeSplit = PrizeSplit(words: seq<string>, roles: seq<int>)

  /**
   * The loop over the parts: a part beginning `<@&` is a role mention and
   * contributes `int(part.strip("<@&>"))`, or nothing when that raises;
   * every other part is a prize word.
   */
  function SplitPrize(parts: seq<string>): (r: PrizeSplit)
    ensures |r.words| + |r.roles| <= |parts|
    decreases |parts|
  {
    if parts == [] then PrizeSplit([], [])
    else PrizeStep(SplitPrize(parts[..|parts| - 1]), parts[|parts| - 1])
  }

  /** One pass of the loop: what a single part adds. */
  function PrizeStep(prev: PrizeSplit, part: string): (r: PrizeSplit)
    ensures |r.words| + |r.roles| <= |prev.words| + |prev.roles| + 1
  {
    if StartsWith(part, "<@&") then
      match PyInt(StripMention(part))
      case Some(id) => PrizeSplit(prev.words, prev.roles + [id])
      case None => prev
    else PrizeSplit(prev.words + [part], prev.roles)
  }

  /** The loop over the parts, as `create_giveaway_cmd` runs it. */
  method SplitParts(parts: seq<string>) returns (words: seq<string>, roles: seq<int>)
    ensures PrizeSplit(words, roles) == SplitPrize(parts)
  {
    words, roles := [], [];
    for i := 0 to |parts|
      invariant PrizeSplit(words, roles) == SplitPrize(parts[..i])
    {
      assert parts[..i + 1][..i] == parts[..i];
      assert SplitPrize(parts[..i + 1]) == PrizeStep(SplitPrize(parts[..i]), parts[i]);
      ghost var prev := PrizeSplit(words, roles);
      var part := parts[i];
      if StartsWith(part, "<@&") {
        var id := PyInt(StripMention(part));
        if id.Some? {
          roles := roles + [id.value];
        }
      } else {
        words := words + [part];
      }
      assert PrizeSplit(words, roles) == PrizeStep(prev, part);
    }
    assert parts[..|parts|] == parts;
  }

  /** The prize words are exactly the parts that are not role mentions, in order. */
  lemma {:induction false} SplitPrizeWords(parts: seq<string>)
    ensures forall w :: w in SplitPrize(parts).words <==> w in parts && !StartsWith(w, "<@&")
    decreases |parts|
  {
    if parts != [] {
      SplitPrizeWords(parts[..|parts| - 1]);
      assert forall w :: w in parts <==> w in parts[..|parts| - 1] || w == parts[|parts| - 1];
    }
  }

  /** The mention `<@&id>` of a role. */
  function RoleTag(id: nat): string {
    "<@&" + NatToString(id) + ">"
  }

  function RoleTags(ids: seq<nat>): (ts: seq<string>)
    ensures |ts| == |ids|
    decreases |ids|
  {
    if ids == [] then [] else RoleTags(ids[..|ids| - 1]) + [RoleTag(ids[|ids| - 1])]
  }

  /** Digits keep nothing `strip("<@&>")` would remove. */
  lemma StripMentionDigits(d: string)
    requires IsDigits(d)
    ensures StripMention(d) == d
  {
    assert IsDigit(d[0]) && IsDigit(d[|d| - 1]);
  }

  lemma StripMentionClose(d: string)
    requires IsDigits(d)
    ensures StripMention(d + ">") == d
  {
    var s := d + ">";
    assert s[0] == d[0] && IsDigit(d[0]);
    assert s[..|s| - 1] == d;
    StripMentionDigits(d);
  }

  lemma StripRoleTag(id: nat)
    ensures StripMention(RoleTag(id)) == NatToString(id)
  {
    var d := NatToString(id);
    var t := RoleTag(id);
    var t1, t2, t3 := t[1..], t[1..][1..], t[1..][1..][1..];
    assert t1 == "@&" + d + ">" && t2 == "&" + d + ">" && t3 == d + ">";
    assert StripMention(t) == StripMention(t1);
    assert StripMention(t1) == StripMention(t2);
    assert StripMention(t2) == StripMention(t3);
    StripMentionClose(d);
  }

  lemma RoleTagValue(id: nat)
    ensures StartsWith(RoleTag(id), "<@&")
    ensures PyInt(StripMention(RoleTag(id))) == Some(id)
  {
    var t := RoleTag(id);
    assert t[..3] == "<@&";
    StripRoleTag(id);
    PyIntOfDigits(NatToString(id));
    ParseNatToString(id);
  }

  /** Parts none of which is a role mention are all prize words. */
  lemma {:induction false} SplitPrizeNoRoles(words: seq<string>)
    requires forall k :: 0 <= k < |words| ==> !StartsWith(words[k], "<@&")
    ensures SplitPrize(words) == PrizeSplit(words, [])
    decreases |words|
  {
    if words != [] {
      var init, last := words[..|words| - 1], words[|words| - 1];
      SplitPrizeNoRoles(init);
      assert !StartsWith(last, "<@&");
      assert PrizeStep(PrizeSplit(init, []), last) == PrizeSplit(init + [last], []);
      assert init + [last] == words;
    }
  }

  /** One more part after some parts is one more step of the loop. */
  lemma SplitPrizeAppend(parts: seq<string>, part: string)
    ensures SplitPrize(parts + [part]) == PrizeStep(SplitPrize(parts), part)
  {
    assert (parts + [part])[..|parts|] == parts;
  }

  /** A role mention after some parts adds its id to their roles. */
  lemma SplitPrizeTag(parts: seq<string>, id: nat)
    ensures SplitPrize(parts + [RoleTag(id)])
         == PrizeSplit(SplitPrize(parts).words, SplitPrize(parts).roles + [id])
  {
    RoleTagValue(id);
    SplitPrizeAppend(parts, RoleTag(id));
  }

  lemma RoleTagsSnoc(words: seq<string>, ids: seq<nat>)
    requires ids != []
    ensures words + RoleTags(ids) == (words + RoleTags(ids[..|ids| - 1])) + [RoleTag(ids[|ids| - 1])]
  {
    var init, tag := RoleTags(ids[..|ids| - 1]), RoleTag(ids[|ids| - 1]);
    assert RoleTags(ids) == init + [tag];
  }

  /**
   * Prize words followed by role mentions split back into those words and
   * those role ids.
   */
  lemma {:induction false} SplitPrizeRoundTrip(words: seq<string>, ids: seq<nat>)
    requires forall k :: 0 <= k < |words| ==> !StartsWith(words[k], "<@&")
    ensures SplitPrize(words + RoleTags(ids)) == PrizeSplit(words, ids)
    decreases |ids|
  {
    if ids == [] {
      assert words + RoleTags(ids) == words;
      SplitPrizeNoRoles(words);
    } else {
      var init, last := ids[..|ids| - 1], ids[|ids| - 1];
      var before := words + RoleTags(init);
      RoleTagsSnoc(words, ids);
      assert words + RoleTags(ids) == before + [RoleTag(last)];
      SplitPrizeRoundTrip(words, init);
      SplitPrizeTag(before, last);
      assert init + [last] == ids;
    }
  }

  /**
   * Why `gsortear` refuses a giveaway. `Overflow` is the `OverflowError`
   * that escapes the command: a duration `timedelta` refuses, or an end
   * past the last instant `datetime` holds.
   */
  datatype CreateError = BadDuration | Overflow | TooFewWinners | NoPrize

  /** 9999-12-31 23:59:59 UTC, the last whole second of `datetime`'s range. */
  const LastInstant: Instant := 253402300799

  /** A row of the active giveaways. */
  datatype Giveaway = Giveaway(guild: GuildId, channel: ChannelId, end: Instant, winners: int, prize: string,
                               requiredRoles: seq<int>)

  /**
   * `create_giveaway_cmd`'s checks in order: the duration, then the
   * winner count, then a non-empty prize, then the end time.
   */
  function ParseCreate(guild: GuildId, channel: ChannelId, now: Instant, duration: string, winners: int,
                       prizeAndRoles: string): (r: Result<Giveaway, CreateError>)
    ensures r == Err(BadDuration) <==> ParseDuration(duration) == Err(Malformed)
    ensures ParseDuration(duration) == Err(TooLong) ==> r == Err(Overflow)
    ensures r == Err(Overflow) ==> ParseDuration(duration).Err? || now + ParseDuration(duration).value > LastInstant
    ensures r.Ok? ==> r.value.winners >= 1 && r.value.prize != [] && now <= r.value.end <= LastInstant
    ensures r.Ok? ==> r.value.end == now + ParseDuration(duration).value
  {
    CreateFrom(guild, channel, now, ParseDuration(duration), winners, SplitWs(prizeAndRoles))
  }

  /** The checks of `ParseCreate` on the parsed duration and the split words of the prize. */
  function CreateFrom(guild: GuildId, channel: ChannelId, now: Instant, d: Result<nat, DurationError>, winners: int,
                      parts: seq<string>): Result<Giveaway, CreateError>
  {
    if d.Err? then (if d.error == Malformed then Err(BadDuration) else Err(Overflow))
    else if winners < 1 then Err(TooFewWinners)
    else
      var split := SplitPrize(parts);
      var prize := Join(split.words, " ");
      if prize == "" then Err(NoPrize)
      else if now + d.value > LastInstant then Err(Overflow)
      else Ok(Giveaway(guild, channel, now + d.value, winners, prize, split.roles))
  }

  /** The checks of `create_giveaway_cmd` as the command runs them, with the prize/role loop. */
  method CheckCreate(guild: GuildId, channel: ChannelId, now: Instant, delta: Result<nat, DurationError>,
                     winners: int, parts: seq<string>) returns (r: Result<Giveaway, CreateError>)
    ensures r == CreateFrom(guild, channel, now, delta, winners, parts)
  {
    if delta.Err? {
      return if delta.error == Malformed then Err(BadDuration) else Err(Overflow);
    }
    if winners < 1 {
      return Err(TooFewWinners);
    }
    var words, roles := SplitParts(parts);
    var prize := Join(words, " ");
    if prize == "" {
      return Err(NoPrize);
    }
    var end := now + delta.value;
    if end > LastInstant {
      return Err(Overflow);
    }
    r := Ok(Giveaway(guild, channel, end, winners, prize, roles));
  }

  // ---------------------------------------------------------------------
  // Entry and draw
  // ---------------------------------------------------------------------

  /**
   * The entry button: with required roles the member must hold all of
   * them; otherwise the answer lists the ones missing.
   */
  function EntryCheck(required: set<RoleId>, roles: set<RoleId>): (r: Result<(), set<RoleId>>)
    ensures r.Ok? <==> required <= roles
    ensures r.Err? ==> r.error != {} && r.error <= required && r.error * roles == {}
  {
    MissingRoles(required, roles);
    if required != {} && !(required <= roles) then Err(required - roles) else Ok(())
  }

  lemma MissingRoles(required: set<RoleId>, roles: set<RoleId>)
    ensures required <= roles <==> required - roles == {}
  {
    if required - roles == {} {
      forall x | x in required
        ensures x in roles
      {
        assert x !in required - roles;
      }
    }
  }

  /** `min(winner_count, len(participants))`. */
  function DrawSize(k: int, n: nat): (m: nat)
    requires k >= 1
    ensures m <= n && m <= k && (m == n || m == k)
  {
    if k < n then k else n
  }

  /** Winners of a draw: distinct participants, as many as the draw size. */
  predicate ValidDraw(pool: set<UserId>, k: int, ws: seq<UserId>)
    requires k >= 1
  {
    && |ws| == DrawSize(k, |pool|)
    && (forall i :: 0 <= i < |ws| ==> ws[i] in pool)
    && (forall i, j :: 0 <= i < j < |ws| ==> ws[i] != ws[j])
  }

  /**
   * `random.sample(participants, min(winner_count, len(participants)))`:
   * each pick is any participant not yet drawn.
   */
  method Draw(pool: set<UserId>, k: int) returns (ws: seq<UserId>)
    requires k >= 1
    ensures ValidDraw(pool, k, ws)
  {
    ws := [];
    var left := pool;
    var size := DrawSize(k, |pool|);
    while |ws| < size
      invariant |ws| <= size
      invariant left <= pool && |left| == |pool| - |ws|
      invariant forall i :: 0 <= i < |ws| ==> ws[i] in pool && ws[i] !in left
      invariant forall i, j :: 0 <= i < j < |ws| ==> ws[i] != ws[j]
      decreases size - |ws|
    {
      Inhabited(left);
      var u :| u in left;
      ws := ws + [u];
      left := left - {u};
    }
  }

  // ---------------------------------------------------------------------
  // The giveaway tables
  // ---------------------------------------------------------------------

  /** What the end checker did with one finished giveaway. */
  datatype Ending = Dropped | Drawn(winners: seq<UserId>)

  /**
   * A giveaway ends with a draw exactly when its message can still be
   * reached, and a draw is a valid one from its participants.
   */
  predicate EndedWell(e: Ending, m: MessageId, pool: set<UserId>, winners: int, reachable: set<MessageId>)
    requires winners >= 1
  {
    && (e.Drawn? <==> m in reachable)
    && (e.Drawn? ==> ValidDraw(pool, winners, e.winners))
  }

  class GiveawayStore {
    /** The active giveaways, by the id of their message. */
    var active: map<MessageId, Giveaway>
    /** The participants of each giveaway message. */
    var entrants: map<MessageId, set<UserId>>

    /** Every active giveaway has at least one winner to draw. */
    ghost predicate Valid()
      reads this`active
    {
      forall m :: m in active ==> active[m].winners >= 1
    }

    constructor ()
      ensures Valid() && active == map[] && entrants == map[]
    {
      active, entrants := map[], map[];
    }

    function Entrants(m: MessageId): set<UserId>
      reads this`entrants
    {
      if m in entrants then entrants[m] else {}
    }

    /**
     * `create_giveaway_cmd`: the prize/role loop over the parts, then
     * `add_giveaway` under the id of the message just sent.
     */
    method CreateGiveawayCmd(msg: MessageId, guild: GuildId, channel: ChannelId, now: Instant, duration: string,
                             winners: int, prizeAndRoles: string) returns (r: Result<Giveaway, CreateError>)
      requires Valid()
      modifies this`active
      ensures Valid()
      ensures r == ParseCreate(guild, channel, now, duration, winners, prizeAndRoles)
      ensures r.Ok? ==> active == old(active)[msg := r.value]
      ensures r.Err? ==> active == old(active)
    {
      r := CheckCreate(guild, channel, now, ParseDuration(duration), winners, SplitWs(prizeAndRoles));
      if r.Ok? {
        active := active[msg := r.value];
      }
    }

    /**
     * The entry button of a giveaway message whose view holds `required`:
     * a member who passes the check joins the participants, and the answer
     * is their new number.
     */
    method EntryButton(msg: MessageId, required: set<RoleId>, user: UserId, roles: set<RoleId>)
      returns (r: Result<nat, set<RoleId>>)
      modifies this`entrants
      ensures EntryCheck(required, roles).Err? ==> r == Err(EntryCheck(required, roles).error) && entrants == old(entrants)
      ensures EntryCheck(required, roles).Ok? ==>
        && entrants == old(entrants)[msg := old(Entrants(msg)) + {user}]
        && r == Ok(|Entrants(msg)|)
    {
      var check := EntryCheck(required, roles);
      if check.Err? {
        return Err(check.error);
      }
      entrants := entrants[msg := Entrants(msg) + {user}];
      r := Ok(|entrants[msg]|);
    }

    /**
     * What the end checker does with one finished giveaway: without its
     * guild, channel or message it is only removed; otherwise its winners
     * are drawn from its participants.
     */
    method EndOne(m: MessageId, winners: int, reachable: set<MessageId>) returns (e: Ending)
      requires winners >= 1
      ensures EndedWell(e, m, Entrants(m), winners, reachable)
    {
      if m in reachable {
        var ws := Draw(Entrants(m), winners);
        e := Drawn(ws);
      } else {
        e := Dropped;
      }
    }

    /**
     * One pass of `giveaway_end_checker` at `now`: every finished giveaway
     * is removed, and those whose guild, channel and message still exist
     * get their winners drawn first.
     */
    method EndChecker(now: Instant, reachable: set<MessageId>) returns (endings: map<MessageId, Ending>)
      requires Valid()
      modifies this`active
      ensures Valid()
      ensures forall m :: m in active <==> m in old(active) && old(active)[m].end > now
      ensures forall m :: m in active ==> active[m] == old(active)[m]
      ensures endings.Keys == set m | m in old(active) && old(active)[m].end <= now
      ensures forall m :: m in endings ==>
        EndedWell(endings[m], m, Entrants(m), old(active)[m].winners, reachable)
    {
      endings := map[];
      ghost var start := active;
      var finished := set m | m in active && active[m].end <= now;
      var pending := finished;
      while pending != {}
        invariant pending <= finished
        invariant active.Keys == start.Keys - (finished - pending)
        invariant forall m :: m in active ==> active[m] == start[m]
        invariant endings.Keys == finished - pending
        invariant forall m :: m in endings ==> EndedWell(endings[m], m, Entrants(m), start[m].winners, reachable)
        decreases |pending|
      {
        Inhabited(pending);
        var m :| m in pending;
        var e := EndOne(m, active[m].winners, reachable);
        endings := endings[m := e];
        active := active - {m};
        pending := pending - {m};
      }
    }
  }
}
