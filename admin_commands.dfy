/**
 * The administrator commands (cogs/admin_commands.py): the `add_goal`
 * argument tokeniser, `setreset` validation, the `set_goal_reset`
 * truthiness rule, the `check_goal` partition with its list truncation and
 * mention chunking, the `notify_goal` award and notification loops, and the
 * history date-prefix lookup. Replies, embeds and role grants are Discord
 * effects; the model keeps what decides them.
 */
module AdminCommands {
  import opened Wrappers
  import opened Text
  import opened Helpers
  import opened Database
  import opened Logic
  import opened Scheduler

  // ---------------------------------------------------------------------
  // add_goal
  // ---------------------------------------------------------------------

  /** The parts of an accepted `add_goal` command. */
  datatype AddGoalArgs = AddGoalArgs(name: string, seconds: nat, reward: Option<nat>, required: seq<nat>, resetOn: bool)

  /** Why `add_goal` refuses a command: no all-digit token, or an empty name. */
  datatype AddGoalError = MissingSeconds | EmptyName

  /** The index of the first all-digit token (`re.fullmatch(r"\d+", t)`). */
  function FirstDigits(toks: seq<string>): (r: Option<nat>)
    ensures r.Some? ==> r.value < |toks| && IsDigits(toks[r.value])
    ensures r.Some? ==> forall j :: 0 <= j < r.value ==> !IsDigits(toks[j])
    ensures r.None? ==> forall j :: 0 <= j < |toks| ==> !IsDigits(toks[j])
  {
    if toks == [] then None
    else if IsDigits(toks[0]) then Some(0)
    else match FirstDigits(toks[1..])
      case None => None
      case Some(i) => Some(i + 1)
  }

  /** One pair of surrounding double quotes removed, as `name[1:-1]` does. */
  function Unquote(n: string): (r: string)
    ensures |n| >= 2 && n[0] == '"' && n[|n| - 1] == '"' ==> n == "\"" + r + "\""
    ensures !(|n| >= 1 && n[0] == '"' && n[|n| - 1] == '"') ==> r == n
  {
    if |n| >= 1 && n[0] == '"' && n[|n| - 1] == '"' then PySlice(n, 1, -1) else n
  }

  /** The goal name: the tokens before the seconds, joined by spaces, stripped and unquoted. */
  function GoalName(before: seq<string>): string {
    Unquote(Strip(Join(before, " ")))
  }

  /** `re.match(r"^<@&?(\d+)>$", t)`: a user or role mention and its id. */
  function MentionId(t: string): Option<nat> {
    if |t| >= 4 && t[..2] == "<@" && t[|t| - 1] == '>' then
      var body := if t[2] == '&' then t[3..|t| - 1] else t[2..|t| - 1];
      if IsDigits(body) then Some(ParseNat(body)) else None
    else None
  }

  /** The ids of the mention tokens, in order. */
  function Mentions(toks: seq<string>): (ids: seq<nat>)
    ensures |ids| <= |toks|
  {
    if toks == [] then []
    else match MentionId(toks[0])
      case Some(id) => [id] + Mentions(toks[1..])
      case None => Mentions(toks[1..])
  }

  predicate IsFlagWord(t: string) {
    Lower(t) == "true" || Lower(t) == "false"
  }

  /** The first token that reads "true" or "false" in any case; "true" when there is none. */
  function FlagToken(toks: seq<string>): (t: string)
    ensures IsFlagWord(t)
    ensures t == "true" || t in toks
  {
    if toks == [] then "true"
    else if IsFlagWord(toks[0]) then toks[0]
    else FlagToken(toks[1..])
  }

  /**
   * The tokeniser of `add_goal` on the tokens of the command: the seconds
   * are the first all-digit token; the name is what comes before it; among
   * the later tokens the first mention is the reward role, the other
   * mentions the required roles, and the first "true"/"false" the
   * weekly-reset flag.
   */
  function ParseTokens(toks: seq<string>): (r: Result<AddGoalArgs, AddGoalError>)
    ensures r == Err(MissingSeconds) <==> forall t :: t in toks ==> !IsDigits(t)
    ensures r.Ok? ==> r.value.name != "" && exists t :: t in toks && IsDigits(t) && ParseNat(t) == r.value.seconds
    ensures r.Ok? ==> r.value.reward.None? ==> r.value.required == []
  {
    match FirstDigits(toks)
    case None => Err(MissingSeconds)
    case Some(k) =>
      var name := GoalName(toks[..k]);
      if name == "" then Err(EmptyName)
      else
        var ms := Mentions(toks[k + 1..]);
        Ok(AddGoalArgs(name, ParseNat(toks[k]),
                       if ms == [] then None else Some(ms[0]),
                       if |ms| > 1 then ms[1..] else [],
                       Lower(FlagToken(toks[k + 1..])) == "true"))
  }

  /** `add_goal`'s parameters, split on whitespace and tokenised. */
  function ParseAddGoal(params: string): Result<AddGoalArgs, AddGoalError> {
    ParseTokens(SplitWs(params))
  }

  /** `",".join(map(str, ids))`, with "" standing for the NULL of an empty list. */
  function RoleCsv(ids: seq<nat>): (csv: string)
    ensures csv == "" <==> ids == []
  {
    if ids == [] then "" else NatToString(ids[0]) + (if |ids| == 1 then "" else "," + RoleCsv(ids[1..]))
  }

  /** The goal row `add_goal` stores for accepted arguments. */
  function GoalOf(id: GoalId, guild: GuildId, a: AddGoalArgs): Goal {
    Goal(id, guild, a.name, a.seconds, a.reward, RoleCsv(a.required), a.resetOn)
  }

  /**
   * `add_goal_cmd`: the search for the seconds token is a loop; an
   * accepted command appends one goal row, a refused one changes nothing.
   */
  method AddGoalCmd(store: Store, guild: GuildId, params: string) returns (r: Result<AddGoalArgs, AddGoalError>)
    requires store.Valid()
    modifies store`goals, store`nextGoalId
    ensures store.Valid()
    ensures r == ParseAddGoal(params)
    ensures r.Ok? ==> store.goals == old(store.goals) + [GoalOf(old(store.nextGoalId), guild, r.value)]
    ensures r.Ok? ==> store.nextGoalId == old(store.nextGoalId) + 1
    ensures r.Err? ==> store.goals == old(store.goals) && store.nextGoalId == old(store.nextGoalId)
  {
    var toks := SplitWs(params);
    var i := 0;
    while i < |toks| && !IsDigits(toks[i])
      invariant 0 <= i <= |toks|
      invariant forall j :: 0 <= j < i ==> !IsDigits(toks[j])
    {
      i := i + 1;
    }
    if i == |toks| {
      assert FirstDigits(toks).None?;
      return Err(MissingSeconds);
    }
    FirstDigitsAt(toks, i);
    var name := GoalName(toks[..i]);
    if name == "" {
      return Err(EmptyName);
    }
    var ms := Mentions(toks[i + 1..]);
    var reward := if ms == [] then None else Some(ms[0]);
    var required := if |ms| > 1 then ms[1..] else [];
    var resetOn := Lower(FlagToken(toks[i + 1..])) == "true";
    r := Ok(AddGoalArgs(name, ParseNat(toks[i]), reward, required, resetOn));
    store.AddGoal(guild, name, ParseNat(toks[i]), reward, RoleCsv(required), resetOn);
  }

  // --- add_goal round trip ---------------------------------------------

  /** The role mention `<@&id>` Discord inserts for a role. */
  function RoleMention(id: nat): string {
    "<@&" + NatToString(id) + ">"
  }

  function RoleMentions(ids: seq<nat>): (ts: seq<string>)
    ensures |ts| == |ids|
    ensures forall i :: 0 <= i < |ids| ==> ts[i] == RoleMention(ids[i])
  {
    if ids == [] then [] else [RoleMention(ids[0])] + RoleMentions(ids[1..])
  }

  /** The tokens after the seconds: the role mentions, then the flag. */
  function Trailer(roles: seq<nat>, flag: string): seq<string> {
    RoleMentions(roles) + [flag]
  }

  /** The command text an administrator types: name tokens, seconds, role mentions, flag. */
  function CommandText(nameToks: seq<string>, seconds: nat, roles: seq<nat>, resetOn: bool): string {
    Join(nameToks + [NatToString(seconds)] + Trailer(roles, if resetOn then "true" else "false"), " ")
  }

  lemma NatToStringToken(n: nat)
    ensures IsToken(NatToString(n))
  {
    var d := NatToString(n);
    assert forall i :: 0 <= i < |d| ==> IsDigit(d[i]);
  }

  lemma RoleMentionId(id: nat)
    ensures IsToken(RoleMention(id)) && !IsDigits(RoleMention(id)) && !IsFlagWord(RoleMention(id))
    ensures MentionId(RoleMention(id)) == Some(id)
  {
    var d := NatToString(id);
    var t := RoleMention(id);
    NatToStringToken(id);
    assert t[..2] == "<@" && t[2] == '&' && t[3..|t| - 1] == d;
    assert forall i :: 0 <= i < |t| ==> !IsSpace(t[i]) by {
      forall i | 0 <= i < |t| ensures !IsSpace(t[i]) {
        if 3 <= i < |t| - 1 { assert t[i] == d[i - 3]; }
      }
    }
    assert !IsDigit(t[0]);
    assert Lower(t)[0] == '<';
    ParseNatToString(id);
  }

  lemma FlagWordParse(flag: string)
    requires flag == "true" || flag == "false"
    ensures IsToken(flag) && IsFlagWord(flag) && MentionId(flag) == None && Lower(flag) == flag
  {
    assert Lower(flag) == flag;
  }

  /** `Mentions` on a token list takes its first token's id, if any, then the rest. */
  lemma MentionsCons(t: string, rest: seq<string>)
    ensures Mentions([t] + rest) == match MentionId(t)
      case Some(id) => [id] + Mentions(rest)
      case None => Mentions(rest)
  {
    assert ([t] + rest)[1..] == rest;
  }

  lemma {:induction false} RoleMentionIds(ids: seq<nat>, flag: string)
    requires flag == "true" || flag == "false"
    ensures Mentions(RoleMentions(ids) + [flag]) == ids
    decreases |ids|
  {
    if ids == [] {
      FlagWordParse(flag);
      MentionsCons(flag, []);
      assert RoleMentions(ids) + [flag] == [flag] + [];
    } else {
      var t, tail := RoleMention(ids[0]), RoleMentions(ids[1..]) + [flag];
      assert RoleMentions(ids) + [flag] == [t] + tail;
      RoleMentionId(ids[0]);
      RoleMentionIds(ids[1..], flag);
      MentionsCons(t, tail);
    }
  }

  lemma {:induction false} RoleMentionsFlag(ids: seq<nat>, flag: string)
    requires flag == "true" || flag == "false"
    ensures FlagToken(RoleMentions(ids) + [flag]) == flag
    decreases |ids|
  {
    var ts := RoleMentions(ids) + [flag];
    if ids == [] {
      FlagWordParse(flag);
      assert ts == [flag];
    } else {
      RoleMentionId(ids[0]);
      assert ts[0] == RoleMention(ids[0]);
      assert ts[1..] == RoleMentions(ids[1..]) + [flag];
      RoleMentionsFlag(ids[1..], flag);
      assert FlagToken(ts) == FlagToken(ts[1..]);
    }
  }

  /** The tokens after the seconds give back the role ids in order and the flag. */
  lemma RoleMentionsParse(ids: seq<nat>, flag: string)
    requires flag == "true" || flag == "false"
    ensures Mentions(RoleMentions(ids) + [flag]) == ids
    ensures FlagToken(RoleMentions(ids) + [flag]) == flag
  {
    RoleMentionIds(ids, flag);
    RoleMentionsFlag(ids, flag);
  }

  lemma {:induction false} RoleMentionsTokens(ids: seq<nat>)
    ensures forall k :: 0 <= k < |ids| ==> IsToken(RoleMentions(ids)[k])
    decreases |ids|
  {
    if ids != [] {
      RoleMentionId(ids[0]);
      RoleMentionsTokens(ids[1..]);
      assert RoleMentions(ids) == [RoleMention(ids[0])] + RoleMentions(ids[1..]);
    }
  }

  /** Tokens joined by spaces neither begin nor end with whitespace. */
  lemma {:induction false} JoinEnds(ts: seq<string>)
    requires ts != [] && forall k :: 0 <= k < |ts| ==> IsToken(ts[k])
    ensures Join(ts, " ") != [] && !IsSpace(Join(ts, " ")[0]) && !IsSpace(Join(ts, " ")[|Join(ts, " ")| - 1])
    decreases |ts|
  {
    assert IsToken(ts[0]);
    if |ts| > 1 {
      JoinEnds(ts[1..]);
    }
  }

  /** Text that neither begins nor ends with whitespace is its own `strip()`. */
  lemma StripEnds(s: string)
    requires s == [] || (!IsSpace(s[0]) && !IsSpace(s[|s| - 1]))
    ensures Strip(s) == s
  {
  }

  /** The typed command splits back into its tokens. */
  lemma CommandTokens(nameToks: seq<string>, seconds: nat, roles: seq<nat>, resetOn: bool)
    requires forall k :: 0 <= k < |nameToks| ==> IsToken(nameToks[k])
    ensures SplitWs(CommandText(nameToks, seconds, roles, resetOn))
      == nameToks + [NatToString(seconds)] + Trailer(roles, if resetOn then "true" else "false")
  {
    var flag := if resetOn then "true" else "false";
    var toks := nameToks + [NatToString(seconds)] + Trailer(roles, flag);
    RoleMentionsTokens(roles);
    FlagWordParse(flag);
    NatToStringToken(seconds);
    assert forall k :: 0 <= k < |toks| ==> IsToken(toks[k]) by {
      forall k | 0 <= k < |toks| ensures IsToken(toks[k]) {
        if k > |nameToks| && k < |toks| - 1 {
          assert toks[k] == RoleMentions(roles)[k - |nameToks| - 1];
        }
      }
    }
    SplitWsJoin(toks);
  }

  /** The name tokens, joined, are the stripped name. */
  lemma NameOfTokens(nameToks: seq<string>)
    requires forall k :: 0 <= k < |nameToks| ==> IsToken(nameToks[k])
    ensures GoalName(nameToks) == Unquote(Join(nameToks, " "))
  {
    if nameToks != [] {
      JoinEnds(nameToks);
    }
    StripEnds(Join(nameToks, " "));
  }

  /** What a typed command is expected to parse to. */
  function Typed(name: string, seconds: nat, roles: seq<nat>, resetOn: bool): Result<AddGoalArgs, AddGoalError> {
    if name == "" then Err(EmptyName)
    else Ok(AddGoalArgs(name, seconds, if roles == [] then None else Some(roles[0]),
                        if |roles| > 1 then roles[1..] else [], resetOn))
  }

  /** An all-digit token with none before it is the one `FirstDigits` finds. */
  lemma FirstDigitsAt(toks: seq<string>, k: nat)
    requires k < |toks| && IsDigits(toks[k])
    requires forall j :: 0 <= j < k ==> !IsDigits(toks[j])
    ensures FirstDigits(toks) == Some(k)
  {
  }

  /** With no digits before it, the first all-digit token is the seconds and splits the command. */
  lemma ParseTokensSplit(pre: seq<string>, d: string, rest: seq<string>)
    requires forall j :: 0 <= j < |pre| ==> !IsDigits(pre[j])
    requires IsDigits(d)
    ensures ParseTokens(pre + [d] + rest)
      == Typed(GoalName(pre), ParseNat(d), Mentions(rest), Lower(FlagToken(rest)) == "true")
  {
    var toks := pre + [d] + rest;
    var k := |pre|;
    assert toks[k] == d;
    assert toks[..k] == pre;
    assert toks[k + 1..] == rest;
    FirstDigitsAt(toks, k);
  }

  lemma ParseTokensOfCommand(nameToks: seq<string>, seconds: nat, roles: seq<nat>, flag: string)
    requires forall k :: 0 <= k < |nameToks| ==> IsToken(nameToks[k]) && !IsDigits(nameToks[k])
    requires flag == "true" || flag == "false"
    ensures ParseTokens(nameToks + [NatToString(seconds)] + Trailer(roles, flag))
      == Typed(Unquote(Join(nameToks, " ")), seconds, roles, flag == "true")
  {
    var rest := Trailer(roles, flag);
    var d := NatToString(seconds);
    ParseTokensSplit(nameToks, d, rest);
    NameOfTokens(nameToks);
    RoleMentionsParse(roles, flag);
    FlagWordParse(flag);
    ParseNatToString(seconds);
  }

  /**
   * Typing a name, the seconds, role mentions and a flag and parsing the
   * result gives back each of them: the name as `Unquote` leaves it, the
   * first role as the reward and the others as the required roles.
   */
  lemma ParseAddGoalRoundTrip(nameToks: seq<string>, seconds: nat, roles: seq<nat>, resetOn: bool)
    requires forall k :: 0 <= k < |nameToks| ==> IsToken(nameToks[k]) && !IsDigits(nameToks[k])
    ensures ParseAddGoal(CommandText(nameToks, seconds, roles, resetOn))
      == Typed(Unquote(Join(nameToks, " ")), seconds, roles, resetOn)
  {
    CommandTokens(nameToks, seconds, roles, resetOn);
    ParseTokensOfCommand(nameToks, seconds, roles, if resetOn then "true" else "false");
  }

  /** A name typed in double quotes is stored without them. */
  lemma UnquoteQuoted(n: string)
    ensures Unquote("\"" + n + "\"") == n
  {
    var q := "\"" + n + "\"";
    assert q[1..|q| - 1] == n;
  }

  /** The decimal numerals of the ids, in order. */
  function Numerals(ids: seq<nat>): (ns: seq<string>)
    ensures |ns| == |ids|
    ensures forall i :: 0 <= i < |ids| ==> ns[i] == NatToString(ids[i])
  {
    if ids == [] then [] else [NatToString(ids[0])] + Numerals(ids[1..])
  }

  /** Splitting the column on commas gives back one numeral per id. */
  lemma {:induction false} SplitRoleCsv(ids: seq<nat>)
    requires ids != []
    ensures SplitOn(RoleCsv(ids), ',') == Numerals(ids)
    decreases |ids|
  {
    var d := NatToString(ids[0]);
    assert ',' !in d by { assert forall x :: x in d ==> IsDigit(x); }
    if |ids| == 1 {
      assert RoleCsv(ids) == d;
      SplitOnNoSep(d, ',');
    } else {
      assert RoleCsv(ids) == d + [','] + RoleCsv(ids[1..]);
      SplitOnSep(d, RoleCsv(ids[1..]), ',');
      SplitRoleCsv(ids[1..]);
    }
  }

  /** The ids as a set of integers. */
  function IdSet(ids: seq<nat>): (r: set<int>)
    ensures forall x :: x in r <==> x >= 0 && x as nat in ids
  {
    set x | x in ids :: x as int
  }

  lemma ParseIdPartsCons(p: string, rest: seq<string>, v: int, vs: set<int>)
    requires PyInt(p) == Some(v) && ParseIdParts(rest) == Some(vs)
    ensures ParseIdParts([p] + rest) == Some({v} + vs)
  {
    assert ([p] + rest)[1..] == rest;
  }

  lemma IdSetCons(ids: seq<nat>)
    requires ids != []
    ensures IdSet(ids) == {ids[0] as int} + IdSet(ids[1..])
  {
    assert forall x :: x in ids <==> x == ids[0] || x in ids[1..];
  }

  lemma {:induction false} ParseIdPartsOfNumerals(ids: seq<nat>)
    ensures ParseIdParts(Numerals(ids)) == Some(IdSet(ids))
    decreases |ids|
  {
    if ids == [] {
      assert IdSet(ids) == {};
    } else {
      var p := NatToString(ids[0]);
      PyIntOfDigits(p);
      ParseNatToString(ids[0]);
      ParseIdPartsOfNumerals(ids[1..]);
      ParseIdPartsCons(p, Numerals(ids[1..]), ids[0], IdSet(ids[1..]));
      IdSetCons(ids);
    }
  }

  /**
   * The required-roles column `add_goal` writes reads back, through the
   * parser of the goal check, as the set of the typed role ids.
   */
  lemma RoleCsvRoundTrip(ids: seq<nat>)
    requires ids != []
    ensures ParseRoleCsv(RoleCsv(ids)) == Some(IdSet(ids))
  {
    SplitRoleCsv(ids);
    ParseIdPartsOfNumerals(ids);
  }

  // ---------------------------------------------------------------------
  // setreset and set_goal_reset
  // ---------------------------------------------------------------------

  /** Why `setreset` refuses its arguments. */
  datatype SetResetError = BadDay | BadTime

  /**
   * `hh, mm = map(int, hora.split(":"))` and the range check: exactly two
   * parts, each an integer, the hour below 24 and the minute below 60;
   * `None` wherever the source replies that the time is invalid.
   */
  function ParseClock(hora: string): (r: Option<(int, int)>)
    ensures r.Some? ==> 0 <= r.value.0 < 24 && 0 <= r.value.1 < 60
  {
    var parts := SplitOn(hora, ':');
    if |parts| != 2 then None
    else match (PyInt(parts[0]), PyInt(parts[1]))
      case (Some(hh), Some(mm)) => if 0 <= hh < 24 && 0 <= mm < 60 then Some((hh, mm)) else None
      case _ => None
  }

  /** `setreset_cmd`: the day first, then the time. */
  function SetResetArgs(dia: string, hora: string): (r: Result<ResetConfig, SetResetError>)
    ensures r == Err(BadDay) <==> ParseDay(dia).None?
    ensures r.Ok? ==> 0 <= r.value.weekday <= 6 && 0 <= r.value.hour < 24 && 0 <= r.value.minute < 60
  {
    match ParseDay(dia)
    case None => Err(BadDay)
    case Some(wd) =>
      match ParseClock(hora)
      case None => Err(BadTime)
      case Some((hh, mm)) => Ok(ResetConfig(wd, hh, mm))
  }

  /** `f"{hh:02d}:{mm:02d}"`, the time as the replies print it. */
  function ClockText(hh: int, mm: int): string {
    Pad2(hh) + ":" + Pad2(mm)
  }

  lemma PaddedNoColon(i: nat)
    ensures ':' !in Pad2(i)
  {
    Pad2RoundTrip(i);
    var t := Pad2(i);
    assert forall x :: x in t ==> IsDigit(x);
  }

  lemma PaddedReads(i: nat)
    ensures PyInt(Pad2(i)) == Some(i)
  {
    Pad2RoundTrip(i);
    PyIntOfDigits(Pad2(i));
  }

  /** Two fields without the separator, joined by it, split back into the two. */
  lemma SplitTwo(a: string, b: string, sep: char)
    requires sep !in a && sep !in b
    ensures SplitOn(a + [sep] + b, sep) == [a, b]
  {
    SplitOnSep(a, b, sep);
    SplitOnNoSep(b, sep);
  }

  /** A printed time splits on its colon into the two padded fields. */
  lemma ClockParts(hh: nat, mm: nat)
    ensures SplitOn(ClockText(hh, mm), ':') == [Pad2(hh), Pad2(mm)]
  {
    PaddedNoColon(hh);
    PaddedNoColon(mm);
    SplitTwo(Pad2(hh), Pad2(mm), ':');
  }

  /** A printed time is accepted back exactly when it is in range. */
  lemma ParseClockText(hh: nat, mm: nat)
    ensures ParseClock(ClockText(hh, mm)) == if hh < 24 && mm < 60 then Some((hh, mm)) else None
  {
    ClockParts(hh, mm);
    PaddedReads(hh);
    PaddedReads(mm);
  }

  /**
   * Every configuration `setreset` can store is accepted again, unchanged,
   * when typed back as its day abbreviation and its printed time.
   */
  lemma SetResetRoundTrip(c: ResetConfig)
    requires 0 <= c.weekday <= 6 && 0 <= c.hour < 24 && 0 <= c.minute < 60
    ensures SetResetArgs(DayKeys[c.weekday], ClockText(c.hour, c.minute)) == Ok(c)
    ensures SetResetArgs([DigitChar(c.weekday)], ClockText(c.hour, c.minute)) == Ok(c)
  {
    ParseDayKey(c.weekday);
    ParseDayDigit(c.weekday);
    ParseClockText(c.hour, c.minute);
  }

  /** `setreset_cmd`: an accepted configuration replaces the guild's, a refused one changes nothing. */
  method SetResetCmd(store: Store, guild: GuildId, dia: string, hora: string) returns (r: Result<ResetConfig, SetResetError>)
    modifies store`resetConfig
    ensures r == SetResetArgs(dia, hora)
    ensures r.Ok? ==> store.resetConfig == old(store.resetConfig)[guild := r.value]
    ensures r.Err? ==> store.resetConfig == old(store.resetConfig)
  {
    r := SetResetArgs(dia, hora);
    if r.Ok? {
      store.SetResetConfig(guild, r.value.weekday, r.value.hour, r.value.minute);
    }
  }

  /** The answers `set_goal_reset` takes for "yes", in lower case. */
  const TruthyWords: set<string> := {"1", "true", "yes", "y", "sim"}

  /** `str(val).lower() in ("1", "true", "yes", "y", "sim")`. */
  predicate GoalResetFlag(val: string) {
    Lower(val) in TruthyWords
  }

  lemma LowerTwice(s: string)
    ensures Lower(Lower(s)) == Lower(s)
  {
    assert forall i :: 0 <= i < |s| ==> LowerChar(LowerChar(s[i])) == LowerChar(s[i]);
  }

  /** The flag does not depend on letter case. */
  lemma GoalResetFlagIgnoresCase(val: string)
    ensures GoalResetFlag(Lower(val)) == GoalResetFlag(val)
  {
    LowerTwice(val);
  }

  /** `set_goal_reset_cmd`: rewrites the flag of an existing goal; an unknown id changes nothing. */
  method SetGoalResetCmd(store: Store, guild: GuildId, goalId: GoalId, val: string) returns (found: bool)
    requires store.Valid()
    modifies store`goals
    ensures store.Valid()
    ensures found == old(store.GetGoal(guild, goalId)).Some?
    ensures !found ==> store.goals == old(store.goals)
    ensures |store.goals| == |old(store.goals)|
    ensures found ==> forall i :: 0 <= i < |store.goals| ==>
      store.goals[i] == if old(store.goals)[i].guild == guild && old(store.goals)[i].id == goalId
                        then old(store.goals)[i].(resetOnWeekly := GoalResetFlag(val)) else old(store.goals)[i]
  {
    found := store.GetGoal(guild, goalId).Some?;
    if found {
      store.UpdateGoalResetFlag(guild, goalId, GoalResetFlag(val));
    }
  }

  // ---------------------------------------------------------------------
  // check_goal
  // ---------------------------------------------------------------------

  /** A guild member as the commands see one. */
  datatype Member = Member(id: UserId, isBot: bool, roles: set<RoleId>, displayName: string)

  /** A line of the goal check: the member and their effective seconds. */
  datatype Entry = Entry(member: Member, seconds: int)

  /**
   * The members the check looks at: no bots, and when the goal lists
   * required roles, only holders of one of them (a column that does not
   * parse skips everyone).
   */
  predicate Considered(m: Member, g: Goal) {
    !m.isBot && RolesOk(g.requiredRolesCsv, m.roles)
  }

  /** `total_time + current_session_time`. */
  function Effective(store: Store, user: UserId, guild: GuildId, now: Instant): (t: int)
    reads store`totals, store`nextGoalId, store`goals, store`sessions, store`lastReset
    requires store.Valid()
    ensures t >= 0
  {
    store.TotalTime(user, guild) + store.CurrentSessionTime(user, guild, now)
  }

  /**
   * The completed and missing lists of `check_goal`, in member order: each
   * considered member lands in the first when the effective time reaches
   * the goal and in the second otherwise.
   */
  function CheckRows(ms: seq<Member>, g: Goal, store: Store, guild: GuildId, now: Instant): (r: (seq<Entry>, seq<Entry>))
    reads store`totals, store`nextGoalId, store`goals, store`sessions, store`lastReset
    requires store.Valid()
    ensures |r.0| + |r.1| <= |ms|
    decreases |ms|
  {
    if ms == [] then ([], [])
    else CheckStep(CheckRows(ms[..|ms| - 1], g, store, guild, now), ms[|ms| - 1], g, store, guild, now)
  }

  /** One member's turn of the check: skipped, or appended to the list its time selects. */
  function CheckStep(prev: (seq<Entry>, seq<Entry>), m: Member, g: Goal, store: Store, guild: GuildId, now: Instant)
    : (r: (seq<Entry>, seq<Entry>))
    reads store`totals, store`nextGoalId, store`goals, store`sessions, store`lastReset
    requires store.Valid()
    ensures |r.0| + |r.1| <= |prev.0| + |prev.1| + 1
  {
    if !Considered(m, g) then prev
    else
      var t := Effective(store, m.id, guild, now);
      if t >= g.secondsRequired then (prev.0 + [Entry(m, t)], prev.1) else (prev.0, prev.1 + [Entry(m, t)])
  }

  lemma CheckRowsSnoc(ms: seq<Member>, i: nat, g: Goal, store: Store, guild: GuildId, now: Instant)
    requires store.Valid() && i < |ms|
    ensures CheckRows(ms[..i + 1], g, store, guild, now) == CheckStep(CheckRows(ms[..i], g, store, guild, now), ms[i], g, store, guild, now)
  {
    assert ms[..i + 1][..i] == ms[..i];
  }

  /**
   * The two lists partition the considered members: each of them is in
   * exactly the list its effective time selects, with that time, and
   * nobody else is listed.
   */
  lemma {:induction false} CheckRowsPartition(ms: seq<Member>, g: Goal, store: Store, guild: GuildId, now: Instant)
    requires store.Valid()
    ensures var r := CheckRows(ms, g, store, guild, now);
      && (forall e :: e in r.0 ==>
            && e.member in ms && Considered(e.member, g)
            && e.seconds == Effective(store, e.member.id, guild, now) && e.seconds >= g.secondsRequired)
      && (forall e :: e in r.1 ==>
            && e.member in ms && Considered(e.member, g)
            && e.seconds == Effective(store, e.member.id, guild, now) && e.seconds < g.secondsRequired)
      && (forall m :: m in ms && Considered(m, g) ==> Entry(m, Effective(store, m.id, guild, now)) in r.0 + r.1)
    decreases |ms|
  {
    if ms != [] {
      CheckRowsPartition(ms[..|ms| - 1], g, store, guild, now);
      assert forall x :: x in ms <==> x in ms[..|ms| - 1] || x == ms[|ms| - 1];
    }
  }

  /** What `check_goal` reports for an existing goal. */
  datatype CheckReport = CheckReport(goal: Goal, completed: seq<Entry>, missing: seq<Entry>)

  /** `check_goal_cmd`: the loop over the members, appending to the two lists. */
  method CheckGoalCmd(store: Store, guild: GuildId, goalId: GoalId, members: seq<Member>, now: Instant)
    returns (r: Option<CheckReport>)
    requires store.Valid()
    ensures r.None? <==> store.GetGoal(guild, goalId).None?
    ensures r.Some? ==>
      && r.value.goal == store.GetGoal(guild, goalId).value
      && (r.value.completed, r.value.missing) == CheckRows(members, r.value.goal, store, guild, now)
  {
    var goal := store.GetGoal(guild, goalId);
    if goal.None? {
      return None;
    }
    var g := goal.value;
    var completed, missing := [], [];
    for i := 0 to |members|
      invariant completed == CheckRows(members[..i], g, store, guild, now).0
      invariant missing == CheckRows(members[..i], g, store, guild, now).1
    {
      var m := members[i];
      CheckRowsSnoc(members, i, g, store, guild, now);
      if m.isBot {
        continue;
      }
      if !RolesOk(g.requiredRolesCsv, m.roles) {
        continue;
      }
      var t := store.TotalTime(m.id, guild) + store.CurrentSessionTime(m.id, guild, now);
      if t >= g.secondsRequired {
        completed := completed + [Entry(m, t)];
      } else {
        missing := missing + [Entry(m, t)];
      }
    }
    assert members[..|members|] == members;
    r := Some(CheckReport(g, completed, missing));
  }

  /** How many lines a list field shows before "... e mais N.". */
  const ListLimit := 25

  /** The first lines of a list field and the number left out. */
  function Shown(lines: seq<string>): (r: (seq<string>, nat))
    ensures |r.0| <= |lines| && r.0 == lines[..|r.0|] && |r.0| + r.1 == |lines|
    ensures |r.0| <= ListLimit && (r.1 > 0 ==> |r.0| == ListLimit)
  {
    if |lines| > ListLimit then (lines[..ListLimit], |lines| - ListLimit) else (lines, 0)
  }

  /** `f"- {member.display_name} ({fmt_hms(effective_time)})"`. */
  function EntryLine(e: Entry): string {
    "- " + e.member.displayName + " (" + FmtHms(Some(e.seconds)) + ")"
  }

  function EntryLines(es: seq<Entry>): (ls: seq<string>)
    ensures |ls| == |es|
  {
    if es == [] then [] else [EntryLine(es[0])] + EntryLines(es[1..])
  }

  /** The text of a list field: the shown lines, then the count of the others when there are any. */
  function FieldText(es: seq<Entry>): string {
    var (shown, more) := Shown(EntryLines(es));
    Join(shown, "\n") + (if more > 0 then "\n... e mais " + NatToString(more) + "." else "")
  }

  /** The longest message the mention list is cut into. */
  const ChunkSize := 1900

  /** The messages laid end to end. */
  function Concat(cs: seq<string>): string {
    if cs == [] then "" else cs[0] + Concat(cs[1..])
  }

  /**
   * `[s[i:i + n] for i in range(0, len(s), n)]`: pieces of `n` characters,
   * the last one possibly shorter, that put back together give `s`.
   */
  function Chunks(s: string, n: nat): (cs: seq<string>)
    requires n > 0
    ensures Concat(cs) == s
    ensures forall k :: 0 <= k < |cs| ==> 0 < |cs[k]| <= n
    ensures forall k :: 0 <= k < |cs| - 1 ==> |cs[k]| == n
    decreases |s|
  {
    if s == [] then []
    else if |s| <= n then [s]
    else
      var rest := Chunks(s[n..], n);
      assert s[..n] + s[n..] == s;
      [s[..n]] + rest
  }

  /** `member.mention`. */
  function UserMention(u: UserId): (t: string)
    ensures t != []
  {
    "<@" + IntToString(u) + ">"
  }

  function MissingMentions(es: seq<Entry>): (ts: seq<string>)
    ensures |ts| == |es|
    ensures forall k :: 0 <= k < |ts| ==> ts[k] != []
  {
    if es == [] then [] else [UserMention(es[0].member.id)] + MissingMentions(es[1..])
  }

  lemma JoinNonEmpty(ts: seq<string>, sep: string)
    requires ts != [] && ts[0] != []
    ensures Join(ts, sep) != []
  {
  }

  const MissingHeader := "**Marcação de quem falta:**\n"

  /**
   * The mention messages of `check_goal`: the members still missing,
   * mentioned in one space-separated string cut into chunks, the first
   * chunk under a header. Nothing is sent when nobody is missing.
   */
  function MentionMessages(missing: seq<Entry>): (msgs: seq<string>)
    ensures msgs == [] <==> missing == []
    ensures msgs != [] ==> Concat(msgs) == MissingHeader + Join(MissingMentions(missing), " ")
    ensures forall k :: 0 < k < |msgs| ==> 0 < |msgs[k]| <= ChunkSize
  {
    if missing == [] then []
    else
      var all := Join(MissingMentions(missing), " ");
      JoinNonEmpty(MissingMentions(missing), " ");
      var cs := Chunks(all, ChunkSize);
      assert Concat(cs) == cs[0] + Concat(cs[1..]);
      assert (MissingHeader + cs[0]) + Concat(cs[1..]) == MissingHeader + (cs[0] + Concat(cs[1..]));
      [MissingHeader + cs[0]] + cs[1..]
  }

  // ---------------------------------------------------------------------
  // notify_goal
  // ---------------------------------------------------------------------

  /** `guild.get_role(reward_role_id) if reward_role_id else None`. */
  function RoleToGive(g: Goal, guildRoles: set<RoleId>): (r: Option<RoleId>)
    ensures r.Some? <==> g.rewardRole.Some? && g.rewardRole.value in guildRoles
    ensures r.Some? ==> r == g.rewardRole
  {
    if g.rewardRole.Some? && g.rewardRole.value in guildRoles then g.rewardRole else None
  }

  /**
   * A member the first loop of `notify_goal` awards: not a bot, not yet
   * holding the reward role, with enough time, and the role grant did not
   * fail.
   */
  predicate Earns(m: Member, role: RoleId, t: int, g: Goal, grantFails: set<UserId>) {
    !m.isBot && role !in m.roles && t >= g.secondsRequired && m.id !in grantFails
  }

  /** The members the first loop awards, in member order. */
  function NewlyAwarded(ms: seq<Member>, role: RoleId, g: Goal, store: Store, guild: GuildId, now: Instant,
                        grantFails: set<UserId>): (us: seq<UserId>)
    reads store`totals, store`nextGoalId, store`goals, store`sessions, store`lastReset
    requires store.Valid()
    ensures |us| <= |ms|
    decreases |ms|
  {
    if ms == [] then []
    else
      var prev := NewlyAwarded(ms[..|ms| - 1], role, g, store, guild, now, grantFails);
      var m := ms[|ms| - 1];
      if Earns(m, role, Effective(store, m.id, guild, now), g, grantFails) then prev + [m.id] else prev
  }

  /** The loop awards exactly the members who earn the goal. */
  lemma {:induction false} NewlyAwardedExactly(ms: seq<Member>, role: RoleId, g: Goal, store: Store, guild: GuildId,
                                              now: Instant, grantFails: set<UserId>)
    requires store.Valid()
    ensures var us := NewlyAwarded(ms, role, g, store, guild, now, grantFails);
      && (forall u :: u in us ==> exists m :: m in ms && m.id == u && Earns(m, role, Effective(store, u, guild, now), g, grantFails))
      && (forall m :: m in ms && Earns(m, role, Effective(store, m.id, guild, now), g, grantFails) ==> m.id in us)
    decreases |ms|
  {
    if ms != [] {
      NewlyAwardedExactly(ms[..|ms| - 1], role, g, store, guild, now, grantFails);
      assert forall x :: x in ms <==> x in ms[..|ms| - 1] || x == ms[|ms| - 1];
    }
  }

  lemma NewlyAwardedSnoc(ms: seq<Member>, i: nat, role: RoleId, g: Goal, store: Store, guild: GuildId, now: Instant,
                         grantFails: set<UserId>)
    requires store.Valid() && i < |ms|
    ensures NewlyAwarded(ms[..i + 1], role, g, store, guild, now, grantFails)
      == NewlyAwarded(ms[..i], role, g, store, guild, now, grantFails)
         + (if Earns(ms[i], role, Effective(store, ms[i].id, guild, now), g, grantFails) then [ms[i].id] else [])
  {
    assert ms[..i + 1][..i] == ms[..i];
  }

  /** `mark_awarded` for each user in turn. */
  function AwardAll(awarded: map<(UserId, GuildId, GoalId), Instant>, us: seq<UserId>, guild: GuildId, goalId: GoalId,
                    now: Instant): map<(UserId, GuildId, GoalId), Instant>
    decreases |us|
  {
    if us == [] then awarded
    else AwardAll(awarded, us[..|us| - 1], guild, goalId, now)[(us[|us| - 1], guild, goalId) := now]
  }

  /**
   * Marking a list of users adds exactly their keys for the goal, each
   * stamped with the run's instant, and leaves every other row as it was.
   */
  lemma {:induction false} AwardAllRows(awarded: map<(UserId, GuildId, GoalId), Instant>, us: seq<UserId>,
                                       guild: GuildId, goalId: GoalId, now: Instant)
    ensures var r := AwardAll(awarded, us, guild, goalId, now);
      && r.Keys == awarded.Keys + (set u | u in us :: (u, guild, goalId))
      && (forall k :: k in awarded && !(k.1 == guild && k.2 == goalId && k.0 in us) ==> r[k] == awarded[k])
      && (forall u :: u in us ==> r[(u, guild, goalId)] == now)
    decreases |us|
  {
    if us != [] {
      AwardAllRows(awarded, us[..|us| - 1], guild, goalId, now);
      assert forall u :: u in us <==> u in us[..|us| - 1] || u == us[|us| - 1];
    }
  }

  /**
   * The first loop of `notify_goal_cmd`: members who reach the goal and do
   * not hold its reward role get it and are marked as awarded. Without a
   * reward role the loop awards nobody.
   */
  method AwardQualified(store: Store, guild: GuildId, goalId: GoalId, g: Goal, members: seq<Member>, now: Instant,
                        role: Option<RoleId>, grantFails: set<UserId>) returns (newly: seq<UserId>)
    requires store.Valid()
    modifies store`awarded
    ensures newly == if role.None? then [] else NewlyAwarded(members, role.value, g, store, guild, now, grantFails)
    ensures store.awarded == AwardAll(old(store.awarded), newly, guild, goalId, now)
  {
    newly := [];
    for i := 0 to |members|
      invariant newly == if role.None? then [] else NewlyAwarded(members[..i], role.value, g, store, guild, now, grantFails)
      invariant store.awarded == AwardAll(old(store.awarded), newly, guild, goalId, now)
    {
      var m := members[i];
      if role.Some? {
        NewlyAwardedSnoc(members, i, role.value, g, store, guild, now, grantFails);
      }
      if m.isBot || (role.Some? && role.value in m.roles) {
        continue;
      }
      var total := store.TotalTime(m.id, guild);
      var current := store.CurrentSessionTime(m.id, guild, now);
      if total + current >= g.secondsRequired && role.Some? && m.id !in grantFails {
        store.MarkAwarded(m.id, guild, goalId, now);
        assert (newly + [m.id])[..|newly|] == newly;
        newly := newly + [m.id];
      }
    }
    assert members[..|members|] == members;
  }

  /** A congratulation sent to the goal-log channel: the winner and their place. */
  datatype WinnerNotice = WinnerNotice(user: UserId, ordinal: nat)

  /**
   * The notices of the second loop: the winner at position i gets ordinal
   * i + 1 when the member is found and the message goes out.
   */
  function Notices(winners: seq<UserId>, present: set<UserId>, sendFails: set<UserId>): (ns: seq<WinnerNotice>)
    ensures |ns| <= |winners|
    decreases |winners|
  {
    if winners == [] then []
    else
      var prev := Notices(winners[..|winners| - 1], present, sendFails);
      var u := winners[|winners| - 1];
      if u in present && u !in sendFails then prev + [WinnerNotice(u, |winners|)] else prev
  }

  /** Each notice names the winner at the position its ordinal gives, and ordinals increase. */
  predicate WellPlaced(ns: seq<WinnerNotice>, winners: seq<UserId>, present: set<UserId>, sendFails: set<UserId>) {
    && (forall k :: 0 <= k < |ns| ==>
          && 1 <= ns[k].ordinal <= |winners| && winners[ns[k].ordinal - 1] == ns[k].user
          && ns[k].user in present && ns[k].user !in sendFails)
    && (forall k, l :: 0 <= k < l < |ns| ==> ns[k].ordinal < ns[l].ordinal)
  }

  lemma {:induction false} NoticesOrdinals(winners: seq<UserId>, present: set<UserId>, sendFails: set<UserId>)
    ensures WellPlaced(Notices(winners, present, sendFails), winners, present, sendFails)
    decreases |winners|
  {
    if winners != [] {
      var w := winners[..|winners| - 1];
      NoticesOrdinals(w, present, sendFails);
      var prev := Notices(w, present, sendFails);
      var u := winners[|winners| - 1];
      forall k | 0 <= k < |prev|
        ensures prev[k].ordinal <= |w| && winners[prev[k].ordinal - 1] == prev[k].user
      {
        assert w[prev[k].ordinal - 1] == prev[k].user;
      }
      if u in present && u !in sendFails {
        var ns := prev + [WinnerNotice(u, |winners|)];
        assert Notices(winners, present, sendFails) == ns;
        forall k | 0 <= k < |ns|
          ensures 1 <= ns[k].ordinal <= |winners| && winners[ns[k].ordinal - 1] == ns[k].user
          ensures ns[k].user in present && ns[k].user !in sendFails
        {
          if k < |prev| { assert ns[k] == prev[k]; }
        }
        forall k, l | 0 <= k < l < |ns|
          ensures ns[k].ordinal < ns[l].ordinal
        {
          assert ns[k] == prev[k];
          if l < |prev| { assert ns[l] == prev[l]; }
        }
      } else {
        assert Notices(winners, present, sendFails) == prev;
      }
    }
  }

  /** Every winner who is found and reached gets the notice with their place. */
  lemma {:induction false} NoticesComplete(winners: seq<UserId>, present: set<UserId>, sendFails: set<UserId>)
    ensures forall i :: 0 <= i < |winners| && winners[i] in present && winners[i] !in sendFails ==>
      WinnerNotice(winners[i], i + 1) in Notices(winners, present, sendFails)
    decreases |winners|
  {
    if winners != [] {
      var w := winners[..|winners| - 1];
      NoticesComplete(w, present, sendFails);
      assert forall i :: 0 <= i < |w| ==> winners[i] == w[i];
    }
  }

  /**
   * The second loop of `notify_goal_cmd`: one notice per winner, counting
   * the ones that went out and the ones that failed (member not found or
   * the send raised).
   */
  method NotifyWinners(winners: seq<UserId>, present: set<UserId>, sendFails: set<UserId>)
    returns (success: nat, fail: nat, notices: seq<WinnerNotice>)
    ensures notices == Notices(winners, present, sendFails)
    ensures success == |notices| && success + fail == |winners|
  {
    success, fail, notices := 0, 0, [];
    for i := 0 to |winners|
      invariant notices == Notices(winners[..i], present, sendFails)
      invariant success == |notices| && success + fail == i
    {
      var u := winners[i];
      assert winners[..i + 1][..i] == winners[..i];
      if u !in present {
        fail := fail + 1;
        continue;
      }
      if u in sendFails {
        fail := fail + 1;
      } else {
        notices := notices + [WinnerNotice(u, i + 1)];
        success := success + 1;
      }
    }
    assert winners[..|winners|] == winners;
  }

  // ---------------------------------------------------------------------
  // historico / fixar_historico / desafixar_historico
  // ---------------------------------------------------------------------

  /** The position of the first stored date that starts with the typed text. */
  function FirstWithPrefix(dates: seq<string>, data: string): (r: Option<nat>)
    ensures r.Some? ==> r.value < |dates| && StartsWith(dates[r.value], data)
    ensures r.Some? ==> forall j :: 0 <= j < r.value ==> !StartsWith(dates[j], data)
    ensures r.None? ==> forall j :: 0 <= j < |dates| ==> !StartsWith(dates[j], data)
  {
    if dates == [] then None
    else if StartsWith(dates[0], data) then Some(0)
    else match FirstWithPrefix(dates[1..], data)
      case None => None
      case Some(i) => Some(i + 1)
  }

  /** `next((d for d in dates if d.startswith(data)), None)`, as the pin commands look a week up. */
  function FindDate(dates: seq<string>, data: string): Option<string> {
    match FirstWithPrefix(dates, data)
    case None => None
    case Some(i) => Some(dates[i])
  }

  /** The loop of `history_cmd` with its `break`: the same first match. */
  method HistoryTarget(dates: seq<string>, data: string) returns (r: Option<string>)
    ensures r == FindDate(dates, data)
  {
    r := None;
    var i := 0;
    while i < |dates|
      invariant 0 <= i <= |dates|
      invariant forall j :: 0 <= j < i ==> !StartsWith(dates[j], data)
    {
      if StartsWith(dates[i], data) {
        assert FirstWithPrefix(dates, data) == Some(i);
        return Some(dates[i]);
      }
      i := i + 1;
    }
  }
}
