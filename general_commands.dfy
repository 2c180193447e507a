/**
 * The member commands of cogs/general_commands.py: `top_tempo`, which
 * replies with the first leaderboard page and the number of pages the
 * navigation buttons walk through, and the goal list `tempo` hands to
 * the stats card.
 */
module GeneralCommands {
  import opened Wrappers
  import opened Database
  import opened ImageGenerator

  // ---------------------------------------------------------------------
  // top_tempo
  // ---------------------------------------------------------------------

  /**
   * `total_pages`: one page up to nine rows (podium and list), then one
   * more page per started twenty rows.
   */
  function TotalPages(n: nat): (p: nat)
    ensures p >= 1
  {
    if n <= 9 then 1 else 1 + (n - 9 + PerPage - 1) / PerPage
  }

  /** The page the row with index `j` is drawn on. */
  function PageOf(j: nat): (p: nat)
    ensures p >= 1 && OnPage(j, p)
  {
    if j < 9 then 1 else 2 + (j - 9) / PerPage
  }

  /**
   * Every row of an `n`-row ranking is drawn on exactly one of the pages
   * `1..TotalPages(n)`.
   */
  lemma RowOnOnePage(n: nat, j: nat)
    requires j < n
    ensures 1 <= PageOf(j) <= TotalPages(n)
    ensures forall p :: OnPage(j, p) ==> p == PageOf(j)
  {
    if j >= 9 {
      var q := (j - 9) / 20;
      assert 20 * q <= j - 9 < 20 * q + 20;
      var k := (n - 9 + 19) / 20;
      assert 20 * k <= n - 9 + 19 < 20 * k + 20;
      assert TotalPages(n) == 1 + k;
    }
  }

  /** The last page is not blank: it draws at least one row. */
  lemma LastPageDrawsARow(n: nat)
    requires n > 0
    ensures exists j :: 0 <= j < n && OnPage(j, TotalPages(n))
  {
    if n <= 9 {
      assert TotalPages(n) == 1 && OnPage(0, 1);
    } else {
      var k := (n - 9 + 19) / 20;
      assert 20 * k <= n - 9 + 19 < 20 * k + 20;
      assert TotalPages(n) == k + 1 && k >= 1;
      var j := 9 + (k - 1) * 20;
      assert 0 <= j < n && OnPage(j, k + 1);
    }
  }

  /**
   * With at least one row, the pages from 1 on that draw some row are
   * exactly the first `TotalPages(n)`.
   */
  lemma PagesWithRows(n: nat, p: int)
    requires n > 0 && p >= 1
    ensures (exists j :: 0 <= j < n && OnPage(j, p)) <==> p <= TotalPages(n)
  {
    if j :| 0 <= j < n && OnPage(j, p) {
      RowOnOnePage(n, j);
    }
    if p <= TotalPages(n) {
      LastPageDrawsARow(n);
      var last :| 0 <= last < n && OnPage(last, TotalPages(n));
      if p == 1 {
        assert OnPage(0, 1);
      } else {
        var j := 9 + (p - 2) * 20;
        assert 9 + (TotalPages(n) - 2) * 20 <= last;
        assert 0 <= j < n && OnPage(j, p);
      }
    }
  }

  /** The reply of `top_tempo`. */
  datatype TopReply =
    | NoRanking
    | Ranking(rows: seq<(UserId, int)>, totalPages: nat, firstPage: seq<Placement>)

  /**
   * `top_tempo_cmd`: the guild's totals in ranking order; no card when
   * nobody has time yet, otherwise page one and the page count.
   */
  function TopTempo(totals: map<(UserId, GuildId), int>, guild: GuildId): (r: TopReply)
    ensures r.NoRanking? <==> forall k :: k in totals ==> k.1 != guild
    ensures r.Ranking? ==> r.rows == RankingRows(totals, guild) && r.totalPages == TotalPages(|r.rows|)
    ensures r.Ranking? ==> forall i :: 0 <= i < |r.rows| ==> (r.rows[i].0, guild) in totals
  {
    var rows := RankingRows(totals, guild);
    var users := GuildUsers(totals, guild);
    if rows == [] then
      assert users == {};
      NoRanking
    else
      Ranking(rows, TotalPages(|rows|), Layout(|rows|, 1))
  }

  // ---------------------------------------------------------------------
  // tempo
  // ---------------------------------------------------------------------

  /**
   * The goal list `tempo_cmd` builds: the guild's goals in `list_goals`
   * order, each with whether the user already has it.
   */
  function GoalCards(store: Store, user: UserId, guild: GuildId): (cs: seq<GoalCard>)
    reads store`goals, store`awarded
    ensures |cs| == |store.ListGoals(guild)|
    ensures forall i :: 0 <= i < |cs| ==> var g := store.ListGoals(guild)[i];
      cs[i] == GoalCard(g.id, g.name, g.secondsRequired, store.HasAwarded(user, guild, g.id))
  {
    var gs, awarded := store.ListGoals(guild), store.awarded;
    seq(|gs|, i requires 0 <= i < |gs| =>
      GoalCard(gs[i].id, gs[i].name, gs[i].secondsRequired, (user, guild, gs[i].id) in awarded))
  }

  /** A goal of the guild that the user has not been awarded. */
  predicate OpenGoal(store: Store, user: UserId, guild: GuildId, g: Goal)
    reads store`goals, store`awarded
  {
    g in store.goals && g.guild == guild && !store.HasAwarded(user, guild, g.id)
  }

  /** An open goal has a card, not marked awarded, at its place in `list_goals` order. */
  lemma OpenGoalAt(store: Store, user: UserId, guild: GuildId, h: Goal) returns (k: nat)
    requires OpenGoal(store, user, guild, h)
    ensures k < |GoalCards(store, user, guild)| && store.ListGoals(guild)[k] == h
    ensures !GoalCards(store, user, guild)[k].awarded
  {
    var gs := store.ListGoals(guild);
    assert h in gs;
    k :| 0 <= k < |gs| && gs[k] == h;
  }

  /** The stats card shows no next goal exactly when the user has every goal of the guild. */
  lemma NoNextGoal(store: Store, user: UserId, guild: GuildId)
    ensures NextGoal(Some(GoalCards(store, user, guild))).None?
        <==> forall g :: !OpenGoal(store, user, guild, g)
  {
    var cs := GoalCards(store, user, guild);
    if NextGoal(Some(cs)).None? {
      forall g | OpenGoal(store, user, guild, g)
        ensures false
      {
        var k := OpenGoalAt(store, user, guild, g);
      }
    } else {
      var i := FirstOpen(cs);
      var g := store.ListGoals(guild)[i];
      assert OpenGoal(store, user, guild, g);
    }
  }

  /**
   * The stats card's next goal is one of the guild's goals the user does
   * not have, needing no more seconds than any other such goal.
   */
  lemma NextGoalIsCheapestOpen(store: Store, user: UserId, guild: GuildId)
    requires NextGoal(Some(GoalCards(store, user, guild))).Some?
    ensures exists g :: (&& OpenGoal(store, user, guild, g)
                         && NextGoal(Some(GoalCards(store, user, guild))).value == GoalCard(g.id, g.name, g.secondsRequired, false)
                         && forall h :: OpenGoal(store, user, guild, h) ==> g.secondsRequired <= h.secondsRequired)
  {
    var gs := store.ListGoals(guild);
    var cs := GoalCards(store, user, guild);
    var i := FirstOpen(cs);
    var g := gs[i];
    assert g in gs;
    forall h | OpenGoal(store, user, guild, h)
      ensures g.secondsRequired <= h.secondsRequired
    {
      var k := OpenGoalAt(store, user, guild, h);
      assert i <= k;
    }
    assert OpenGoal(store, user, guild, g);
  }
}
