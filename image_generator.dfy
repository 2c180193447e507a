/**
 * The arithmetic of utils/image_generator.py: the long time format of the
 * leaderboard card, where each ranking row is placed on a leaderboard page
 * (podium, two-column list, or the twenty-per-page list of later pages),
 * and which goal the stats card shows as the next one. Fonts, pixels,
 * avatars and the canvas are not modelled; a placement names the row
 * index and the slot it is drawn in.
 */
module ImageGenerator {
  import opened Wrappers
  import opened Text
  import opened Database

  // ---------------------------------------------------------------------
  // fmt_hms_long
  // ---------------------------------------------------------------------

  datatype Dhms = Dhms(d: int, h: nat, m: nat, s: nat)

  /**
   * The three `divmod` steps by 86400, 3600 and 60 (floor division by a
   * positive divisor, which Dafny's `/` and `%` agree with).
   */
  function Split(sec: int): (r: Dhms)
    ensures r.h < 24 && r.m < 60 && r.s < 60
    ensures r.d * 86400 + r.h * 3600 + r.m * 60 + r.s == sec
    ensures sec >= 0 ==> (r.d > 0 <==> sec >= 86400)
  {
    var d, rest := sec / 86400, sec % 86400;
    var h, rest2 := rest / 3600, rest % 3600;
    Dhms(d, h, rest2 / 60, rest2 % 60)
  }

  /** One field of the long format: a number and its unit letter. */
  function Field(v: nat, unit: char): string {
    NatToString(v) + [unit]
  }

  /** `fmt_hms_long`: "Dd Hh Mm" from one day up, else "Hh Mm Ss", else "Mm Ss". */
  function FmtHmsLong(sec: int): string {
    var t := Split(sec);
    if t.d > 0 then Join([Field(t.d, 'd'), Field(t.h, 'h'), Field(t.m, 'm')], " ")
    else if t.h > 0 then Join([Field(t.h, 'h'), Field(t.m, 'm'), Field(t.s, 's')], " ")
    else Join([Field(t.m, 'm'), Field(t.s, 's')], " ")
  }

  /** Seconds per unit letter of the long format. */
  function UnitValue(u: char): Option<nat> {
    if u == 'd' then Some(86400)
    else if u == 'h' then Some(3600)
    else if u == 'm' then Some(60)
    else if u == 's' then Some(1)
    else None
  }

  /** The seconds one field of the long format stands for. */
  function FieldSeconds(t: string): Option<int> {
    if |t| >= 2 && IsDigits(t[..|t| - 1]) && UnitValue(t[|t| - 1]).Some? then
      Some(ParseNat(t[..|t| - 1]) * UnitValue(t[|t| - 1]).value)
    else None
  }

  function FieldsSeconds(ts: seq<string>): Option<int>
    decreases |ts|
  {
    if ts == [] then Some(0)
    else match (FieldSeconds(ts[0]), FieldsSeconds(ts[1..]))
      case (Some(a), Some(b)) => Some(a + b)
      case _ => None
  }

  /** A reader of the long format: the sum of its fields. */
  function ReadLong(text: string): Option<int> {
    FieldsSeconds(SplitWs(text))
  }

  lemma FieldReads(v: nat, u: char)
    requires UnitValue(u).Some?
    ensures IsToken(Field(v, u))
    ensures FieldSeconds(Field(v, u)) == Some(v * UnitValue(u).value)
  {
    var f := Field(v, u);
    assert f[..|f| - 1] == NatToString(v);
    assert forall i :: 0 <= i < |f| ==> IsDigit(f[i]) || f[i] == u;
    ParseNatToString(v);
  }

  lemma ReadTwo(a: nat, ua: char, b: nat, ub: char)
    requires UnitValue(ua).Some? && UnitValue(ub).Some?
    ensures ReadLong(Join([Field(a, ua), Field(b, ub)], " "))
         == Some(a * UnitValue(ua).value + b * UnitValue(ub).value)
  {
    FieldReads(a, ua);
    FieldReads(b, ub);
    var fs := [Field(a, ua), Field(b, ub)];
    SplitWsJoin(fs);
    assert FieldsSeconds(fs[1..]) == Some(b * UnitValue(ub).value);
  }

  lemma ReadThree(a: nat, ua: char, b: nat, ub: char, c: nat, uc: char)
    requires UnitValue(ua).Some? && UnitValue(ub).Some? && UnitValue(uc).Some?
    ensures ReadLong(Join([Field(a, ua), Field(b, ub), Field(c, uc)], " "))
         == Some(a * UnitValue(ua).value + b * UnitValue(ub).value + c * UnitValue(uc).value)
  {
    FieldReads(a, ua);
    FieldReads(b, ub);
    FieldReads(c, uc);
    var fs := [Field(a, ua), Field(b, ub), Field(c, uc)];
    SplitWsJoin(fs);
    assert FieldsSeconds(fs[2..]) == Some(c * UnitValue(uc).value);
    assert FieldsSeconds(fs[1..]) == Some(b * UnitValue(ub).value + c * UnitValue(uc).value);
  }

  lemma MinuteRemainder(x: int, q: int, r: nat)
    requires x == 60 * q + r && r < 60
    ensures x % 60 == r
  {
  }

  /**
   * Reading the long format back gives the seconds it was made from,
   * except that from one day up the seconds are not shown.
   */
  lemma FmtHmsLongReads(sec: int)
    requires sec >= 0
    ensures ReadLong(FmtHmsLong(sec)) == Some(if sec >= 86400 then sec - sec % 60 else sec)
  {
    var t := Split(sec);
    if t.d > 0 {
      LongDaysReads(sec);
    } else if t.h > 0 {
      LongHoursReads(sec);
    } else {
      LongMinutesReads(sec);
    }
  }

  /** From one day up the text is "Dd Hh Mm", worth the seconds less the dropped ones. */
  lemma LongDaysReads(sec: int)
    requires Split(sec).d > 0
    ensures ReadLong(FmtHmsLong(sec)) == Some(sec - sec % 60)
  {
    var t := Split(sec);
    MinuteRemainder(sec, t.d * 1440 + t.h * 60 + t.m, t.s);
    assert FmtHmsLong(sec) == Join([Field(t.d, 'd'), Field(t.h, 'h'), Field(t.m, 'm')], " ");
    ReadThree(t.d, 'd', t.h, 'h', t.m, 'm');
  }

  /** Below one day, from one hour up, the text is "Hh Mm Ss", worth the seconds. */
  lemma LongHoursReads(sec: int)
    requires sec >= 0 && Split(sec).d <= 0 && Split(sec).h > 0
    ensures ReadLong(FmtHmsLong(sec)) == Some(sec)
  {
    var t := Split(sec);
    assert FmtHmsLong(sec) == Join([Field(t.h, 'h'), Field(t.m, 'm'), Field(t.s, 's')], " ");
    ReadThree(t.h, 'h', t.m, 'm', t.s, 's');
  }

  /** Below one hour the text is "Mm Ss", worth the seconds. */
  lemma LongMinutesReads(sec: int)
    requires sec >= 0 && Split(sec).d <= 0 && Split(sec).h <= 0
    ensures ReadLong(FmtHmsLong(sec)) == Some(sec)
  {
    var t := Split(sec);
    assert FmtHmsLong(sec) == Join([Field(t.m, 'm'), Field(t.s, 's')], " ");
    ReadTwo(t.m, 'm', t.s, 's');
  }

  // ---------------------------------------------------------------------
  // gerar_leaderboard_card
  // ---------------------------------------------------------------------

  /** `PER_COL` and `PER_PAGE` of the later pages. */
  const PerCol := 10
  const PerPage := 2 * PerCol

  /** Where a row is drawn: one of the three podium places, or a list cell. */
  datatype Slot = Podium(place: nat) | Cell(col: nat, line: nat)

  /** A row index drawn in a slot, with the `#rank` label of the later pages. */
  datatype Placement = Placement(index: int, slot: Slot, rank: Option<int>)

  /** `podium_slots_mapping`: the winner in the middle, second left, third right. */
  function PodiumRow(place: nat): nat
    requires place < 3
  {
    if place == 0 then 1 else if place == 1 then 0 else 2
  }

  /** The podium places `place..2` whose row exists. */
  function PodiumFrom(place: nat, n: nat): seq<Placement>
    requires place <= 3
    decreases 3 - place
  {
    if place == 3 then []
    else
      var rest := PodiumFrom(place + 1, n);
      if PodiumRow(place) < n then [Placement(PodiumRow(place), Podium(place), None)] + rest else rest
  }

  /** The page-one list cell of row `i` (3..8): three per column. */
  function ListCell(i: nat): Slot
    requires 3 <= i
  {
    Cell(if i - 3 < 3 then 0 else 1, (i - 3) % 3)
  }

  /** Rows `i..8` of the page-one list that exist. */
  function ListFrom(i: nat, n: nat): seq<Placement>
    requires 3 <= i <= 9
    decreases 9 - i
  {
    if i == 9 || i >= n then [] else [Placement(i, ListCell(i), None)] + ListFrom(i + 1, n)
  }

  /** `start_rank` of a later page. */
  function PageStart(page: int): int {
    9 + (page - 2) * PerPage
  }

  /** The row indices of an `n`-row ranking. */
  function Indices(n: nat): (ix: seq<int>)
    ensures |ix| == n && forall k :: 0 <= k < n ==> ix[k] == k
  {
    seq(n, k => k)
  }

  /**
   * What `gerar_leaderboard_card(rows, guild, page)` draws for a ranking
   * of `n` rows: on page one the podium and rows 3..8; on any other page
   * the slice `rows[start_rank:start_rank + 20]`, entry `i` in column
   * `i // 10`, line `i % 10`, labelled `#start_rank + i + 1`.
   */
  function Layout(n: nat, page: int): seq<Placement> {
    if page == 1 then PodiumFrom(0, n) + ListFrom(3, n)
    else
      var start := PageStart(page);
      var display := PySlice(Indices(n), start, start + PerPage);
      seq(|display|, i requires 0 <= i < |display| =>
        Placement(display[i], Cell(i / PerCol, i % PerCol), Some(start + i + 1)))
  }

  /** Row `j` belongs to page `page` (at least 1) of the ranking. */
  predicate OnPage(j: int, page: int) {
    if page == 1 then 0 <= j < 9 else PageStart(page) <= j < PageStart(page) + PerPage
  }

  lemma {:induction false} PodiumRows(place: nat, n: nat)
    requires place <= 3
    ensures forall p :: p in PodiumFrom(place, n) ==>
      && p.rank.None? && p.slot.Podium? && place <= p.slot.place < 3
      && p.index == PodiumRow(p.slot.place) < n
    ensures forall k :: place <= k < 3 && PodiumRow(k) < n ==> Placement(PodiumRow(k), Podium(k), None) in PodiumFrom(place, n)
    decreases 3 - place
  {
    if place < 3 {
      PodiumRows(place + 1, n);
    }
  }

  lemma {:induction false} ListRows(i: nat, n: nat)
    requires 3 <= i <= 9
    ensures forall p :: p in ListFrom(i, n) ==> p.rank.None? && i <= p.index < 9 && p.index < n && p.slot == ListCell(p.index)
    ensures forall k :: i <= k < 9 && k < n ==> Placement(k, ListCell(k), None) in ListFrom(i, n)
    decreases 9 - i
  {
    if i < 9 && i < n {
      ListRows(i + 1, n);
    }
  }

  /** The podium places and list cells of page one hold distinct rows. */
  lemma ListCellsDistinct(i: nat, k: nat)
    requires 3 <= i < k < 9
    ensures ListCell(i) != ListCell(k)
  {
  }

  /** Every row drawn on page one is among its first nine rows. */
  lemma PageOneDrawn(n: nat)
    ensures forall p :: p in Layout(n, 1) ==> p.rank.None? && 0 <= p.index < n && OnPage(p.index, 1)
  {
    PodiumRows(0, n);
    ListRows(3, n);
  }

  /** Every one of the first nine rows that exists is drawn on page one. */
  lemma PageOneCovers(n: nat, j: int)
    requires 0 <= j < n && OnPage(j, 1)
    ensures exists p :: p in Layout(n, 1) && p.index == j
  {
    if j < 3 {
      PodiumRows(0, n);
      var k := if j == 0 then 1 else if j == 1 then 0 else 2;
      assert Placement(PodiumRow(k), Podium(k), None) in PodiumFrom(0, n);
    } else {
      ListRows(3, n);
      assert Placement(j, ListCell(j), None) in ListFrom(3, n);
    }
  }

  /** The rows drawn on page one are exactly the first nine that exist. */
  lemma PageOneRows(n: nat)
    ensures forall j :: (exists p :: p in Layout(n, 1) && p.index == j) <==> 0 <= j < n && OnPage(j, 1)
    ensures forall p :: p in Layout(n, 1) ==> p.rank.None?
  {
    PageOneDrawn(n);
    forall j | 0 <= j < n && OnPage(j, 1)
      ensures exists p :: p in Layout(n, 1) && p.index == j
    {
      PageOneCovers(n, j);
    }
  }

  /** The winner of the ranking is drawn in the middle podium place. */
  lemma WinnerInMiddle(n: nat)
    requires n > 0
    ensures Placement(0, Podium(1), None) in Layout(n, 1)
  {
    PodiumRows(0, n);
  }

  /**
   * The rows drawn on a later page are exactly its rows that exist, each
   * labelled with its true rank, in distinct cells of the two columns of
   * ten.
   */
  lemma LaterPageRows(n: nat, page: int)
    requires page >= 2
    ensures forall j :: (exists p :: p in Layout(n, page) && p.index == j) <==> 0 <= j < n && OnPage(j, page)
    ensures forall p :: p in Layout(n, page) ==> p.rank == Some(p.index + 1)
    ensures forall p :: p in Layout(n, page) ==> p.slot.Cell? && p.slot.col < 2 && p.slot.line < PerCol
    ensures forall a, b :: 0 <= a < b < |Layout(n, page)| ==>
      Layout(n, page)[a].slot != Layout(n, page)[b].slot && Layout(n, page)[a].index != Layout(n, page)[b].index
  {
    var start := PageStart(page);
    var display := PySlice(Indices(n), start, start + PerPage);
    var lo, hi := PyIndex(start, n), PyIndex(start + PerPage, n);
    assert lo == if start > n then n else start;
    assert |display| <= PerPage;
    assert forall i :: 0 <= i < |display| ==> display[i] == start + i;
    var l := Layout(n, page);
    forall j | 0 <= j < n && OnPage(j, page)
      ensures exists p :: p in l && p.index == j
    {
      assert l[j - start] in l;
    }
    forall a, b | 0 <= a < b < |l|
      ensures l[a].slot != l[b].slot
    {
      assert a / PerCol != b / PerCol || a % PerCol != b % PerCol;
    }
  }

  // ---------------------------------------------------------------------
  // gerar_stats_card
  // ---------------------------------------------------------------------

  /** One entry of the `goals` list the stats card receives. */
  datatype GoalCard = GoalCard(id: GoalId, name: string, required: int, awarded: bool)

  /** The position of the first goal not yet awarded. */
  function FirstOpen(gs: seq<GoalCard>): (i: nat)
    ensures i <= |gs|
    ensures forall k :: 0 <= k < i ==> gs[k].awarded
    ensures i < |gs| ==> !gs[i].awarded
    decreases |gs|
  {
    if gs == [] || !gs[0].awarded then 0 else 1 + FirstOpen(gs[1..])
  }

  /**
   * `next((g for g in goals if not g.get('awarded')), None)` when `goals`
   * is a list, and `None` otherwise.
   */
  function NextGoal(goals: Option<seq<GoalCard>>): (r: Option<GoalCard>)
    ensures r.None? <==> goals.None? || forall k :: 0 <= k < |goals.value| ==> goals.value[k].awarded
    ensures r.Some? ==> !r.value.awarded && exists i :: (0 <= i < |goals.value| && goals.value[i] == r.value
                                                         && forall k :: 0 <= k < i ==> goals.value[k].awarded)
  {
    match goals
    case None => None
    case Some(gs) =>
      var i := FirstOpen(gs);
      if i < |gs| then Some(gs[i]) else None
  }
}
