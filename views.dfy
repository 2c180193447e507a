/**
 * utils/views.py: the `RankingView` under a `top_tempo` reply. Its page
 * moves one step per button press within `1..total_pages`; the previous
 * and next buttons are disabled at the ends, the middle button shows
 * "page / total", and every button is disabled when the view times out.
 * Each press that changes the page redraws the leaderboard card for it.
 */
module Views {
  import opened Wrappers
  import opened Text
  import opened Database
  import opened ImageGenerator
  import opened GeneralCommands

  /** The middle button's label, `f"{page} / {total_pages}"`. */
  function PageLabel(page: int, total: int): string {
    Join([IntToString(page), "/", IntToString(total)], " ")
  }

  lemma PyIntOfNatString(i: nat)
    ensures PyInt(NatToString(i)) == Some(i)
  {
    PyIntOfDigits(NatToString(i));
    ParseNatToString(i);
  }

  lemma NatStringToken(i: nat)
    ensures IntToString(i) == NatToString(i) && IsToken(NatToString(i))
  {
    var d := NatToString(i);
    assert forall k :: 0 <= k < |d| ==> IsDigit(d[k]);
  }

  /** The label of a view on pages counted from 1 reads back as the page and the page count. */
  lemma PageLabelReads(page: nat, total: nat)
    ensures |SplitWs(PageLabel(page, total))| == 3
    ensures PyInt(SplitWs(PageLabel(page, total))[0]) == Some(page)
    ensures PyInt(SplitWs(PageLabel(page, total))[2]) == Some(total)
  {
    PyIntOfNatString(page);
    PyIntOfNatString(total);
    NatStringToken(page);
    NatStringToken(total);
    SplitWsJoin([IntToString(page), "/", IntToString(total)]);
  }

  /** The page after a press of "previous". */
  function PrevPage(page: int): int {
    if page > 1 then page - 1 else page
  }

  /** The page after a press of "next". */
  function NextPage(page: int, total: int): int {
    if page < total then page + 1 else page
  }

  /** Away from the ends, "previous" undoes "next" and "next" undoes "previous". */
  lemma PrevUndoesNext(page: int, total: int)
    ensures 1 <= page < total ==> PrevPage(NextPage(page, total)) == page
    ensures 1 < page <= total ==> NextPage(PrevPage(page), total) == page
  {
  }

  /** The page after `k` presses of "next" from `page`. */
  function NextTimes(page: int, total: int, k: nat): int
    decreases k
  {
    if k == 0 then page else NextTimes(NextPage(page, total), total, k - 1)
  }

  /** From page 1, `k` presses of "next" reach page `min(1 + k, total)`: every page is reachable. */
  lemma {:induction false} NextTimesFrom(page: int, total: int, k: nat)
    requires 1 <= page <= total
    ensures NextTimes(page, total, k) == if page + k < total then page + k else total
    decreases k
  {
    if k > 0 {
      NextTimesFrom(NextPage(page, total), total, k - 1);
    }
  }

  /**
   * Every page the view can be on, for a non-empty ranking, draws at
   * least one row of it.
   */
  lemma EveryPageDrawsRows(n: nat, page: int)
    requires n > 0 && 1 <= page <= TotalPages(n)
    ensures Layout(n, page) != []
  {
    PagesWithRows(n, page);
    var j :| 0 <= j < n && OnPage(j, page);
    if page == 1 {
      PageOneRows(n);
    } else {
      LaterPageRows(n, page);
    }
  }

  class RankingView {
    /** The ranking rows the view pages through. */
    const rows: seq<(UserId, int)>
    const totalPages: int
    var page: int
    /** `children[0]`, `children[1]` and `children[2]`: previous, page display, next. */
    var prevDisabled: bool
    var displayDisabled: bool
    var nextDisabled: bool
    var pageText: string

    /** The buttons as `update_buttons` sets them for the current page. */
    predicate Synced()
      reads this`page, this`prevDisabled, this`nextDisabled, this`pageText
    {
      && prevDisabled == (page == 1)
      && nextDisabled == (page == totalPages)
      && pageText == PageLabel(page, totalPages)
    }

    /** The page is one of the view's pages. */
    predicate InRange()
      reads this`page
    {
      1 <= page <= totalPages
    }

    /** The card drawn for the current page. */
    function Card(): seq<Placement>
      reads this`page
    {
      Layout(|rows|, page)
    }

    constructor (rows: seq<(UserId, int)>, totalPages: int)
      ensures this.rows == rows && this.totalPages == totalPages && page == 1
      ensures Synced() && displayDisabled
      ensures totalPages >= 1 ==> InRange()
    {
      this.rows := rows;
      this.totalPages := totalPages;
      page := 1;
      displayDisabled := true;
      new;
      UpdateButtons();
    }

    /** `update_buttons`. */
    method UpdateButtons()
      modifies this`prevDisabled, this`nextDisabled, this`pageText
      ensures Synced()
    {
      prevDisabled := page == 1;
      nextDisabled := page == totalPages;
      pageText := PageLabel(page, totalPages);
    }

    /**
     * `previous_button`: one page back when not on the first, then the
     * buttons and the card for the new page; otherwise nothing happens.
     */
    method Previous() returns (shown: Option<seq<Placement>>)
      modifies this`page, this`prevDisabled, this`nextDisabled, this`pageText
      ensures page == PrevPage(old(page))
      ensures old(page) > 1 ==> Synced() && shown == Some(Card())
      ensures old(page) <= 1 ==> shown == None && unchanged(this)
      ensures old(InRange()) ==> InRange()
    {
      if page > 1 {
        page := page - 1;
        UpdateButtons();
        return Some(Card());
      }
      return None;
    }

    /**
     * `next_button`: one page on when not on the last, then the buttons
     * and the card for the new page; otherwise nothing happens.
     */
    method Next() returns (shown: Option<seq<Placement>>)
      modifies this`page, this`prevDisabled, this`nextDisabled, this`pageText
      ensures page == NextPage(old(page), totalPages)
      ensures old(page) < totalPages ==> Synced() && shown == Some(Card())
      ensures old(page) >= totalPages ==> shown == None && unchanged(this)
      ensures old(InRange()) ==> InRange()
    {
      if page < totalPages {
        page := page + 1;
        UpdateButtons();
        return Some(Card());
      }
      return None;
    }

    /** `on_timeout`: every button disabled; the page and label stay. */
    method OnTimeout()
      modifies this`prevDisabled, this`displayDisabled, this`nextDisabled
      ensures prevDisabled && displayDisabled && nextDisabled
      ensures page == old(page) && pageText == old(pageText)
    {
      prevDisabled, displayDisabled, nextDisabled := true, true, true;
    }
  }
}
