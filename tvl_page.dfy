/**
 * The rules `TVLUpdater` applies to one TVL match page (updateTVL.py).
 *
 * HTML parsing is abstracted away: a `Page` holds the text of the fragments the
 * scraper locates with its CSS selectors (`None` where a selector finds nothing),
 * and every rule below works on those texts exactly as the Python code does.
 */
module TvlPage {
  import opened Common
  import opened Text

  // ---------------------------------------------------------------------------
  // Data model
  // ---------------------------------------------------------------------------

  /** The two competitions; the database stores them as 'male' and 'female'. */
  datatype Gender = Male | Female

  /** A match status; the database stores 'scheduled', 'live' and 'finished'. */
  datatype Status = Scheduled | Live | Finished

  /** The texts of cells `#q{i}_home` (first row) and `#q{i}_away` (second row). */
  datatype SetCells = SetCells(home: Option<string>, away: Option<string>)

  /**
   * The located fragments of a match page:
   *  - `homeCell`/`awayCell`: the first `td` of the first and second rows of the
   *    `.match_table` body (`None` when the table, its body, the row or the cell
   *    is missing);
   *  - `header`: the text of `.game_header`; `badge`: the text of `.badge`;
   *  - `homeBig`/`awayBig`: the texts of `.score_home.big_score` and
   *    `.score_away.big_score`;
   *  - `sets[i - 1]`: the cells of set `i` (a set past the end has neither cell;
   *    a page whose table has fewer than two rows has no sets).
   */
  datatype Page = Page(
    homeCell: Option<string>, awayCell: Option<string>,
    header: Option<string>, badge: Option<string>,
    homeBig: Option<string>, awayBig: Option<string>,
    sets: seq<SetCells>)

  /** The dictionary `parse_match` returns. */
  datatype MatchRecord = MatchRecord(
    matchId: nat, gender: Gender,
    matchDate: Option<string>, matchTime: Option<string>,
    homeName: string, awayName: string,
    status: Status, homeScore: Option<int>, awayScore: Option<int>,
    setScores: Option<string>, url: string)

  // ---------------------------------------------------------------------------
  // Status badge
  // ---------------------------------------------------------------------------

  lemma AlreadyFinishedIsFinished(text: string)
    ensures Contains(text, "已完賽") ==> Contains(text, "完賽")
  {
    assert "已完賽" == "已" + "完賽";
    if Contains(text, "已完賽") {
      ContainsSuffix(text, "已", "完賽");
    }
  }

  /**
   * The status read from the badge: finished whenever the stripped badge text
   * contains 完賽 (so also 已完賽), checked before the live rule; live when it
   * contains 進行中 or LIVE; scheduled otherwise, and when there is no badge.
   */
  function ClassifyBadge(badge: Option<string>): (s: Status)
    ensures s == Finished <==> badge.Some? && Contains(Strip(badge.value), "完賽")
    ensures s == Live <==>
      && badge.Some?
      && !Contains(Strip(badge.value), "完賽")
      && (Contains(Strip(badge.value), "進行中") || Contains(Strip(badge.value), "LIVE"))
    ensures s == Scheduled <==>
      || badge.None?
      || (&& !Contains(Strip(badge.value), "完賽")
          && !Contains(Strip(badge.value), "進行中")
          && !Contains(Strip(badge.value), "LIVE"))
  {
    match badge
    case None => Scheduled
    case Some(b) =>
      var text := Strip(b);
      AlreadyFinishedIsFinished(text);
      if Contains(text, "已完賽") || Contains(text, "完賽") then Finished
      else if Contains(text, "進行中") || Contains(text, "LIVE") then Live
      else Scheduled
  }

  // ---------------------------------------------------------------------------
  // Big scores
  // ---------------------------------------------------------------------------

  /**
   * `int(tag.text.strip())` for both big-score tags, home first. Both scores are
   * `None` unless both tags exist; when the home text does not parse neither
   * score is set; when only the away text fails the home score stays set.
   */
  function BigScores(homeTag: Option<string>, awayTag: Option<string>): (r: (Option<int>, Option<int>))
    ensures r.1.Some? ==> r.0.Some?
    ensures r.0.Some? <==> homeTag.Some? && awayTag.Some? && PyInt(Strip(homeTag.value)).Some?
    ensures r.0.Some? ==> r.0 == PyInt(Strip(homeTag.value)) && r.1 == PyInt(Strip(awayTag.value))
  {
    if homeTag.None? || awayTag.None? then (None, None)
    else
      match PyInt(Strip(homeTag.value))
      case None => (None, None)
      case Some(h) => (Some(h), PyInt(Strip(awayTag.value)))
  }

  /**
   * A home score of more than `MaxStrDigits` digits makes `int()` raise, so the
   * caught error leaves both scores unset.
   */
  lemma BigScoresDigitLimit(h: string, a: string)
    requires ParseDigits(Strip(h)).Some? && |Strip(h)| > MaxStrDigits
    ensures BigScores(Some(h), Some(a)) == (None, None)
  {
    PyIntDigits(Strip(h));
  }

  /** When only the away text fails to parse, the home score is kept and the away score is lost. */
  lemma BigScoresHomeWithoutAway(h: string, a: string)
    requires PyInt(Strip(h)).Some? && PyInt(Strip(a)).None?
    ensures BigScores(Some(h), Some(a)) == (PyInt(Strip(h)), None)
  {
  }

  // ---------------------------------------------------------------------------
  // Set scores
  // ---------------------------------------------------------------------------

  /** The cells of set `i` (1-based); a set the page does not have has neither cell. */
  function CellsAt(sets: seq<SetCells>, i: nat): SetCells {
    if 1 <= i <= |sets| then sets[i - 1] else SetCells(None, None)
  }

  /** A set is reported when both cells exist and both stripped texts are non-empty digit strings. */
  predicate Qualifies(c: SetCells) {
    && c.home.Some? && c.away.Some?
    && Strip(c.home.value) != [] && Strip(c.away.value) != []
    && AllDigits(Strip(c.home.value)) && AllDigits(Strip(c.away.value))
  }

  /** The `"h-a"` item of a set. */
  function SetItem(c: SetCells): string
    requires c.home.Some? && c.away.Some?
  {
    Strip(c.home.value) + "-" + Strip(c.away.value)
  }

  /** The items of the qualifying sets among sets `1..n`, in ascending set order. */
  function SetItemsUpTo(sets: seq<SetCells>, n: nat): seq<string> {
    if n == 0 then []
    else
      var c := CellsAt(sets, n);
      SetItemsUpTo(sets, n - 1) + (if Qualifies(c) then [SetItem(c)] else [])
  }

  /** The sets the scraper looks at: `range(1, 6)`. */
  const SetCount := 5

  /** `", ".join(items) if items else None`. */
  function SetScoresField(items: seq<string>): (r: Option<string>)
    ensures r.None? <==> items == []
  {
    if items == [] then None else Some(Join(items, ", "))
  }

  predicate Ascending(idx: seq<nat>) {
    forall a, b :: 0 <= a < b < |idx| ==> idx[a] < idx[b]
  }

  /**
   * The set-score list holds one item per qualifying set and nothing else, in
   * ascending set order: for any ascending list `idx` of exactly the qualifying
   * set numbers in `1..n`, item `k` is the item of set `idx[k]`.
   */
  lemma {:induction false} SetItemsOrdered(sets: seq<SetCells>, n: nat, idx: seq<nat>)
    requires Ascending(idx)
    requires forall k :: 0 <= k < |idx| ==> 1 <= idx[k] <= n
    requires forall i :: 1 <= i <= n ==> (Qualifies(CellsAt(sets, i)) <==> i in idx)
    ensures |SetItemsUpTo(sets, n)| == |idx|
    ensures forall k :: 0 <= k < |idx| ==>
      Qualifies(CellsAt(sets, idx[k])) && SetItemsUpTo(sets, n)[k] == SetItem(CellsAt(sets, idx[k]))
    decreases n, 1
  {
    if n == 0 {
      AscendingBound(idx, 0);
    } else if Qualifies(CellsAt(sets, n)) {
      SetItemsOrderedLast(sets, n, idx);
    } else {
      forall k | 0 <= k < |idx| ensures 1 <= idx[k] <= n - 1 {
        assert idx[k] in idx;
      }
      SetItemsOrdered(sets, n - 1, idx);
      SetItemsSkip(sets, n, idx);
    }
  }

  /** `SetItemsOrdered` when set `n` qualifies: it is the last entry of `idx`. */
  lemma {:induction false} SetItemsOrderedLast(sets: seq<SetCells>, n: nat, idx: seq<nat>)
    requires n >= 1 && Qualifies(CellsAt(sets, n))
    requires Ascending(idx)
    requires forall k :: 0 <= k < |idx| ==> 1 <= idx[k] <= n
    requires forall i :: 1 <= i <= n ==> (Qualifies(CellsAt(sets, i)) <==> i in idx)
    ensures |SetItemsUpTo(sets, n)| == |idx|
    ensures forall k :: 0 <= k < |idx| ==>
      Qualifies(CellsAt(sets, idx[k])) && SetItemsUpTo(sets, n)[k] == SetItem(CellsAt(sets, idx[k]))
    decreases n, 0
  {
    var init := idx[..|idx| - 1];
    DropLast(sets, idx, n);
    SetItemsOrdered(sets, n - 1, init);
    SetItemsSnoc(sets, n, idx);
  }

  /** The inductive step of `SetItemsOrdered` when set `n` does not qualify: the list is unchanged. */
  lemma SetItemsSkip(sets: seq<SetCells>, n: nat, idx: seq<nat>)
    requires n >= 1 && !Qualifies(CellsAt(sets, n))
    requires |SetItemsUpTo(sets, n - 1)| == |idx|
    requires forall k :: 0 <= k < |idx| ==>
      Qualifies(CellsAt(sets, idx[k])) && SetItemsUpTo(sets, n - 1)[k] == SetItem(CellsAt(sets, idx[k]))
    ensures |SetItemsUpTo(sets, n)| == |idx|
    ensures forall k :: 0 <= k < |idx| ==>
      Qualifies(CellsAt(sets, idx[k])) && SetItemsUpTo(sets, n)[k] == SetItem(CellsAt(sets, idx[k]))
  {
    assert SetItemsUpTo(sets, n) == SetItemsUpTo(sets, n - 1);
  }

  /** The inductive step of `SetItemsOrdered` when set `n` qualifies: its item is appended last. */
  lemma SetItemsSnoc(sets: seq<SetCells>, n: nat, idx: seq<nat>)
    requires n >= 1 && Qualifies(CellsAt(sets, n))
    requires idx != [] && idx[|idx| - 1] == n
    requires |SetItemsUpTo(sets, n - 1)| == |idx| - 1
    requires forall k :: 0 <= k < |idx| - 1 ==>
      Qualifies(CellsAt(sets, idx[k])) && SetItemsUpTo(sets, n - 1)[k] == SetItem(CellsAt(sets, idx[k]))
    ensures |SetItemsUpTo(sets, n)| == |idx|
    ensures forall k :: 0 <= k < |idx| ==>
      Qualifies(CellsAt(sets, idx[k])) && SetItemsUpTo(sets, n)[k] == SetItem(CellsAt(sets, idx[k]))
  {
    var prev := SetItemsUpTo(sets, n - 1);
    assert SetItemsUpTo(sets, n) == prev + [SetItem(CellsAt(sets, n))];
  }

  /**
   * Without its last element `n`, an ascending list of exactly the qualifying
   * sets in `1..n` lists exactly the qualifying sets in `1..n - 1`.
   */
  lemma DropLast(sets: seq<SetCells>, idx: seq<nat>, n: nat)
    requires Ascending(idx)
    requires forall k :: 0 <= k < |idx| ==> 1 <= idx[k] <= n
    requires forall i :: 1 <= i <= n ==> (Qualifies(CellsAt(sets, i)) <==> i in idx)
    requires Qualifies(CellsAt(sets, n))
    ensures idx != [] && idx[|idx| - 1] == n
    ensures Ascending(idx[..|idx| - 1])
    ensures forall k :: 0 <= k < |idx| - 1 ==> 1 <= idx[k] <= n - 1
    ensures forall i :: 1 <= i <= n - 1 ==> (Qualifies(CellsAt(sets, i)) <==> i in idx[..|idx| - 1])
  {
    LastIsMax(idx, n);
    var init := idx[..|idx| - 1];
    forall i | 1 <= i <= n - 1 ensures Qualifies(CellsAt(sets, i)) <==> i in init {
      if i in idx {
        var m :| 0 <= m < |idx| && idx[m] == i;
        assert m != |idx| - 1;
        assert init[m] == i;
      }
    }
  }

  lemma {:induction false} AscendingFloor(idx: seq<nat>, k: nat)
    requires Ascending(idx) && k < |idx|
    ensures idx[0] + k <= idx[k]
  {
    if k > 0 {
      AscendingFloor(idx, k - 1);
      assert idx[k - 1] < idx[k];
    }
  }

  /** An ascending list of numbers in `1..n` has at most `n` elements. */
  lemma AscendingBound(idx: seq<nat>, n: nat)
    requires Ascending(idx)
    requires forall k :: 0 <= k < |idx| ==> 1 <= idx[k] <= n
    ensures |idx| <= n
  {
    if |idx| > 0 {
      AscendingFloor(idx, |idx| - 1);
    }
  }

  /** In an ascending list of numbers at most `n` that contains `n`, `n` comes last. */
  lemma LastIsMax(idx: seq<nat>, n: nat)
    requires Ascending(idx)
    requires forall k :: 0 <= k < |idx| ==> idx[k] <= n
    requires n in idx
    ensures idx != [] && idx[|idx| - 1] == n
    ensures forall k :: 0 <= k < |idx| - 1 ==> idx[k] < n
  {
    var j :| 0 <= j < |idx| && idx[j] == n;
    assert idx[|idx| - 1] <= n;
    assert j == |idx| - 1;
    forall k | 0 <= k < |idx| - 1 ensures idx[k] < n {
      assert idx[k] < idx[|idx| - 1];
    }
  }

  /** Every item is two digit strings joined by '-', and there is at most one item per set. */
  lemma {:induction false} SetItemsShape(sets: seq<SetCells>, n: nat)
    ensures |SetItemsUpTo(sets, n)| <= n
    ensures forall k :: 0 <= k < |SetItemsUpTo(sets, n)| ==> IsSetItem(SetItemsUpTo(sets, n)[k])
  {
    if n > 0 {
      SetItemsShape(sets, n - 1);
      var c := CellsAt(sets, n);
      if Qualifies(c) {
        var h, a := Strip(c.home.value), Strip(c.away.value);
        assert IsSetItem(SetItem(c)) by {
          assert SetItem(c)[..|h|] == h;
          assert SetItem(c)[|h| + 1..] == a;
        }
      }
    }
  }

  /** `d1 + "-" + d2` for non-empty digit strings `d1`, `d2`. */
  predicate IsSetItem(s: string) {
    exists j :: 0 < j < |s| - 1 && s[j] == '-' && AllDigits(s[..j]) && AllDigits(s[j + 1..])
  }

  lemma SetItemNoComma(s: string)
    requires IsSetItem(s)
    ensures NoChar(s, ',')
  {
    var j :| 0 < j < |s| - 1 && s[j] == '-' && AllDigits(s[..j]) && AllDigits(s[j + 1..]);
    forall i | 0 <= i < |s| ensures s[i] != ',' {
      if i < j {
        assert s[..j][i] == s[i];
      } else if i > j {
        assert s[j + 1..][i - j - 1] == s[i];
      }
    }
  }

  /** The stored `set_scores` text splits back on ", " into the items it was joined from. */
  lemma SetScoresRoundTrip(sets: seq<SetCells>)
    requires SetScoresField(SetItemsUpTo(sets, SetCount)).Some?
    ensures Split(SetScoresField(SetItemsUpTo(sets, SetCount)).value, ", ") == SetItemsUpTo(sets, SetCount)
  {
    var items := SetItemsUpTo(sets, SetCount);
    SetItemsShape(sets, SetCount);
    forall k | 0 <= k < |items| ensures NoChar(items[k], ", "[0]) {
      SetItemNoComma(items[k]);
    }
    SplitJoin(items, ", ");
  }

  // ---------------------------------------------------------------------------
  // parse_score_and_status
  // ---------------------------------------------------------------------------

  /**
   * `parse_score_and_status`: the status, the two big scores and the joined set
   * scores, building the set list by appending inside `for i in range(1, 6)`.
   */
  method ParseScoreAndStatus(page: Page)
    returns (status: Status, homeScore: Option<int>, awayScore: Option<int>, setScores: Option<string>)
    ensures status == ClassifyBadge(page.badge)
    ensures (homeScore, awayScore) == BigScores(page.homeBig, page.awayBig)
    ensures setScores == SetScoresField(SetItemsUpTo(page.sets, SetCount))
  {
    status := ClassifyBadge(page.badge);
    homeScore, awayScore := BigScores(page.homeBig, page.awayBig).0, BigScores(page.homeBig, page.awayBig).1;
    var items := SetScoreItems(page.sets);
    setScores := if items == [] then None else Some(Join(items, ", "));
  }

  /** The `for i in range(1, 6)` loop: appends `"h-a"` for every qualifying set, in set order. */
  method SetScoreItems(sets: seq<SetCells>) returns (items: seq<string>)
    ensures items == SetItemsUpTo(sets, SetCount)
  {
    items := [];
    for i := 1 to SetCount + 1
      invariant items == SetItemsUpTo(sets, i - 1)
    {
      items := AppendSetItem(items, CellsAt(sets, i));
    }
  }

  /** The body of that loop for one set's cells: append `"h-a"` when both cells hold digits. */
  method AppendSetItem(items: seq<string>, cells: SetCells) returns (r: seq<string>)
    ensures r == items + (if Qualifies(cells) then [SetItem(cells)] else [])
  {
    r := items;
    if cells.home.Some? && cells.away.Some? {
      var homeSet := Strip(cells.home.value);
      var awaySet := Strip(cells.away.value);
      if homeSet != [] && awaySet != [] && AllDigits(homeSet) && AllDigits(awaySet) {
        r := items + [homeSet + "-" + awaySet];
      }
    }
  }

  // ---------------------------------------------------------------------------
  // parse_datetime: (\d{4}[-/]\d{2}[-/]\d{2})\s+(\d{2}:\d{2})
  // ---------------------------------------------------------------------------

  predicate DateSep(c: char) {
    c == '-' || c == '/'
  }

  /** `\d{4}[-/]\d{2}[-/]\d{2}` matches `t[p..p + 10]`. */
  predicate DateAt(t: string, p: nat) {
    && p + 10 <= |t|
    && IsDigit(t[p]) && IsDigit(t[p + 1]) && IsDigit(t[p + 2]) && IsDigit(t[p + 3])
    && DateSep(t[p + 4])
    && IsDigit(t[p + 5]) && IsDigit(t[p + 6])
    && DateSep(t[p + 7])
    && IsDigit(t[p + 8]) && IsDigit(t[p + 9])
  }

  /** `\d{2}:\d{2}` matches `t[q..q + 5]`. */
  predicate TimeAt(t: string, q: nat) {
    && q + 5 <= |t|
    && IsDigit(t[q]) && IsDigit(t[q + 1]) && t[q + 2] == ':' && IsDigit(t[q + 3]) && IsDigit(t[q + 4])
  }

  /**
   * The whole pattern matches at `p` with the time group starting at `q`: the
   * date, then one or more whitespace characters, then the time.
   */
  predicate PatternAt(t: string, p: nat, q: nat) {
    && DateAt(t, p)
    && p + 10 < q
    && TimeAt(t, q)
    && (forall k :: p + 10 <= k < q ==> IsSpace(t[k]))
  }

  /** The matcher's test at `p`: the greedy `\s+` ends where the whitespace run ends. */
  predicate MatchAt(t: string, p: nat) {
    DateAt(t, p) && SpanStart(t, p + 10) > p + 10 && TimeAt(t, SpanStart(t, p + 10))
  }

  /** At a given start the pattern has exactly one match, the one `MatchAt` finds. */
  lemma MatchAtIff(t: string, p: nat)
    ensures MatchAt(t, p) ==> PatternAt(t, p, SpanStart(t, p + 10))
    ensures forall q: nat :: PatternAt(t, p, q) ==> MatchAt(t, p) && q == SpanStart(t, p + 10)
  {
    forall q: nat | PatternAt(t, p, q) ensures MatchAt(t, p) && q == SpanStart(t, p + 10) {
      assert !IsSpace(t[q]);
    }
  }

  /** `re.search` from position `p`: the leftmost starting position of a match. */
  function SearchFrom(t: string, p: nat): (r: Option<nat>)
    decreases |t| - p
    ensures r.Some? ==> p <= r.value && MatchAt(t, r.value)
    ensures r.Some? ==> forall j :: p <= j < r.value ==> !MatchAt(t, j)
    ensures r.None? ==> forall j :: p <= j ==> !MatchAt(t, j)
  {
    if p + 10 > |t| then
      assert forall j :: p <= j ==> !DateAt(t, j);
      None
    else if MatchAt(t, p) then Some(p)
    else
      var r := SearchFrom(t, p + 1);
      assert forall j :: p <= j < p + 1 ==> !MatchAt(t, j);
      r
  }

  /** A date group after normalisation: `dddd-dd-dd`. */
  predicate IsDateText(d: string) {
    && |d| == 10
    && d[4] == '-' && d[7] == '-'
    && forall i :: 0 <= i < 10 && i != 4 && i != 7 ==> IsDigit(d[i])
  }

  /** A time group: `dd:dd`. */
  predicate IsTimeText(s: string) {
    |s| == 5 && IsDigit(s[0]) && IsDigit(s[1]) && s[2] == ':' && IsDigit(s[3]) && IsDigit(s[4])
  }

  /**
   * `parse_datetime`: the date and time groups of the first match in the header
   * text, the date with every '/' replaced by '-'; both `None` without a header
   * or without a match.
   */
  function ParseDateTime(header: Option<string>): (r: (Option<string>, Option<string>))
    ensures header.None? ==> r == (None, None)
    ensures r.0.Some? <==> r.1.Some?
    ensures r.0.Some? ==> IsDateText(r.0.value) && NoChar(r.0.value, '/')
    ensures r.1.Some? ==> IsTimeText(r.1.value)
  {
    match header
    case None => (None, None)
    case Some(t) =>
      match SearchFrom(t, 0)
      case None => (None, None)
      case Some(p) =>
        var q := SpanStart(t, p + 10);
        (Some(ReplaceChar(t[p..p + 10], '/', '-')), Some(t[q..q + 5]))
  }

  /** The leftmost match of the pattern determines both groups. */
  lemma ParseDateTimeLeftmost(t: string, p: nat, q: nat)
    requires PatternAt(t, p, q)
    requires forall p': nat, q': nat :: p' < p ==> !PatternAt(t, p', q')
    ensures ParseDateTime(Some(t)) == (Some(ReplaceChar(t[p..p + 10], '/', '-')), Some(t[q..q + 5]))
  {
    MatchAtIff(t, p);
    NoMatchBefore(t, p);
    SearchFindsFirst(t, p);
    ParseDateTimeAt(t, p, q);
  }

  /** Below the leftmost pattern match the matcher's test fails too. */
  lemma NoMatchBefore(t: string, p: nat)
    requires forall p': nat, q': nat :: p' < p ==> !PatternAt(t, p', q')
    ensures forall j: nat :: j < p ==> !MatchAt(t, j)
  {
    forall j: nat | j < p ensures !MatchAt(t, j) {
      MatchAtIff(t, j);
    }
  }

  /** The search from the start stops at the first position where the matcher's test holds. */
  lemma SearchFindsFirst(t: string, p: nat)
    requires MatchAt(t, p)
    requires forall j: nat :: j < p ==> !MatchAt(t, j)
    ensures SearchFrom(t, 0) == Some(p)
  {
    var r := SearchFrom(t, 0);
    assert r.Some? && r.value <= p;
  }

  /** Once the search settles on `p`, the groups are the date there and the time after its whitespace run. */
  lemma ParseDateTimeAt(t: string, p: nat, q: nat)
    requires SearchFrom(t, 0) == Some(p) && q == SpanStart(t, p + 10)
    ensures p + 10 <= |t| && q + 5 <= |t|
    ensures ParseDateTime(Some(t)) == (Some(ReplaceChar(t[p..p + 10], '/', '-')), Some(t[q..q + 5]))
  {
  }

  /** Without any match both values are `None`. */
  lemma ParseDateTimeNoMatch(t: string)
    requires forall p: nat, q: nat :: !PatternAt(t, p, q)
    ensures ParseDateTime(Some(t)) == (None, None)
  {
    forall j: nat ensures !MatchAt(t, j) {
      MatchAtIff(t, j);
    }
  }

  // ---------------------------------------------------------------------------
  // get_team_names, URLs, fetch_page, parse_match
  // ---------------------------------------------------------------------------

  /** `get_team_names`: both stripped cell texts, or `(None, None)` when either cell is missing. */
  function TeamNames(homeCell: Option<string>, awayCell: Option<string>): (r: (Option<string>, Option<string>))
    ensures r.0.Some? <==> r.1.Some?
    ensures r.0.Some? <==> homeCell.Some? && awayCell.Some?
    ensures r.0.Some? ==> r.0.value == Strip(homeCell.value) && r.1.value == Strip(awayCell.value)
  {
    if homeCell.Some? && awayCell.Some? then (Some(Strip(homeCell.value)), Some(Strip(awayCell.value)))
    else (None, None)
  }

  const BaseUrl := "https://tvl.ctvba.org.tw"

  /** The URL `fetch_page` requests: `/game/` for the men's games, `/wgame/` for the women's. */
  function FetchUrl(id: nat, g: Gender): string {
    if g == Male then BaseUrl + "/game/" + ShowNat(id) else BaseUrl + "/wgame/" + ShowNat(id)
  }

  /** The URL `parse_match` stores; it is the URL the page was fetched from. */
  function RecordUrl(id: nat, g: Gender): (u: string)
    ensures u == FetchUrl(id, g)
  {
    BaseUrl + "/" + (if g == Male then "game" else "wgame") + "/" + ShowNat(id)
  }

  /** Reads the match id and gender back from a page URL. */
  function ParseUrl(u: string): Option<(nat, Gender)> {
    var men, women := BaseUrl + "/game/", BaseUrl + "/wgame/";
    if |men| <= |u| && u[..|men|] == men then
      match ParseDigits(u[|men|..])
      case Some(n) => Some((n, Male))
      case None => None
    else if |women| <= |u| && u[..|women|] == women then
      match ParseDigits(u[|women|..])
      case Some(n) => Some((n, Female))
      case None => None
    else None
  }

  /** Each (id, gender) pair has its own URL: the URL gives the pair back. */
  lemma ParseFetchUrl(id: nat, g: Gender)
    ensures ParseUrl(FetchUrl(id, g)) == Some((id, g))
  {
    var men, women := BaseUrl + "/game/", BaseUrl + "/wgame/";
    var u := FetchUrl(id, g);
    ParseShowNat(id);
    if g == Male {
      assert u[..|men|] == men;
      assert u[|men|..] == ShowNat(id);
    } else {
      assert u[|BaseUrl| + 1] != men[|BaseUrl| + 1];
      assert u[..|women|] == women;
      assert u[|women|..] == ShowNat(id);
    }
  }

  lemma FetchUrlInjective(id1: nat, g1: Gender, id2: nat, g2: Gender)
    requires FetchUrl(id1, g1) == FetchUrl(id2, g2)
    ensures id1 == id2 && g1 == g2
  {
    ParseFetchUrl(id1, g1);
    ParseFetchUrl(id2, g2);
  }

  /** What `requests.get` yields: an exception, or a status, a body length and the page it holds. */
  datatype Response = Failed | Response(status: int, contentLength: nat, page: Page)

  /**
   * `fetch_page`: the page behind the game's URL, or `None` when the request
   * fails, the status is not 200 or the body is shorter than 10000 bytes.
   * `web` stands for the site.
   */
  function FetchPage(web: string -> Response, id: nat, g: Gender): (r: Option<Page>)
    ensures r.Some? <==> web(FetchUrl(id, g)).Response? && web(FetchUrl(id, g)).status == 200
                         && web(FetchUrl(id, g)).contentLength >= 10000
    ensures r.Some? ==> r.value == web(FetchUrl(id, g)).page
  {
    match web(FetchUrl(id, g))
    case Failed => None
    case Response(status, length, page) =>
      if status != 200 then None
      else if length < 10000 then None
      else Some(page)
  }

  /** The record `parse_match` builds, or `None` when a team name is missing or empty. */
  function MatchRecordOf(id: nat, g: Gender, page: Page): (r: Option<MatchRecord>)
    ensures r.None? <==> !(page.homeCell.Some? && page.awayCell.Some?
                           && Strip(page.homeCell.value) != [] && Strip(page.awayCell.value) != [])
    ensures r.Some? ==> && r.value.matchId == id && r.value.gender == g
                        && r.value.homeName != [] && r.value.awayName != []
                        && r.value.homeName == Strip(page.homeCell.value)
                        && r.value.awayName == Strip(page.awayCell.value)
                        && r.value.url == FetchUrl(id, g)
    ensures r.Some? ==> && (r.value.matchDate, r.value.matchTime) == ParseDateTime(page.header)
                        && r.value.status == ClassifyBadge(page.badge)
                        && (r.value.homeScore, r.value.awayScore) == BigScores(page.homeBig, page.awayBig)
                        && r.value.setScores == SetScoresField(SetItemsUpTo(page.sets, SetCount))
    ensures r.Some? ==> r.value.awayScore.Some? ==> r.value.homeScore.Some?
    ensures r.Some? ==> (r.value.matchDate.Some? <==> r.value.matchTime.Some?)
  {
    var names := TeamNames(page.homeCell, page.awayCell);
    if names.0.None? || names.1.None? || names.0.value == [] || names.1.value == [] then None
    else
      var (date, time) := ParseDateTime(page.header);
      var (home, away) := BigScores(page.homeBig, page.awayBig);
      Some(MatchRecord(id, g, date, time, names.0.value, names.1.value,
        ClassifyBadge(page.badge), home, away, SetScoresField(SetItemsUpTo(page.sets, SetCount)),
        RecordUrl(id, g)))
  }

  /** `parse_match`: team names first, then date and time, then scores and status. */
  method ParseMatch(id: nat, g: Gender, page: Page) returns (r: Option<MatchRecord>)
    ensures r == MatchRecordOf(id, g, page)
  {
    var (homeName, awayName) := TeamNames(page.homeCell, page.awayCell);
    if homeName.None? || awayName.None? || homeName.value == [] || awayName.value == [] {
      return None;
    }
    var (date, time) := ParseDateTime(page.header);
    var status, homeScore, awayScore, setScores := ParseScoreAndStatus(page);
    r := Some(MatchRecord(id, g, date, time, homeName.value, awayName.value,
      status, homeScore, awayScore, setScores, RecordUrl(id, g)));
  }
}
