/**
 * What `TPVLLocalUpdater` (updateTVPL.py) reads from the TPVL schedule pages:
 * the `__NEXT_DATA__` JSON of a page, the three lists in it, the 12 columns it
 * derives from one match, and the accumulated, de-duplicated list of matches.
 *
 * `json.loads` is abstracted away: decoding is a parameter that yields the JSON
 * document already shaped as the datatypes below.
 */
module TpvlSchedule {
  import opened Common
  import opened Text
  import opened Civil

  // ---------------------------------------------------------------------------
  // extract_json_data
  // ---------------------------------------------------------------------------

  const ScriptOpen := "<script id=\"__NEXT_DATA__\" type=\"application/json\">"
  const ScriptClose := "</script>"

  /** `<script id="__NEXT_DATA__" ...>` at `p` and the first `</script>` after it at `q`. */
  predicate ScriptAt(html: string, p: nat, q: nat) {
    && OccursAt(html, ScriptOpen, p)
    && p + |ScriptOpen| <= q
    && OccursAt(html, ScriptClose, q)
    && forall j :: p + |ScriptOpen| <= j < q ==> !OccursAt(html, ScriptClose, j)
  }

  /**
   * The text of the pattern's group: from just after the first opening marker to
   * the nearest `</script>` after it; `None` when either is missing.
   */
  function ExtractJson(html: string): (r: Option<string>)
    ensures r.Some? ==> !Contains(r.value, ScriptClose)
  {
    match FindFrom(html, ScriptOpen, 0)
    case None => None
    case Some(p) =>
      match FindFrom(html, ScriptClose, p + |ScriptOpen|)
      case None => None
      case Some(q) =>
        var body := html[p + |ScriptOpen|..q];
        NoCloseInside(html, p + |ScriptOpen|, q);
        Some(body)
  }

  /** A span free of closing-marker starts does not contain the closing marker. */
  lemma NoCloseInside(html: string, a: nat, q: nat)
    requires a <= q <= |html|
    requires forall j :: a <= j < q ==> !OccursAt(html, ScriptClose, j)
    ensures !Contains(html[a..q], ScriptClose)
  {
    var body := html[a..q];
    forall j | 0 <= j ensures !OccursAt(body, ScriptClose, j) {
      if j + |ScriptClose| <= |body| {
        var w := body[j..j + |ScriptClose|];
        assert forall i :: 0 <= i < |w| ==> w[i] == html[a + j + i];
        assert w == html[a + j..a + j + |ScriptClose|];
        assert !OccursAt(html, ScriptClose, a + j);
      }
    }
    ContainsIff(body, ScriptClose);
  }

  /**
   * `re.search` finds the leftmost start with a closing marker after it, and the
   * lazy group ends at the first such marker: that match is what is extracted.
   */
  lemma ExtractJsonLeftmost(html: string, p: nat, q: nat)
    requires ScriptAt(html, p, q)
    requires forall p': nat, q': nat :: p' < p && OccursAt(html, ScriptOpen, p') && p' + |ScriptOpen| <= q'
               ==> !OccursAt(html, ScriptClose, q')
    ensures ExtractJson(html) == Some(html[p + |ScriptOpen|..q])
  {
    var p0 := FindFrom(html, ScriptOpen, 0).value;
    assert p0 <= p;
    assert p0 < p ==> !OccursAt(html, ScriptClose, q);
    assert p0 == p;
    var q0 := FindFrom(html, ScriptClose, p + |ScriptOpen|).value;
    assert q0 <= q;
  }

  /** Without an opening marker followed by a closing one nothing is extracted. */
  lemma ExtractJsonNone(html: string)
    requires forall p: nat, q: nat :: OccursAt(html, ScriptOpen, p) && p + |ScriptOpen| <= q
               ==> !OccursAt(html, ScriptClose, q)
    ensures ExtractJson(html) == None
  {
    match FindFrom(html, ScriptOpen, 0)
    case None =>
    case Some(p) =>
      assert forall q: nat :: p + |ScriptOpen| <= q ==> !OccursAt(html, ScriptClose, q);
  }

  // ---------------------------------------------------------------------------
  // The decoded JSON and fetch_schedule
  // ---------------------------------------------------------------------------

  /** An entry of `squadMatchResults`. */
  datatype SquadResult = SquadResult(squadId: int, wonRounds: int)

  /**
   * A match object; `matchedAt` holds the date and time fields of its ISO string
   * (in the string's own offset), and `squadMatchResults` is `None` when absent.
   */
  datatype RawMatch = RawMatch(
    id: int, code: string, matchedAt: DateTime,
    homeSquadId: int, awaySquadId: int, venue: string,
    squadMatchResults: Option<seq<SquadResult>>)

  /** A squad object: `id`, `name`, and the nullable `altName` and `logoUrl`. */
  datatype Squad = Squad(id: int, name: string, altName: Option<string>, logoUrl: Option<string>)

  /** `resultMatchData` or `incomingMatch`, whose `data` key may be absent. */
  datatype Batch = Batch(data: Option<seq<RawMatch>>)

  /** `props.pageProps`, each key possibly absent. */
  datatype PageProps = PageProps(resultMatchData: Option<Batch>, incomingMatch: Option<Batch>, squads: Option<seq<Squad>>)

  /**
   * What `json.loads` yields: it raises (`Malformed`), gives a falsy value
   * (`{}`, `[]`, `0`, `""`, `null`, `false`), or a document whose
   * `props.pageProps` can be read (`None` when the lookup raises).
   */
  datatype Decoded = Malformed | Falsy | Document(pageProps: Option<PageProps>)

  /** What `requests.get` yields. */
  datatype HttpResult = RequestFailed | HttpResponse(status: int, body: string)

  /**
   * What `fetch_schedule` returns: `None` (`NoData`), the tuple `(None, None)`
   * (`NonePair`), or the dictionary of the three lists.
   */
  datatype Fetched = NoData | NonePair | Schedule(results: seq<RawMatch>, futures: seq<RawMatch>, squads: seq<Squad>)

  function BatchData(b: Option<Batch>): seq<RawMatch> {
    if b.Some? && b.value.data.Some? then b.value.data.value else []
  }

  /**
   * `fetch_schedule` on a response: `None` on a failed request, on a 4xx/5xx
   * status (`raise_for_status`), on JSON that does not decode and when
   * `props.pageProps` is missing; `(None, None)` when there is no script span or
   * the JSON is falsy; otherwise the three lists, each defaulting to empty.
   */
  function FetchSchedule(resp: HttpResult, loads: string -> Decoded): (r: Fetched)
    ensures r.NonePair? <==> resp.HttpResponse? && !(400 <= resp.status < 600)
                             && (ExtractJson(resp.body).None? || loads(ExtractJson(resp.body).value).Falsy?)
    ensures r.Schedule? <==> resp.HttpResponse? && !(400 <= resp.status < 600)
                             && ExtractJson(resp.body).Some?
                             && loads(ExtractJson(resp.body).value).Document?
                             && loads(ExtractJson(resp.body).value).pageProps.Some?
    ensures r.Schedule? ==>
      var pp := loads(ExtractJson(resp.body).value).pageProps.value;
      && r.results == BatchData(pp.resultMatchData)
      && r.futures == BatchData(pp.incomingMatch)
      && r.squads == (if pp.squads.Some? then pp.squads.value else [])
  {
    match resp
    case RequestFailed => NoData
    case HttpResponse(status, body) =>
      if 400 <= status < 600 then NoData
      else
        match ExtractJson(body)
        case None => NonePair
        case Some(text) =>
          match loads(text)
          case Malformed => NoData
          case Falsy => NonePair
          case Document(None) => NoData
          case Document(Some(pp)) =>
            Schedule(BatchData(pp.resultMatchData), BatchData(pp.incomingMatch),
              if pp.squads.Some? then pp.squads.value else [])
  }

  /** Missing `resultMatchData`, `incomingMatch` and `squads` read as empty lists. */
  lemma FetchScheduleDefaults(status: int, body: string, loads: string -> Decoded)
    requires !(400 <= status < 600) && ExtractJson(body).Some?
    requires loads(ExtractJson(body).value) == Document(Some(PageProps(None, Some(Batch(None)), None)))
    ensures FetchSchedule(HttpResponse(status, body), loads) == Schedule([], [], [])
  {
  }

  const ScheduleBase := "https://www.tpvl.tw/schedule/schedule"

  /** The URL `fetch_schedule` requests for a results page and a future page. */
  function ScheduleUrl(resultPage: nat, futurePage: nat): string {
    ScheduleBase + "?resultPage=" + ShowNat(resultPage) + "&futurePage=" + ShowNat(futurePage)
  }

  /** Reads the two page numbers back from a schedule URL. */
  function ParseScheduleUrl(u: string): Option<(nat, nat)> {
    var head, mid := ScheduleBase + "?resultPage=", "&futurePage=";
    if |head| <= |u| && u[..|head|] == head then
      var (d, rest) := SplitDigits(u[|head|..]);
      if d != [] && |mid| <= |rest| && rest[..|mid|] == mid then
        match ParseDigits(rest[|mid|..])
        case Some(f) => Some((DigitsValue(d), f))
        case None => None
      else None
    else None
  }

  /** Each pair of page numbers has its own URL. */
  lemma ParseScheduleUrlOf(resultPage: nat, futurePage: nat)
    ensures ParseScheduleUrl(ScheduleUrl(resultPage, futurePage)) == Some((resultPage, futurePage))
  {
    var head, mid := ScheduleBase + "?resultPage=", "&futurePage=";
    var u := ScheduleUrl(resultPage, futurePage);
    var r, f := ShowNat(resultPage), ShowNat(futurePage);
    assert u == head + (r + (mid + f));
    assert u[..|head|] == head;
    assert u[|head|..] == r + (mid + f);
    SplitDigitsOf(r, mid + f);
    assert (mid + f)[..|mid|] == mid;
    assert (mid + f)[|mid|..] == f;
    ParseShowNat(resultPage);
    ParseShowNat(futurePage);
  }

  // ---------------------------------------------------------------------------
  // parse_match
  // ---------------------------------------------------------------------------

  datatype MatchStatus = Upcoming | Completed

  /** Chinese weekday names, Monday first. */
  const WeekdayNames: seq<string> := ["一", "二", "三", "四", "五", "六", "日"]

  function WeekdayName(d: Date): string
    requires 1 <= d.month <= 12
  {
    WeekdayNames[Weekday(d)]
  }

  /** From one day to the next the weekday name moves one place along the table, cyclically. */
  lemma WeekdayNameNext(d: Date)
    requires ValidDate(d)
    ensures WeekdayName(NextDay(d)) == WeekdayNames[(Weekday(d) + 1) % 7]
  {
    NextDayWeekday(d);
  }

  /**
   * The row `parse_match` builds, in the `INSERT` column order: id, code,
   * match_date, match_time, weekday, home_team_id, away_team_id, venue, status,
   * home_score, away_score, updated_at.
   */
  datatype MatchTuple = MatchTuple(
    id: int, code: string, matchDate: Date, matchTime: Time, weekday: string,
    homeTeamId: int, awayTeamId: int, venue: string, status: MatchStatus,
    homeScore: Option<int>, awayScore: Option<int>, updatedAt: int)

  /** The `wonRounds` of the last result whose squad is `id`. */
  function LastWonBy(rs: seq<SquadResult>, id: int): (r: Option<int>)
    ensures r.None? <==> forall j :: 0 <= j < |rs| ==> rs[j].squadId != id
  {
    if rs == [] then None
    else if rs[|rs| - 1].squadId == id then Some(rs[|rs| - 1].wonRounds)
    else LastWonBy(rs[..|rs| - 1], id)
  }

  /** The result at `j` is the one that counts when no later result is for the same squad. */
  lemma {:induction false} LastWonByAt(rs: seq<SquadResult>, id: int, j: nat)
    requires j < |rs| && rs[j].squadId == id
    requires forall k :: j < k < |rs| ==> rs[k].squadId != id
    ensures LastWonBy(rs, id) == Some(rs[j].wonRounds)
  {
    if j < |rs| - 1 {
      var init := rs[..|rs| - 1];
      assert init[j] == rs[j];
      assert forall k :: j < k < |init| ==> init[k] == rs[k];
      LastWonByAt(init, id, j);
    }
  }

  /** The result at `j` is the last one for squad `id`. */
  predicate IsLastFor(rs: seq<SquadResult>, id: int, j: int) {
    && 0 <= j < |rs| && rs[j].squadId == id
    && forall k :: j < k < |rs| ==> rs[k].squadId != id
  }

  /**
   * The scores `parse_match` assigns: each squad's score is the `wonRounds` of the
   * last result for it, and a squad without a result has none; the away score
   * stays unset when the home and away ids are equal, as the home test wins.
   */
  function Scores(rs: seq<SquadResult>, homeId: int, awayId: int): (r: (Option<int>, Option<int>))
    ensures r.0.None? <==> forall j :: 0 <= j < |rs| ==> rs[j].squadId != homeId
    ensures forall j :: IsLastFor(rs, homeId, j) ==> r.0 == Some(rs[j].wonRounds)
    ensures homeId == awayId ==> r.1.None?
    ensures homeId != awayId ==> (r.1.None? <==> forall j :: 0 <= j < |rs| ==> rs[j].squadId != awayId)
    ensures homeId != awayId ==> forall j :: IsLastFor(rs, awayId, j) ==> r.1 == Some(rs[j].wonRounds)
  {
    forall j | IsLastFor(rs, homeId, j) ensures LastWonBy(rs, homeId) == Some(rs[j].wonRounds) {
      LastWonByAt(rs, homeId, j);
    }
    forall j | IsLastFor(rs, awayId, j) ensures LastWonBy(rs, awayId) == Some(rs[j].wonRounds) {
      LastWonByAt(rs, awayId, j);
    }
    (LastWonBy(rs, homeId), if homeId == awayId then None else LastWonBy(rs, awayId))
  }

  /**
   * The tuple `parse_match` returns for `m`, with `datetime.now()` = `now`;
   * `None` where it raises because the shifted time would pass 9999-12-31 or
   * `matchedAt` is not a valid date-time.
   */
  function MatchValuesOf(m: RawMatch, now: int): (r: Option<MatchTuple>)
    ensures r.None? <==> AddHours(m.matchedAt, 8).None?
    ensures r.Some? ==>
      var t := r.value;
      && t.id == m.id && t.code == m.code && t.homeTeamId == m.homeSquadId
      && t.awayTeamId == m.awaySquadId && t.venue == m.venue && t.updatedAt == now
      && ValidDate(t.matchDate) && ValidTime(t.matchTime)
      && Seconds(DateTime(t.matchDate, t.matchTime)) == Seconds(m.matchedAt) + 8 * 3600
      && t.matchTime.micro == m.matchedAt.time.micro
      && t.weekday == WeekdayNames[Weekday(t.matchDate)]
      && (t.status == Completed <==> m.squadMatchResults.Some? && m.squadMatchResults.value != [])
      && (t.status == Upcoming ==> t.homeScore.None? && t.awayScore.None?)
      && (t.status == Completed ==>
            (t.homeScore, t.awayScore) == Scores(m.squadMatchResults.value, m.homeSquadId, m.awaySquadId))
      && (t.awayScore.Some? ==> t.homeTeamId != t.awayTeamId)
  {
    match AddHours(m.matchedAt, 8)
    case None => None
    case Some(local) =>
      var completed := m.squadMatchResults.Some? && m.squadMatchResults.value != [];
      var (home, away) := if completed then Scores(m.squadMatchResults.value, m.homeSquadId, m.awaySquadId)
                          else (None, None);
      Some(MatchTuple(m.id, m.code, local.date, local.time, WeekdayName(local.date),
        m.homeSquadId, m.awaySquadId, m.venue, if completed then Completed else Upcoming,
        home, away, now))
  }

  /**
   * `parse_match`: shift `matchedAt` by eight hours, then walk the results,
   * giving each to the home score when its squad is the home squad and else to
   * the away score when it is the away squad.
   */
  method ParseMatch(m: RawMatch, now: int) returns (r: Option<MatchTuple>)
    ensures r == MatchValuesOf(m, now)
  {
    var local := AddHours(m.matchedAt, 8);
    if local.None? {
      return None;
    }
    var status := Upcoming;
    var homeScore: Option<int> := None;
    var awayScore: Option<int> := None;
    if m.squadMatchResults.Some? && m.squadMatchResults.value != [] {
      status := Completed;
      var rs := m.squadMatchResults.value;
      for i := 0 to |rs|
        invariant homeScore == LastWonBy(rs[..i], m.homeSquadId)
        invariant awayScore == if m.homeSquadId == m.awaySquadId then None else LastWonBy(rs[..i], m.awaySquadId)
      {
        assert rs[..i + 1][..i] == rs[..i];
        if rs[i].squadId == m.homeSquadId {
          homeScore := Some(rs[i].wonRounds);
        } else if rs[i].squadId == m.awaySquadId {
          awayScore := Some(rs[i].wonRounds);
        }
      }
      assert rs[..|rs|] == rs;
    }
    var date, time := local.value.date, local.value.time;
    r := Some(MatchTuple(m.id, m.code, date, time, WeekdayNames[Weekday(date)],
      m.homeSquadId, m.awaySquadId, m.venue, status, homeScore, awayScore, now));
  }

  /** 2024-01-01T10:00:00Z is 18:00 on Monday 2024-01-01 in Taipei. */
  lemma ShiftExample()
    ensures AddHours(DateTime(Date(2024, 1, 1), Time(10, 0, 0, 0)), 8) == Some(DateTime(Date(2024, 1, 1), Time(18, 0, 0, 0)))
    ensures WeekdayName(Date(2024, 1, 1)) == "一"
  {
  }

  /** 2024-12-31T20:30:00Z is 04:30 on Wednesday 2025-01-01 in Taipei. */
  lemma ShiftRolloverExample()
    ensures AddHours(DateTime(Date(2024, 12, 31), Time(20, 30, 0, 0)), 8) == Some(DateTime(Date(2025, 1, 1), Time(4, 30, 0, 0)))
    ensures WeekdayName(Date(2025, 1, 1)) == "三"
  {
    DaysBeforeYearStep(2024);
  }

  // ---------------------------------------------------------------------------
  // run: accumulation and de-duplication
  // ---------------------------------------------------------------------------

  /** The (resultPage, futurePage) pairs `run` fetches, in order. */
  const Pages: seq<(nat, nat)> := [(1, 1), (2, 1), (3, 1), (4, 1), (1, 2)]

  /** The five pages request five different URLs. */
  lemma PagesDistinct()
    ensures forall i, j :: 0 <= i < j < |Pages| ==> ScheduleUrl(Pages[i].0, Pages[i].1) != ScheduleUrl(Pages[j].0, Pages[j].1)
  {
    forall i, j | 0 <= i < j < |Pages| ensures ScheduleUrl(Pages[i].0, Pages[i].1) != ScheduleUrl(Pages[j].0, Pages[j].1) {
      ParseScheduleUrlOf(Pages[i].0, Pages[i].1);
      ParseScheduleUrlOf(Pages[j].0, Pages[j].1);
    }
  }

  /** `run` stops with a `TypeError` when any fetch returned the tuple `(None, None)`. */
  predicate AnyNonePair(fs: seq<Fetched>)
    requires |fs| == |Pages|
  {
    fs[0].NonePair? || fs[1].NonePair? || fs[2].NonePair? || fs[3].NonePair? || fs[4].NonePair?
  }

  /** The squads `run` keeps: those of the first page only. */
  function SquadsOf(fs: seq<Fetched>): seq<Squad>
    requires |fs| == |Pages|
  {
    if fs[0].Schedule? then fs[0].squads else []
  }

  /**
   * The matches accumulated over the five fetches: page 1's results then its
   * futures, the results of pages 2-4 when non-empty, then the futures of future
   * page 2 when non-empty.
   */
  function Accumulated(fs: seq<Fetched>): seq<RawMatch>
    requires |fs| == |Pages|
  {
    FirstPage(fs[0]) + ResultsPages(fs, 4) + MoreFutures(fs[4])
  }

  /** The accumulated list, page by page. */
  lemma AccumulatedOrder(fs: seq<Fetched>)
    requires |fs| == |Pages|
    ensures Accumulated(fs) ==
      FirstPage(fs[0]) + MoreResults(fs[1]) + MoreResults(fs[2]) + MoreResults(fs[3]) + MoreFutures(fs[4])
  {
    var fp, a, b, c := FirstPage(fs[0]), MoreResults(fs[1]), MoreResults(fs[2]), MoreResults(fs[3]);
    assert [] + a == a;
    assert ResultsPages(fs, 2) == a;
    assert ResultsPages(fs, 4) == a + b + c;
    AppendAssoc(fp, a + b, c);
    AppendAssoc(fp, a, b);
  }

  lemma AppendAssoc(x: seq<RawMatch>, y: seq<RawMatch>, z: seq<RawMatch>)
    ensures (x + y) + z == x + (y + z)
  {
  }

  /** What results pages 2..n contribute, in page order. */
  function ResultsPages(fs: seq<Fetched>, n: nat): seq<RawMatch>
    requires n <= 4 && |fs| == |Pages|
  {
    if n <= 1 then [] else ResultsPages(fs, n - 1) + MoreResults(fs[n - 1])
  }

  /** Page 1 contributes its results and then its futures. */
  function FirstPage(f: Fetched): seq<RawMatch> {
    if f.Schedule? then f.results + f.futures else []
  }

  /** Results pages 2-4 contribute their results when there are any. */
  function MoreResults(f: Fetched): seq<RawMatch> {
    if f.Schedule? && f.results != [] then f.results else []
  }

  /** Future page 2 contributes its futures when there are any. */
  function MoreFutures(f: Fetched): seq<RawMatch> {
    if f.Schedule? && f.futures != [] then f.futures else []
  }

  /**
   * The fetching half of `run`: `crashed` when a fetch returned `(None, None)`;
   * otherwise the squads of page 1 and the matches, grown with `extend`.
   */
  method Accumulate(fs: seq<Fetched>) returns (crashed: bool, squads: seq<Squad>, matches: seq<RawMatch>)
    requires |fs| == |Pages|
    ensures crashed <==> AnyNonePair(fs)
    ensures !crashed ==> squads == SquadsOf(fs) && matches == Accumulated(fs)
  {
    squads, matches := [], [];
    var data := fs[0];
    if data.NonePair? {
      return true, squads, matches;
    }
    if data.Schedule? {
      squads := data.squads;
      matches := matches + data.results;
      matches := matches + data.futures;
    }
    for page := 2 to 5
      invariant forall j :: 0 <= j < page - 1 ==> !fs[j].NonePair?
      invariant matches == FirstPage(fs[0]) + ResultsPages(fs, page - 1)
    {
      data := fs[page - 1];
      if data.NonePair? {
        return true, squads, matches;
      }
      assert ResultsPages(fs, page) == ResultsPages(fs, page - 1) + MoreResults(data);
      if data.Schedule? && data.results != [] {
        matches := matches + data.results;
      }
    }
    data := fs[4];
    if data.NonePair? {
      return true, squads, matches;
    }
    if data.Schedule? && data.futures != [] {
      matches := matches + data.futures;
    }
    crashed := false;
  }

  /** The position of the first match with id `id`. */
  function FirstIndex(ms: seq<RawMatch>, id: int): (r: Option<nat>)
    ensures r.Some? ==> r.value < |ms| && ms[r.value].id == id && forall k :: 0 <= k < r.value ==> ms[k].id != id
    ensures r.None? ==> forall k :: 0 <= k < |ms| ==> ms[k].id != id
  {
    if ms == [] then None
    else
      match FirstIndex(ms[..|ms| - 1], id)
      case Some(j) => Some(j)
      case None => if ms[|ms| - 1].id == id then Some(|ms| - 1) else None
  }

  /** The position of the last match with id `id`. */
  function LastIndex(ms: seq<RawMatch>, id: int): (r: Option<nat>)
    ensures r.Some? ==> r.value < |ms| && ms[r.value].id == id && forall k :: r.value < k < |ms| ==> ms[k].id != id
    ensures r.None? ==> forall k :: 0 <= k < |ms| ==> ms[k].id != id
  {
    if ms == [] then None
    else if ms[|ms| - 1].id == id then Some(|ms| - 1)
    else LastIndex(ms[..|ms| - 1], id)
  }

  /** `d[m['id']] = m` on a dictionary kept as its list of values in insertion order. */
  function Assign(acc: seq<RawMatch>, m: RawMatch): seq<RawMatch> {
    match FirstIndex(acc, m.id)
    case Some(j) => acc[j := m]
    case None => acc + [m]
  }

  /** `{m['id']: m for m in ms}.values()`. */
  function Dedup(ms: seq<RawMatch>): seq<RawMatch>
    decreases |ms|
  {
    if ms == [] then [] else Assign(Dedup(ms[..|ms| - 1]), ms[|ms| - 1])
  }

  predicate DistinctIds(ms: seq<RawMatch>) {
    forall a, b :: 0 <= a < b < |ms| ==> ms[a].id != ms[b].id
  }

  lemma FirstIndexSnoc(init: seq<RawMatch>, m: RawMatch, id: int)
    ensures FirstIndex(init + [m], id) ==
      if FirstIndex(init, id).Some? then FirstIndex(init, id)
      else if m.id == id then Some(|init|) else None
  {
    assert (init + [m])[..|init|] == init;
  }

  lemma LastIndexSnoc(init: seq<RawMatch>, m: RawMatch, id: int)
    ensures LastIndex(init + [m], id) == if m.id == id then Some(|init|) else LastIndex(init, id)
  {
    assert (init + [m])[..|init|] == init;
  }

  /** An assignment overwrites the entry with the same id, or appends a new one. */
  lemma AssignShape(acc: seq<RawMatch>, m: RawMatch)
    ensures var r := Assign(acc, m);
      && (FirstIndex(acc, m.id).Some? ==> |r| == |acc| && r[FirstIndex(acc, m.id).value] == m)
      && (FirstIndex(acc, m.id).None? ==> r == acc + [m])
      && (forall a :: 0 <= a < |acc| && acc[a].id != m.id ==> r[a] == acc[a])
      && (forall a :: 0 <= a < |acc| ==> r[a].id == acc[a].id)
  {
  }

  lemma {:induction false} DedupDistinct(ms: seq<RawMatch>)
    ensures DistinctIds(Dedup(ms))
    ensures |Dedup(ms)| <= |ms|
    decreases |ms|
  {
    if ms != [] {
      var init, m := ms[..|ms| - 1], ms[|ms| - 1];
      DedupDistinct(init);
      var acc := Dedup(init);
      AssignShape(acc, m);
    }
  }

  /** Every input id has an entry. */
  lemma {:induction false} DedupCovers(ms: seq<RawMatch>)
    ensures forall j :: 0 <= j < |ms| ==> FirstIndex(Dedup(ms), ms[j].id).Some?
    decreases |ms|
  {
    if ms != [] {
      var init, m := ms[..|ms| - 1], ms[|ms| - 1];
      DedupCovers(init);
      var acc, r := Dedup(init), Dedup(ms);
      AssignShape(acc, m);
      forall j | 0 <= j < |ms| ensures FirstIndex(r, ms[j].id).Some? {
        if j < |init| {
          assert ms[j] == init[j];
          var i := FirstIndex(acc, init[j].id).value;
          assert r[i].id == init[j].id;
        } else if FirstIndex(acc, m.id).Some? {
          assert r[FirstIndex(acc, m.id).value].id == m.id;
        } else {
          assert r[|acc|] == m;
        }
      }
    }
  }

  /** Each entry is the last input match with its id. */
  lemma {:induction false} DedupLast(ms: seq<RawMatch>)
    ensures forall a :: 0 <= a < |Dedup(ms)| ==>
      LastIndex(ms, Dedup(ms)[a].id).Some? && ms[LastIndex(ms, Dedup(ms)[a].id).value] == Dedup(ms)[a]
    decreases |ms|
  {
    if ms != [] {
      var init, m := ms[..|ms| - 1], ms[|ms| - 1];
      assert ms == init + [m];
      DedupLast(init);
      DedupDistinct(init);
      var acc, r := Dedup(init), Dedup(ms);
      AssignShape(acc, m);
      forall a | 0 <= a < |r| ensures LastIndex(ms, r[a].id).Some? && ms[LastIndex(ms, r[a].id).value] == r[a] {
        LastIndexSnoc(init, m, r[a].id);
        if r[a].id == m.id {
          if FirstIndex(acc, m.id).Some? {
            var j := FirstIndex(acc, m.id).value;
            assert a == j by {
              assert a < |acc| && acc[a].id == acc[j].id;
            }
          } else {
            assert a == |acc|;
          }
        } else {
          assert a < |acc|;
          assert r[a] == acc[a];
          assert ms[LastIndex(init, r[a].id).value] == init[LastIndex(init, r[a].id).value];
        }
      }
    }
  }

  /** The de-duplicated list keeps first-occurrence order. */
  lemma {:induction false} DedupOrder(ms: seq<RawMatch>)
    ensures forall a, b :: 0 <= a < b < |Dedup(ms)| ==>
      && FirstIndex(ms, Dedup(ms)[a].id).Some? && FirstIndex(ms, Dedup(ms)[b].id).Some?
      && FirstIndex(ms, Dedup(ms)[a].id).value < FirstIndex(ms, Dedup(ms)[b].id).value
    decreases |ms|
  {
    if ms != [] {
      var init, m := ms[..|ms| - 1], ms[|ms| - 1];
      assert ms == init + [m];
      DedupOrder(init);
      DedupLast(init);
      DedupCovers(init);
      var acc, r := Dedup(init), Dedup(ms);
      AssignShape(acc, m);
      forall a | 0 <= a < |acc| ensures FirstIndex(ms, acc[a].id) == FirstIndex(init, acc[a].id)
                                     && FirstIndex(init, acc[a].id).Some?
                                     && FirstIndex(init, acc[a].id).value < |init| {
        FirstIndexSnoc(init, m, acc[a].id);
        var li := LastIndex(init, acc[a].id).value;
        assert init[li].id == acc[a].id;
      }
      if FirstIndex(acc, m.id).None? {
        forall j | 0 <= j < |init| ensures init[j].id != m.id {
          assert FirstIndex(acc, init[j].id).Some?;
        }
        FirstIndexSnoc(init, m, m.id);
        assert FirstIndex(ms, m.id) == Some(|init|);
      }
      forall a, b | 0 <= a < b < |r|
        ensures && FirstIndex(ms, r[a].id).Some? && FirstIndex(ms, r[b].id).Some?
                && FirstIndex(ms, r[a].id).value < FirstIndex(ms, r[b].id).value
      {
        assert r[a].id == acc[a].id;
        if b < |acc| {
          assert r[b].id == acc[b].id;
        } else {
          assert r[b] == m;
        }
      }
      assert forall a, b :: 0 <= a < b < |r| ==>
        && FirstIndex(ms, r[a].id).Some? && FirstIndex(ms, r[b].id).Some?
        && FirstIndex(ms, r[a].id).value < FirstIndex(ms, r[b].id).value;
    } else {
      assert Dedup(ms) == [];
    }
  }
}
