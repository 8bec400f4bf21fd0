/**
 * The `tpvl_teams` and `tpvl_matches` tables and `TPVLLocalUpdater.run`
 * (updateTVPL.py): both tables are keyed by `id`; `upsert_teams` and
 * `upsert_matches` submit one tuple per squad or match with
 * `INSERT ... ON CONFLICT (id) DO UPDATE`, and `run` fetches the five pages,
 * de-duplicates the matches and upserts what it found.
 *
 * `datetime.now()` is a clock indexed by the position of the tuple it stamps;
 * `NOW()` is one value per transaction, as in PostgreSQL.
 */
module TpvlStore {
  import opened Common
  import opened TpvlSchedule

  // ---------------------------------------------------------------------------
  // tpvl_teams
  // ---------------------------------------------------------------------------

  /** A row of `tpvl_teams`, stored under its `id`. */
  datatype TeamRow = TeamRow(name: string, nameEn: Option<string>, logoUrl: Option<string>, createdAt: int, updatedAt: int)

  /** The tuple `upsert_teams` submits: id, name, name_en, logo_url, updated_at. */
  datatype TeamTuple = TeamTuple(id: int, name: string, nameEn: Option<string>, logoUrl: Option<string>, updatedAt: int)

  /** The `values` list of `upsert_teams`, stamped by `datetime.now()` = `clock(i)`. */
  function TeamValues(squads: seq<Squad>, clock: nat -> int): seq<TeamTuple> {
    seq(|squads|, i requires 0 <= i < |squads| =>
      TeamTuple(squads[i].id, squads[i].name, squads[i].altName, squads[i].logoUrl, clock(i)))
  }

  /**
   * One tuple of `upsert_teams`: a new id gets the tuple with `created_at` =
   * `NOW()` (its default) and the submitted `updated_at`; an existing id takes
   * the new name, name_en and logo_url, sets `updated_at` = `NOW()` and keeps
   * `created_at`. No other row changes.
   */
  function UpsertTeam(teams: map<int, TeamRow>, v: TeamTuple, dbNow: int): (r: map<int, TeamRow>)
    ensures r.Keys == teams.Keys + {v.id}
    ensures forall k :: k in teams && k != v.id ==> r[k] == teams[k]
    ensures r[v.id].name == v.name && r[v.id].nameEn == v.nameEn && r[v.id].logoUrl == v.logoUrl
    ensures v.id in teams ==> r[v.id].createdAt == teams[v.id].createdAt && r[v.id].updatedAt == dbNow
    ensures v.id !in teams ==> r[v.id].createdAt == dbNow && r[v.id].updatedAt == v.updatedAt
  {
    if v.id in teams then
      teams[v.id := teams[v.id].(name := v.name, nameEn := v.nameEn, logoUrl := v.logoUrl, updatedAt := dbNow)]
    else
      teams[v.id := TeamRow(v.name, v.nameEn, v.logoUrl, dbNow, v.updatedAt)]
  }

  /** The tuples of one `execute_values` call, applied in order. */
  function UpsertTeamsAll(teams: map<int, TeamRow>, vs: seq<TeamTuple>, dbNow: int): map<int, TeamRow>
    decreases |vs|
  {
    if vs == [] then teams
    else UpsertTeam(UpsertTeamsAll(teams, vs[..|vs| - 1], dbNow), vs[|vs| - 1], dbNow)
  }

  /** The ids a list of team tuples names. */
  function TeamIds(vs: seq<TeamTuple>): set<int> {
    set i | 0 <= i < |vs| :: vs[i].id
  }

  /** Upserting keeps every row and adds one per new id. */
  lemma {:induction false} UpsertTeamsAllKeys(teams: map<int, TeamRow>, vs: seq<TeamTuple>, dbNow: int)
    ensures UpsertTeamsAll(teams, vs, dbNow).Keys == teams.Keys + TeamIds(vs)
    decreases |vs|
  {
    if vs != [] {
      var init := vs[..|vs| - 1];
      UpsertTeamsAllKeys(teams, init, dbNow);
      assert TeamIds(vs) == TeamIds(init) + {vs[|vs| - 1].id} by {
        forall x | x in TeamIds(vs) ensures x in TeamIds(init) + {vs[|vs| - 1].id} {
          var i :| 0 <= i < |vs| && vs[i].id == x;
          if i < |vs| - 1 {
            assert init[i] == vs[i];
          }
        }
        forall x | x in TeamIds(init) ensures x in TeamIds(vs) {
          var i :| 0 <= i < |init| && init[i].id == x;
          assert vs[i] == init[i];
        }
      }
    }
  }

  /**
   * With distinct ids, each squad's row is what upserting its tuple alone would
   * give, and every other row is unchanged.
   */
  lemma {:induction false} UpsertTeamsAllRows(teams: map<int, TeamRow>, vs: seq<TeamTuple>, dbNow: int)
    requires forall a, b :: 0 <= a < b < |vs| ==> vs[a].id != vs[b].id
    ensures var r := UpsertTeamsAll(teams, vs, dbNow);
      forall i :: 0 <= i < |vs| ==> vs[i].id in r && r[vs[i].id] == UpsertTeam(teams, vs[i], dbNow)[vs[i].id]
    ensures var r := UpsertTeamsAll(teams, vs, dbNow);
      forall k :: k in teams && k !in TeamIds(vs) ==> k in r && r[k] == teams[k]
    decreases |vs|
  {
    if vs != [] {
      var init, v := vs[..|vs| - 1], vs[|vs| - 1];
      UpsertTeamsAllRows(teams, init, dbNow);
      var mid := UpsertTeamsAll(teams, init, dbNow);
      assert forall i :: 0 <= i < |init| ==> init[i] == vs[i];
      assert v.id !in TeamIds(init);
      assert TeamIds(init) <= TeamIds(vs) by {
        forall x | x in TeamIds(init) ensures x in TeamIds(vs) {
          var i :| 0 <= i < |init| && init[i].id == x;
          assert vs[i] == init[i];
        }
      }
      if v.id in teams {
        assert mid[v.id] == teams[v.id];
      } else {
        assert v.id !in mid by {
          if v.id in mid {
            UpsertTeamsAllOrigin(teams, init, dbNow, v.id);
          }
        }
      }
      var r := UpsertTeam(mid, v, dbNow);
      assert r[v.id] == UpsertTeam(teams, v, dbNow)[v.id];
      forall i | 0 <= i < |init|
        ensures vs[i].id in r && r[vs[i].id] == UpsertTeam(teams, vs[i], dbNow)[vs[i].id]
      {
        assert vs[i] == init[i] && vs[i].id != v.id;
      }
    }
  }

  /** A row after upserting was there before or came from one of the tuples. */
  lemma {:induction false} UpsertTeamsAllOrigin(teams: map<int, TeamRow>, vs: seq<TeamTuple>, dbNow: int, k: int)
    requires k in UpsertTeamsAll(teams, vs, dbNow)
    ensures k in teams || k in TeamIds(vs)
    decreases |vs|
  {
    if vs != [] {
      var init := vs[..|vs| - 1];
      if k != vs[|vs| - 1].id {
        UpsertTeamsAllOrigin(teams, init, dbNow, k);
        if k in TeamIds(init) {
          var i :| 0 <= i < |init| && init[i].id == k;
          assert vs[i] == init[i];
        }
      }
    }
  }

  /**
   * After `upsert_teams` on squads with distinct ids, each squad's row holds its
   * name, `altName` and `logoUrl`; `created_at` is kept for a known id and is
   * `NOW()` for a new one.
   */
  lemma TeamRowsOf(teams: map<int, TeamRow>, squads: seq<Squad>, clock: nat -> int, dbNow: int, i: nat)
    requires forall a, b :: 0 <= a < b < |squads| ==> squads[a].id != squads[b].id
    requires i < |squads|
    ensures var r, sq := UpsertTeamsAll(teams, TeamValues(squads, clock), dbNow), squads[i];
      && sq.id in r
      && r[sq.id].name == sq.name && r[sq.id].nameEn == sq.altName && r[sq.id].logoUrl == sq.logoUrl
      && r[sq.id].createdAt == (if sq.id in teams then teams[sq.id].createdAt else dbNow)
  {
    var vs := TeamValues(squads, clock);
    UpsertTeamsAllRows(teams, vs, dbNow);
    assert vs[i].id == squads[i].id;
  }

  // ---------------------------------------------------------------------------
  // tpvl_matches
  // ---------------------------------------------------------------------------

  /** A row of `tpvl_matches`: the 12 submitted columns and `created_at`. */
  datatype MatchRow = MatchRow(cols: MatchTuple, createdAt: int)

  predicate MatchesCoherent(matches: map<int, MatchRow>) {
    forall k :: k in matches ==> matches[k].cols.id == k
  }

  /**
   * One tuple of `upsert_matches`: a new id gets the tuple with `created_at` =
   * `NOW()`; an existing id takes every submitted column, with `updated_at` =
   * `NOW()`, and keeps `created_at`. No other row changes.
   */
  function UpsertMatch(matches: map<int, MatchRow>, t: MatchTuple, dbNow: int): (r: map<int, MatchRow>)
    ensures r.Keys == matches.Keys + {t.id}
    ensures forall k :: k in matches && k != t.id ==> r[k] == matches[k]
    ensures r[t.id].cols.(updatedAt := t.updatedAt) == t
    ensures t.id in matches ==> r[t.id].createdAt == matches[t.id].createdAt && r[t.id].cols.updatedAt == dbNow
    ensures t.id !in matches ==> r[t.id] == MatchRow(t, dbNow)
  {
    if t.id in matches then
      matches[t.id := MatchRow(t.(updatedAt := dbNow), matches[t.id].createdAt)]
    else
      matches[t.id := MatchRow(t, dbNow)]
  }

  function UpsertMatchesAll(matches: map<int, MatchRow>, ts: seq<MatchTuple>, dbNow: int): map<int, MatchRow>
    decreases |ts|
  {
    if ts == [] then matches
    else UpsertMatch(UpsertMatchesAll(matches, ts[..|ts| - 1], dbNow), ts[|ts| - 1], dbNow)
  }

  function MatchIds(ts: seq<MatchTuple>): set<int> {
    set i | 0 <= i < |ts| :: ts[i].id
  }

  /** Upserting keeps every row and adds one per new id; rows stay under their own id. */
  lemma {:induction false} UpsertMatchesAllKeys(matches: map<int, MatchRow>, ts: seq<MatchTuple>, dbNow: int)
    requires MatchesCoherent(matches)
    ensures UpsertMatchesAll(matches, ts, dbNow).Keys == matches.Keys + MatchIds(ts)
    ensures MatchesCoherent(UpsertMatchesAll(matches, ts, dbNow))
    decreases |ts|
  {
    if ts != [] {
      var init := ts[..|ts| - 1];
      UpsertMatchesAllKeys(matches, init, dbNow);
      assert MatchIds(ts) == MatchIds(init) + {ts[|ts| - 1].id} by {
        forall x | x in MatchIds(ts) ensures x in MatchIds(init) + {ts[|ts| - 1].id} {
          var i :| 0 <= i < |ts| && ts[i].id == x;
          if i < |ts| - 1 {
            assert init[i] == ts[i];
          }
        }
        forall x | x in MatchIds(init) ensures x in MatchIds(ts) {
          var i :| 0 <= i < |init| && init[i].id == x;
          assert ts[i] == init[i];
        }
      }
    }
  }

  /** A row after upserting was there before or came from one of the tuples. */
  lemma {:induction false} UpsertMatchesAllOrigin(matches: map<int, MatchRow>, ts: seq<MatchTuple>, dbNow: int, k: int)
    requires k in UpsertMatchesAll(matches, ts, dbNow)
    ensures k in matches || k in MatchIds(ts)
    decreases |ts|
  {
    if ts != [] {
      var init := ts[..|ts| - 1];
      if k != ts[|ts| - 1].id {
        UpsertMatchesAllOrigin(matches, init, dbNow, k);
        if k in MatchIds(init) {
          var i :| 0 <= i < |init| && init[i].id == k;
          assert ts[i] == init[i];
        }
      }
    }
  }

  /**
   * With distinct ids, each match's row is what upserting its tuple alone would
   * give, and every other row is unchanged.
   */
  lemma {:induction false} UpsertMatchesAllRows(matches: map<int, MatchRow>, ts: seq<MatchTuple>, dbNow: int)
    requires forall a, b :: 0 <= a < b < |ts| ==> ts[a].id != ts[b].id
    ensures var r := UpsertMatchesAll(matches, ts, dbNow);
      forall i :: 0 <= i < |ts| ==> ts[i].id in r && r[ts[i].id] == UpsertMatch(matches, ts[i], dbNow)[ts[i].id]
    ensures var r := UpsertMatchesAll(matches, ts, dbNow);
      forall k :: k in matches && k !in MatchIds(ts) ==> k in r && r[k] == matches[k]
    decreases |ts|
  {
    if ts != [] {
      var init, t := ts[..|ts| - 1], ts[|ts| - 1];
      UpsertMatchesAllRows(matches, init, dbNow);
      var mid := UpsertMatchesAll(matches, init, dbNow);
      assert forall i :: 0 <= i < |init| ==> init[i] == ts[i];
      assert t.id !in MatchIds(init);
      assert MatchIds(init) <= MatchIds(ts) by {
        forall x | x in MatchIds(init) ensures x in MatchIds(ts) {
          var i :| 0 <= i < |init| && init[i].id == x;
          assert ts[i] == init[i];
        }
      }
      if t.id in matches {
        assert mid[t.id] == matches[t.id];
      } else {
        assert t.id !in mid by {
          if t.id in mid {
            UpsertMatchesAllOrigin(matches, init, dbNow, t.id);
          }
        }
      }
    }
  }

  /** The values of a list of options, or `None` when one of them is `None`. */
  function AllSome<T>(os: seq<Option<T>>): (r: Option<seq<T>>)
    ensures r.Some? <==> forall i :: 0 <= i < |os| ==> os[i].Some?
    ensures r.Some? ==> |r.value| == |os| && forall i :: 0 <= i < |os| ==> Some(r.value[i]) == os[i]
    decreases |os|
  {
    if os == [] then Some([])
    else
      var init := os[..|os| - 1];
      assert forall i :: 0 <= i < |init| ==> init[i] == os[i];
      match AllSome(init)
      case None => None
      case Some(vs) =>
        match os[|os| - 1]
        case None => None
        case Some(t) => Some(vs + [t])
  }

  /**
   * The `values` list of `upsert_matches`: `parse_match` of each match, with
   * `datetime.now()` = `clock(i)`; `None` when one of them raises.
   */
  function ParsedAll(ms: seq<RawMatch>, clock: nat -> int): (r: Option<seq<MatchTuple>>)
    ensures r.Some? <==> forall i :: 0 <= i < |ms| ==> MatchValuesOf(ms[i], clock(i)).Some?
    ensures r.Some? ==> |r.value| == |ms|
    ensures r.Some? ==> forall i :: 0 <= i < |ms| ==> Some(r.value[i]) == MatchValuesOf(ms[i], clock(i))
  {
    var os := seq(|ms|, i requires 0 <= i < |ms| => MatchValuesOf(ms[i], clock(i)));
    assert forall i :: 0 <= i < |ms| ==> os[i] == MatchValuesOf(ms[i], clock(i));
    var r := AllSome(os);
    assert r.Some? <==> forall i :: 0 <= i < |os| ==> os[i].Some?;
    r
  }

  /** Distinct match ids give distinct tuple ids. */
  lemma ParsedAllDistinct(ms: seq<RawMatch>, clock: nat -> int)
    requires DistinctIds(ms)
    requires ParsedAll(ms, clock).Some?
    ensures var ts := ParsedAll(ms, clock).value;
      forall a, b :: 0 <= a < b < |ts| ==> ts[a].id != ts[b].id
  {
    var ts := ParsedAll(ms, clock).value;
    forall a, b | 0 <= a < b < |ts| ensures ts[a].id != ts[b].id {
      assert Some(ts[a]) == MatchValuesOf(ms[a], clock(a));
      assert Some(ts[b]) == MatchValuesOf(ms[b], clock(b));
    }
  }

  // ---------------------------------------------------------------------------
  // The database the updater writes to
  // ---------------------------------------------------------------------------

  class Store {
    var teams: map<int, TeamRow>
    var matches: map<int, MatchRow>

    ghost predicate Valid()
      reads this
    {
      MatchesCoherent(matches)
    }

    constructor ()
      ensures Valid() && teams == map[] && matches == map[]
    {
      teams, matches := map[], map[];
    }

    /** `upsert_teams`: one tuple per squad, committed at database time `dbNow`. */
    method UpsertTeams(squads: seq<Squad>, clock: nat -> int, dbNow: int)
      requires Valid()
      modifies this
      ensures Valid()
      ensures teams == UpsertTeamsAll(old(teams), TeamValues(squads, clock), dbNow)
      ensures matches == old(matches)
    {
      teams := UpsertTeamsAll(teams, TeamValues(squads, clock), dbNow);
    }

    /**
     * `upsert_matches`: the tuples are built before anything is written, so a
     * `parse_match` that raises (`ok` false) leaves the table as it was; otherwise
     * one tuple per match is upserted and committed at database time `dbNow`.
     */
    method UpsertMatches(ms: seq<RawMatch>, clock: nat -> int, dbNow: int) returns (ok: bool)
      requires Valid()
      modifies this
      ensures Valid()
      ensures ok <==> ParsedAll(ms, clock).Some?
      ensures ok ==> matches == UpsertMatchesAll(old(matches), ParsedAll(ms, clock).value, dbNow)
      ensures !ok ==> matches == old(matches)
      ensures teams == old(teams)
    {
      var values: seq<MatchTuple> := [];
      for i := 0 to |ms|
        invariant |values| == i
        invariant forall j :: 0 <= j < i ==> Some(values[j]) == MatchValuesOf(ms[j], clock(j))
        invariant teams == old(teams) && matches == old(matches)
      {
        var t := ParseMatch(ms[i], clock(i));
        if t.None? {
          return false;
        }
        values := values + [t.value];
      }
      assert ParsedAll(ms, clock).Some?;
      assert values == ParsedAll(ms, clock).value;
      UpsertMatchesAllKeys(matches, values, dbNow);
      matches := UpsertMatchesAll(matches, values, dbNow);
      ok := true;
    }
  }

  // ---------------------------------------------------------------------------
  // run
  // ---------------------------------------------------------------------------

  /** How `run` ends after the tables exist. */
  datatype RunOutcome =
    | FetchCrash   // a fetch returned `(None, None)`: `TypeError` before any write
    | ParseCrash   // `parse_match` raised inside `upsert_matches`, after the teams were written
    | Done

  /** The five fetches of `run`, in order, against the web `web`. */
  function Fetches(web: string -> HttpResult, loads: string -> Decoded): (fs: seq<Fetched>)
    ensures |fs| == |Pages|
    ensures forall i :: 0 <= i < |Pages| ==> fs[i] == FetchSchedule(web(ScheduleUrl(Pages[i].0, Pages[i].1)), loads)
  {
    seq(|Pages|, i requires 0 <= i < |Pages| => FetchSchedule(web(ScheduleUrl(Pages[i].0, Pages[i].1)), loads))
  }

  /**
   * Steps 3-5 of `run`: fetch and accumulate, de-duplicate, upsert the page-1
   * squads when there are any, then the unique matches when there are any.
   * `teamClock`/`matchClock` stand for `datetime.now()` in the two `values`
   * lists, `dbTeams`/`dbMatches` for `NOW()` in the two transactions.
   */
  method Run(store: Store, web: string -> HttpResult, loads: string -> Decoded,
             teamClock: nat -> int, matchClock: nat -> int, dbTeams: int, dbMatches: int)
    returns (outcome: RunOutcome)
    requires store.Valid()
    modifies store
    ensures store.Valid()
    ensures var fs := Fetches(web, loads);
      outcome == FetchCrash <==> AnyNonePair(fs)
    ensures var fs := Fetches(web, loads);
      outcome == FetchCrash ==> store.teams == old(store.teams) && store.matches == old(store.matches)
    ensures var fs := Fetches(web, loads);
      outcome != FetchCrash ==>
        store.teams == if SquadsOf(fs) == [] then old(store.teams)
                       else UpsertTeamsAll(old(store.teams), TeamValues(SquadsOf(fs), teamClock), dbTeams)
    ensures var fs := Fetches(web, loads);
      outcome == ParseCrash <==>
        !AnyNonePair(fs) && Dedup(Accumulated(fs)) != [] && ParsedAll(Dedup(Accumulated(fs)), matchClock).None?
    ensures var unique := Dedup(Accumulated(Fetches(web, loads)));
      outcome == Done ==>
        store.matches == if unique == [] then old(store.matches)
                         else UpsertMatchesAll(old(store.matches), ParsedAll(unique, matchClock).value, dbMatches)
    ensures outcome == ParseCrash ==> store.matches == old(store.matches)
  {
    var fs: seq<Fetched> := [];
    for i := 0 to |Pages|
      invariant fs == Fetches(web, loads)[..i]
    {
      var (resultPage, futurePage) := Pages[i];
      fs := fs + [FetchSchedule(web(ScheduleUrl(resultPage, futurePage)), loads)];
    }
    assert fs == Fetches(web, loads);
    var crashed, squads, all := Accumulate(fs);
    if crashed {
      return FetchCrash;
    }
    var unique := Dedup(all);
    if squads != [] {
      store.UpsertTeams(squads, teamClock, dbTeams);
    }
    if unique != [] {
      var ok := store.UpsertMatches(unique, matchClock, dbMatches);
      if !ok {
        return ParseCrash;
      }
    }
    outcome := Done;
  }

  /**
   * After the unique matches are upserted, every accumulated match id has a row
   * whose columns are `parse_match` of the LAST accumulated match with that id,
   * at the position `a` the id holds in the de-duplicated list (timestamp aside).
   */
  lemma DedupUpsertRows(matches: map<int, MatchRow>, all: seq<RawMatch>, clock: nat -> int, dbNow: int, j: nat)
    requires ParsedAll(Dedup(all), clock).Some?
    requires j < |all|
    ensures var unique := Dedup(all);
      var r := UpsertMatchesAll(matches, ParsedAll(unique, clock).value, dbNow);
      && all[j].id in r && FirstIndex(unique, all[j].id).Some?
      && var a := FirstIndex(unique, all[j].id).value;
         && unique[a] == all[LastIndex(all, all[j].id).value]
         && Some(r[all[j].id].cols.(updatedAt := clock(a))) == MatchValuesOf(unique[a], clock(a))
  {
    var unique := Dedup(all);
    var ts := ParsedAll(unique, clock).value;
    DedupDistinct(all);
    DedupCovers(all);
    DedupLast(all);
    ParsedAllDistinct(unique, clock);
    UpsertMatchesAllRows(matches, ts, dbNow);
    var a := FirstIndex(unique, all[j].id).value;
    assert Some(ts[a]) == MatchValuesOf(unique[a], clock(a));
    assert ts[a].id == all[j].id;
  }

  /** Rows of ids that were not accumulated are left as they were. */
  lemma DedupUpsertFrame(matches: map<int, MatchRow>, all: seq<RawMatch>, clock: nat -> int, dbNow: int, k: int)
    requires ParsedAll(Dedup(all), clock).Some?
    requires k in matches && forall j :: 0 <= j < |all| ==> all[j].id != k
    ensures var r := UpsertMatchesAll(matches, ParsedAll(Dedup(all), clock).value, dbNow);
      k in r && r[k] == matches[k]
  {
    var unique := Dedup(all);
    var ts := ParsedAll(unique, clock).value;
    DedupDistinct(all);
    DedupLast(all);
    ParsedAllDistinct(unique, clock);
    UpsertMatchesAllRows(matches, ts, dbNow);
    assert k !in MatchIds(ts) by {
      forall i | 0 <= i < |ts| ensures ts[i].id != k {
        assert Some(ts[i]) == MatchValuesOf(unique[i], clock(i));
        var l := LastIndex(all, unique[i].id).value;
        assert all[l].id == unique[i].id;
      }
    }
  }
}
