/**
 * The `tvl_matches` table and `TVLUpdater.run` (updateTVL.py): a table keyed by
 * `(match_id, gender)` that `insert_match` upserts into, and the two loops over
 * the women's and the men's game ids that count successes and failures.
 */
module TvlStore {
  import opened Common
  import opened TvlPage

  /** The table's `UNIQUE(match_id, gender)` key. */
  type Key = (nat, Gender)

  /** A row of `tvl_matches`: the stored record and its `scraped_at` time. */
  datatype Row = Row(data: MatchRecord, scrapedAt: int)

  function KeyOf(d: MatchRecord): Key {
    (d.matchId, d.gender)
  }

  /** Every row is stored under the key its own columns name. */
  predicate KeysCoherent(rows: map<Key, Row>) {
    forall k :: k in rows ==> KeyOf(rows[k].data) == k
  }

  /**
   * `INSERT ... ON CONFLICT (match_id, gender) DO UPDATE`: a new key gets the
   * record with `scraped_at` = `NOW()` (its default); an existing key keeps its
   * `match_id`, `gender` and `url` and takes every other column from the record,
   * with `scraped_at` = `NOW()`. No other row changes.
   */
  function Upsert(rows: map<Key, Row>, d: MatchRecord, now: int): (r: map<Key, Row>)
    ensures r.Keys == rows.Keys + {KeyOf(d)}
    ensures forall k :: k in rows && k != KeyOf(d) ==> r[k] == rows[k]
    ensures KeyOf(d) !in rows ==> r[KeyOf(d)] == Row(d, now)
    ensures KeyOf(d) in rows ==>
      var was, row := rows[KeyOf(d)].data, r[KeyOf(d)];
      && row.scrapedAt == now
      && row.data.matchId == was.matchId && row.data.gender == was.gender && row.data.url == was.url
      && row.data.matchDate == d.matchDate && row.data.matchTime == d.matchTime
      && row.data.homeName == d.homeName && row.data.awayName == d.awayName
      && row.data.status == d.status
      && row.data.homeScore == d.homeScore && row.data.awayScore == d.awayScore
      && row.data.setScores == d.setScores
  {
    var k := KeyOf(d);
    if k in rows then
      var was := rows[k].data;
      rows[k := Row(d.(matchId := was.matchId, gender := was.gender, url := was.url), now)]
    else
      rows[k := Row(d, now)]
  }

  /** The table keeps at most one row per key, stored under that key. */
  lemma UpsertCoherent(rows: map<Key, Row>, d: MatchRecord, now: int)
    requires KeysCoherent(rows)
    ensures KeysCoherent(Upsert(rows, d, now))
  {
  }

  /** Upserting the same record twice is upserting it once, at the later time. */
  lemma UpsertTwice(rows: map<Key, Row>, d: MatchRecord, t1: int, t2: int)
    ensures Upsert(Upsert(rows, d, t1), d, t2) == Upsert(rows, d, t2)
  {
    var k := KeyOf(d);
    var once, twice, direct := Upsert(rows, d, t1), Upsert(Upsert(rows, d, t1), d, t2), Upsert(rows, d, t2);
    assert twice[k] == direct[k];
    assert twice.Keys == direct.Keys;
  }

  /** Re-inserting the stored record changes nothing but `scraped_at`. */
  lemma UpsertSameData(rows: map<Key, Row>, d: MatchRecord, now: int)
    requires KeysCoherent(rows)
    requires KeyOf(d) in rows && rows[KeyOf(d)].data == d
    ensures Upsert(rows, d, now) == rows[KeyOf(d) := rows[KeyOf(d)].(scrapedAt := now)]
  {
  }

  /**
   * Records built by `parse_match` carry the URL of their key, so keeping the
   * stored `url` on conflict is the same as taking the new one.
   */
  lemma UpsertParsedRecord(rows: map<Key, Row>, id: nat, g: Gender, page: Page, now: int)
    requires KeysCoherent(rows)
    requires forall k :: k in rows ==> rows[k].data.url == FetchUrl(k.0, k.1)
    requires MatchRecordOf(id, g, page).Some?
    ensures Upsert(rows, MatchRecordOf(id, g, page).value, now)
            == rows[(id, g) := Row(MatchRecordOf(id, g, page).value, now)]
  {
    UpsertFetchUrl(rows, MatchRecordOf(id, g, page).value, now);
  }

  /** A record whose URL is its key's fetch URL replaces the row under that key whole. */
  lemma UpsertFetchUrl(rows: map<Key, Row>, d: MatchRecord, now: int)
    requires KeysCoherent(rows)
    requires forall k :: k in rows ==> rows[k].data.url == FetchUrl(k.0, k.1)
    requires d.url == FetchUrl(d.matchId, d.gender)
    ensures Upsert(rows, d, now) == rows[KeyOf(d) := Row(d, now)]
  {
    var k := KeyOf(d);
    if k in rows {
      var was := rows[k].data;
      assert d.(matchId := was.matchId, gender := was.gender, url := was.url) == d;
    }
  }

  /** The table `insert_match` writes to. */
  class MatchTable {
    var rows: map<Key, Row>

    ghost predicate Valid()
      reads this
    {
      KeysCoherent(rows)
    }

    constructor ()
      ensures Valid() && rows == map[]
    {
      rows := map[];
    }

    /** `insert_match`: one upsert, committed, at database time `now`. */
    method InsertMatch(d: MatchRecord, now: int)
      requires Valid()
      modifies this
      ensures Valid()
      ensures rows == Upsert(old(rows), d, now)
    {
      UpsertCoherent(rows, d, now);
      rows := Upsert(rows, d, now);
    }
  }

  // ---------------------------------------------------------------------------
  // run
  // ---------------------------------------------------------------------------

  /** The id ranges: women 228..278, men 264..326, both inclusive. */
  const FemaleFirst := 228
  const FemaleLast := 278
  const MaleFirst := 264
  const MaleLast := 326

  /** The (id, gender) pairs `run` visits, in order: all women's games, then all men's. */
  function Visits(): (ks: seq<Key>)
    ensures |ks| == (FemaleLast - FemaleFirst + 1) + (MaleLast - MaleFirst + 1) == 114
    ensures forall i :: 0 <= i < FemaleLast - FemaleFirst + 1 ==> ks[i] == (FemaleFirst + i, Female)
    ensures forall i :: FemaleLast - FemaleFirst + 1 <= i < |ks| ==>
      ks[i] == (MaleFirst + i - (FemaleLast - FemaleFirst + 1), Male)
  {
    seq(FemaleLast - FemaleFirst + 1, i requires 0 <= i => (FemaleFirst + i, Female))
    + seq(MaleLast - MaleFirst + 1, i requires 0 <= i => (MaleFirst + i, Male))
  }

  /** No pair is visited twice; ids 264..278 are visited once per gender. */
  lemma VisitsDistinct()
    ensures forall i, j :: 0 <= i < j < |Visits()| ==> Visits()[i] != Visits()[j]
    ensures forall id :: MaleFirst <= id <= FemaleLast ==> (id, Female) in Visits() && (id, Male) in Visits()
  {
    var ks := Visits();
    forall id | MaleFirst <= id <= FemaleLast ensures (id, Female) in ks && (id, Male) in ks {
      assert ks[id - FemaleFirst] == (id, Female);
      assert ks[id - MaleFirst + (FemaleLast - FemaleFirst + 1)] == (id, Male);
    }
  }

  /** What visiting one pair yields: the parsed record, or `None` for a skipped page or a failed parse. */
  function Outcome(web: string -> Response, k: Key): (r: Option<MatchRecord>)
    ensures r.Some? ==> KeyOf(r.value) == k
  {
    match FetchPage(web, k.0, k.1)
    case None => None
    case Some(page) => MatchRecordOf(k.0, k.1, page)
  }

  /** The records stored while visiting `ks`, in visiting order. */
  function Harvest(web: string -> Response, ks: seq<Key>): seq<MatchRecord>
    decreases |ks|
  {
    if ks == [] then []
    else
      var k := ks[|ks| - 1];
      Harvest(web, ks[..|ks| - 1]) + (if Outcome(web, k).Some? then [Outcome(web, k).value] else [])
  }

  /**
   * The table after visiting `ks`; the `i`-th visit's upsert runs at database
   * time `clock(i)` (each `insert_match` commits on its own).
   */
  function Replay(rows: map<Key, Row>, web: string -> Response, clock: nat -> int, ks: seq<Key>): map<Key, Row>
    decreases |ks|
  {
    if ks == [] then rows
    else
      var before := Replay(rows, web, clock, ks[..|ks| - 1]);
      match Outcome(web, ks[|ks| - 1])
      case None => before
      case Some(d) => Upsert(before, d, clock(|ks| - 1))
  }

  /** The pairs whose visit stored a record. */
  function Inserted(web: string -> Response, ks: seq<Key>): set<Key> {
    set k | k in ks && Outcome(web, k).Some?
  }

  predicate Distinct(ks: seq<Key>) {
    forall i, j :: 0 <= i < j < |ks| ==> ks[i] != ks[j]
  }

  /** Replaying keeps the table coherent and adds exactly the inserted keys. */
  lemma {:induction false} ReplayKeys(rows: map<Key, Row>, web: string -> Response, clock: nat -> int, ks: seq<Key>)
    requires KeysCoherent(rows)
    ensures KeysCoherent(Replay(rows, web, clock, ks))
    ensures Replay(rows, web, clock, ks).Keys == rows.Keys + Inserted(web, ks)
    decreases |ks|
  {
    if ks != [] {
      ReplayKeys(rows, web, clock, ks[..|ks| - 1]);
      ReplayKeysStep(rows, web, clock, ks);
    }
  }

  /** The inductive step of `ReplayKeys`: the last visit keeps both facts. */
  lemma ReplayKeysStep(rows: map<Key, Row>, web: string -> Response, clock: nat -> int, ks: seq<Key>)
    requires ks != []
    requires KeysCoherent(Replay(rows, web, clock, ks[..|ks| - 1]))
    requires Replay(rows, web, clock, ks[..|ks| - 1]).Keys == rows.Keys + Inserted(web, ks[..|ks| - 1])
    ensures KeysCoherent(Replay(rows, web, clock, ks))
    ensures Replay(rows, web, clock, ks).Keys == rows.Keys + Inserted(web, ks)
  {
    InsertedStep(web, ks);
    if Outcome(web, ks[|ks| - 1]).Some? {
      ReplayStored(rows, web, clock, ks);
    }
  }

  /** When the last visit stores a record, the replay grows by that record's key and stays coherent. */
  lemma ReplayStored(rows: map<Key, Row>, web: string -> Response, clock: nat -> int, ks: seq<Key>)
    requires ks != [] && Outcome(web, ks[|ks| - 1]).Some?
    requires KeysCoherent(Replay(rows, web, clock, ks[..|ks| - 1]))
    ensures KeysCoherent(Replay(rows, web, clock, ks))
    ensures Replay(rows, web, clock, ks).Keys == Replay(rows, web, clock, ks[..|ks| - 1]).Keys + {ks[|ks| - 1]}
  {
    var before, d := Replay(rows, web, clock, ks[..|ks| - 1]), Outcome(web, ks[|ks| - 1]).value;
    UpsertCoherent(before, d, clock(|ks| - 1));
  }

  /** Over distinct pairs, the number of stored records is the number of inserted keys. */
  lemma {:induction false} HarvestCount(web: string -> Response, ks: seq<Key>)
    requires Distinct(ks)
    ensures |Harvest(web, ks)| == |Inserted(web, ks)|
    decreases |ks|
  {
    if ks != [] {
      var init, k := ks[..|ks| - 1], ks[|ks| - 1];
      DistinctInit(ks);
      HarvestCount(web, init);
      assert k !in Inserted(web, init);
      InsertedStep(web, ks);
    }
  }

  /** Dropping the last pair of a distinct list leaves a distinct list without that pair. */
  lemma DistinctInit(ks: seq<Key>)
    requires ks != [] && Distinct(ks)
    ensures Distinct(ks[..|ks| - 1])
    ensures ks[|ks| - 1] !in ks[..|ks| - 1]
  {
    var init := ks[..|ks| - 1];
    forall i, j | 0 <= i < j < |init| ensures init[i] != init[j] {
      assert init[i] == ks[i] && init[j] == ks[j];
    }
    forall i | 0 <= i < |init| ensures init[i] != ks[|ks| - 1] {
      assert ks[i] != ks[|ks| - 1];
    }
  }

  /** The last visit adds its pair to the inserted set exactly when it stores a record. */
  lemma InsertedStep(web: string -> Response, ks: seq<Key>)
    requires ks != []
    ensures Inserted(web, ks) ==
      Inserted(web, ks[..|ks| - 1]) + (if Outcome(web, ks[|ks| - 1]).Some? then {ks[|ks| - 1]} else {})
  {
    var init, k := ks[..|ks| - 1], ks[|ks| - 1];
    forall x ensures x in ks <==> x in init || x == k {
      if x in ks {
        var i :| 0 <= i < |ks| && ks[i] == x;
        if i < |init| {
          assert init[i] == x;
        }
      }
      if x in init {
        var i :| 0 <= i < |init| && init[i] == x;
        assert ks[i] == x;
      }
    }
  }

  /** An upsert's row for its key depends only on the old row under that key. */
  lemma UpsertLocal(a: map<Key, Row>, b: map<Key, Row>, d: MatchRecord, now: int)
    requires (KeyOf(d) in a) == (KeyOf(d) in b)
    requires KeyOf(d) in a ==> a[KeyOf(d)] == b[KeyOf(d)]
    ensures Upsert(a, d, now)[KeyOf(d)] == Upsert(b, d, now)[KeyOf(d)]
  {
  }

  /** A pair that is never visited keeps its row. */
  lemma {:induction false} ReplayFrame(rows: map<Key, Row>, web: string -> Response, clock: nat -> int, ks: seq<Key>, k: Key)
    requires k !in ks
    ensures (k in Replay(rows, web, clock, ks)) == (k in rows)
    ensures k in rows ==> Replay(rows, web, clock, ks)[k] == rows[k]
    decreases |ks|
  {
    if ks != [] {
      var init := ks[..|ks| - 1];
      assert ks[|ks| - 1] != k;
      assert k !in init by {
        forall i | 0 <= i < |init| ensures init[i] != k {
          assert init[i] == ks[i];
        }
      }
      ReplayFrame(rows, web, clock, init, k);
    }
  }

  /**
   * Over distinct pairs, the final row of a pair whose visit stored a record is
   * that record upserted into the starting table at the time of its visit.
   */
  lemma {:induction false} ReplayRow(rows: map<Key, Row>, web: string -> Response, clock: nat -> int, ks: seq<Key>, i: nat)
    requires Distinct(ks) && i < |ks| && Outcome(web, ks[i]).Some?
    ensures ks[i] in Replay(rows, web, clock, ks)
    ensures Replay(rows, web, clock, ks)[ks[i]] == Upsert(rows, Outcome(web, ks[i]).value, clock(i))[ks[i]]
    decreases |ks|
  {
    var init, k := ks[..|ks| - 1], ks[|ks| - 1];
    if i == |ks| - 1 {
      assert k !in init by {
        forall j | 0 <= j < |init| ensures init[j] != k {
          assert ks[j] != ks[|ks| - 1];
        }
      }
      ReplayFrame(rows, web, clock, init, k);
      UpsertLocal(Replay(rows, web, clock, init), rows, Outcome(web, k).value, clock(i));
    } else {
      assert Distinct(init) by {
        forall a, b | 0 <= a < b < |init| ensures init[a] != init[b] {
          assert init[a] == ks[a] && init[b] == ks[b];
        }
      }
      assert init[i] == ks[i];
      assert ks[i] != k;
      ReplayRow(rows, web, clock, init, i);
      ReplayLastStep(rows, web, clock, ks, ks[i]);
    }
  }

  /** The last visit changes no row but its own pair's. */
  lemma ReplayLastStep(rows: map<Key, Row>, web: string -> Response, clock: nat -> int, ks: seq<Key>, x: Key)
    requires ks != [] && x != ks[|ks| - 1]
    ensures (x in Replay(rows, web, clock, ks)) == (x in Replay(rows, web, clock, ks[..|ks| - 1]))
    ensures x in Replay(rows, web, clock, ks) ==>
      Replay(rows, web, clock, ks)[x] == Replay(rows, web, clock, ks[..|ks| - 1])[x]
  {
    var k := ks[|ks| - 1];
    var before := Replay(rows, web, clock, ks[..|ks| - 1]);
    if Outcome(web, k).Some? {
      assert Replay(rows, web, clock, ks) == Upsert(before, Outcome(web, k).value, clock(|ks| - 1));
      assert KeyOf(Outcome(web, k).value) == k;
    } else {
      assert Replay(rows, web, clock, ks) == before;
    }
  }

  /** One visit extends the replay and the harvest by that visit's outcome. */
  lemma VisitStep(rows: map<Key, Row>, web: string -> Response, clock: nat -> int, ks: seq<Key>, pos: nat)
    requires pos < |ks|
    ensures Replay(rows, web, clock, ks[..pos + 1]) ==
      match Outcome(web, ks[pos])
      case None => Replay(rows, web, clock, ks[..pos])
      case Some(d) => Upsert(Replay(rows, web, clock, ks[..pos]), d, clock(pos))
    ensures |Harvest(web, ks[..pos + 1])| == |Harvest(web, ks[..pos])| + (if Outcome(web, ks[pos]).Some? then 1 else 0)
  {
    assert ks[..pos + 1][..pos] == ks[..pos];
  }

  /**
   * The body of `run`'s loops for one pair: fetch the page, parse it and, when
   * both succeed, upsert the record at database time `now`.
   */
  method Visit(table: MatchTable, web: string -> Response, k: Key, now: int) returns (stored: bool)
    requires table.Valid()
    modifies table
    ensures table.Valid()
    ensures stored == Outcome(web, k).Some?
    ensures table.rows == if stored then Upsert(old(table.rows), Outcome(web, k).value, now) else old(table.rows)
  {
    var (id, g) := k;
    var page := FetchPage(web, id, g);
    stored := false;
    if page.Some? {
      var data := ParseMatch(id, g, page.value);
      if data.Some? {
        table.InsertMatch(data.value, now);
        stored := true;
      }
    }
  }

  /** One iteration of `run`'s loops: visit `k`, the next pair of `ks`, and extend the replay by it. */
  method VisitNext(table: MatchTable, web: string -> Response, clock: nat -> int,
                   ghost start: map<Key, Row>, ghost ks: seq<Key>, pos: nat, k: Key) returns (stored: bool)
    requires pos < |ks| && ks[pos] == k && table.Valid()
    requires table.rows == Replay(start, web, clock, ks[..pos])
    modifies table
    ensures table.Valid()
    ensures stored == Outcome(web, ks[pos]).Some?
    ensures table.rows == Replay(start, web, clock, ks[..pos + 1])
    ensures |Harvest(web, ks[..pos + 1])| == |Harvest(web, ks[..pos])| + (if stored then 1 else 0)
  {
    VisitStep(start, web, clock, ks, pos);
    stored := Visit(table, web, k, clock(pos));
  }

  /**
   * `run`'s two loops: for each visited pair, fetch, parse and upsert, counting a
   * success for every stored record and a failure for every skipped page or
   * failed parse. `web` stands for the site and `clock(i)` for `NOW()` at the
   * `i`-th visit.
   */
  method Run(table: MatchTable, web: string -> Response, clock: nat -> int) returns (success: nat, failed: nat)
    requires table.Valid()
    modifies table
    ensures table.Valid()
    ensures success + failed == |Visits()|
    ensures success == |Harvest(web, Visits())|
    ensures table.rows == Replay(old(table.rows), web, clock, Visits())
  {
    ghost var start := table.rows;
    ghost var ks := Visits();
    success, failed := 0, 0;
    var pos: nat := 0;
    for id := FemaleFirst to FemaleLast + 1
      invariant pos == id - FemaleFirst
      invariant table.Valid()
      invariant success + failed == pos
      invariant success == |Harvest(web, ks[..pos])|
      invariant table.rows == Replay(start, web, clock, ks[..pos])
    {
      assert ks[pos] == (id, Female);
      var stored := VisitNext(table, web, clock, start, ks, pos, (id, Female));
      if stored {
        success := success + 1;
      } else {
        failed := failed + 1;
      }
      pos := pos + 1;
    }
    for id := MaleFirst to MaleLast + 1
      invariant pos == (FemaleLast - FemaleFirst + 1) + (id - MaleFirst)
      invariant table.Valid()
      invariant success + failed == pos
      invariant success == |Harvest(web, ks[..pos])|
      invariant table.rows == Replay(start, web, clock, ks[..pos])
    {
      assert ks[pos] == (id, Male);
      var stored := VisitNext(table, web, clock, start, ks, pos, (id, Male));
      if stored {
        success := success + 1;
      } else {
        failed := failed + 1;
      }
      pos := pos + 1;
    }
    assert ks[..pos] == ks;
  }

  /**
   * After a run, `success` counts exactly the pairs that were stored, and those
   * pairs are the keys the run added to the table.
   */
  lemma RunCounts(rows: map<Key, Row>, web: string -> Response, clock: nat -> int)
    requires KeysCoherent(rows)
    ensures |Harvest(web, Visits())| == |Inserted(web, Visits())|
    ensures Replay(rows, web, clock, Visits()).Keys == rows.Keys + Inserted(web, Visits())
  {
    VisitsDistinct();
    HarvestCount(web, Visits());
    ReplayKeys(rows, web, clock, Visits());
  }

  /** Starting from an empty table, each stored pair's row is its own record and the time of its visit. */
  lemma RunRows(web: string -> Response, clock: nat -> int, i: nat)
    requires i < |Visits()| && Outcome(web, Visits()[i]).Some?
    ensures Visits()[i] in Replay(map[], web, clock, Visits())
    ensures Replay(map[], web, clock, Visits())[Visits()[i]] == Row(Outcome(web, Visits()[i]).value, clock(i))
  {
    var ks, empty: map<Key, Row> := Visits(), map[];
    VisitsDistinct();
    assert Distinct(ks);
    ReplayRow(empty, web, clock, ks, i);
    var d := Outcome(web, ks[i]).value;
    assert KeyOf(d) == ks[i];
    assert Upsert(empty, d, clock(i))[ks[i]] == Row(d, clock(i));
  }
}
