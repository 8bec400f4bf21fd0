# Volleyball schedule scrapers, modelled in Dafny

This project models the two updaters of a volleyball-schedule crawler.

- **`TVLUpdater`** (`updateTVL.py`) visits the TVL match pages. There are 51 women's games (ids 228..278) and 63 men's games (ids 264..326). For each page it:
  - reads the team names, the date and time in the header, the status badge, the big scores and the five set scores;
  - upserts one row per `(match_id, gender)` into `tvl_matches`;
  - counts successes and failures.
- **`TPVLLocalUpdater`** (`updateTVPL.py`) fetches five TPVL schedule pages. For each page it:
  - cuts the `__NEXT_DATA__` JSON out of the HTML;
  - reads its results, futures and squads.

  Across the pages it:
  - accumulates the matches in a fixed order;
  - de-duplicates them by id (the last value wins; first-occurrence order is kept);
  - converts each match's UTC time to Taipei time (+8 hours, with calendar rollover) and gives it a Chinese weekday name;
  - upserts teams and matches by `id`.

Modules, one per file:

- `common.dfy` (`Common`): `Option`.
- `text.dfy` (`Text`) covers:
  - Python's whitespace class, used by `str.strip()` and `\s`;
  - ASCII digits, `int()` on a `str` (sign, underscores, the whitespace `int()` itself skips and CPython's 4300-digit limit included) and `str()` of integers;
  - substring search (`in`);
  - `", ".join` and its inverse;
  - `str.replace` on one character.
- `civil.dfy` (`Civil`): Python's proleptic Gregorian `datetime` arithmetic. This covers `toordinal()`, `weekday()`, and `+ timedelta(hours=h)` with rollover and `OverflowError` past 9999-12-31.
- `tvl_page.dfy` (`TvlPage`): the per-page rules of `updateTVL.py`. Pages are given as the located fragment texts.
- `tvl_store.dfy` (`TvlStore`): the `tvl_matches` table as a class with a `map` field, and `run`'s two counting loops.
- `tpvl_schedule.dfy` (`TpvlSchedule`): `extract_json_data`, `fetch_schedule`, `parse_match`, and the accumulation and de-duplication of `run`.
- `tpvl_store.dfy` (`TpvlStore`): the `tpvl_teams` and `tpvl_matches` tables as a class, `upsert_teams`, `upsert_matches` and `run`.

Abstractions:

- The network is a function parameter (`web`). For TVL it maps a URL to a response. For TPVL it maps a URL to an HTTP result.
- `json.loads` is a parameter (`loads`). It yields the JSON document already shaped as datatypes.
- BeautifulSoup is replaced by the texts its selectors find, with `None` where a selector finds nothing.
- `datetime.now()` and `NOW()` are parameters. They are clocks indexed by position, and one value per transaction for PostgreSQL's `NOW()`.

The code's two id ranges give 51 + 63 = 114 page visits per run (`TvlStore.Visits`).

## Model

| member | source | states |
|---|---|---|
| Text.Strip | updateTVL.py:149-150 | `str.strip()`: the result is the slice of the input between its leading and trailing whitespace. It is empty exactly when the input is all whitespace; otherwise it starts and ends with a non-space. |
| Text.StripIdempotent | updateTVL.py:206 | Stripping an already stripped text changes nothing. |
| Text.PyIntDigits | updateTVL.py:218-219 | On a non-empty string of ASCII digits, `int()` gives the number the digits denote when there are at most 4300 of them, and raises when there are more. |
| Text.PyIntStrip | updateTVL.py:218-219 | On a text that holds none of U+001C..U+001F, `int(s.strip())` equals `int(s)`. |
| Text.PyIntStripped | updateTVL.py:218-219 | After `str.strip()` no whitespace is left for `int()` to skip, so `int(s.strip())` reads the stripped text as a literal. |
| Text.PyIntSeparatorExample | updateTVL.py:218-219 | `str.strip()` removes U+001C and `int()` does not: `int("\x1c5")` raises while `int("\x1c5".strip()) == 5`. |
| Text.PyIntShowInt | updateTVL.py:218-219 | `int(str(n)) == n` for every integer of at most 4300 digits, negative ones included; beyond that `int()` raises. |
| Text.IntLiteralSigned | updateTVL.py:218-219 | A numeral of at most 4300 digits reads as its value, with a leading `+` as the same value and with a leading `-` as its negation; a longer one is rejected with or without a sign. |
| Text.PyIntSignExamples | updateTVL.py:218-219 | `int("+5") == 5` and `int("-5") == -5`. |
| Text.PyIntSpaceExample | updateTVL.py:218-219 | `int(" 5") == 5`. |
| Text.PyIntUnderscore | updateTVL.py:218-219 | An underscore between two numerals is ignored: `int(a + "_" + b) == int(a + b)`. |
| Text.PyIntRejectsUnderscores | updateTVL.py:218-219 | `int()` raises on `"1__0"`, `"_1"` and `"1_"`. |
| Text.PyIntRejectsSign | updateTVL.py:218-219 | `int()` raises on `"+"`, `"- 5"` and `""`. |
| Text.ParseShowNat | updateTVL.py:106-108 | Reading back the decimal rendering of a number gives the number. |
| Text.SplitDigits | updateTVPL.py:129 | A proof helper for `TpvlSchedule.ParseScheduleUrlOf`, which reads this URL back; it models no line itself. It splits a text into its maximal leading digit run and the rest. The two parts concatenate to the input, and the rest does not start with a digit. |
| Text.SplitDigitsOf | updateTVPL.py:129 | A proof helper for `TpvlSchedule.ParseScheduleUrlOf`; it models no line itself. A digit string followed by a non-digit splits exactly there. |
| Text.FindFrom | updateTVL.py:207 | Gives the first position at or after `i` where the needle occurs, or `None` when it occurs nowhere from `i` on. |
| Text.ContainsIff | updateTVL.py:207 | Python's `t in s` holds exactly when `t` occurs at some position of `s`. |
| Text.ContainsSuffix | updateTVL.py:207 | A proof helper for `TvlPage.AlreadyFinishedIsFinished`; it models no line itself. If `u + t` is in `s`, then `t` is in `s`. |
| Text.SplitJoin | updateTVL.py:244 | Splitting `sep.join(items)` on `sep` gives the items back, when no item holds the separator's first character. |
| Text.ReplaceChar | updateTVL.py:176 | `s.replace(c, d)` keeps the length, turns every `c` into `d` and leaves every other character in place. When `c != d` no `c` is left, and a text without `c` comes back unchanged. |
| Text.ReplaceCharIdempotent | updateTVL.py:176 | Replacing a second time changes nothing. |
| Civil.Weekday | updateTVPL.py:220 | `weekday()` is in 0..6. |
| Civil.OrdinalInjective | updateTVPL.py:198-200 | Distinct valid dates have distinct `toordinal()` values. |
| Civil.SecondsInjective | updateTVPL.py:198-200 | A valid date-time is determined by its second count and its microseconds. |
| Civil.NextDay | updateTVPL.py:200 | The day after a valid date has the next ordinal. It is itself valid exactly unless the date is 9999-12-31. |
| Civil.NextDayWeekday | updateTVPL.py:220 | Going to the next day advances `weekday()` by one, cyclically. |
| Civil.AddHours | updateTVPL.py:198-200 | `dt + timedelta(hours=h)`: defined exactly when `dt` is valid and the sum does not pass 9999-12-31. The result is valid, lies exactly `h` hours later and keeps the microseconds. |
| Civil.AddHoursUnique | updateTVPL.py:198-200 | The shifted date-time is the only valid date-time with that second count and those microseconds. |
| TvlPage.AlreadyFinishedIsFinished | updateTVL.py:207 | A text containing 已完賽 also contains 完賽. |
| TvlPage.ClassifyBadge | updateTVL.py:201-210 | The status is one of three. It is finished iff the stripped badge contains 完賽. It is live iff it does not, but contains 進行中 or LIVE. Otherwise, and without a badge, it is scheduled. |
| TvlPage.BigScores | updateTVL.py:212-221 | Both scores are `None` unless both tags exist. The home score is set iff `int()` accepts the stripped home text. A set away score implies a set home score, and each set score is `int()` of its stripped text. |
| TvlPage.BigScoresDigitLimit | updateTVL.py:216-221 | A home score text of more than 4300 digits makes `int()` raise, and the caught error leaves both scores `None`. |
| TvlPage.BigScoresHomeWithoutAway | updateTVL.py:216-221 | For any home text `int()` accepts and any away text it rejects, the home score is kept and the away score is `None`. |
| TvlPage.SetScoresField | updateTVL.py:244 | The field is `None` exactly when no set qualified. |
| TvlPage.SetItemsOrdered | updateTVL.py:233-242 | The set list has one item per qualifying set in 1..n, in ascending set order. Item `k` is the `"h-a"` text of the `k`-th qualifying set. |
| TvlPage.SetItemsShape | updateTVL.py:233-242 | There are at most n items. Each item is a non-empty digit string, '-', and a non-empty digit string. |
| TvlPage.SetItemNoComma | updateTVL.py:242 | A set item holds no comma. |
| TvlPage.SetScoresRoundTrip | updateTVL.py:244 | The stored `set_scores` text splits on ", " back into the set items it was joined from. |
| TvlPage.ParseScoreAndStatus | updateTVL.py:194-249 | The method returns the badge status, the big scores and the joined set scores. |
| TvlPage.SetScoreItems | updateTVL.py:233-242 | The loop over sets 1..5 builds exactly the items of the qualifying sets, in set order (`SetItemsUpTo`, characterised by `SetItemsOrdered`). |
| TvlPage.MatchAtIff | updateTVL.py:173 | At a given start the pattern `date \s+ time` has exactly one match. The greedy `\s+` ends where the whitespace run ends. |
| TvlPage.SearchFrom | updateTVL.py:173 | `re.search` gives the leftmost start of a match, or `None` when there is none. |
| TvlPage.ParseDateTime | updateTVL.py:165-184 | Without a header both are `None`. The date and the time are both set or both `None`. A date is `dddd-dd-dd` and holds no '/'. A time is `dd:dd`. |
| TvlPage.ParseDateTimeLeftmost | updateTVL.py:173-177 | The leftmost match determines the pair: its date group with '/' turned into '-', and its time group. |
| TvlPage.ParseDateTimeNoMatch | updateTVL.py:175-184 | A header without any match gives `(None, None)`. |
| TvlPage.TeamNames | updateTVL.py:133-155 | Both names are set or both are `None`. They are set iff both cells exist, and are the stripped cell texts. |
| TvlPage.RecordUrl | updateTVL.py:285 | The URL expression of `parse_match` equals the URL `fetch_page` requests (`/game/` for men, `/wgame/` for women). |
| TvlPage.ParseFetchUrl | updateTVL.py:104-108 | A page URL gives back its match id and gender. |
| TvlPage.FetchUrlInjective | updateTVL.py:104-108 | Different (id, gender) pairs request different URLs. |
| TvlPage.FetchPage | updateTVL.py:104-124 | A page is returned iff the request succeeds with status 200 and a body of at least 10000 bytes. |
| TvlPage.MatchRecordOf | updateTVL.py:259-286 | The record is `None` iff a team cell is missing or a stripped name is empty. Otherwise it carries the given id and gender and the two non-empty stripped names. Its URL is the page's fetch URL. Its date and time are `parse_datetime` of the header, its status is the badge rule, its scores are the big-score rule and its `set_scores` is the joined qualifying set items. A set away score implies a set home score, and the date is set iff the time is. |
| TvlPage.ParseMatch | updateTVL.py:259-286 | `parse_match` computes exactly `MatchRecordOf`. |
| TvlStore.Upsert | updateTVL.py:298-333 | The keys become the old keys plus the record's key, and other rows are unchanged. A new key gets the record. On conflict, `match_id`, `gender` and `url` are kept, the other columns are taken from the record, and `scraped_at` is `NOW()`. |
| TvlStore.UpsertCoherent | updateTVL.py:305 | Every row stays stored under the `(match_id, gender)` its columns name, so there is one row per key. |
| TvlStore.UpsertTwice | updateTVL.py:305-314 | Upserting the same record twice equals upserting it once at the later time. |
| TvlStore.UpsertSameData | updateTVL.py:305-314 | Re-inserting the stored record changes only `scraped_at`. |
| TvlStore.UpsertParsedRecord | updateTVL.py:285-314 | For parsed records, keeping the old `url` on conflict equals taking the new one. |
| TvlStore.MatchTable.InsertMatch | updateTVL.py:298-333 | The table becomes `Upsert` of the old table. |
| TvlStore.Visits | updateTVL.py:36-39 | The visits are 114 pairs: women's ids 228..278 first, then men's ids 264..326. |
| TvlStore.VisitsDistinct | updateTVL.py:36-39 | No pair is visited twice. Ids 264..278 are visited once per gender. |
| TvlStore.Outcome | updateTVL.py:353-357 | A stored record carries the key of its visit. |
| TvlStore.ReplayKeys | updateTVL.py:352-387 | After the run, the table keys are the old keys plus exactly the pairs whose visit stored a record. |
| TvlStore.HarvestCount | updateTVL.py:352-387 | Over distinct pairs, the number of stored records equals the number of inserted keys. |
| TvlStore.ReplayFrame | updateTVL.py:352-387 | A pair that is never visited keeps its row. |
| TvlStore.ReplayRow | updateTVL.py:352-387 | A stored pair's final row is its record upserted into the starting table at its visit's time. |
| TvlStore.Visit | updateTVL.py:353-364 | One visit stores iff fetching and parsing succeed. The table is then upserted; otherwise it is unchanged. |
| TvlStore.Run | updateTVL.py:344-387 | success + failed = 114. `success` counts the stored records, and the table is the replay of all visits in order. |
| TvlStore.RunCounts | updateTVL.py:344-387 | `success` equals the number of distinct keys the run stored, new or updated, and the keys grow by exactly those. |
| TvlStore.RunRows | updateTVL.py:344-387 | From an empty table, each stored pair's row is its own record at the time of its visit. |
| TpvlSchedule.ExtractJson | updateTVPL.py:119-125 | The extracted text never contains `</script>`. |
| TpvlSchedule.ExtractJsonLeftmost | updateTVPL.py:121-124 | The text is the span between the first opening `__NEXT_DATA__` tag that has a closing tag after it, and the nearest such `</script>`. |
| TpvlSchedule.ExtractJsonNone | updateTVPL.py:123-125 | Without an opening tag followed by a closing tag, nothing is extracted. |
| TpvlSchedule.FetchSchedule | updateTVPL.py:127-154 | The result is `(None, None)` iff the response is not a 4xx/5xx and the script span is missing or its JSON is falsy. It is the three lists iff the JSON has `props.pageProps`; each list then defaults to empty. Every other failure gives `None`. |
| TpvlSchedule.FetchScheduleDefaults | updateTVPL.py:142-144 | Missing `resultMatchData`, `data` and `squads` read as empty lists. |
| TpvlSchedule.ParseScheduleUrlOf | updateTVPL.py:129 | A schedule URL gives back its two page numbers. |
| TpvlSchedule.WeekdayNameNext | updateTVPL.py:220 | From one day to the next, the weekday name moves one place along 一…日, cyclically. |
| TpvlSchedule.LastWonBy | updateTVPL.py:209-213 | There is no score iff no result names the squad. |
| TpvlSchedule.LastWonByAt | updateTVPL.py:209-213 | The last result naming the squad wins. |
| TpvlSchedule.Scores | updateTVPL.py:207-213 | Each squad's score is the `wonRounds` of the last result for it, and is `None` iff no result names it. When the home and away ids are equal the away score stays `None`. |
| TpvlSchedule.MatchValuesOf | updateTVPL.py:195-228 | `None` iff the +8h shift raises. Otherwise the tuple copies id, code, home, away and venue. Its date and time are valid, exactly 8 hours after `matchedAt`, with the same microseconds. Its weekday is the table entry for `weekday()`. It is completed iff `squadMatchResults` is present and non-empty. An upcoming match has no scores. A completed match's scores are the won rounds of the last result for each squad (`Scores`), and an away score implies distinct team ids. |
| TpvlSchedule.ParseMatch | updateTVPL.py:195-228 | The loop over the results computes exactly `MatchValuesOf`. |
| TpvlSchedule.ShiftExample | updateTVPL.py:198-220 | 2024-01-01T10:00Z is 18:00 on Monday 2024-01-01 (一). |
| TpvlSchedule.ShiftRolloverExample | updateTVPL.py:198-220 | 2024-12-31T20:30Z is 04:30 on Wednesday 2025-01-01 (三). |
| TpvlSchedule.PagesDistinct | updateTVPL.py:295-310 | The five fetched pages request five different URLs. |
| TpvlSchedule.Accumulate | updateTVPL.py:291-310 | Crashes iff some fetch returned `(None, None)`. Otherwise the squads come from page 1 only. The matches are page 1's results, then its futures, then the non-empty results of pages 2-4, then the non-empty futures of future page 2. |
| TpvlSchedule.AccumulatedOrder | updateTVPL.py:294-310 | The accumulated list is exactly page 1's contribution, then each results page 2, 3 and 4 in fetch order, then future page 2, with no other matches and no reordering. |
| TpvlSchedule.FirstIndex | updateTVPL.py:313 | Gives the first position holding the id, or `None` when no match has it. |
| TpvlSchedule.LastIndex | updateTVPL.py:313 | Gives the last position holding the id, or `None` when no match has it. |
| TpvlSchedule.AssignShape | updateTVPL.py:313 | `d[id] = m` overwrites the entry with that id in place, or appends one. |
| TpvlSchedule.DedupDistinct | updateTVPL.py:313 | The de-duplicated list has distinct ids and is never longer than its input. |
| TpvlSchedule.DedupCovers | updateTVPL.py:313 | Every accumulated id has an entry. |
| TpvlSchedule.DedupLast | updateTVPL.py:313 | Each entry is the last accumulated match with its id. |
| TpvlSchedule.DedupOrder | updateTVPL.py:313 | Entries appear in the order of their ids' first occurrence. |
| TpvlStore.UpsertTeam | updateTVPL.py:161-168 | The keys become the old keys plus the id, and other rows are unchanged. The row takes the name, `altName` and `logoUrl`. A new id gets `created_at` = `NOW()` and the submitted `updated_at`. A known id keeps `created_at` and gets `updated_at` = `NOW()`. |
| TpvlStore.UpsertTeamsAllKeys | updateTVPL.py:161-183 | After the upsert, the keys are the old keys plus the submitted ids. |
| TpvlStore.UpsertTeamsAllRows | updateTVPL.py:161-183 | With distinct ids, each squad's row is what upserting its tuple alone gives. Every other row is unchanged. |
| TpvlStore.UpsertTeamsAllOrigin | updateTVPL.py:161-183 | Every row after the upsert was there before or was submitted. |
| TpvlStore.TeamRowsOf | updateTVPL.py:161-180 | Each squad's row has its name, `altName` and `logoUrl`. `created_at` is kept for a known id and is `NOW()` for a new one. |
| TpvlStore.UpsertMatch | updateTVPL.py:234-251 | The keys become the old keys plus the id, and other rows are unchanged. The row holds every submitted column. A new id gets `created_at` = `NOW()`. A known id keeps `created_at` and gets `updated_at` = `NOW()`. |
| TpvlStore.UpsertMatchesAllKeys | updateTVPL.py:234-256 | The keys become the old keys plus the submitted ids. Every row stays under its own id. |
| TpvlStore.UpsertMatchesAllOrigin | updateTVPL.py:234-256 | Every row after the upsert was there before or was submitted. |
| TpvlStore.UpsertMatchesAllRows | updateTVPL.py:234-256 | With distinct ids, each match's row is what upserting its tuple alone gives. Every other row is unchanged. |
| TpvlStore.ParsedAll | updateTVPL.py:253 | `None` iff some `parse_match` raises. Otherwise there is exactly one tuple per input match, in order, each `parse_match` of its match. |
| TpvlStore.ParsedAllDistinct | updateTVPL.py:253 | Matches with distinct ids give tuples with distinct ids. |
| TpvlStore.Store.UpsertTeams | updateTVPL.py:156-193 | The teams table becomes the ordered upsert of one tuple per squad. The matches table is unchanged. |
| TpvlStore.Store.UpsertMatches | updateTVPL.py:230-257 | Succeeds iff every match parses. A failure leaves both tables unchanged. Success upserts one tuple per match. |
| TpvlStore.Run | updateTVPL.py:289-325 | Crashes before any write iff a fetch returned `(None, None)`. Otherwise the teams are upserted when page 1 had squads. A `parse_match` failure then crashes with the matches unchanged (the teams stay updated). On completion, the matches are the upsert of the de-duplicated list when it is non-empty. |
| TpvlStore.DedupUpsertRows | updateTVPL.py:313-324 | After the unique matches are upserted, every accumulated id has a row. Its columns are `parse_match` of the last accumulated match with that id. |
| TpvlStore.DedupUpsertFrame | updateTVPL.py:313-324 | Rows whose ids were not accumulated are unchanged. |

## Left out

- Network I/O is not modelled: `requests.get`, headers, timeouts and `time.sleep`. The site is a function parameter.
- BeautifulSoup selector evaluation is a foreign library. Pages are given as the texts the selectors find.
- `json.loads` is a foreign library. It is a parameter that yields the decoded document as datatypes.
- JSON `null` where the code expects a list or a dictionary is not modelled. Neither is an object missing a key the code reads with `[...]`; the datatypes always carry those keys. They are a match's `id`, `code`, `matchedAt`, `homeSquadId`, `awaySquadId` and `venue`, a result's `squadId` and `wonRounds`, and a squad's `id`, `name`, `altName` and `logoUrl`.
- `fromisoformat` on the `matchedAt` string is not modelled. The model starts from the string's date and time fields in the string's own offset, and adds the 8 hours to those fields whatever the offset, as the code does.
- Database I/O is not modelled: connecting, `create_tables`, `close` and `verify_data`. Neither are `execute_values` paging, commit and rollback.
- The TVL `SERIAL id` column is not modelled, because no operation reads it.
- Database errors are not modelled. These are a foreign-key or NOT NULL violation, or two rows with the same id inside one `execute_values` page. The source rolls back on them; the model applies the tuples in order.
- TvlStore.MatchTable.InsertMatch: an exception raised by the database is not modelled. The same database abstraction applies.
- Text.PyInt: `int()` on a `str` also accepts any Unicode decimal digit (category Nd, such as full-width ２); the model reads ASCII digits only, because the text model has no Unicode digit classes. Signs, underscores, the whitespace `int()` skips (which leaves out U+001C..U+001F) and the default 4300-digit limit of CPython 3.11 and later are modelled; a limit changed with `sys.set_int_max_str_digits` is not.
- Text.ShowInt: CPython 3.11 and later make `str(n)` raise beyond 4300 digits; the rendering does not. The core renders only page ids and page numbers, which are far shorter.
- Text.ParseDigits: reads unsigned ASCII numerals only. It is the reader of the model's own URL inverses, not a model of `int()`.
- TvlPage.BigScores: inherits the ASCII-digit restriction of `Text.PyInt`.
- TvlPage.ParseDateTime: `\d` in a `str` pattern matches any Unicode decimal digit; the model's date and time groups accept ASCII digits only. A header such as `２０２４-０１-０１ 18:00` matches in Python and gives `(None, None)` in the model.
- TvlPage.SetItemsOrdered: `str.isdigit()` is restricted to ASCII digits, for the same reason.
- `datetime.now()` and `NOW()` are nondeterministic time. They are parameters, and timestamps are plain integers.
- Plumbing is not modelled: environment and `.env` configuration, the Supabase pooler option, `print` and emoji output, debug output and tracebacks.
- The second `parse_match` over the first five matches inside `upsert_matches` only prints. It runs after the commit and its failure is caught, so it is not modelled.
