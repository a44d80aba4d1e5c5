# Issue tracker sync and query core, modelled in Dafny

The system keeps a local SQLite copy of the issues, problem images and
responses collected in an ODK Central project, and serves them to a
dashboard. This project models its core:

- **The synchronisation client** (`utils/odk_api.py`).
  - URL resolution.
  - `_format_date`.
  - The three normalisers `process_entities`, `process_responses` and
    `process_images`. Each is written as a loop over the upstream records,
    proved against a specification function.
  - The save loops `update_issues`, `save_images` and `save_responses`,
    which write record by record and keep going past a failed write.
  - The sync run `update_existing_issues_and_responses`, which chains the
    three stages. Each stage catches its own failure.
- **The store** (`database.py`). It is a class holding the three tables as
  sequences of rows in rowid order. It has the three writes with their
  conflict policies:
  - issues: replace by `id`;
  - images: insert-if-absent by `submission_id`;
  - responses: replace by `KEY`.

  The key columns are declared `TEXT PRIMARY KEY` without NOT NULL, so
  SQLite stores NULL keys and never finds a conflict for them. The store
  follows that: a row with a NULL key is always appended. The reading with
  NOT NULL keys, under which a replayed sync changes nothing, is modelled
  beside it (`Tables.Upsert`, `Tables.InsertIfAbsent`,
  `OdkApi.CorrectedSyncSpec`); see "## Findings".

  It also has the three reads:
  - the filtered left join of issues and images;
  - the responses of an issue, newest first;
  - the latest `updated_at`.
- **The issue listing endpoint** `get_issues` (`main.py`). It normalises
  the filters, then recomputes each listed issue's status from whether any
  response names it.

Upstream JSON is modelled as records whose values are scalars (null, text,
integer) or one level of nested object, which is every shape the code reads.
A Python exception that escapes a step is a `Raised` result. Outside
effects are parameters of the model:

- HTTP fetches and attachment downloads are functions from the resolved
  URL to an optional answer;
- float parsing is a partial function;
- a per-position fault plan says which database writes fail, and how.

Modules:

- `values.dfy`: JSON values, Python truthiness and `dict.get`, and an
  insertion-ordered dictionary.
- `text.dfy`: white space, `strip`, `split`, `lower`, `lstrip`/`rstrip` and
  text order.
- `dates.dfy`: `_format_date` and SQLite's `DATE()`.
- `base64.dfy`: the image encoding.
- `tables.dfy`: keyed tables with the two conflict policies.
- `records.dfy`: the issue, response and image dictionaries.
- `batches.dfy`: the two loop shapes the normalisers share, each proved
  once for any per-record step.
- `database.dfy`: the store and its queries.
- `odk_api.dfy`: the synchronisation client.
- `dashboard.dfy`: `get_issues`.

## Model

| member | source | states |
|---|---|---|
| Values.Get | utils/odk_api.py:125 | `record.get(key)` gives the value of a present key and None for an absent one |
| Values.ScalarTruthy | utils/odk_api.py:126 | Python truthiness of a scalar: null, "" and 0 are falsy (definition; used by `EntityEntry` and `ImageCandidate`) |
| Values.Truthy | utils/odk_api.py:126 | an object is truthy when it has a key, a scalar as `ScalarTruthy` (definition) |
| Values.GetOr | utils/odk_api.py:135-149 | `d.get(key, default)`, on a record or on a nested object, gives the default only for an absent key; a key present with null keeps its null |
| Values.Field | utils/odk_api.py:206-219 | `group.get(key)` on a nested object gives the leaf of a present key and null for an absent one |
| Values.GroupOf | utils/odk_api.py:145-149 | `record.get(key, {})` followed by `.get`: an absent key gives the empty object, a key holding an object gives that object's own fields, and it raises exactly when the key holds a leaf, which has no `.get` |
| Values.Dict.Put | utils/odk_api.py:133 | `d[k] = v` keeps the dictionary well-formed; a new key goes last, an existing key keeps its place and takes the new value |
| Values.Dict.Values | utils/odk_api.py:168 | `items()` iterates the values in key order, one per key |
| Values.EmptyDict | utils/odk_api.py:123 | `{}` is a well-formed dictionary without keys |
| Text.Lower | main.py:57-60 | lower-casing keeps the length and maps each character on its own |
| Text.LowerIdempotent | main.py:57-60 | lower-casing twice is lower-casing once |
| Text.IsSpace | main.py:57-62 | the characters `str.strip()` and `str.split()` treat as white space: ASCII 9-13 and 28-32 and the Unicode separators (definition) |
| Text.LeadingSpaces | main.py:57-62 | the length of the white-space run a text starts with: every character before it is white space and the next is not |
| Text.TrailingSpaces | main.py:57-62 | the length of the white-space run a text ends with: every character after the cut is white space and the one before is not |
| Text.DropLeadingSpace | main.py:57-62 | `lstrip()` removes exactly the leading white space |
| Text.DropTrailingSpace | main.py:57-62 | `rstrip()` removes exactly the trailing white space |
| Text.Strip | main.py:57-62 | a stripped text is a slice of the input with only white space cut from either end, and is empty or starts and ends with a non-space |
| Text.WordLength | utils/odk_api.py:153 | the first token of `split()` runs up to the first white space |
| Text.Split | utils/odk_api.py:153 | `split()` yields non-empty tokens without white space whose concatenation is the text with its white space removed |
| Text.SplitWoven | utils/odk_api.py:153 | the text is its tokens woven with runs of white space: the runs are white space only, and each run between two tokens is non-empty |
| Text.WeaveGaps | utils/odk_api.py:153 | putting the gaps and the tokens back together gives the text |
| Text.GapsCount | utils/odk_api.py:153 | there is one gap more than there are tokens |
| Text.GapsSpace | utils/odk_api.py:153 | every gap between or around tokens is white space |
| Text.GapsApart | utils/odk_api.py:153 | every gap between two consecutive tokens is non-empty |
| Text.SqueezeAppend | utils/odk_api.py:153 | removing white space distributes over concatenation |
| Text.DropLeading | utils/odk_api.py:76 | `lstrip('/')` removes exactly the leading slashes |
| Text.DropTrailing | utils/odk_api.py:358 | `rstrip('Z')` removes exactly the trailing 'Z's |
| Text.TextLeTotal | database.py:236 | SQLite's text order compares any two texts |
| Text.TextLeTransitive | database.py:215 | SQLite's text order is transitive |
| Text.TextLeAntisymmetric | database.py:236 | two texts each at most the other are equal |
| Base64.Encode | database.py:199 | the encoding has 4·⌈n/3⌉ characters and is empty exactly for empty bytes |
| Dates.ParseIso | utils/odk_api.py:358 | whatever `fromisoformat` accepts is a real calendar date and time of day |
| Dates.Pad2 | utils/odk_api.py:359 | a two-digit zero-padded field reads back as its number |
| Dates.Pad4 | utils/odk_api.py:359 | a four-digit zero-padded year reads back as its number |
| Dates.NumTwo | utils/odk_api.py:359 | two digit characters denote the number ten times the first plus the second |
| Dates.NumFour | utils/odk_api.py:359 | four digit characters denote their positional decimal number |
| Dates.Render | utils/odk_api.py:359 | `strftime("%Y-%m-%d %H:%M:%S")`: the date, a space and the time (definition; `RenderShape` and `ParseRender` state its shape and its inverse) |
| Dates.RenderDate | utils/odk_api.py:359 | `%Y-%m-%d` is four, two and two zero-padded digits with dashes |
| Dates.RenderTime | utils/odk_api.py:359 | `%H:%M:%S` is three two-digit zero-padded fields with colons |
| Dates.RenderShape | utils/odk_api.py:359 | a rendering has the fixed 19-character "YYYY-MM-DD HH:MM:SS" shape, each field padded from the date-time |
| Dates.ParseRender | utils/odk_api.py:358-359 | parsing a rendering gives back the date-time it came from |
| Dates.FormatDate | utils/odk_api.py:353-363 | None and "" give the sentinel; so does text that does not parse once every trailing 'Z' is stripped; text that parses gives a rendering that parses back to the same date-time |
| Dates.EpochRendered | utils/odk_api.py:356 | the sentinel is the rendering of 1970-01-01 00:00:00 |
| Dates.EpochCanonical | utils/odk_api.py:356 | the sentinel is the rendering of 1970-01-01 00:00:00 and parses back to it |
| Dates.FormatDateCanonical | utils/odk_api.py:353-363 | every normalised timestamp, sentinel included, is the "YYYY-MM-DD HH:MM:SS" rendering of a real date-time |
| Dates.FormatDateIdempotent | utils/odk_api.py:353-363 | normalising a normalised timestamp changes nothing |
| Dates.FormatDateIgnoresTrailingZ | utils/odk_api.py:358 | an extra trailing 'Z' makes no difference, because `rstrip` removes every one |
| Dates.SqlYmd | database.py:179 | DATE() reads a four-digit year, a month 01-12 and a day 01-31 whatever the month; on a real date it agrees with the calendar reading |
| Dates.SqlClock | database.py:179 | the time DATE() reads after a date is HH:MM with hours up to 24, then optional seconds and fraction, and lies within 25 hours |
| Dates.SqlZone | database.py:179 | the zone DATE() reads is nothing, Z or ±HH:MM, an offset under 15 hours; nothing at all is UTC |
| Dates.ReadsOffset | database.py:179 | a zone "+HH:MM" or "-HH:MM" with hours up to 14 reads as that many minutes east or west of UTC |
| Dates.SqlShift | database.py:179 | a time and zone move the date by at most one day either way; no time leaves it in place |
| Dates.ShiftOfZone | database.py:179 | without a zone offset a day up to the 28th keeps its date whatever the time; otherwise the date moves to the day of the instant in UTC |
| Dates.ShiftOfTime | database.py:179 | an in-range "HH:MM:SS" with no zone moves the date by zero days |
| Dates.CarryDay | database.py:179 | a day past its month's end carries into the next month; a real day stays as it is |
| Dates.ShiftDay | database.py:179 | moving a real day by -1, 0 or 1 gives a real day, the same one for 0 |
| Dates.DayText | database.py:179 | a day of the years 0000-9999 renders as "YYYY-MM-DD" reading back as its numbers |
| Dates.DayTextOf | database.py:179 | rendering the numbers of a "YYYY-MM-DD" text gives that text |
| Dates.MovedDay | database.py:179 | a moved day, when inside the years 0000-9999, is a real day; an unmoved real day is its own text |
| Dates.SqlDate | database.py:178-184 | DATE() is defined only on text whose first ten characters SQLite reads as a date, and is then a real day; a real "YYYY-MM-DD" is its own DATE() |
| Dates.SqlDateOfDateTime | database.py:178-184 | a real date, ' ' or 'T', and an in-range HH:MM:SS give the date part |
| Dates.SqlDateCarries | database.py:178-184 | DATE('2023-02-30') is '2023-03-02' |
| Dates.SqlDateZone | database.py:178-184 | DATE('2024-01-15T00:30:00+01:00') is '2024-01-14', the day in UTC |
| Dates.SqlDateKeepsDay | database.py:178-184 | with no zone offset, a real date up to the 28th followed by any time SQLite reads is its own DATE(), "24:00" included |
| Dates.ReadsClock | database.py:179 | "HH:MM" with hours up to 24 names 60 × HH + MM minutes |
| Dates.SqlDateAtTwentyFour | database.py:178-184 | DATE('2024-01-15 24:00') is '2024-01-15' |
| Dates.SqlDateOfFormatted | database.py:178-184 | DATE() of a normalised timestamp is its date part |
| Tables.Drop | database.py:73-86 | dropping the rows with given keys keeps exactly the other rows |
| Tables.Upsert | database.py:73-86 | INSERT OR REPLACE with the key read as NOT NULL (the corrected reading): removes the row with the same key and appends the new one; a NULL key is refused |
| Tables.UpsertReplaces | database.py:73-86 | after the write the new row is the only one with its key, so no field of the old row survives; every row with another key is kept, and keys stay unique |
| Tables.InsertIfAbsent | database.py:97-101 | INSERT OR IGNORE with the key read as NOT NULL (the corrected reading): appends the row exactly when its key is not NULL and no row has it; otherwise the table is unchanged |
| Tables.FirstWriteWins | database.py:97-101 | a second write with the same key changes nothing: the first row, bytes included, stays |
| Tables.InsertIfAbsentUnique | database.py:97-101 | insert-if-absent keeps keys unique and adds at most one row |
| Tables.UpsertAllShape | database.py:73-86 | upserting a batch drops every old row whose key the batch writes and appends what the batch alone produces |
| Tables.UpsertAllIdempotent | database.py:73-86 | with NOT NULL keys, upserting the same batch twice is upserting it once |
| Tables.InsertAllExtends | database.py:97-101 | inserting a batch keeps every old row in place and leaves every key of the batch present |
| Tables.InsertAllIdempotent | database.py:97-101 | with NOT NULL keys, inserting the same batch twice is inserting it once |
| Tables.UpsertAsDeclared | database.py:61 | INSERT OR REPLACE on the key as declared (nullable): a row with a NULL key is always appended, a keyed row is written as `Upsert` writes it |
| Tables.InsertIfAbsentAsDeclared | database.py:42 | INSERT OR IGNORE on the key as declared (nullable): a row with a NULL key is always appended, a keyed row is written as `InsertIfAbsent` writes it |
| Tables.DropDistinct | database.py:42 | dropping rows keeps non-NULL keys distinct |
| Tables.UpsertAsDeclaredReplaces | database.py:112-141 | the declared INSERT OR REPLACE keeps non-NULL keys distinct; the new row is stored and, when keyed, is the only row with its key; rows with other keys are kept |
| Tables.InsertAsDeclaredKeeps | database.py:97-101 | the declared INSERT OR IGNORE keeps non-NULL keys distinct and every old row in place, adding at most one row |
| Tables.UpsertAllAsDeclaredSnoc | database.py:112-141 | a batch of declared replaces is one replace after another |
| Tables.InsertAllAsDeclaredSnoc | database.py:97-101 | a batch of declared inserts is one insert after another |
| Tables.NullKeyedAppend | database.py:42 | NULL-keyed rows add up over concatenation |
| Tables.DropKeepsNullKeyed | database.py:61 | dropping by key never removes a NULL-keyed row |
| Tables.UpsertAllAsDeclaredNulls | database.py:112-141 | after a batch of declared replaces the table holds its old NULL-keyed rows plus every NULL-keyed row of the batch |
| Tables.InsertAllAsDeclaredNulls | database.py:97-101 | the same for a batch of declared inserts |
| Tables.UpsertAllKeyed | database.py:112-141 | on a batch without NULL keys the declared replaces agree with the NOT NULL reading |
| Tables.InsertAllKeyed | database.py:97-101 | on a batch without NULL keys the declared inserts agree with the NOT NULL reading |
| Tables.NullKeyUpsertDuplicates | database.py:112-141 | writing the same NULL-keyed row twice stores it twice as declared, whereas the corrected write stores nothing |
| Tables.NullKeyInsertDuplicates | database.py:97-101 | the same for insert-if-absent |
| Database.Cell | database.py:73-86 | a leaf bound to a TEXT column is NULL exactly when it is None; text is stored as is; an integer reaches a row only once `ScalarBinding` has found it within 64 bits |
| Database.ScalarBinding | database.py:73-86 | a leaf always binds except an integer outside -2^63 .. 2^63-1, which raises OverflowError |
| Database.ValueBinding | database.py:73-86 | a JSON object is refused with a `sqlite3.Error`; a leaf binds as `ScalarBinding` says |
| Database.Then | database.py:73-86 | parameters are bound in order and the first that does not bind decides the statement |
| Database.IssueBinding | database.py:73-86 | the issue's eighteen parameters bind exactly when `IssueBindable` holds: every copied field a leaf and no integer wider than 64 bits |
| Database.ImageBinding | database.py:97-100 | an image's parameters are never refused and bind exactly when no integer among them is wider than 64 bits |
| Database.ResponseBinding | database.py:112-140 | a response's parameters bind exactly when its KEY is a leaf and no integer among them is wider than 64 bits |
| Database.CostTooWide | database.py:73-86 | an entity whose `costusd` is 2^63 cannot be bound: the write raises OverflowError even with a working database |
| Database.IssueRowOf | database.py:73-86 | an issue can be bound exactly when every copied field is a leaf and no integer parameter is wider than 64 bits; the row takes the id, status, timestamps and coordinates from the issue |
| Database.ImageRowOf | database.py:97-100 | the row keeps the submission id and the bytes |
| Database.ResponseRowOf | database.py:112-141 | the row takes KEY, `entity_problem`, `SubmissionDate` and `action_image` from the keys of the same name; an absent image is NULL |
| Database.WriteOutcome | database.py:69-91 | a connection failure or an integer too wide to bind raises to the caller, since OverflowError is not a `sqlite3.Error`; a failed statement or a refused parameter is swallowed; only a statement whose parameters all bind, without fault, writes |
| Database.Like | database.py:161-163 | `LOWER(col) LIKE '%p%'`: the column is not NULL and holds the lower-cased text (definition) |
| Database.OnOrAfter | database.py:178-180 | `DATE(created_at) >= DATE(start)`: both dates defined and in order (definition) |
| Database.OnOrBefore | database.py:182-184 | `DATE(created_at) <= DATE(end)`: both dates defined and in order (definition) |
| Database.Holds | database.py:160-184 | the meaning of each clause the query text can gain (definition; `WhereMatches` states the whole) |
| Database.Store.constructor | database.py:11-67 | a new database has three empty tables |
| Database.Store.InsertOrUpdateIssue | database.py:69-91 | the outcome is `WriteOutcome` of the fault and the parameters' binding; a written issue is stored by the declared INSERT OR REPLACE on `id`; any other outcome leaves every table unchanged; non-NULL keys stay distinct |
| Database.Store.InsertImage | database.py:93-106 | the outcome is `WriteOutcome` of the fault and the parameters' binding; a written image is stored by the declared INSERT OR IGNORE on `submission_id`, so a NULL id is appended; any other outcome changes nothing; non-NULL keys stay distinct |
| Database.Store.InsertResponse | database.py:108-146 | the outcome is `WriteOutcome` of the fault and the parameters' binding; a written response is stored by the declared INSERT OR REPLACE on KEY, so a missing KEY is appended as NULL; an object-valued KEY cannot be bound and fails; any other outcome changes nothing; non-NULL keys stay distinct |
| Database.Where | database.py:160-184 | at most six conditions are added, one per non-empty filter |
| Database.AllHoldSix | database.py:160-184 | the AND of six groups of clauses holds exactly when each group does |
| Database.SearchClause | database.py:161-163 | the search clause holds exactly when the lower-cased search text occurs in the lower-cased label, description or type |
| Database.WordClauses | database.py:165-175 | status, severity and timeframe must each equal their filter after lower-casing; an empty filter imposes nothing |
| Database.DateClauses | database.py:178-184 | the start bound holds when DATE(created_at) >= DATE(start), the end bound when DATE(created_at) <= DATE(end); an empty bound imposes nothing |
| Database.StartClause | database.py:178-180 | the start bound alone, as in `DateClauses` |
| Database.WhenHolds | database.py:178-184 | a clause added only when its filter is set holds exactly when the filter is unset or the clause holds |
| Database.EndClause | database.py:182-184 | the end bound alone, as in `DateClauses` |
| Database.WhereMatches | database.py:160-184 | the AND-combined clauses hold exactly when every non-empty filter holds |
| Database.MatchingImages | database.py:155 | the images joined to an issue are exactly those whose title equals its label; a NULL label joins nothing |
| Database.Block | database.py:152-156 | the left join rows of one issue (definition; `BlockShape` states them) |
| Database.Select | database.py:152-184 | the selected join rows, issue by issue in stored order (definition; `SelectMembership` and `SelectOccurrences` state them) |
| Database.Query | database.py:152-184 | the query for given filters (definition; `QueryMembership` and `QueryCount` state it) |
| Database.BlockShape | database.py:152-156 | an issue with k matching images gives k rows, one per image; one with none gives a single row with a NULL image |
| Database.SelectMembership | database.py:152-184 | a row is selected exactly when its issue is in the table, every clause holds of it and the row is one of its join rows |
| Database.QueryMembership | database.py:152-184 | a row is returned exactly when its issue is stored, matches every filter and the row is one of its join rows |
| Database.EveryIssueListed | database.py:152-156 | with no filters every issue appears at least once |
| Database.OccurrencesAppend | database.py:152-184 | counting an issue's rows adds up over concatenation |
| Database.SelectOccurrences | database.py:152-184 | an issue appears as many times as it has join rows if every clause holds of it, and otherwise not at all |
| Database.QueryCount | database.py:152-184 | an issue matching the filters whose label matches k images appears k times, once when k is 0; one filtered out does not appear |
| Database.DateBoundsInclusive | database.py:178-184 | an issue created on a given day passes `start_date` and `end_date` both equal to that day |
| Database.SameDaySameVerdict | database.py:178-184 | only the date part of `created_at` matters to the filters |
| Database.ImageText | database.py:198-201 | an image becomes base64 text when present and non-empty, None otherwise, never "" |
| Database.EncodeIssueImages | database.py:195-202 | the loop rewrites each row's image to `ImageText`, keeping count and order |
| Database.Store.GetIssuesWithImages | database.py:148-205 | the rows of `Query` for the filters, in order, each with its image encoded |
| Database.ResponsesOf | database.py:211-214 | the responses kept are exactly those whose `entity_problem` is the issue id; a NULL id matches nothing |
| Database.NotBeforeTotal | database.py:215 | ORDER BY SubmissionDate DESC can place any two rows |
| Database.NotBeforeTransitive | database.py:215 | that placement is transitive |
| Database.InsertDesc | database.py:215 | placing a row before the first row it is not older than (definition; `InsertDescPermutes` and `InsertDescSorted` state it) |
| Database.SortDesc | database.py:215 | ORDER BY SubmissionDate DESC (definition; `SortDescSorted` states it) |
| Database.IssueResponses | database.py:211-215 | the responses of an issue, newest first (definition; `IssueResponsesSpec` states it) |
| Database.InsertDescPermutes | database.py:215 | placing one row adds exactly that row |
| Database.SortedTail | database.py:215 | the first row of a sorted list is the newest |
| Database.InsertDescSorted | database.py:215 | placing a row into a sorted list keeps it sorted |
| Database.SortDescSorted | database.py:215 | the ordering is a permutation of its input, non-increasing by SubmissionDate |
| Database.IssueResponsesSpec | database.py:211-219 | the result is exactly the responses naming the issue, a permutation of them, newest first |
| Database.EncodeResponseImages | database.py:221-228 | the loop rewrites each response's image to `ImageText`, keeping count and order |
| Database.Store.GetResponsesForIssue | database.py:207-231 | the responses of `IssueResponses`, in order, each with its image encoded |
| Database.MaxUpdatedAt | database.py:236 | MAX(updated_at) is NULL exactly when every row's is NULL, and otherwise is some row's value |
| Database.MaxUpdatedAtIsMax | database.py:236 | no row's `updated_at` is greater than the maximum |
| Database.LatestUpdateTime | database.py:233-241 | None exactly when no row has a non-empty `updated_at`; a ValueError exactly when the non-empty maximum does not parse; otherwise the parsed maximum |
| Database.LatestOfNormalised | database.py:233-241 | when every stored `updated_at` is normalised, the latest update time exists and is at least every row's |
| Database.Store.LatestUpdate | database.py:233-241 | `LatestUpdateTime` of the stored issues: None exactly when no stored issue has a non-empty `updated_at` |
| Batches.CollectValid | utils/odk_api.py:121-163 | collecting records into a dictionary yields a well-formed dictionary |
| Batches.CollectRaisedPrefix | utils/odk_api.py:121-163 | the first exception aborts the whole loop with that exception |
| Batches.CollectStepsOk | utils/odk_api.py:121-163 | in a loop that completes, every record's step succeeded |
| Batches.CollectKeys | utils/odk_api.py:124-133 | the keys are exactly those some record stored a value under |
| Batches.CollectFrom | utils/odk_api.py:124-133 | every stored value was given by some record under its key |
| Batches.CollectUntouched | utils/odk_api.py:133 | later records with other keys leave an entry as it was |
| Batches.CollectLastWins | utils/odk_api.py:133 | when several records store under one key, the last one's value is kept |
| Batches.MapAllEach | utils/odk_api.py:196-242 | a completed loop holds one result per record, in order; a failed one fails with some record's exception |
| Batches.MapAllRaisedPrefix | utils/odk_api.py:196-242 | the first exception aborts the whole loop with that exception |
| OdkApi.ResolveUrl | utils/odk_api.py:73-76 | an endpoint starting with `http://` or `https://` is used unchanged; any other one lies under `base + "/"` with no slash right after it |
| OdkApi.ResolveIgnoresLeadingSlash | utils/odk_api.py:76 | a leading slash on a relative endpoint makes no difference to the URL |
| OdkApi.ResolveIdempotent | utils/odk_api.py:320-323 | with an absolute base, resolving an already resolved URL, as `download_image` does, changes nothing |
| OdkApi.AbsoluteExtend | utils/odk_api.py:73 | anything appended to an absolute URL leaves it absolute |
| OdkApi.ActionImageEndpoint | utils/odk_api.py:224 | the attachment path of a response's action image (definition) |
| OdkApi.ProblemImageEndpoint | utils/odk_api.py:283 | the attachment path of a reported problem's image (definition) |
| OdkApi.AttachmentsUnderBase | utils/odk_api.py:224 | both attachment paths are fetched from under the server's base URL, path unchanged |
| OdkApi.RelativeUnderBase | utils/odk_api.py:73-76 | a path that does not start with a scheme is joined under the base URL with one slash |
| OdkApi.FormatField | utils/odk_api.py:353-363 | `_format_date` on a JSON leaf raises exactly for a non-zero number, which has no `rstrip`; null, "" and 0 give the sentinel; text gives `FormatDate`; every result is a canonical timestamp |
| OdkApi.Coordinates | utils/odk_api.py:153-159 | latitude and longitude are both set or both None; they are set exactly when there are at least two tokens and both parse, and then they are the first two tokens' values |
| OdkApi.CoordinatesIgnoreRest | utils/odk_api.py:154-156 | tokens after the second make no difference |
| OdkApi.Geometry | utils/odk_api.py:153-162 | an absent `geometry` gives (None, None); a present one that is not text raises AttributeError; otherwise both coordinates or neither |
| OdkApi.IssueOf | utils/odk_api.py:133-152 | the dictionary's `id` is the entity's `__id`; both timestamps are canonical and are the sentinel when `__system` is absent; coordinates start as None; any exception is an AttributeError |
| OdkApi.IssueDefaults | utils/odk_api.py:135-149 | each absent field takes its fixed default ('Untitled Issue', 'Unknown', 'No Description', 'Not Specified', 'new', 'No Timeframe', 'No Action Taken', '0', 'N/A', 'No Contact'; without `__system`, creator 'Unknown' and version 'No Version') |
| OdkApi.IssueKeepsPresent | utils/odk_api.py:135-144 | each of the ten copied fields, when present, is kept as given, null included |
| OdkApi.IssueSystemFields | utils/odk_api.py:147-149 | `creatorId` and `creatorName` present in `__system` are copied, `version` is copied as its `str()`; absent ones take 'Unknown', 'Unknown' and 'No Version' |
| OdkApi.EntityIssue | utils/odk_api.py:133-162 | an object-valued id raises, since it cannot be a key; a finished entry has a leaf id equal to `__id`, canonical timestamps and both coordinates or neither |
| OdkApi.EntityEntry | utils/odk_api.py:124-133 | an entity contributes nothing exactly when its `__id` is falsy; otherwise its entry, or its exception, is `EntityIssue` under its own truthy id |
| OdkApi.Entities | utils/odk_api.py:121-163 | the result of `process_entities` on a batch (definition; the lemmas below state it) |
| OdkApi.EntitiesValid | utils/odk_api.py:121-163 | the result is a well-formed dictionary: no key listed twice, and the listed keys are exactly the entries |
| OdkApi.EntityKeyAt | utils/odk_api.py:124-133 | entity i stores under k exactly when its `__id` is the truthy k |
| OdkApi.EntitiesKeys | utils/odk_api.py:124-133 | the keys are exactly the truthy ids in the batch, so entities without an id yield nothing |
| OdkApi.EntitiesEntries | utils/odk_api.py:124-162 | every entry sits under a truthy key equal to its own `id` and is the finished dictionary of an entity with that id; its coordinates are both set or both None |
| OdkApi.EntitiesLastWins | utils/odk_api.py:133 | when an id occurs several times, the last entity with it supplies the whole entry |
| OdkApi.ProcessEntities | utils/odk_api.py:121-163 | the loop's result, or the exception that aborts it, is the batch specification `Entities` |
| OdkApi.ResponseOf | utils/odk_api.py:200-240 | a response carries the submission's `__id` as KEY, `__system.submitterName`, `entity.problem`, the six action fields of the same names and a canonical date; `action_image` is set exactly when the action names a file and its download succeeds, and it is then the downloaded bytes; any exception is an AttributeError |
| OdkApi.Responses | utils/odk_api.py:196-242 | the result of `process_responses` on a batch (definition; `ResponsesEach` states it) |
| OdkApi.ResponsesEach | utils/odk_api.py:196-242 | a completed run yields exactly one response per submission, in input order; a failed one fails with an AttributeError raised by some submission |
| OdkApi.ProcessResponses | utils/odk_api.py:196-242 | the loop's result is the specification `Responses` |
| OdkApi.ImageCandidate | utils/odk_api.py:275-298 | a submission raises exactly when `problem` is not an object; it yields an entry only when it names a truthy `problem_image`, the download succeeds and the id is a leaf; the entry is keyed by the submission id and holds the downloaded bytes, the title defaulting to 'Untitled Image', and the label |
| OdkApi.Images | utils/odk_api.py:272-299 | the result of `process_images` on a batch (definition; the lemmas below state it) |
| OdkApi.ImagesValid | utils/odk_api.py:272-299 | the result is a well-formed dictionary |
| OdkApi.ImagesFromCandidates | utils/odk_api.py:275-299 | every entry sits under its own submission id and is the candidate of a submission with that id |
| OdkApi.SkippedSubmission | utils/odk_api.py:281-298 | a last submission that yields nothing, because it names no image or its download failed, leaves the result as the submissions before it make it |
| OdkApi.ProcessImages | utils/odk_api.py:272-299 | the loop's result is the specification `Images` |
| OdkApi.IssueRowsStep | utils/odk_api.py:168-177 | one more issue adds its row when written, and itself to the returned list unless its write raised on connecting or on an integer too wide to bind |
| OdkApi.SavedIssues | utils/odk_api.py:165-179 | the issues `update_issues` returns (definition; `SavedIssuesExactly` states it) |
| OdkApi.SavedIssuesExactly | utils/odk_api.py:165-179 | `update_issues` returns exactly the issues whose write did not raise (no connection failure, no integer too wide to bind); a write whose statement failed was swallowed, so its issue is still returned |
| OdkApi.SavedIssuesAll | utils/odk_api.py:165-179 | with no connection failure and no integer too wide to bind, every issue is returned, in iteration order |
| OdkApi.UpdateIssues | utils/odk_api.py:165-179 | the loop returns `SavedIssues` and leaves the issues table as the written rows stored by the declared INSERT OR REPLACE in order; the other tables are unchanged |
| OdkApi.ImageRowsStep | utils/odk_api.py:303-314 | one more image adds its row exactly when its write has no fault and its parameters bind; a too-wide integer is caught by the loop and skips that image |
| OdkApi.SaveImages | utils/odk_api.py:301-314 | a failed write skips only its image; the images table becomes the written rows stored by the declared INSERT OR IGNORE in order, so a NULL submission id is appended each time |
| OdkApi.ResponseRowsStep | utils/odk_api.py:246-253 | one more response adds its row exactly when its write has no fault and its parameters bind, a missing KEY included; a too-wide integer is caught by the loop and skips that response |
| OdkApi.SaveResponses | utils/odk_api.py:244-253 | a failed write skips only its response; the responses table becomes the written rows stored by the declared INSERT OR REPLACE in order, so a missing KEY is appended each time |
| OdkApi.IssueDict | utils/odk_api.py:105-110 | the dictionary `get_new_issues` hands to `update_issues` is well-formed |
| OdkApi.ImageBatch | utils/odk_api.py:255-262 | the dictionary `get_images` saves and returns is well-formed |
| OdkApi.NormalisedIssues | utils/odk_api.py:107-109 | fetching and normalising the entities gives `IssueDict`, which is empty when either fails |
| OdkApi.GetNewIssues | utils/odk_api.py:105-115 | returns `SavedIssues` of the batch and stores its written rows by the declared INSERT OR REPLACE; nothing else changes |
| OdkApi.NormalisedImages | utils/odk_api.py:257-259 | fetching and normalising the image submissions gives `ImageBatch`, which is empty when either fails |
| OdkApi.GetImages | utils/odk_api.py:255-266 | returns the normalised images and stores their written rows by the declared INSERT OR IGNORE; nothing else changes |
| OdkApi.NormalisedResponses | utils/odk_api.py:183-185 | fetching and normalising the response submissions gives `ResponseBatch`, which is empty when either fails |
| OdkApi.FetchResponses | utils/odk_api.py:181-190 | stores the written response rows by the declared INSERT OR REPLACE; nothing else changes |
| OdkApi.Sync | utils/odk_api.py:337-351 | issues, then images, then responses; the tables end as `SyncSpec` of the tables before, and the report holds the saved issues and the images |
| OdkApi.SyncSpec | utils/odk_api.py:337-351 | the tables after a sync with the keys as declared: the NULL-keyed issue rows stay as they were, and every NULL-keyed image and response row written is added |
| OdkApi.CorrectedSyncSpec | utils/odk_api.py:337-351 | the tables after a sync if the key columns were NOT NULL (definition; `CorrectedSyncIdempotent` states it) |
| OdkApi.IssueBatchIds | utils/odk_api.py:124-133 | every issue a sync saves has a non-null leaf id |
| OdkApi.IssueRowsKeyed | utils/odk_api.py:165-179 | issues with non-null ids give issue rows with non-NULL keys |
| OdkApi.IssueWritesKeyed | utils/odk_api.py:337-351 | a sync never writes an issue row without a key |
| OdkApi.SyncAgreesWhenKeyed | utils/odk_api.py:337-351 | when a sync writes no image or response without a key, the declared keys and the NOT NULL reading give the same tables |
| OdkApi.CorrectedSyncIdempotent | utils/odk_api.py:337-351 | with NOT NULL keys, running the same sync twice leaves the tables as running it once |
| OdkApi.SyncIdempotent | utils/odk_api.py:337-351 | as written, running the same sync twice leaves the tables as running it once exactly when it writes no image and no response without a key |
| OdkApi.FailedFetchKeepsTable | utils/odk_api.py:105-266 | a listing that cannot be fetched leaves its own table as it was |
| Dashboard.Arg | main.py:57-62 | a missing query parameter reads as "" |
| Dashboard.LowerKeepsEnds | main.py:57-60 | lower-casing keeps white space at the ends as it was and leaves no upper-case ASCII letter |
| Dashboard.Normalise | main.py:57-60 | the normalised filter has no surrounding white space and no upper-case ASCII letter |
| Dashboard.NormaliseIdempotent | main.py:57-60 | normalising twice is normalising once |
| Dashboard.FiltersOf | main.py:57-62 | search, state, severity and timeframe are stripped and lower-cased; the date bounds are only stripped |
| Dashboard.NoArgsNoFilters | main.py:57-62 | a request without parameters filters nothing |
| Dashboard.StatusAsWritten | main.py:77-86 | the status code as written raises exactly for an answered issue whose stored status is NULL |
| Dashboard.Status | main.py:77-86 | every shown status is in {new, open, waiting, fixed}; an unanswered issue is "new"; an answered one keeps its lower-cased status when that is in the vocabulary and is "new" otherwise |
| Dashboard.StatusAsWrittenAgrees | main.py:77-86 | wherever the code as written gives a status, it is the corrected one |
| Dashboard.NullStatusFails | main.py:86 | an answered issue with a NULL status makes the code as written raise, where the corrected rule shows "new" |
| Dashboard.StatusStable | main.py:80-86 | recomputing a shown status changes nothing |
| Dashboard.AnsweredMeans | main.py:77-78 | an issue counts as answered exactly when some stored response's `entity_problem` is its id |
| Dashboard.Shown | main.py:75-86 | a listed row is the query's row with only its status replaced, and its image encoded |
| Dashboard.Listing | main.py:75-92 | the listing keeps every row, in order, each shown |
| Dashboard.ListingStatuses | main.py:75-92 | every listed status is in the vocabulary; unanswered issues are "new"; nothing but the status differs from the stored row, so `created_at` is kept |
| Dashboard.ListingAsWritten | main.py:54-96 | the endpoint as written fails only with an AttributeError |
| Dashboard.ListingAsWrittenBreaks | main.py:54-96 | the endpoint as written fails exactly when some listed issue is answered and has a NULL status |
| Dashboard.ListingCons | main.py:75-90 | the listing is the first row shown, then the rest |
| Dashboard.ListingAsWrittenAgrees | main.py:54-96 | wherever the endpoint as written succeeds, its body is the corrected listing |
| Dashboard.ShownStep | main.py:77-86 | one iteration of the loop turns a fetched row into its shown form |
| Dashboard.ShowAll | main.py:75-90 | the loop over fetched rows, asking the store for each issue's responses, produces `Listing` |
| Dashboard.ListIssues | main.py:66-90 | the query's rows for the filters, each shown |
| Dashboard.GetIssues | main.py:53-96 | the body of `GET /api/issues` is the listing of the query for the normalised filters, with the corrected status rule |

## Left out

- HTTP, login and the session token are left out. A fetch is a parameter giving the `value` list of a JSON listing, or None when the request or its decoding fails. A listing without `value` therefore reads as a failed fetch, not as an empty list.
- Attachment downloads are a parameter from the resolved URL to the bytes, or None when `download_image` raises.
- The text of a nested object inside an endpoint path (an object-valued submission id) is rendered as "" instead of Python's dict repr. It only affects which URL the download oracle is asked.
- `urljoin` is modelled as plain concatenation onto `base + "/"`. Its handling of `..`, `.`, queries and fragments in the endpoint is not modelled.
- Logging, Flask routing and templates, SocketIO, the scheduler, `initialize_data` and `scheduled_data_refresh` are left out. They are glue and timers.
- The SQLite engine itself is left out: connections, commits and SQL text. A write's fate is a per-position fault plan together with how its parameters bind. `init_db` is only reflected in the row types.
- Rows are kept in rowid order. INSERT OR REPLACE is delete-then-append. A query without ORDER BY returns issues in stored order, and each issue's images in stored order.
- Database.SortDescSorted: ties in SubmissionDate are ordered by this model's insertion sort. SQLite leaves their order unspecified, so only the permutation and the non-increasing order are stated.
- Database.SearchClause: `%` and `_` typed into the search box are treated as literal characters. In SQLite's LIKE they are wildcards.
- Text.Lower: lower-casing covers ASCII letters only. Python's `str.lower` and SQLite's LOWER (also ASCII-only by default) agree on those.
- Dates.ParseIso: only the `fromisoformat` forms the upstream sends are accepted: a date; or a date, one separator, "HH:MM:SS", an optional fraction and an optional "+HH:MM" offset. Other ISO 8601 forms (week dates, compact forms, "24:00") read as unparsable and give the sentinel.
- Dates.SqlDate: DATE() is modelled on text starting with "YYYY-MM-DD", followed by nothing, or by ' ' or 'T', a time HH:MM[:SS[.fraction]] and a zone. Julian day numbers, time-only text, "now", modifiers and negative years are not modelled; a date moved by its zone out of the years 0000-9999 reads as NULL. Text of ten or more characters whose first ten are not such a date is NULL here, although SQLite reads some of it: time-only text such as "12:00:00.000" as 2000-01-01, and a numeric Julian day.
- Dates.Render: years are rendered with four zero-padded digits. glibc's `%Y` renders the years 1-999 without padding ("999", not "0999"), so for those years the model's text differs from the source's. The years 1000-9999 agree. `fromisoformat` yields no year outside 1-9999.
- Float parsing of geometry tokens is a parameter. Floats, booleans and arrays as JSON values are left out. JSON integers are unbounded, as Python's are; one wider than 64 bits makes binding raise OverflowError (`Database.ScalarBinding`).
- Base64.Encode: the alphabet and padding of section 4 of RFC 4648 are implemented, but only the length and emptiness of the encoding are stated. It is a library call in the source.
- The fallback that sets a missing `created_at` to `updated_at` or 'Unknown' (main.py:88-89) is not modelled. Every listed row comes from the `issues` table and always has the column, so the fallback never fires.
- `get_images` returns `[]` rather than `{}` when it fails. The model returns an empty dictionary, which is just as empty in the report.
- The outer `try` of `update_existing_issues_and_responses` (returning `{}`) is not modelled. No stage lets an exception escape, so it cannot fire.
- Database.Where: the query text is modelled as the list of clauses it gains, one per non-empty filter, not as a string built by concatenation. Parameter binding is folded into the clauses.
- `get_responses` (main.py:98-106) and the other routes are not part of this model.
- Concurrency between overlapping sync runs is left out.

## Findings

| source | as written | input that shows it | evidently intended | confidence | as-written member | corrected member |
|---|---|---|---|---|---|---|
| main.py:86 | `issue['status'].lower()` runs on every listed issue, and an answered issue whose stored status is NULL has no `.lower()`, so the whole `GET /api/issues` request fails with 500 | an issue row with `status` NULL (an entity sent with `"status": null`) and one response whose `entity_problem` is its id | an unknown or missing status shows as "new", as for any other status outside the vocabulary | not executed | Dashboard.ListingAsWritten | Dashboard.Listing |
| database.py:97-101 | the `images` key is `TEXT PRIMARY KEY` without NOT NULL, so SQLite accepts NULL keys, and INSERT OR IGNORE of an image whose submission has no `__id` appends a new row on every sync | two syncs that each save the same image entry with a null `submission_id` | a row without a key is not stored, so that replaying a sync leaves the table unchanged | not executed | Tables.NullKeyInsertDuplicates | OdkApi.CorrectedSyncIdempotent |
| database.py:112-141 | the `responses` key is `TEXT PRIMARY KEY` without NOT NULL, so INSERT OR REPLACE of a response without `__id` never conflicts and appends a duplicate on every sync | two syncs that each save the same submission lacking `__id` | a response without a KEY is not stored, so that replaying a sync leaves the table unchanged | not executed | OdkApi.SyncIdempotent | OdkApi.CorrectedSyncIdempotent |
