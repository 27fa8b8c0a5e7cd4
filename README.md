# Trainee progress tracker: extraction and aggregation core

This project models the server-side core of the trainee progress tracker, which lives in `server/api.js`. It has two halves.

**Write side.** `extractData` runs an extraction. For every trainee in the trainee table it:
- asks the Codewars profile API for the trainee's overall rank and javascript score (`getCodewarInfo`);
- asks the GitHub issue-search API how many of the trainee's pull requests belong to the CodeYourFuture organisation (`getGithubInfo`, `countByUrl`);
- appends one snapshot row, stamped with the run's single timestamp, to the `extracteddata` table (`insertExtractedData`).

**Read side.** Two queries feed the `/milestonestatus/:githubusername` endpoint:
- the latest snapshot of every trainee (`getLatestExtractedData`);
- the current milestone, which is the one with the latest date (`getLastestCyfMilestone`).

The endpoint returns the triple `[all latest rows, the requested trainee's rows, current milestone]`.

The modules are:

- `Util` (util.dfy) holds an `Option` type and three sequence helpers:
  - the order-preserving `Filter` of `Array.prototype.filter`;
  - the subsequence relation;
  - the substring test of `String.prototype.includes`.
- `Metrics` (metrics.dfy) holds the two platform adapters as pure functions of an already-decoded reply.
  - A missing object on the path to a field is the `TypeError` the source catches. It yields the adapter's default: `(9, 0)` for Codewars and `0` for GitHub.
- `Store` (store.dfy) holds the trainee and snapshot rows.
  - `SnapshotStore` is the `extracteddata` table. It is a class whose `Append` assigns serial ids.
  - `LatestFor` and `LatestPerTrainee` are the max-id-per-trainee join.
- `Extraction` (extraction.dfy) holds one run.
  - `Run` specifies the run.
  - `RunExtraction` is the loop that performs it against a `SnapshotStore`.
  - The lemmas cover per-trainee isolation, the shared timestamp, and what the latest query returns afterwards.
- `Milestones` (milestones.dfy) holds the max-date milestone pick and the progress-view triple.

**Inputs taken as parameters.** Every external reply is a parameter:
- the Codewars profile and the GitHub search reply of each trainee, already decoded from JSON;
- whether the database accepts each insert;
- the run's clock reading `today`.

Three behaviours are modelled as the source has them:
- An empty milestone table yields no milestone (`None`, which the endpoint serialises as `null`). It is not an error.
- The foreign key from `extracteddata.traineeid` to `trainee.id` is not declared in the schema. Instead, `Extraction.RunRowsBelongToTrainees` proves that a run only writes rows for trainees it read.
- The run's own return value is only the first trainee's outcome (see Findings). The corrected run reports every outcome.

## Model

| member | source | states |
|---|---|---|
| Util.ContainsAt | server/api.js:164 | the scanning `includes` test holds exactly when some window of the URL equals the organisation name |
| Metrics.CodewarsInfo | server/api.js:139-153 | rank is the absolute value of `ranks.overall.rank`, so it is never negative; score is the javascript score; a missing reply, `ranks`, `overall`, `languages` or `javascript` entry gives exactly `(9, 0)` |
| Metrics.CountByUrl | server/api.js:162-166 | the count fails exactly when some hit lacks a pull-request URL; otherwise it is the number of hits whose URL contains `CodeYourFuture`, at most the number of hits |
| Metrics.CountIsOrgMatches | server/api.js:162-166 | each hit whose URL has an occurrence of the organisation name is counted as often as it occurs, and no other hit is counted |
| Metrics.GithubInfo | server/api.js:154-177 | a failed request or a reply without `items` gives 0, a failing count gives 0, otherwise the organisation pull-request count, bounded by the number of hits |
| Metrics.NoOrgPrGivesZero | server/api.js:162-176 | an empty hit list, or one with no organisation pull request, gives 0 |
| Store.SnapshotStore.Append | server/api.js:179-195 | an accepted insert appends exactly the given row with the next serial id, larger than every existing id, leaving earlier rows unchanged; a rejected insert changes nothing |
| Store.LatestFor | server/api.js:337-339 | `None` exactly when the trainee has no snapshot; otherwise a snapshot of that trainee whose id is the largest among its snapshots |
| Store.LatestPerTrainee | server/api.js:335-342 | every result row joins a listed trainee's identity columns with that trainee's max-id snapshot; no more rows than listed trainees (one row per trainee is `LatestOnePerTrainee`) |
| Store.LatestCoversTrainee | server/api.js:337-339 | every trainee with a snapshot appears, joined with its max-id snapshot |
| Store.LatestOnePerTrainee | server/api.js:337-339 | with unique trainee ids, no trainee appears twice |
| Store.LatestOmitsTraineesWithoutSnapshots | server/api.js:337-339 | trainees without snapshots are absent (inner join) |
| Store.LatestAfterAppend | server/api.js:186-194 | appending a row with an id above all others makes it its trainee's latest and leaves every other trainee's latest unchanged |
| Store.LatestIsMaxIdRow | server/api.js:338-339 | with increasing ids, the trainee's row with the largest id is the one the join picks |
| Extraction.Run | server/api.js:105-132 | a run reports one outcome per trainee read and appends no more rows than there are trainees (one row per trainee is `RunRowsOfTrainee`) |
| Extraction.RunShape | server/api.js:109-127 | a trainee's outcome is fulfilled exactly when its insert is accepted; appended rows take consecutive ids from the model's serial, which advances only on an accepted insert |
| Extraction.RunExtraction | server/api.js:105-132 | each unit resolves both adapters and then appends; the table grows by exactly the rows `Run` specifies, the serial advances by their number, and the report is `Run`'s outcome list |
| Extraction.RunStampsToday | server/api.js:107-119 | every row of one run carries the single timestamp taken before the loop |
| Extraction.RunRowsBelongToTrainees | server/api.js:106-126 | every appended row's trainee id is the id of a trainee read at the start |
| Extraction.RunRowCount | server/api.js:109-126 | when every insert is accepted, a run appends exactly one row per trainee |
| Extraction.RunRowsOfTrainee | server/api.js:109-126 | trainee k's rows from a run are exactly one row with its own id, the adapters' rank, points and count and the run's timestamp when its insert succeeds, and none when it fails, whatever happens to the others |
| Extraction.RunIsolation | server/api.js:109-127 | two runs that agree on trainee k's replies give trainee k the same rows up to serial ids, whatever the other trainees' replies and insert failures |
| Extraction.DefaultsPersisted | server/api.js:146-151 | a trainee both of whose platforms failed, and whose insert is accepted, still gets exactly one row, holding rank 9, points 0, 0 pull requests and the run's timestamp |
| Extraction.LatestAfterRun | server/api.js:335-342 | after a run in which trainee k's insert succeeds, the latest query returns that run's row for k, whatever the table held before |
| Extraction.FirstSettledSeesOnlyFirst | server/api.js:127-129 | for every non-empty trainee list, the run's value as written is a success exactly when the first trainee's insert was accepted, whatever happened to every later trainee |
| Extraction.FirstSettledHidesFailure | server/api.js:127-129 | with two trainees whose second insert fails, the value as written still reports a success |
| Milestones.MaxDate | server/api.js:317-320 | `None` exactly for an empty table; otherwise some row's date, at least every row's date |
| Milestones.LatestCyfMilestone | server/api.js:316-325 | `None` exactly for an empty table; otherwise a row of the table whose date is at least every row's date |
| Milestones.LatestDateHasRows | server/api.js:321-324 | a non-empty table has a row on its latest date, so the second query is never empty |
| Milestones.LaterMilestoneBecomesCurrent | server/api.js:316-325 | publishing a milestone dated after all others makes it the current one |
| Milestones.MilestoneStatus | server/api.js:291-308 | the triple is ordered all, filtered, milestone: `all` is the latest-per-trainee result, `filtered` keeps only rows with the requested username in their order in `all`, and `milestone` is the current milestone |
| Milestones.FilteredMembership | server/api.js:298-300 | a row is in the filtered list exactly when it is in `all` and carries the requested username |
| Milestones.UnknownUsernameGivesEmpty | server/api.js:293-307 | a username no trainee has gives an empty filtered list, while `all` and the milestone are those of any other request |
| Milestones.KnownUsernameGivesItsLatestRow | server/api.js:298-300 | when exactly one trainee has the username and has a snapshot, the filtered list is that trainee's latest row alone |

## Left out

- HTTP routing, request parsing, `res.send` and status codes are not modelled. The progress endpoint is modelled as the value it sends.
- `fetch`, JSON decoding, SQL execution and the logger are not modelled. Their results are parameters (`Replies`, the trainee list, whether an insert is accepted).
- Metrics.CodewarsInfo: a missing leaf number (`overall` without `rank`, `javascript` without `score`) gives `NaN` or `undefined` in the source rather than the default. The model always has the leaf when its object is present, so this case is not represented.
- Metrics.GithubInfo: an `items` value that is not an array, or a URL that is not a string, also throws in the source. The model's types exclude both.
- Concurrency of the fan-out is not modelled. The units run one after another in trainee-list order. In the source, rows land, and serial ids are drawn, in the order the inserts complete. `Promise.allSettled` itself keeps list order, as the report does here.
- Extraction.RunExtraction: an outcome in the model carries the id the insert returned. In the source a unit resolves to `undefined`, and only its status is observable.
- Store.SnapshotStore.Append: the model's serial advances only on an accepted insert, never skips, and has no other writer during a run. In the source the ids come from the database's serial: a failed insert can still consume a value, and other callers of `extractData` (server/api.js:98, 247, 345) can draw ids in between. Consecutive ids (`Extraction.RunShape`) are a property of the model; only "larger than every existing id" carries over.
- Store.LatestPerTrainee: the query (server/api.js:337-339) has no `ORDER BY`, so the database may return its rows in any order. The model lists them in trainee-table order, and `Milestones.MilestoneStatus` inherits that order for `all` and `filtered`.
- A failing `getTrainees` query rejects the whole run before any unit starts. It is not modelled: the trainee list is an input.
- The `setInterval` scheduler (server/api.js:345) is not modelled. It depends on timing, and the source has no guard against overlapping runs.
- Milestones.LatestCyfMilestone: when several milestones share the latest date, SQL leaves the order open and the source takes the first row. The model takes the first in table order, and its contract promises only some row with the latest date.
- The `date::date` cast and timestamp types are not modelled. Dates and the run's clock reading are integers.
- The CRUD handlers for trainees, cohorts, milestones, extracted data and `/register` (server/api.js:15-93, 198-255) are not modelled. Their milestone validation (server/api.js:209-212) uses a comma expression, so only `codewarsjspoints` is actually checked.
- The OAuth and client-id passthrough endpoints (server/api.js:257-288, 349-375) are not modelled. They forward credentials to an external service.
- client/src/Components/Banner/Banner.js is not modelled. It is static UI.

## Findings

| source | as written | input that shows it | evidently intended | confidence | as-written member | corrected member |
|---|---|---|---|---|---|---|
| server/api.js:127-129 | the run waits for every unit, then destructures the settled list and returns only its first element | two trainees whose second insert is rejected: the run's value reports a success, and the failure is invisible to the caller | the run reports every trainee's outcome, fulfilled exactly when its insert was accepted (`Extraction.RunShape`) | high; not executed | Extraction.FirstSettledHidesFailure | Extraction.RunExtraction |
