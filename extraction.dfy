/** One extraction run, `extractData` (server/api.js:105-132): for every trainee read
    at the start, ask both platforms, then append one snapshot stamped with the run's
    single timestamp. Each trainee's unit settles on its own, so a failed append is
    recorded in that trainee's outcome and the loop goes on. The units run one after
    another here, in trainee-list order. */
module Extraction {
  import opened Util
  import opened Metrics
  import opened Store

  /** What the outside world answers during one trainee's unit: the skill platform's
      profile, the contribution platform's search reply, and whether the database
      accepts the insert. */
  datatype Replies = Replies(codewars: Option<Profile>, github: Option<SearchReply>, storeAvailable: bool)

  /** A unit's settled state, as `Promise.allSettled` reports it. */
  datatype Outcome = Fulfilled(snapshotId: nat) | Rejected

  /** The rows a run appends, in order, and one outcome per trainee. */
  datatype RunResult = RunResult(rows: seq<Snapshot>, report: seq<Outcome>)

  /** The values one trainee's unit works with once both adapter calls have
      resolved: the skill result, the pull-request count, and whether the insert
      that follows is accepted. */
  datatype UnitInput = UnitInput(skill: Skill, githubPrs: nat, storeAvailable: bool)

  /** Both adapters applied to one trainee's replies. */
  function Resolve(replies: Replies): UnitInput {
    UnitInput(CodewarsInfo(replies.codewars), GithubInfo(replies.github), replies.storeAvailable)
  }

  function ResolveAll(replies: seq<Replies>): (units: seq<UnitInput>)
    ensures |units| == |replies|
  {
    seq(|replies|, k requires 0 <= k < |replies| => Resolve(replies[k]))
  }

  /** The row trainee `t`'s unit appends. */
  function UnitRow(t: Trainee, u: UnitInput, today: int, id: nat): Snapshot {
    Snapshot(id, t.id, u.skill.rank, u.skill.score, u.githubPrs, today)
  }

  /** The specification of a run over `trainees`, starting from serial value `firstId`. */
  function Run(trainees: seq<Trainee>, units: seq<UnitInput>, today: int, firstId: nat): (r: RunResult)
    requires |units| == |trainees|
    ensures |r.report| == |trainees| && |r.rows| <= |trainees|
    decreases |trainees|
  {
    if trainees == [] then RunResult([], [])
    else
      var n := |trainees| - 1;
      var prev := Run(trainees[..n], units[..n], today, firstId);
      if units[n].storeAvailable then
        var id := firstId + |prev.rows|;
        RunResult(prev.rows + [UnitRow(trainees[n], units[n], today, id)], prev.report + [Fulfilled(id)])
      else
        RunResult(prev.rows, prev.report + [Rejected])
  }

  /** Every trainee has an outcome, fulfilled exactly when its insert is accepted,
      and the appended rows take consecutive serial ids from `firstId`. */
  lemma {:induction false} RunShape(trainees: seq<Trainee>, units: seq<UnitInput>, today: int, firstId: nat)
    requires |units| == |trainees|
    ensures var r := Run(trainees, units, today, firstId);
      && (forall k :: 0 <= k < |trainees| ==> (r.report[k].Fulfilled? <==> units[k].storeAvailable))
      && (forall j :: 0 <= j < |r.rows| ==> r.rows[j].id == firstId + j)
    decreases |trainees|
  {
    if trainees != [] {
      var n := |trainees| - 1;
      RunShape(trainees[..n], units[..n], today, firstId);
    }
  }

  /** A run over a non-empty list extends the run over all but its last trainee. */
  lemma {:induction false} RunLast(trainees: seq<Trainee>, units: seq<UnitInput>, today: int, firstId: nat)
    requires |units| == |trainees| && trainees != []
    ensures var n := |trainees| - 1;
      var prev := Run(trainees[..n], units[..n], today, firstId);
      var id := firstId + |prev.rows|;
      Run(trainees, units, today, firstId) ==
        if units[n].storeAvailable
        then RunResult(prev.rows + [UnitRow(trainees[n], units[n], today, id)], prev.report + [Fulfilled(id)])
        else RunResult(prev.rows, prev.report + [Rejected])
  {
  }

  /** A run over one more trainee extends the shorter run by that trainee's unit. */
  lemma {:induction false} RunSnoc(trainees: seq<Trainee>, units: seq<UnitInput>, today: int, firstId: nat, k: nat)
    requires |units| == |trainees| && k < |trainees|
    ensures var prev := Run(trainees[..k], units[..k], today, firstId);
      var id := firstId + |prev.rows|;
      Run(trainees[..k + 1], units[..k + 1], today, firstId) ==
        if units[k].storeAvailable
        then RunResult(prev.rows + [UnitRow(trainees[k], units[k], today, id)], prev.report + [Fulfilled(id)])
        else RunResult(prev.rows, prev.report + [Rejected])
  {
    assert trainees[..k + 1][..k] == trainees[..k] && units[..k + 1][..k] == units[..k];
  }

  /** `extractData` against the extracteddata table: each unit calls the skill
      adapter, then the contribution adapter, then appends; the table grows by
      exactly the rows of `Run`, and the report lists every trainee's outcome. */
  method RunExtraction(store: SnapshotStore, trainees: seq<Trainee>, replies: seq<Replies>, today: int)
    returns (report: seq<Outcome>)
    requires store.Valid()
    requires |replies| == |trainees|
    modifies store
    ensures store.Valid()
    ensures store.rows == old(store.rows) + Run(trainees, ResolveAll(replies), today, old(store.nextId)).rows
    ensures store.nextId == old(store.nextId) + |Run(trainees, ResolveAll(replies), today, old(store.nextId)).rows|
    ensures report == Run(trainees, ResolveAll(replies), today, old(store.nextId)).report
  {
    ghost var rows0, firstId, units := store.rows, store.nextId, ResolveAll(replies);
    report := [];
    var k := 0;
    while k < |trainees|
      invariant 0 <= k <= |trainees|
      invariant store.Valid()
      invariant store.rows == rows0 + Run(trainees[..k], units[..k], today, firstId).rows
      invariant store.nextId == firstId + |Run(trainees[..k], units[..k], today, firstId).rows|
      invariant report == Run(trainees[..k], units[..k], today, firstId).report
    {
      RunSnoc(trainees, units, today, firstId, k);
      var trainee := trainees[k];
      var skill := CodewarsInfo(replies[k].codewars);
      var githubPrs := GithubInfo(replies[k].github);
      assert units[k] == UnitInput(skill, githubPrs, replies[k].storeAvailable);
      var id := store.Append(trainee.id, skill.rank, skill.score, githubPrs, today, replies[k].storeAvailable);
      var outcome := if id.Some? then Fulfilled(id.value) else Rejected;
      report := report + [outcome];
      k := k + 1;
    }
    assert trainees[..k] == trainees && units[..k] == units;
  }

  /** Selects the rows of one trainee. */
  function ForTrainee(traineeId: int): Snapshot -> bool {
    (s: Snapshot) => s.traineeId == traineeId
  }

  /** Every row appended in one run carries the run's single timestamp. */
  lemma {:induction false} RunStampsToday(trainees: seq<Trainee>, units: seq<UnitInput>, today: int, firstId: nat)
    requires |units| == |trainees|
    ensures forall s :: s in Run(trainees, units, today, firstId).rows ==> s.timestamp == today
    decreases |trainees|
  {
    if trainees != [] {
      var n := |trainees| - 1;
      RunStampsToday(trainees[..n], units[..n], today, firstId);
    }
  }

  /** Every appended row belongs to a trainee of the list read at the start. */
  lemma {:induction false} RunRowsBelongToTrainees(trainees: seq<Trainee>, units: seq<UnitInput>, today: int, firstId: nat)
    requires |units| == |trainees|
    ensures forall s :: s in Run(trainees, units, today, firstId).rows ==> s.traineeId in TraineeIds(trainees)
    decreases |trainees|
  {
    if trainees != [] {
      var n := |trainees| - 1;
      RunRowsBelongToTrainees(trainees[..n], units[..n], today, firstId);
      assert TraineeIds(trainees[..n]) <= TraineeIds(trainees) by {
        forall k | 0 <= k < n
          ensures trainees[..n][k].id in TraineeIds(trainees)
        {
          assert trainees[..n][k] == trainees[k];
        }
      }
      assert trainees[n].id in TraineeIds(trainees);
    }
  }

  /** When every insert succeeds, the run appends as many rows as there are trainees. */
  lemma {:induction false} RunRowCount(trainees: seq<Trainee>, units: seq<UnitInput>, today: int, firstId: nat)
    requires |units| == |trainees|
    requires forall k :: 0 <= k < |units| ==> units[k].storeAvailable
    ensures |Run(trainees, units, today, firstId).rows| == |trainees|
    decreases |trainees|
  {
    if trainees != [] {
      var n := |trainees| - 1;
      RunRowCount(trainees[..n], units[..n], today, firstId);
    }
  }

  /** With unique ids, the last trainee's id is not among the others'. */
  lemma {:induction false} LastIdIsNew(trainees: seq<Trainee>)
    requires trainees != [] && UniqueIds(trainees)
    ensures var n := |trainees| - 1;
      UniqueIds(trainees[..n]) && trainees[n].id !in TraineeIds(trainees[..n])
  {
    var n := |trainees| - 1;
    forall i, j | 0 <= i < j < n
      ensures trainees[..n][i].id != trainees[..n][j].id
    {
      assert trainees[..n][i] == trainees[i] && trainees[..n][j] == trainees[j];
    }
  }

  /** The rows a unit with the given outcome leaves in the table: its own row when
      the insert succeeded, none when it was rejected. */
  function OutcomeRows(t: Trainee, u: UnitInput, today: int, outcome: Outcome): seq<Snapshot> {
    match outcome
    case Fulfilled(id) => [UnitRow(t, u, today, id)]
    case Rejected => []
  }

  /** The heart of the run: trainee `k` gets exactly one new row, holding its own id,
      the adapters' values and the run's timestamp, when its insert succeeds, and no
      row when it fails, whatever happened to the other trainees. */
  lemma {:induction false} RunRowsOfTrainee(trainees: seq<Trainee>, units: seq<UnitInput>, today: int, firstId: nat, k: nat)
    requires |units| == |trainees| && UniqueIds(trainees) && k < |trainees|
    ensures Filter(Run(trainees, units, today, firstId).rows, ForTrainee(trainees[k].id))
            == OutcomeRows(trainees[k], units[k], today, Run(trainees, units, today, firstId).report[k])
    decreases |trainees|
  {
    var n := |trainees| - 1;
    LastIdIsNew(trainees);
    if k < n {
      RunRowsOfTrainee(trainees[..n], units[..n], today, firstId, k);
      EarlierTraineeStep(trainees, units, today, firstId, k);
    } else {
      LastTraineeStep(trainees, units, today, firstId);
    }
  }

  /** The last trainee's unit adds nothing for an earlier trainee. */
  lemma {:induction false} EarlierTraineeStep(trainees: seq<Trainee>, units: seq<UnitInput>, today: int, firstId: nat, k: nat)
    requires |units| == |trainees| && UniqueIds(trainees) && k < |trainees| - 1
    requires var n := |trainees| - 1;
      Filter(Run(trainees[..n], units[..n], today, firstId).rows, ForTrainee(trainees[..n][k].id))
      == OutcomeRows(trainees[..n][k], units[..n][k], today, Run(trainees[..n], units[..n], today, firstId).report[k])
    ensures Filter(Run(trainees, units, today, firstId).rows, ForTrainee(trainees[k].id))
            == OutcomeRows(trainees[k], units[k], today, Run(trainees, units, today, firstId).report[k])
  {
    var n := |trainees| - 1;
    assert trainees[..n][k] == trainees[k] && units[..n][k] == units[k];
    LastUnitSkipsEarlier(trainees, units, today, firstId, k);
  }

  /** The last trainee's unit leaves an earlier trainee's rows and outcome as they were. */
  lemma {:induction false} LastUnitSkipsEarlier(trainees: seq<Trainee>, units: seq<UnitInput>, today: int, firstId: nat, k: nat)
    requires |units| == |trainees| && UniqueIds(trainees) && k < |trainees| - 1
    ensures var n := |trainees| - 1;
      var prev := Run(trainees[..n], units[..n], today, firstId);
      var r := Run(trainees, units, today, firstId);
      Filter(r.rows, ForTrainee(trainees[k].id)) == Filter(prev.rows, ForTrainee(trainees[k].id))
      && r.report[k] == prev.report[k]
  {
    var n := |trainees| - 1;
    var prev := Run(trainees[..n], units[..n], today, firstId);
    var keep := ForTrainee(trainees[k].id);
    var tail := if units[n].storeAvailable
                then [UnitRow(trainees[n], units[n], today, firstId + |prev.rows|)] else [];
    RunLast(trainees, units, today, firstId);
    FilterAppend(prev.rows, tail, keep);
    assert trainees[n].id != trainees[k].id;
    FilterNone(tail, keep);
  }

  /** The last trainee's rows are exactly those of its own unit. */
  lemma {:induction false} LastTraineeStep(trainees: seq<Trainee>, units: seq<UnitInput>, today: int, firstId: nat)
    requires |units| == |trainees| && UniqueIds(trainees) && trainees != []
    requires var n := |trainees| - 1; trainees[n].id !in TraineeIds(trainees[..n])
    ensures var n := |trainees| - 1;
      Filter(Run(trainees, units, today, firstId).rows, ForTrainee(trainees[n].id))
      == OutcomeRows(trainees[n], units[n], today, Run(trainees, units, today, firstId).report[n])
  {
    var n := |trainees| - 1;
    var prev := Run(trainees[..n], units[..n], today, firstId);
    var keep := ForTrainee(trainees[n].id);
    var tail := if units[n].storeAvailable
                then [UnitRow(trainees[n], units[n], today, firstId + |prev.rows|)] else [];
    RunLast(trainees, units, today, firstId);
    assert Run(trainees, units, today, firstId).rows == prev.rows + tail;
    FilterAppend(prev.rows, tail, keep);
    RunRowsBelongToTrainees(trainees[..n], units[..n], today, firstId);
    forall j | 0 <= j < |prev.rows|
      ensures !keep(prev.rows[j])
    {
      assert prev.rows[j] in prev.rows;
      assert prev.rows[j].traineeId in TraineeIds(trainees[..n]);
    }
    FilterNone(prev.rows, keep);
    if units[n].storeAvailable {
      assert tail[1..] == [];
      assert Filter(tail, keep) == tail;
    }
  }

  /** Isolation: two runs in which trainee `k`'s own inputs are the same, whatever
      the other trainees' inputs and insert failures, give trainee `k` the same rows,
      up to the serial ids. */
  lemma {:induction false} RunIsolation(trainees: seq<Trainee>, units1: seq<UnitInput>, units2: seq<UnitInput>,
                     today: int, firstId1: nat, firstId2: nat, k: nat)
    requires |units1| == |trainees| && |units2| == |trainees| && UniqueIds(trainees) && k < |trainees|
    requires units1[k] == units2[k]
    ensures var a := Filter(Run(trainees, units1, today, firstId1).rows, ForTrainee(trainees[k].id));
            var b := Filter(Run(trainees, units2, today, firstId2).rows, ForTrainee(trainees[k].id));
      |a| == |b| && forall i :: 0 <= i < |a| ==> a[i].(id := 0) == b[i].(id := 0)
  {
    RunRowsOfTrainee(trainees, units1, today, firstId1, k);
    RunRowsOfTrainee(trainees, units2, today, firstId2, k);
    RunShape(trainees, units1, today, firstId1);
    RunShape(trainees, units2, today, firstId2);
  }

  /** A trainee for whom both platforms failed still gets a row, holding the defaults. */
  lemma {:induction false} DefaultsPersisted(trainees: seq<Trainee>, replies: seq<Replies>, today: int, firstId: nat, k: nat)
    requires |replies| == |trainees| && UniqueIds(trainees) && k < |trainees|
    requires replies[k] == Replies(None, None, true)
    ensures var rows := Filter(Run(trainees, ResolveAll(replies), today, firstId).rows, ForTrainee(trainees[k].id));
      |rows| == 1 && rows[0].traineeId == trainees[k].id
      && rows[0].codewarsRank == SENTINEL_RANK && rows[0].codewarsJsPoints == SENTINEL_SCORE
      && rows[0].githubPrs == 0 && rows[0].timestamp == today
  {
    var units := ResolveAll(replies);
    assert units[k] == UnitInput(Skill(SENTINEL_RANK, SENTINEL_SCORE), 0, true);
    RunRowsOfTrainee(trainees, units, today, firstId, k);
    RunShape(trainees, units, today, firstId);
  }

  /** After a run in which trainee `k`'s insert succeeds, the latest-per-trainee
      query returns that run's row for `k`, whatever the table held before. */
  lemma {:induction false} LatestAfterRun(before: seq<Snapshot>, after: seq<Snapshot>, trainees: seq<Trainee>,
                       units: seq<UnitInput>, today: int, firstId: nat, k: nat)
    requires IdsIncreasing(before) && forall i :: 0 <= i < |before| ==> before[i].id < firstId
    requires |units| == |trainees| && UniqueIds(trainees) && k < |trainees|
    requires units[k].storeAvailable
    requires after == before + Run(trainees, units, today, firstId).rows
    ensures var r := Run(trainees, units, today, firstId);
      r.report[k].Fulfilled?
      && LatestFor(after, trainees[k].id) == Some(UnitRow(trainees[k], units[k], today, r.report[k].snapshotId))
  {
    var r := Run(trainees, units, today, firstId);
    var keep := ForTrainee(trainees[k].id);
    RunShape(trainees, units, today, firstId);
    RunRowsOfTrainee(trainees, units, today, firstId, k);
    var mine := UnitRow(trainees[k], units[k], today, r.report[k].snapshotId);
    assert Filter(r.rows, keep) == [mine];
    FilterMembership(r.rows, keep, mine);
    var all := after;
    assert forall i :: 0 <= i < |before| ==> all[i] == before[i];
    assert forall j :: 0 <= j < |r.rows| ==> all[|before| + j] == r.rows[j];
    assert IdsIncreasing(all) by {
      forall i, j | 0 <= i < j < |all|
        ensures all[i].id < all[j].id
      {
        if j >= |before| && i >= |before| {
          assert all[i] == r.rows[i - |before|];
        }
      }
    }
    forall i | 0 <= i < |all| && all[i].traineeId == mine.traineeId
      ensures all[i].id <= mine.id
    {
      if i >= |before| {
        FilterMembership(r.rows, keep, all[i]);
      }
    }
    LatestIsMaxIdRow(all, mine);
  }

  /** The run's result as the source returns it: `Promise.allSettled(...)` followed
      by `.then(([result]) => result)` keeps only the first trainee's outcome
      (`undefined`, here `None`, for an empty trainee list). */
  function FirstSettled(report: seq<Outcome>): (r: Option<Outcome>)
    ensures r.None? <==> report == []
    ensures r.Some? ==> r.value == report[0]
  {
    if report == [] then None else Some(report[0])
  }

  /** The first-settled result hides a later trainee's failure: with two trainees
      whose second insert fails, it still reports a success. */
  lemma {:induction false} FirstSettledHidesFailure(alice: Trainee, bob: Trainee, today: int)
    ensures var units := [UnitInput(Skill(3, 150), 4, true), UnitInput(Skill(9, 0), 0, false)];
      var r := Run([alice, bob], units, today, 1);
      FirstSettled(r.report) == Some(Fulfilled(1)) && r.report[1] == Rejected
  {
    var units := [UnitInput(Skill(3, 150), 4, true), UnitInput(Skill(9, 0), 0, false)];
    RunLast([alice, bob], units, today, 1);
    assert [alice, bob][..1] == [alice] && units[..1] == [units[0]];
    RunLast([alice], [units[0]], today, 1);
    assert [alice][..0] == [] && [units[0]][..0] == [];
  }

  /** For every non-empty run, the value as written reflects only the first
      trainee's insert: it is a success exactly when that one insert was accepted,
      whatever happened to every later trainee. */
  lemma {:induction false} FirstSettledSeesOnlyFirst(trainees: seq<Trainee>, units: seq<UnitInput>,
                                                     today: int, firstId: nat)
    requires |units| == |trainees| && trainees != []
    ensures var v := FirstSettled(Run(trainees, units, today, firstId).report);
      v.Some? && (v.value.Fulfilled? <==> units[0].storeAvailable)
  {
    RunShape(trainees, units, today, firstId);
  }

  /** The two trainees of one worked example: alice's platforms answer, bob's skill
      platform times out; both rows land, with the same timestamp. */
  method ScenarioTwoTrainees(today: int) {
    var store := new SnapshotStore();
    var alice := Trainee(1, "alice", "alice-cw", "Alice", "c1");
    var bob := Trainee(2, "bob", "bob-cw", "Bob", "c1");
    var profile := Profile(Some(Ranks(Some(OverallRank(-3)), Some(map["javascript" := LanguageRank(150)]))));
    var host := "https://api.github.com/repos/";
    var url := host + ORGANIZATION + "/Module/pulls/1";
    assert Contains(url, ORGANIZATION) by {
      assert url[|host|..|host| + |ORGANIZATION|] == ORGANIZATION;
      assert OccursAt(url, ORGANIZATION, |host|);
      ContainsAt(url, ORGANIZATION);
    }
    var pr := PrItem(Some(url));
    var items := [pr, pr, pr, pr];
    assert CountByUrl(items) == Some(4) by {
      assert items[1..] == [pr, pr, pr] && items[2..] == [pr, pr] && items[3..] == [pr] && items[4..] == [];
      assert CountByUrl([pr]) == Some(1);
      assert CountByUrl([pr, pr]) == Some(2);
      assert CountByUrl([pr, pr, pr]) == Some(3);
    }
    var replies := [Replies(Some(profile), Some(SearchReply(Some(items))), true),
                    Replies(None, Some(SearchReply(Some([]))), true)];
    var units := ResolveAll(replies);
    assert units == [UnitInput(Skill(3, 150), 4, true), UnitInput(Skill(9, 0), 0, true)];
    var report := RunExtraction(store, [alice, bob], replies, today);
    RunLast([alice, bob], units, today, 1);
    assert [alice, bob][..1] == [alice] && units[..1] == [units[0]];
    RunLast([alice], [units[0]], today, 1);
    assert [alice][..0] == [] && [units[0]][..0] == [];
    assert store.rows == [Snapshot(1, 1, 3, 150, 4, today), Snapshot(2, 2, 9, 0, 0, today)];
    assert report == [Fulfilled(1), Fulfilled(2)];
  }
}
