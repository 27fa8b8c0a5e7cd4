/** The trainee and extracteddata tables and the "latest per trainee" query
    (server/api.js:179-195, 335-342). The extracteddata table is an append-only
    object whose rows receive increasing serial ids; the trainee table is read
    only here and is passed in as a sequence. */
module Store {
  import opened Util

  /** A row of the trainee table. */
  datatype Trainee = Trainee(id: int, githubUsername: string, codewarsUsername: string,
                             displayName: string, cohort: string)

  /** A row of the extracteddata table; `timestamp` is the run's clock reading. */
  datatype Snapshot = Snapshot(id: nat, traineeId: int, codewarsRank: int,
                               codewarsJsPoints: int, githubPrs: int, timestamp: int)

  /** A row of the "latest" query: the trainee's identity columns followed by `e.*`. */
  datatype LatestRow = LatestRow(githubUsername: string, codewarsUsername: string,
                                 displayName: string, cohort: string, snapshot: Snapshot)

  /** Ids strictly increase along the table, as serial ids do. */
  predicate IdsIncreasing(rows: seq<Snapshot>) {
    forall i, j :: 0 <= i < j < |rows| ==> rows[i].id < rows[j].id
  }

  /** The trainee table's primary key: no two rows share an id. */
  predicate UniqueIds(trainees: seq<Trainee>) {
    forall i, j :: 0 <= i < j < |trainees| ==> trainees[i].id != trainees[j].id
  }

  /** The ids of the listed trainees. */
  function TraineeIds(trainees: seq<Trainee>): set<int> {
    set k | 0 <= k < |trainees| :: trainees[k].id
  }

  /** Some snapshot belongs to trainee `traineeId`. */
  predicate HasSnapshot(rows: seq<Snapshot>, traineeId: int) {
    exists i :: 0 <= i < |rows| && rows[i].traineeId == traineeId
  }

  /** The extracteddata table. */
  class SnapshotStore {
    var rows: seq<Snapshot>
    /** The serial sequence's next value. */
    var nextId: nat

    ghost predicate Valid()
      reads this
    {
      0 < nextId && IdsIncreasing(rows)
      && forall i :: 0 <= i < |rows| ==> 0 < rows[i].id < nextId
    }

    constructor ()
      ensures Valid() && rows == [] && nextId == 1
    {
      rows := [];
      nextId := 1;
    }

    /** `insertExtractedData`: appends one row and returns its id (`RETURNING id`).
        `available` is false when the database rejects the insert; nothing changes then. */
    method Append(traineeId: int, codewarsRank: int, codewarsJsPoints: int, githubPrs: int,
                  timestamp: int, available: bool) returns (id: Option<nat>)
      requires Valid()
      modifies this
      ensures Valid()
      ensures available ==>
        && id == Some(old(nextId))
        && rows == old(rows) + [Snapshot(id.value, traineeId, codewarsRank, codewarsJsPoints, githubPrs, timestamp)]
        && nextId == old(nextId) + 1
        && (forall i :: 0 <= i < |old(rows)| ==> old(rows)[i].id < id.value)
      ensures !available ==> id == None && rows == old(rows) && nextId == old(nextId)
    {
      if available {
        id := Some(nextId);
        rows := rows + [Snapshot(nextId, traineeId, codewarsRank, codewarsJsPoints, githubPrs, timestamp)];
        nextId := nextId + 1;
      } else {
        id := None;
      }
    }
  }

  /** The trainee's row of `select traineeid, max(id) ... group by traineeid` joined
      back to extracteddata: a snapshot of that trainee with the largest id, or
      `None` when the trainee has no snapshot. */
  function LatestFor(rows: seq<Snapshot>, traineeId: int): (r: Option<Snapshot>)
    ensures r.None? <==> !HasSnapshot(rows, traineeId)
    ensures r.Some? ==>
      && r.value in rows && r.value.traineeId == traineeId
      && forall i :: 0 <= i < |rows| && rows[i].traineeId == traineeId ==> rows[i].id <= r.value.id
  {
    if rows == [] then None
    else
      var rest := LatestFor(rows[1..], traineeId);
      assert forall i :: 1 <= i < |rows| ==> rows[i] == rows[1..][i - 1];
      if rows[0].traineeId != traineeId then rest
      else if rest.Some? && rest.value.id >= rows[0].id then rest
      else Some(rows[0])
  }

  /** The inner join of one trainee row with its latest snapshot. */
  function Join(t: Trainee, s: Snapshot): LatestRow {
    LatestRow(t.githubUsername, t.codewarsUsername, t.displayName, t.cohort, s)
  }

  /** `v` is the join of a listed trainee with that trainee's max-id snapshot. */
  predicate IsLatestJoin(trainees: seq<Trainee>, rows: seq<Snapshot>, v: LatestRow) {
    && v.snapshot in rows
    && (forall i :: 0 <= i < |rows| && rows[i].traineeId == v.snapshot.traineeId ==> rows[i].id <= v.snapshot.id)
    && exists k :: 0 <= k < |trainees| && trainees[k].id == v.snapshot.traineeId && v == Join(trainees[k], v.snapshot)
  }

  /** `getLatestExtractedData`: one joined row for each trainee that has a snapshot.
      SQL leaves the order open; the model lists the rows in trainee-table order. */
  function LatestPerTrainee(trainees: seq<Trainee>, rows: seq<Snapshot>): (view: seq<LatestRow>)
    ensures |view| <= |trainees|
    ensures forall i :: 0 <= i < |view| ==> IsLatestJoin(trainees, rows, view[i])
  {
    if trainees == [] then []
    else
      var rest := LatestPerTrainee(trainees[1..], rows);
      assert forall i :: 0 <= i < |rest| ==> IsLatestJoin(trainees, rows, rest[i]) by {
        forall i | 0 <= i < |rest|
          ensures IsLatestJoin(trainees, rows, rest[i])
        {
          var k :| 0 <= k < |trainees[1..]| && trainees[1..][k].id == rest[i].snapshot.traineeId
                   && rest[i] == Join(trainees[1..][k], rest[i].snapshot);
          assert trainees[k + 1] == trainees[1..][k];
        }
      }
      match LatestFor(rows, trainees[0].id)
      case None => rest
      case Some(s) => [Join(trainees[0], s)] + rest
  }

  /** Every listed trainee that has a snapshot appears in the query's result with
      its max-id snapshot. */
  lemma {:induction false} LatestCoversTrainee(trainees: seq<Trainee>, rows: seq<Snapshot>, k: nat)
    requires k < |trainees| && HasSnapshot(rows, trainees[k].id)
    ensures Join(trainees[k], LatestFor(rows, trainees[k].id).value) in LatestPerTrainee(trainees, rows)
  {
    if k > 0 {
      LatestCoversTrainee(trainees[1..], rows, k - 1);
    }
  }

  /** No two rows of `view` carry the same trainee's snapshot. */
  predicate DistinctTrainees(view: seq<LatestRow>) {
    forall i, j :: 0 <= i < j < |view| ==> view[i].snapshot.traineeId != view[j].snapshot.traineeId
  }

  /** With unique trainee ids, no trainee appears twice in the query's result. */
  lemma {:induction false} LatestOnePerTrainee(trainees: seq<Trainee>, rows: seq<Snapshot>)
    requires UniqueIds(trainees)
    ensures DistinctTrainees(LatestPerTrainee(trainees, rows))
  {
    if trainees != [] {
      var rest := LatestPerTrainee(trainees[1..], rows);
      assert UniqueIds(trainees[1..]) by {
        forall i, j | 0 <= i < j < |trainees[1..]|
          ensures trainees[1..][i].id != trainees[1..][j].id
        {
          assert trainees[1..][i] == trainees[i + 1] && trainees[1..][j] == trainees[j + 1];
        }
      }
      LatestOnePerTrainee(trainees[1..], rows);
      forall i | 0 <= i < |rest|
        ensures rest[i].snapshot.traineeId != trainees[0].id
      {
        var k :| 0 <= k < |trainees[1..]| && trainees[1..][k].id == rest[i].snapshot.traineeId;
        assert trainees[k + 1] == trainees[1..][k];
      }
      var view := LatestPerTrainee(trainees, rows);
      match LatestFor(rows, trainees[0].id)
      case None =>
        assert view == rest;
      case Some(s) =>
        assert view == [Join(trainees[0], s)] + rest;
        forall i, j | 0 <= i < j < |view|
          ensures view[i].snapshot.traineeId != view[j].snapshot.traineeId
        {
          assert view[j] == rest[j - 1];
          if i > 0 {
            assert view[i] == rest[i - 1];
          } else {
            assert view[i].snapshot.traineeId == trainees[0].id;
          }
        }
    }
  }

  /** Trainees without snapshots are absent from the query's result. */
  lemma {:induction false} LatestOmitsTraineesWithoutSnapshots(trainees: seq<Trainee>, rows: seq<Snapshot>, traineeId: int)
    requires !HasSnapshot(rows, traineeId)
    ensures forall v :: v in LatestPerTrainee(trainees, rows) ==> v.snapshot.traineeId != traineeId
  {
    var view := LatestPerTrainee(trainees, rows);
    forall v | v in view
      ensures v.snapshot.traineeId != traineeId
    {
      var i :| 0 <= i < |view| && view[i] == v;
      assert IsLatestJoin(trainees, rows, view[i]);
      var j :| 0 <= j < |rows| && rows[j] == v.snapshot;
    }
  }

  /** Appending a snapshot whose id is above every existing id makes it the latest
      for its trainee and leaves every other trainee's latest unchanged. */
  lemma {:induction false} LatestAfterAppend(rows: seq<Snapshot>, s: Snapshot, traineeId: int)
    requires IdsIncreasing(rows)
    requires forall i :: 0 <= i < |rows| ==> rows[i].id < s.id
    ensures LatestFor(rows + [s], traineeId) ==
      if traineeId == s.traineeId then Some(s) else LatestFor(rows, traineeId)
  {
    var after := rows + [s];
    assert after[|rows|] == s;
    assert forall i :: 0 <= i < |rows| ==> after[i] == rows[i];
    var r := LatestFor(after, traineeId);
    if traineeId == s.traineeId {
      assert r.value.id >= s.id;
      var k :| 0 <= k < |after| && after[k] == r.value;
    } else {
      var before := LatestFor(rows, traineeId);
      if r.Some? {
        var k :| 0 <= k < |after| && after[k] == r.value;
        assert k < |rows|;
        assert HasSnapshot(rows, traineeId);
        var m :| 0 <= m < |rows| && rows[m] == before.value;
        assert after[m] == before.value;
        assert rows[k].id == rows[m].id;
        if k < m {} else if m < k {}
      }
    }
  }

  /** With increasing ids, a trainee's row whose id is at least every other row's
      of that trainee is the one the query picks. */
  lemma {:induction false} LatestIsMaxIdRow(rows: seq<Snapshot>, s: Snapshot)
    requires IdsIncreasing(rows) && s in rows
    requires forall i :: 0 <= i < |rows| && rows[i].traineeId == s.traineeId ==> rows[i].id <= s.id
    ensures LatestFor(rows, s.traineeId) == Some(s)
  {
    var b :| 0 <= b < |rows| && rows[b] == s;
    var r := LatestFor(rows, s.traineeId);
    var a :| 0 <= a < |rows| && rows[a] == r.value;
    if a < b {} else if b < a {}
  }
}
