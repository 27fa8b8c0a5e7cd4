/** The read side: the current milestone target (server/api.js:316-325) and the
    progress view that the `/milestonestatus/:githubusername` handler assembles
    (server/api.js:291-308). Dates are whole days, written as integers. */
module Milestones {
  import opened Util
  import opened Store

  /** A row of the milestone table: the targets published for one module on `date`. */
  datatype Milestone = Milestone(id: nat, moduleName: string, date: int,
                                 codewarsRank: int, githubPrs: int, codewarsJsPoints: int)

  /** `SELECT MAX(date) FROM milestone`: SQL's `NULL` (`None`) on an empty table. */
  function MaxDate(ms: seq<Milestone>): (r: Option<int>)
    ensures r.None? <==> ms == []
    ensures r.Some? ==>
      && (exists i :: 0 <= i < |ms| && ms[i].date == r.value)
      && forall i :: 0 <= i < |ms| ==> ms[i].date <= r.value
  {
    if ms == [] then None
    else
      var rest := MaxDate(ms[1..]);
      assert forall i :: 1 <= i < |ms| ==> ms[i] == ms[1..][i - 1];
      match rest
      case None => Some(ms[0].date)
      case Some(d) => Some(if ms[0].date >= d then ms[0].date else d)
  }

  /** Selects the milestones published on day `d`. */
  function OnDate(d: int): Milestone -> bool {
    (m: Milestone) => m.date == d
  }

  /** `SELECT * FROM milestone WHERE date = $1`; comparing with `NULL` matches no row. */
  function RowsOnDate(ms: seq<Milestone>, d: Option<int>): seq<Milestone> {
    match d
    case None => []
    case Some(day) => Filter(ms, OnDate(day))
  }

  /** `getLastestCyfMilestone`: the first row dated on the latest date, or `None`
      (`rows[0]` of an empty result is `undefined`) when the table is empty. */
  function LatestCyfMilestone(ms: seq<Milestone>): (r: Option<Milestone>)
    ensures r.None? <==> ms == []
    ensures r.Some? ==> r.value in ms && forall i :: 0 <= i < |ms| ==> ms[i].date <= r.value.date
  {
    var rows := RowsOnDate(ms, MaxDate(ms));
    LatestDateHasRows(ms);
    if rows == [] then None
    else
      FilterMembership(ms, OnDate(MaxDate(ms).value), rows[0]);
      Some(rows[0])
  }

  /** A non-empty table has a row on its latest date. */
  lemma {:induction false} LatestDateHasRows(ms: seq<Milestone>)
    ensures ms != [] ==> RowsOnDate(ms, MaxDate(ms)) != []
  {
    if ms != [] {
      var d := MaxDate(ms).value;
      var i :| 0 <= i < |ms| && ms[i].date == d;
      FilterMembership(ms, OnDate(d), ms[i]);
    }
  }

  /** Publishing a milestone dated after every existing one makes it the current one. */
  lemma {:induction false} LaterMilestoneBecomesCurrent(ms: seq<Milestone>, m: Milestone)
    requires forall i :: 0 <= i < |ms| ==> ms[i].date < m.date
    ensures LatestCyfMilestone(ms + [m]) == Some(m)
  {
    var all := ms + [m];
    assert all[|ms|] == m;
    var d := MaxDate(all);
    assert forall j :: 0 <= j < |ms| ==> all[j] == ms[j];
    assert d == Some(m.date);
    FilterAppend(ms, [m], OnDate(m.date));
    FilterNone(ms, OnDate(m.date));
    assert [m][1..] == [];
  }

  /** The reply of the progress endpoint, `[all, filtered, milestone]`. */
  datatype ProgressView = ProgressView(all: seq<LatestRow>, filtered: seq<LatestRow>, milestone: Option<Milestone>)

  /** Selects the latest rows of the trainee with this platform username. */
  function ByGithubUsername(githubUsername: string): LatestRow -> bool {
    (v: LatestRow) => v.githubUsername == githubUsername
  }

  /** The `/milestonestatus/:githubusername` handler body: every trainee's latest row,
      those of the requested trainee, and the current milestone. */
  function MilestoneStatus(trainees: seq<Trainee>, rows: seq<Snapshot>, milestones: seq<Milestone>,
                           githubUsername: string): (view: ProgressView)
    ensures view.all == LatestPerTrainee(trainees, rows)
    ensures IsSubsequence(view.filtered, view.all)
    ensures forall i :: 0 <= i < |view.filtered| ==> view.filtered[i].githubUsername == githubUsername
    ensures view.milestone == LatestCyfMilestone(milestones)
  {
    var all := LatestPerTrainee(trainees, rows);
    FilterIsSubsequence(all, ByGithubUsername(githubUsername));
    ProgressView(all, Filter(all, ByGithubUsername(githubUsername)), LatestCyfMilestone(milestones))
  }

  /** The filtered list holds exactly the latest rows carrying the requested username. */
  lemma {:induction false} FilteredMembership(trainees: seq<Trainee>, rows: seq<Snapshot>, milestones: seq<Milestone>,
                           githubUsername: string, v: LatestRow)
    ensures var view := MilestoneStatus(trainees, rows, milestones, githubUsername);
      v in view.filtered <==> v in view.all && v.githubUsername == githubUsername
  {
    FilterMembership(LatestPerTrainee(trainees, rows), ByGithubUsername(githubUsername), v);
  }

  /** A username no trainee has gives an empty filtered list; the other two parts
      of the reply do not depend on the username. */
  lemma {:induction false} UnknownUsernameGivesEmpty(trainees: seq<Trainee>, rows: seq<Snapshot>, milestones: seq<Milestone>,
                                  githubUsername: string, other: string)
    requires forall k :: 0 <= k < |trainees| ==> trainees[k].githubUsername != githubUsername
    ensures var view := MilestoneStatus(trainees, rows, milestones, githubUsername);
      var otherView := MilestoneStatus(trainees, rows, milestones, other);
      view.filtered == [] && view.all == otherView.all && view.milestone == otherView.milestone
  {
    var all := LatestPerTrainee(trainees, rows);
    forall i | 0 <= i < |all|
      ensures !ByGithubUsername(githubUsername)(all[i])
    {
      assert IsLatestJoin(trainees, rows, all[i]);
      var k :| 0 <= k < |trainees| && trainees[k].id == all[i].snapshot.traineeId
               && all[i] == Join(trainees[k], all[i].snapshot);
    }
    FilterNone(all, ByGithubUsername(githubUsername));
  }

  /** When exactly one trainee has the username and it has a snapshot, the filtered
      list is that trainee's latest row alone. */
  lemma {:induction false} KnownUsernameGivesItsLatestRow(trainees: seq<Trainee>, rows: seq<Snapshot>, milestones: seq<Milestone>,
                                       githubUsername: string, k: nat)
    requires UniqueIds(trainees) && k < |trainees|
    requires trainees[k].githubUsername == githubUsername
    requires forall j :: 0 <= j < |trainees| && j != k ==> trainees[j].githubUsername != githubUsername
    requires HasSnapshot(rows, trainees[k].id)
    ensures MilestoneStatus(trainees, rows, milestones, githubUsername).filtered
            == [Join(trainees[k], LatestFor(rows, trainees[k].id).value)]
  {
    var all := LatestPerTrainee(trainees, rows);
    var keep := ByGithubUsername(githubUsername);
    var mine := Join(trainees[k], LatestFor(rows, trainees[k].id).value);
    LatestCoversTrainee(trainees, rows, k);
    LatestOnePerTrainee(trainees, rows);
    var m :| 0 <= m < |all| && all[m] == mine;
    forall i | 0 <= i < |all| && i != m
      ensures !keep(all[i])
    {
      assert IsLatestJoin(trainees, rows, all[i]);
      var j :| 0 <= j < |trainees| && trainees[j].id == all[i].snapshot.traineeId
               && all[i] == Join(trainees[j], all[i].snapshot);
      assert all[i].snapshot.traineeId != all[m].snapshot.traineeId by {
        if i < m {} else {}
      }
      assert j != k;
    }
    FilterSingle(all, keep, m);
  }
}
