/**
 * The submission gates of the 360 assessment application: a self, peer or line
 * manager assessment is checked against the stored rows and either rejected,
 * leaving the store as it was, or appended as exactly one new row.
 *
 * The clock is a parameter: `now` is the text of the current date and time.
 */
module Submission {

  import opened Catalog
  import opened Records
  import opened Aggregator
  import opened Wrappers

  /** Why a submission was turned away. */
  datatype Rejection = SelfAlreadySubmitted | AlreadyRated

  /** `sub` occurs in `s` starting at position i. */
  predicate OccursAt(s: string, sub: string, i: int)
  {
    0 <= i <= |s| - |sub| && s[i..i + |sub|] == sub
  }

  /** `sub` occurs somewhere in `s` as a contiguous piece. */
  predicate Contains(s: string, sub: string)
  {
    exists i :: 0 <= i <= |s| - |sub| && OccursAt(s, sub, i)
  }

  /** The timestamp a peer or manager row records: `f"{now}_{rater}"`. */
  function RaterStamp(now: string, rater: string): string
  {
    now + "_" + rater
  }

  /** Some row about `ratee` with this role has the rater's name somewhere in its
      timestamp: the duplicate test of the peer and manager forms. */
  predicate RatedBy(rows: seq<Row>, ratee: string, role: Role, rater: string)
  {
    exists i :: 0 <= i < |rows| && rows[i].userId == ratee && rows[i].role == role
                && Contains(rows[i].timestamp, rater)
  }

  /** The self-assessment form: rejected when the person already has a self row,
      otherwise the store with the new self row appended. */
  function SubmitSelf(rows: seq<Row>, user: string, now: string, picks: map<string, Tier>)
    : (r: Result<seq<Row>, Rejection>)
    requires CompetencySet() <= picks.Keys
    ensures r.Failure? <==> HasRow(rows, user, Self)
    ensures r.Failure? ==> r.error == SelfAlreadySubmitted
    ensures r.Success? ==> r.value == rows + [Row(user, now, Self, ScoreSheet(picks))]
  {
    if HasRow(rows, user, Self) then Failure(SelfAlreadySubmitted)
    else Success(rows + [Row(user, now, Self, ScoreSheet(picks))])
  }

  /** The gate shared by the peer and line-manager forms: rejected when a row
      about the ratee with this role names the rater in its timestamp, otherwise
      the store with one row appended whose timestamp ends in "_" and the rater. */
  function SubmitRated(rows: seq<Row>, ratee: string, rater: string, role: Role, now: string,
                       picks: map<string, Tier>): (r: Result<seq<Row>, Rejection>)
    requires CompetencySet() <= picks.Keys
    ensures r.Failure? <==> RatedBy(rows, ratee, role, rater)
    ensures r.Failure? ==> r.error == AlreadyRated
    ensures r.Success? ==> r.value == rows + [Row(ratee, RaterStamp(now, rater), role, ScoreSheet(picks))]
  {
    if RatedBy(rows, ratee, role, rater) then Failure(AlreadyRated)
    else Success(rows + [Row(ratee, RaterStamp(now, rater), role, ScoreSheet(picks))])
  }

  /** The peer-assessment form. */
  function SubmitPeer(rows: seq<Row>, ratee: string, rater: string, now: string, picks: map<string, Tier>)
    : (r: Result<seq<Row>, Rejection>)
    requires CompetencySet() <= picks.Keys
    ensures r.Failure? <==> RatedBy(rows, ratee, Peer, rater)
    ensures r.Success? ==> |r.value| == |rows| + 1 && r.value[..|rows|] == rows
    ensures r.Success? ==> CountRole(r.value, ratee, Peer) == CountRole(rows, ratee, Peer) + 1
    ensures r.Success? ==> r.value[|rows|] == Row(ratee, RaterStamp(now, rater), Peer, ScoreSheet(picks))
  {
    var r := SubmitRated(rows, ratee, rater, Peer, now, picks);
    if r.Success? then CountAppend(rows, r.value[|rows|], ratee, Peer); r else r
  }

  /** The line-manager form. */
  function SubmitManager(rows: seq<Row>, ratee: string, rater: string, now: string, picks: map<string, Tier>)
    : (r: Result<seq<Row>, Rejection>)
    requires CompetencySet() <= picks.Keys
    ensures r.Failure? <==> RatedBy(rows, ratee, Manager, rater)
    ensures r.Success? ==> |r.value| == |rows| + 1 && r.value[..|rows|] == rows
    ensures r.Success? ==> CountRole(r.value, ratee, Manager) == CountRole(rows, ratee, Manager) + 1
    ensures r.Success? ==> r.value[|rows|] == Row(ratee, RaterStamp(now, rater), Manager, ScoreSheet(picks))
  {
    var r := SubmitRated(rows, ratee, rater, Manager, now, picks);
    if r.Success? then CountAppend(rows, r.value[|rows|], ratee, Manager); r else r
  }

  /** What the peer form reports after saving: three or more peer reviews of the
      ratee are on file. */
  predicate PeerReviewsComplete(rows: seq<Row>, ratee: string)
  {
    CountRole(rows, ratee, Peer) >= 3
  }

  lemma CountAppend(rows: seq<Row>, r: Row, user: string, role: Role)
    ensures CountRole(rows + [r], user, role)
         == CountRole(rows, user, role) + (if r.userId == user && r.role == role then 1 else 0)
  {
    assert (rows + [r])[..|rows|] == rows;
  }

  /** A second self assessment for the same person is always rejected. */
  lemma SelfSubmitTwice(rows: seq<Row>, user: string, now: string, picks: map<string, Tier>,
                        now': string, picks': map<string, Tier>)
    requires CompetencySet() <= picks.Keys && CompetencySet() <= picks'.Keys
    requires SubmitSelf(rows, user, now, picks).Success?
    ensures SubmitSelf(SubmitSelf(rows, user, now, picks).value, user, now', picks')
         == Failure(SelfAlreadySubmitted)
  {
    var rows' := SubmitSelf(rows, user, now, picks).value;
    assert rows'[|rows|].userId == user && rows'[|rows|].role == Self;
  }

  /** Nobody has more than one self row. */
  ghost predicate OneSelfRowEach(rows: seq<Row>)
  {
    forall u :: CountRole(rows, u, Self) <= 1
  }

  /** Every accepted submission keeps each person at no more than one self row. */
  lemma SubmissionsKeepOneSelfRow(rows: seq<Row>, user: string, rater: string, role: Role, now: string,
                                  picks: map<string, Tier>)
    requires CompetencySet() <= picks.Keys
    requires OneSelfRowEach(rows)
    ensures SubmitSelf(rows, user, now, picks).Success? ==>
              OneSelfRowEach(SubmitSelf(rows, user, now, picks).value)
    ensures role != Self && SubmitRated(rows, user, rater, role, now, picks).Success? ==>
              OneSelfRowEach(SubmitRated(rows, user, rater, role, now, picks).value)
  {
    var row := Row(user, now, Self, ScoreSheet(picks));
    if SubmitSelf(rows, user, now, picks).Success? {
      forall u
        ensures CountRole(rows + [row], u, Self) <= 1
      {
        CountAppend(rows, row, u, Self);
        HasRowCounted(rows, u, Self);
      }
    }
    var rated := Row(user, RaterStamp(now, rater), role, ScoreSheet(picks));
    if role != Self {
      forall u
        ensures CountRole(rows + [rated], u, Self) <= 1
      {
        CountAppend(rows, rated, u, Self);
      }
    }
  }

  /** Every accepted submission keeps all stored scores on the rating scale. */
  lemma SubmissionsKeepStoreValid(rows: seq<Row>, user: string, rater: string, role: Role, now: string,
                                  picks: map<string, Tier>)
    requires CompetencySet() <= picks.Keys
    requires ValidStore(rows)
    ensures SubmitSelf(rows, user, now, picks).Success? ==>
              var s := SubmitSelf(rows, user, now, picks).value; ValidStore(s) && Complete(s)
    ensures SubmitRated(rows, user, rater, role, now, picks).Success? ==>
              var s := SubmitRated(rows, user, rater, role, now, picks).value; ValidStore(s) && Complete(s)
  {
  }

  /** A timestamp written for a rater contains the rater's name. */
  lemma StampNamesRater(now: string, rater: string)
    ensures Contains(RaterStamp(now, rater), rater)
  {
    var s := RaterStamp(now, rater);
    assert OccursAt(s, rater, |now| + 1);
  }

  /** A piece of a piece of `s` is a piece of `s`. */
  lemma ContainsTransitive(s: string, t: string, u: string)
    requires Contains(s, t) && Contains(t, u)
    ensures Contains(s, u)
  {
    var i :| 0 <= i <= |s| - |t| && OccursAt(s, t, i);
    var j :| 0 <= j <= |t| - |u| && OccursAt(t, u, j);
    forall k | 0 <= k < |u|
      ensures s[i + j..i + j + |u|][k] == u[k]
    {
      assert s[i + j + k] == s[i..i + |t|][j + k];
    }
    assert s[i + j..i + j + |u|] == u;
    assert OccursAt(s, u, i + j);
  }

  /** Once a rater's submission is accepted, any later submission about the same
      ratee and role by anyone whose name occurs in that row's timestamp is
      rejected: this covers the same rater again, a rater whose name is part of
      the earlier rater's name, and one whose name occurs in the date and time. */
  lemma LaterRaterInStampRejected(rows: seq<Row>, ratee: string, rater: string, role: Role, now: string,
                                  picks: map<string, Tier>, rater': string, now': string,
                                  picks': map<string, Tier>)
    requires CompetencySet() <= picks.Keys && CompetencySet() <= picks'.Keys
    requires SubmitRated(rows, ratee, rater, role, now, picks).Success?
    requires Contains(RaterStamp(now, rater), rater')
    ensures SubmitRated(SubmitRated(rows, ratee, rater, role, now, picks).value,
                        ratee, rater', role, now', picks') == Failure(AlreadyRated)
  {
    var rows' := SubmitRated(rows, ratee, rater, role, now, picks).value;
    assert rows'[|rows|].timestamp == RaterStamp(now, rater);
    assert RatedBy(rows', ratee, role, rater');
  }

  /** The same rater rating the same person in the same role again is rejected. */
  lemma RepeatRaterRejected(rows: seq<Row>, ratee: string, rater: string, role: Role, now: string,
                            picks: map<string, Tier>, now': string, picks': map<string, Tier>)
    requires CompetencySet() <= picks.Keys && CompetencySet() <= picks'.Keys
    requires SubmitRated(rows, ratee, rater, role, now, picks).Success?
    ensures SubmitRated(SubmitRated(rows, ratee, rater, role, now, picks).value,
                        ratee, rater, role, now', picks') == Failure(AlreadyRated)
  {
    StampNamesRater(now, rater);
    LaterRaterInStampRejected(rows, ratee, rater, role, now, picks, rater, now', picks');
  }

  /** A rater whose name is part of an earlier rater's name is rejected too, even
      though they never rated this person. */
  lemma SubstringRaterRejected(rows: seq<Row>, ratee: string, rater: string, role: Role, now: string,
                               picks: map<string, Tier>, rater': string, now': string,
                               picks': map<string, Tier>)
    requires CompetencySet() <= picks.Keys && CompetencySet() <= picks'.Keys
    requires SubmitRated(rows, ratee, rater, role, now, picks).Success?
    requires Contains(rater, rater')
    ensures SubmitRated(SubmitRated(rows, ratee, rater, role, now, picks).value,
                        ratee, rater', role, now', picks') == Failure(AlreadyRated)
  {
    StampNamesRater(now, rater);
    ContainsTransitive(RaterStamp(now, rater), rater, rater');
    LaterRaterInStampRejected(rows, ratee, rater, role, now, picks, rater', now', picks');
  }

  /** Duplicates are judged per role: rating someone as a peer does not stop the
      same person from rating them as their line manager. */
  lemma PeerDoesNotBlockManager(rows: seq<Row>, ratee: string, rater: string, now: string,
                                picks: map<string, Tier>, now': string, picks': map<string, Tier>)
    requires CompetencySet() <= picks.Keys && CompetencySet() <= picks'.Keys
    requires SubmitPeer(rows, ratee, rater, now, picks).Success?
    requires !RatedBy(rows, ratee, Manager, rater)
    ensures SubmitManager(SubmitPeer(rows, ratee, rater, now, picks).value, ratee, rater, now', picks').Success?
  {
  }

  /** Saving a third peer review is announced as completion, yet a person with a
      self row and three peer rows has four rows, so their report is empty. */
  lemma PeerCompletionMeansNoReport(f: Frame, ratee: string)
    requires Complete(f.rows)
    requires HasRow(f.rows, ratee, Self)
    requires PeerReviewsComplete(f.rows, ratee)
    ensures |Select(f.rows, ratee)| >= 4
    ensures AggregateScores(f, ratee) == map[]
  {
    HasRowCounted(f.rows, ratee, Self);
    SelectPoolsRoles(f.rows, ratee);
    var r := AggregateScores(f, ratee);
    forall c | c in r
      ensures false
    {
      AllOrNothing(f, ratee, c);
    }
  }

  /** Nothing about a person yet means none of their gates is closed. */
  lemma NoRowsNoDuplicates(rows: seq<Row>, user: string, role: Role, rater: string)
    requires |Select(rows, user)| == 0
    ensures !HasRow(rows, user, role)
    ensures !RatedBy(rows, user, role, rater)
  {
  }

  /** Appending a row of another role leaves a rater's gate for this role as it
      was. */
  lemma AppendOtherRoleKeepsGateOpen(rows: seq<Row>, r: Row, user: string, role: Role, rater: string)
    requires r.role != role
    ensures RatedBy(rows + [r], user, role, rater) == RatedBy(rows, user, role, rater)
  {
    var rows' := rows + [r];
    if RatedBy(rows', user, role, rater) {
      var i :| 0 <= i < |rows'| && rows'[i].userId == user && rows'[i].role == role
               && Contains(rows'[i].timestamp, rater);
      assert rows[i] == rows'[i];
    }
    if RatedBy(rows, user, role, rater) {
      var i :| 0 <= i < |rows| && rows[i].userId == user && rows[i].role == role
               && Contains(rows[i].timestamp, rater);
      assert rows'[i] == rows[i];
    }
  }

  /** A report over exactly three rows grades every competency by the total of
      those rows' scores for it. */
  lemma ReportOfThreeRows(f: Frame, user: string, a: Row, b: Row, c: Row)
    requires "user_id" in f.columns
    requires Complete(f.rows)
    requires Select(f.rows, user) == [a, b, c]
    ensures CompetencySet() <= a.scores.Keys && CompetencySet() <= b.scores.Keys
    ensures CompetencySet() <= c.scores.Keys
    ensures AggregateScores(f, user).Keys == CompetencySet()
    ensures forall comp :: comp in CompetencySet() ==>
              NearestHundredth(a.scores[comp] + b.scores[comp] + c.scores[comp],
                               AggregateScores(f, user)[comp].percent)
  {
    SelectMembers(f.rows, user);
    assert a in f.rows && b in f.rows && c in f.rows;
    var report := AggregateScores(f, user);
    forall comp | comp in CompetencySet()
      ensures comp in report
      ensures NearestHundredth(a.scores[comp] + b.scores[comp] + c.scores[comp], report[comp].percent)
    {
      var xs := Scores(f.rows, user, comp);
      assert xs == [a.scores[comp], b.scores[comp], c.scores[comp]];
      assert xs[..2][..1][..0] == [];
      assert Sum(xs[..2][..1]) == a.scores[comp];
      assert Sum(xs[..2]) == a.scores[comp] + b.scores[comp];
    }
  }

  /** One round of assessments for a person: their self assessment, then one
      peer's, then one line manager's, stopping at the first rejection. */
  function Round(rows: seq<Row>, ratee: string, peer: string, manager: string,
                 t1: string, t2: string, t3: string, self: map<string, Tier>,
                 peerPicks: map<string, Tier>, managerPicks: map<string, Tier>): Result<seq<Row>, Rejection>
    requires CompetencySet() <= self.Keys && CompetencySet() <= peerPicks.Keys
    requires CompetencySet() <= managerPicks.Keys
  {
    match SubmitSelf(rows, ratee, t1, self)
    case Failure(e) => Failure(e)
    case Success(s1) =>
      match SubmitPeer(s1, ratee, peer, t2, peerPicks)
      case Failure(e) => Failure(e)
      case Success(s2) => SubmitManager(s2, ratee, manager, t3, managerPicks)
  }

  /** The rows one round appends, given that each of its submissions is accepted. */
  lemma RoundRows(rows: seq<Row>, ratee: string, peer: string, manager: string,
                  t1: string, t2: string, t3: string, self: map<string, Tier>,
                  peerPicks: map<string, Tier>, managerPicks: map<string, Tier>)
    requires |Select(rows, ratee)| == 0
    requires CompetencySet() <= self.Keys && CompetencySet() <= peerPicks.Keys
    requires CompetencySet() <= managerPicks.Keys
    ensures Round(rows, ratee, peer, manager, t1, t2, t3, self, peerPicks, managerPicks)
         == Success(rows + [Row(ratee, t1, Self, ScoreSheet(self)),
                            Row(ratee, RaterStamp(t2, peer), Peer, ScoreSheet(peerPicks)),
                            Row(ratee, RaterStamp(t3, manager), Manager, ScoreSheet(managerPicks))])
  {
    NoRowsNoDuplicates(rows, ratee, Self, "");
    NoRowsNoDuplicates(rows, ratee, Peer, peer);
    NoRowsNoDuplicates(rows, ratee, Manager, manager);
    var a := Row(ratee, t1, Self, ScoreSheet(self));
    var s1 := rows + [a];
    assert SubmitSelf(rows, ratee, t1, self) == Success(s1);
    AppendOtherRoleKeepsGateOpen(rows, a, ratee, Peer, peer);
    var b := Row(ratee, RaterStamp(t2, peer), Peer, ScoreSheet(peerPicks));
    var s2 := s1 + [b];
    assert SubmitPeer(s1, ratee, peer, t2, peerPicks) == Success(s2);
    AppendOtherRoleKeepsGateOpen(rows, a, ratee, Manager, manager);
    AppendOtherRoleKeepsGateOpen(s1, b, ratee, Manager, manager);
    var c := Row(ratee, RaterStamp(t3, manager), Manager, ScoreSheet(managerPicks));
    assert SubmitManager(s2, ratee, manager, t3, managerPicks) == Success(s2 + [c]);
    assert s2 + [c] == rows + [a, b, c];
  }

  /** Three rows about a person appended to a store holding none are exactly
      what selecting that person finds. */
  lemma SelectThreeAppended(rows: seq<Row>, user: string, a: Row, b: Row, c: Row)
    requires |Select(rows, user)| == 0
    requires a.userId == user && b.userId == user && c.userId == user
    ensures Select(rows + [a, b, c], user) == [a, b, c]
  {
    SelectAllAbout(rows, [a, b, c], user);
  }

  /** Rows about a person appended to a store holding none about them are
      exactly what selecting that person finds. */
  lemma {:induction false} SelectAllAbout(rows: seq<Row>, more: seq<Row>, user: string)
    requires |Select(rows, user)| == 0
    requires forall i :: 0 <= i < |more| ==> more[i].userId == user
    ensures Select(rows + more, user) == more
    decreases |more|
  {
    if more == [] {
      assert rows + more == rows;
    } else {
      var init := more[..|more| - 1];
      var last := more[|more| - 1];
      SelectAllAbout(rows, init, user);
      assert rows + more == (rows + init) + [last];
      SelectAppend(rows + init, last, user);
      assert init + [last] == more;
    }
  }

  /** Appending rows that carry every competency keeps a store complete. */
  lemma CompleteAppendThree(rows: seq<Row>, a: Row, b: Row, c: Row)
    requires Complete(rows)
    requires CompetencySet() <= a.scores.Keys && CompetencySet() <= b.scores.Keys
    requires CompetencySet() <= c.scores.Keys
    ensures Complete(rows + [a, b, c])
  {
    forall r | r in rows + [a, b, c]
      ensures CompetencySet() <= r.scores.Keys
    {
      if r !in rows {
        assert r in [a, b, c];
      }
    }
  }

  /** The report over a person's self, peer and manager rows appended to a
      store that held none about them. */
  lemma ReportOfRound(cols: set<string>, rows: seq<Row>, ratee: string, peer: string,
                      manager: string, t1: string, t2: string, t3: string,
                      self: map<string, Tier>, peerPicks: map<string, Tier>,
                      managerPicks: map<string, Tier>)
    requires "user_id" in cols
    requires Complete(rows)
    requires |Select(rows, ratee)| == 0
    requires CompetencySet() <= self.Keys && CompetencySet() <= peerPicks.Keys
    requires CompetencySet() <= managerPicks.Keys
    ensures var s := rows + [Row(ratee, t1, Self, ScoreSheet(self)),
                             Row(ratee, RaterStamp(t2, peer), Peer, ScoreSheet(peerPicks)),
                             Row(ratee, RaterStamp(t3, manager), Manager, ScoreSheet(managerPicks))];
            Complete(s) &&
            var report := AggregateScores(Frame(cols, s), ratee);
            && report.Keys == CompetencySet()
            && forall c :: c in CompetencySet() ==>
                 NearestHundredth(Rank(self[c]) + Rank(peerPicks[c]) + Rank(managerPicks[c]), report[c].percent)
  {
    var a := Row(ratee, t1, Self, ScoreSheet(self));
    var b := Row(ratee, RaterStamp(t2, peer), Peer, ScoreSheet(peerPicks));
    var c := Row(ratee, RaterStamp(t3, manager), Manager, ScoreSheet(managerPicks));
    var s := rows + [a, b, c];
    CompleteAppendThree(rows, a, b, c);
    SelectThreeAppended(rows, ratee, a, b, c);
    ReportOfThreeRows(Frame(cols, s), ratee, a, b, c);
    var report := AggregateScores(Frame(cols, s), ratee);
    forall comp | comp in CompetencySet()
      ensures NearestHundredth(Rank(self[comp]) + Rank(peerPicks[comp]) + Rank(managerPicks[comp]),
                               report[comp].percent)
    {
      assert a.scores[comp] == Rank(self[comp]);
      assert b.scores[comp] == Rank(peerPicks[comp]);
      assert c.scores[comp] == Rank(managerPicks[comp]);
    }
  }

  /** The intended cycle: starting with no rows about a person, their self, peer
      and line-manager submissions are all accepted, and the report then grades
      every competency by the total of the three ratings given for it. */
  lemma RoundGivesReport(cols: set<string>, rows: seq<Row>, ratee: string, peer: string,
                         manager: string, t1: string, t2: string, t3: string,
                         self: map<string, Tier>, peerPicks: map<string, Tier>,
                         managerPicks: map<string, Tier>)
    requires "user_id" in cols
    requires Complete(rows)
    requires |Select(rows, ratee)| == 0
    requires CompetencySet() <= self.Keys && CompetencySet() <= peerPicks.Keys
    requires CompetencySet() <= managerPicks.Keys
    ensures Round(rows, ratee, peer, manager, t1, t2, t3, self, peerPicks, managerPicks).Success?
    ensures var s := Round(rows, ratee, peer, manager, t1, t2, t3, self, peerPicks, managerPicks).value;
            Complete(s) &&
            var report := AggregateScores(Frame(cols, s), ratee);
            && report.Keys == CompetencySet()
            && forall c :: c in CompetencySet() ==>
                 NearestHundredth(Rank(self[c]) + Rank(peerPicks[c]) + Rank(managerPicks[c]), report[c].percent)
  {
    RoundRows(rows, ratee, peer, manager, t1, t2, t3, self, peerPicks, managerPicks);
    ReportOfRound(cols, rows, ratee, peer, manager, t1, t2, t3, self, peerPicks, managerPicks);
  }
}
