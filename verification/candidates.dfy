/**
 * The list of people who can be assessed or reported on:
 * `df[df['role'] == 'self']['user_id'].unique()`, the distinct people with a
 * self row, in the order their first self row appears.
 */
module Candidates {

  import opened Catalog
  import opened Records
  import opened Submission

  /** The `user_id` of every self row, in file order. */
  function SelfIds(rows: seq<Row>): seq<string>
  {
    if rows == [] then []
    else
      var last := rows[|rows| - 1];
      SelfIds(rows[..|rows| - 1]) + (if last.role == Self then [last.userId] else [])
  }

  /** The values of `xs` without repeats, each kept where it first occurs. */
  function Unique(xs: seq<string>): seq<string>
  {
    if xs == [] then []
    else
      var seen := Unique(xs[..|xs| - 1]);
      var x := xs[|xs| - 1];
      if x in seen then seen else seen + [x]
  }

  /** The people offered to a peer or line manager and listed for the report. */
  function CandidateList(rows: seq<Row>): seq<string>
  {
    Unique(SelfIds(rows))
  }

  /** The position where `x` first occurs in `xs`. */
  function FirstIndex(xs: seq<string>, x: string): (i: nat)
    requires x in xs
    ensures i < |xs| && xs[i] == x
    ensures forall j :: 0 <= j < i ==> xs[j] != x
  {
    if xs[0] == x then 0 else 1 + FirstIndex(xs[1..], x)
  }

  /** A value's first position is unchanged by appending to the sequence. */
  lemma FirstIndexAppend(xs: seq<string>, x: string, y: string)
    requires y in xs
    ensures FirstIndex(xs + [x], y) == FirstIndex(xs, y)
  {
    var i := FirstIndex(xs + [x], y);
    var k := FirstIndex(xs, y);
    assert (xs + [x])[k] == y;
  }

  /** Unique keeps every value and invents none. */
  lemma {:induction false} UniqueMembers(xs: seq<string>)
    ensures forall x :: x in Unique(xs) <==> x in xs
    decreases |xs|
  {
    if xs != [] {
      var init := xs[..|xs| - 1];
      UniqueMembers(init);
      assert xs == init + [xs[|xs| - 1]];
    }
  }

  /** Unique lists each value once. */
  lemma {:induction false} UniqueDistinct(xs: seq<string>)
    ensures forall i, j :: 0 <= i < j < |Unique(xs)| ==> Unique(xs)[i] != Unique(xs)[j]
    decreases |xs|
  {
    if xs != [] {
      UniqueDistinct(xs[..|xs| - 1]);
    }
  }

  /** A value missing from a sequence first occurs where it is appended. */
  lemma FirstIndexOfAppended(xs: seq<string>, x: string)
    requires x !in xs
    ensures FirstIndex(xs + [x], x) == |xs|
  {
  }

  /** Unique lists values in the order of their first occurrence. */
  lemma {:induction false} UniqueFirstOccurrenceOrder(xs: seq<string>)
    ensures forall x :: x in Unique(xs) ==> x in xs
    ensures forall i, j :: 0 <= i < j < |Unique(xs)| ==>
              FirstIndex(xs, Unique(xs)[i]) < FirstIndex(xs, Unique(xs)[j])
    decreases |xs|
  {
    UniqueMembers(xs);
    if xs != [] {
      var init := xs[..|xs| - 1];
      var x := xs[|xs| - 1];
      assert xs == init + [x];
      var seen := Unique(init);
      var u := Unique(xs);
      UniqueMembers(init);
      UniqueFirstOccurrenceOrder(init);
      if x in seen {
        assert u == seen;
        forall i, j | 0 <= i < j < |u|
          ensures FirstIndex(xs, u[i]) < FirstIndex(xs, u[j])
        {
          FirstIndexAppend(init, x, seen[i]);
          FirstIndexAppend(init, x, seen[j]);
        }
      } else {
        assert u == seen + [x];
        FirstIndexOfAppended(init, x);
        forall i, j | 0 <= i < j < |u|
          ensures FirstIndex(xs, u[i]) < FirstIndex(xs, u[j])
        {
          assert u[i] == seen[i];
          FirstIndexAppend(init, x, seen[i]);
          if j < |seen| {
            assert u[j] == seen[j];
            FirstIndexAppend(init, x, seen[j]);
          }
        }
      }
    }
  }

  /** The self rows' ids are exactly the people with a self row. */
  lemma {:induction false} SelfIdsMembers(rows: seq<Row>, user: string)
    ensures user in SelfIds(rows) <==> HasRow(rows, user, Self)
    decreases |rows|
  {
    if rows != [] {
      var init := rows[..|rows| - 1];
      SelfIdsMembers(init, user);
      if HasRow(init, user, Self) {
        var i :| 0 <= i < |init| && init[i].userId == user && init[i].role == Self;
        assert rows[i] == init[i];
      }
    }
  }

  /** The candidate list names each person with a self row exactly once, in the
      order of their first self row, and nobody else. */
  lemma CandidateListSpec(rows: seq<Row>)
    ensures forall u :: u in CandidateList(rows) ==> u in SelfIds(rows)
    ensures forall u :: u in CandidateList(rows) <==> HasRow(rows, u, Self)
    ensures forall i, j :: 0 <= i < j < |CandidateList(rows)| ==> CandidateList(rows)[i] != CandidateList(rows)[j]
    ensures forall i, j :: 0 <= i < j < |CandidateList(rows)| ==>
              FirstIndex(SelfIds(rows), CandidateList(rows)[i]) < FirstIndex(SelfIds(rows), CandidateList(rows)[j])
  {
    UniqueMembers(SelfIds(rows));
    UniqueDistinct(SelfIds(rows));
    UniqueFirstOccurrenceOrder(SelfIds(rows));
    forall u
      ensures u in CandidateList(rows) <==> HasRow(rows, u, Self)
    {
      SelfIdsMembers(rows, u);
    }
  }

  /** An accepted self assessment puts its author on the candidate list, after
      everyone who was already there. */
  lemma SelfSubmissionAddsCandidate(rows: seq<Row>, user: string, now: string, picks: map<string, Tier>)
    requires CompetencySet() <= picks.Keys
    requires SubmitSelf(rows, user, now, picks).Success?
    ensures CandidateList(SubmitSelf(rows, user, now, picks).value) == CandidateList(rows) + [user]
  {
    var row := Row(user, now, Self, ScoreSheet(picks));
    var rows' := rows + [row];
    assert rows'[..|rows|] == rows;
    assert SelfIds(rows') == SelfIds(rows) + [user];
    SelfIdsMembers(rows, user);
    UniqueMembers(SelfIds(rows));
  }
}
