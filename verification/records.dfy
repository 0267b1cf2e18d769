/**
 * The assessments file of the 360 assessment application, held in memory: one
 * row per accepted submission, appended in order and never changed.
 */
module Records {

  import opened Catalog

  /** Who filled in a submission, relative to the person assessed. */
  datatype Role = Self | Peer | Manager

  /** The value stored in the `role` column. */
  function RoleName(r: Role): string
  {
    match r
    case Self => "self"
    case Peer => "peer"
    case Manager => "manager"
  }

  /** One line of the assessments file: the person assessed (`user_id`), the
      `timestamp` column, the role, and one score column per competency. */
  datatype Row = Row(userId: string, timestamp: string, role: Role, scores: map<string, int>)

  /** The three role values are written as three different strings, so the
      source's string comparisons on the `role` column are comparisons of roles. */
  lemma RoleNamesDistinct(a: Role, b: Role)
    ensures RoleName(a) == RoleName(b) <==> a == b
  {
  }

  /** A loaded assessments file: its header's column names and its rows. */
  datatype Frame = Frame(columns: set<string>, rows: seq<Row>)

  /** The header the application writes when it creates the file: the person,
      the time and the role first, then one column per competency. */
  function Header(): (h: seq<string>)
    ensures "user_id" in h
    ensures forall c :: c in CompetencySet() ==> c in h
  {
    ["user_id", "timestamp", "role"] + Competencies()
  }

  /** The assessments file as the application creates it when it is missing,
      with rows appended after the header. */
  function CreatedFile(rows: seq<Row>): Frame
  {
    Frame((set c | c in Header()), rows)
  }

  /** Every row carries a score for every competency column. */
  predicate Complete(rows: seq<Row>)
  {
    forall r :: r in rows ==> CompetencySet() <= r.scores.Keys
  }

  /** A score sheet rates every competency with a value of the rating scale. */
  predicate ValidScores(scores: map<string, int>)
  {
    && CompetencySet() <= scores.Keys
    && forall c :: c in CompetencySet() ==> 1 <= scores[c] <= 5
  }

  /** Every row of the store has a valid score sheet. */
  predicate ValidStore(rows: seq<Row>)
  {
    forall r :: r in rows ==> ValidScores(r.scores)
  }

  /** The score sheet an assessment form produces: for each competency, the
      rating-scale value of the label picked in its select box. */
  function ScoreSheet(picks: map<string, Tier>): (scores: map<string, int>)
    requires CompetencySet() <= picks.Keys
    ensures ValidScores(scores)
    ensures scores.Keys == CompetencySet()
    ensures forall c :: c in CompetencySet() ==> scores[c] == Rank(picks[c])
  {
    RatingsBijection();
    map c | c in CompetencySet() :: Ratings()[Label(picks[c])]
  }

  /** The rows about one person, in file order: `df[df['user_id'] == user]`. */
  function Select(rows: seq<Row>, user: string): seq<Row>
  {
    if rows == [] then []
    else
      var last := rows[|rows| - 1];
      Select(rows[..|rows| - 1], user) + (if last.userId == user then [last] else [])
  }

  /** One competency's column of a list of rows: `subset[comp].tolist()`. */
  function Column(rows: seq<Row>, comp: string): (col: seq<int>)
    requires forall i :: 0 <= i < |rows| ==> comp in rows[i].scores
    ensures |col| == |rows|
    ensures forall i :: 0 <= i < |rows| ==> col[i] == rows[i].scores[comp]
  {
    seq(|rows|, i requires 0 <= i < |rows| => rows[i].scores[comp])
  }

  /** How many rows carry the given person and role. */
  function CountRole(rows: seq<Row>, user: string, role: Role): nat
  {
    if rows == [] then 0
    else
      var last := rows[|rows| - 1];
      CountRole(rows[..|rows| - 1], user, role) + (if last.userId == user && last.role == role then 1 else 0)
  }

  /** Some row carries the given person and role. */
  predicate HasRow(rows: seq<Row>, user: string, role: Role)
  {
    exists i :: 0 <= i < |rows| && rows[i].userId == user && rows[i].role == role
  }

  /** Selection keeps exactly the rows about the person selected. */
  lemma {:induction false} SelectMembers(rows: seq<Row>, user: string)
    ensures forall r :: r in Select(rows, user) <==> r in rows && r.userId == user
    decreases |rows|
  {
    if rows != [] {
      var init := rows[..|rows| - 1];
      SelectMembers(init, user);
      assert rows == init + [rows[|rows| - 1]];
    }
  }

  /** Selection keeps each row about the person as many times as the store
      holds it, and no other row. */
  lemma {:induction false} SelectCounts(rows: seq<Row>, user: string)
    ensures forall r :: multiset(Select(rows, user))[r]
                     == if r.userId == user then multiset(rows)[r] else 0
    decreases |rows|
  {
    if rows != [] {
      var init := rows[..|rows| - 1];
      SelectCounts(init, user);
      assert rows == init + [rows[|rows| - 1]];
    }
  }

  /** The rows selected from a complete or valid store are complete or valid. */
  lemma SelectKeeps(rows: seq<Row>, user: string)
    ensures Complete(rows) ==> Complete(Select(rows, user))
    ensures ValidStore(rows) ==> ValidStore(Select(rows, user))
  {
    SelectMembers(rows, user);
  }

  /** Selecting from a store with one more row adds that row when it is about the
      person selected. */
  lemma SelectAppend(rows: seq<Row>, r: Row, user: string)
    ensures Select(rows + [r], user) == Select(rows, user) + (if r.userId == user then [r] else [])
  {
    assert (rows + [r])[..|rows|] == rows;
  }

  /** Appending rows never removes a selected row: a person's selection before
      the append is a prefix of their selection after it, so its count can only
      grow. */
  lemma {:induction false} SelectGrows(rows: seq<Row>, more: seq<Row>, user: string)
    ensures Select(rows, user) <= Select(rows + more, user)
    ensures |Select(rows, user)| <= |Select(rows + more, user)|
    decreases |more|
  {
    if more == [] {
      assert rows + more == rows;
    } else {
      var init := more[..|more| - 1];
      var last := more[|more| - 1];
      assert rows + more == (rows + init) + [last];
      SelectGrows(rows, init, user);
      SelectAppend(rows + init, last, user);
    }
  }

  /** Selection is role-agnostic: a person's selected rows are exactly their
      self, peer and manager rows together. */
  lemma {:induction false} SelectPoolsRoles(rows: seq<Row>, user: string)
    ensures |Select(rows, user)|
         == CountRole(rows, user, Self) + CountRole(rows, user, Peer) + CountRole(rows, user, Manager)
    decreases |rows|
  {
    if rows != [] {
      SelectPoolsRoles(rows[..|rows| - 1], user);
    }
  }

  /** HasRow and CountRole agree. */
  lemma {:induction false} HasRowCounted(rows: seq<Row>, user: string, role: Role)
    ensures HasRow(rows, user, role) <==> CountRole(rows, user, role) > 0
    decreases |rows|
  {
    if rows != [] {
      var init := rows[..|rows| - 1];
      HasRowCounted(init, user, role);
      if HasRow(init, user, role) {
        var i :| 0 <= i < |init| && init[i].userId == user && init[i].role == role;
        assert rows[i] == init[i];
      }
      if HasRow(rows, user, role) && !HasRow(init, user, role) {
        var i :| 0 <= i < |rows| && rows[i].userId == user && rows[i].role == role;
        if i < |init| {
          assert init[i] == rows[i];
        }
      }
    }
  }
}
