/**
 * The aggregator of the 360 assessment application (aggregate_scores): for one
 * person, pool every stored row about them and, per competency, turn exactly
 * three scores into a percentage of the maximum 15 and a tier.
 *
 * A percentage is an integer number of hundredths of a percent. The source
 * computes round(total / 15 * 100, 2) in floating point; total * 2000 / 3 has
 * a fractional part of 0, 1/3 or 2/3, so rounding to the nearest hundredth
 * never meets a tie and the integer (2000 * total + 1) / 3 is that value.
 */
module Aggregator {

  import opened Catalog
  import opened Records
  import opened Wrappers

  /** One competency's line of the report: its tier and its percentage. */
  datatype Graded = Graded(tier: Tier, percent: int)

  function Sum(xs: seq<int>): int
  {
    if xs == [] then 0 else Sum(xs[..|xs| - 1]) + xs[|xs| - 1]
  }

  /** p is total / 15 * 100 rounded to the nearest hundredth, in hundredths:
      |p - 2000 * total / 3| <= 1/2. */
  predicate NearestHundredth(total: int, p: int)
  {
    -1 <= 3 * p - 2000 * total <= 1
  }

  /** round(total / 15 * 100, 2), in hundredths of a percent. */
  function RoundedPercent(total: int): (p: int)
    ensures NearestHundredth(total, p)
  {
    (2000 * total + 1) / 3
  }

  /** Rounding to hundredths never meets a tie: exactly one value is nearest. */
  lemma NoRoundingTie(total: int, p: int, q: int)
    requires NearestHundredth(total, p) && NearestHundredth(total, q)
    ensures p == q
  {
  }

  /** The scores one person received for one competency, in file order. */
  function Scores(rows: seq<Row>, user: string, comp: string): seq<int>
    requires comp in CompetencySet()
    requires Complete(rows)
  {
    SelectKeeps(rows, user);
    Column(Select(rows, user), comp)
  }

  /** The report entry for three scores adding up to `total`. */
  function Grade(total: int): (g: Graded)
    ensures NearestHundredth(total, g.percent)
    ensures g.tier == GetTier(g.percent)
  {
    var p := RoundedPercent(total);
    Graded(GetTier(p), p)
  }

  /** aggregate_scores(df, user): no result at all without a `user_id` column;
      otherwise a competency is reported exactly when the person has three
      scores for it, with their total's rounded percentage and its tier. */
  function AggregateScores(f: Frame, user: string): (r: map<string, Graded>)
    requires Complete(f.rows)
    ensures "user_id" !in f.columns ==> r == map[]
    ensures r.Keys <= CompetencySet()
    ensures forall c :: c in CompetencySet() ==>
              (c in r <==> "user_id" in f.columns && |Scores(f.rows, user, c)| == 3)
    ensures forall c :: c in r ==>
              && NearestHundredth(Sum(Scores(f.rows, user, c)), r[c].percent)
              && r[c].tier == GetTier(r[c].percent)
  {
    if "user_id" !in f.columns then map[]
    else
      map c | c in CompetencySet() && |Scores(f.rows, user, c)| == 3 :: Grade(Sum(Scores(f.rows, user, c)))
  }

  /** Every row carries every competency, so a report is all-or-nothing: each
      competency appears exactly when the person has three rows in all. */
  lemma AllOrNothing(f: Frame, user: string, comp: string)
    requires Complete(f.rows)
    requires comp in CompetencySet()
    ensures comp in AggregateScores(f, user)
        <==> "user_id" in f.columns && |Select(f.rows, user)| == 3
  {
  }

  /** In a file the application created, the `user_id` guard never fires: a
      competency is reported exactly when the person has three rows. */
  lemma CreatedFileReports(rows: seq<Row>, user: string, comp: string)
    requires Complete(rows)
    requires comp in CompetencySet()
    ensures "user_id" in CreatedFile(rows).columns
    ensures comp in AggregateScores(CreatedFile(rows), user) <==> |Select(rows, user)| == 3
  {
    assert "user_id" in Header();
    AllOrNothing(CreatedFile(rows), user, comp);
  }

  /** Roles are pooled: the report is present exactly when the person's self,
      peer and manager rows number three together, whatever the mix. */
  lemma RolesPooled(f: Frame, user: string, comp: string)
    requires Complete(f.rows)
    requires comp in CompetencySet()
    ensures comp in AggregateScores(f, user)
        <==> && "user_id" in f.columns
             && CountRole(f.rows, user, Self) + CountRole(f.rows, user, Peer)
                + CountRole(f.rows, user, Manager) == 3
  {
    SelectPoolsRoles(f.rows, user);
  }

  /** Once a person has four or more rows, no later appends can bring their
      report back: it stays empty forever. */
  lemma OverfullStaysEmpty(f: Frame, more: seq<Row>, user: string)
    requires Complete(f.rows + more)
    requires |Select(f.rows, user)| >= 4
    ensures AggregateScores(Frame(f.columns, f.rows + more), user) == map[]
  {
    SelectGrows(f.rows, more, user);
    var r := AggregateScores(Frame(f.columns, f.rows + more), user);
    forall c | c in r
      ensures false
    {
      AllOrNothing(Frame(f.columns, f.rows + more), user, c);
    }
  }

  /** Three scores of the rating scale add up to between 3 and 15. */
  lemma SumOfThreeScores(xs: seq<int>)
    requires |xs| == 3
    requires forall i :: 0 <= i < 3 ==> 1 <= xs[i] <= 5
    ensures 3 <= Sum(xs) <= 15
  {
    assert xs[..2][..1][..0] == [];
    assert Sum(xs[..2][..1]) == xs[0];
    assert Sum(xs[..2]) == xs[0] + xs[1];
  }

  /** With valid stored scores, a reported percentage lies in [20.00, 100.00]. */
  lemma PercentInRange(f: Frame, user: string, comp: string)
    requires Complete(f.rows) && ValidStore(f.rows)
    requires comp in AggregateScores(f, user)
    ensures 2000 <= AggregateScores(f, user)[comp].percent <= 10000
  {
    var sel := Select(f.rows, user);
    var xs := Scores(f.rows, user, comp);
    SelectKeeps(f.rows, user);
    forall i | 0 <= i < 3
      ensures 1 <= xs[i] <= 5
    {
      assert sel[i] in sel;
    }
    SumOfThreeScores(xs);
  }

  /** The tier of a total depends on the total alone: up to 5 Poorly, 6 to 8
      Minimally, 9 and 10 Effectively, 11 and 12 Highly, 13 and up Mastery. */
  lemma TierOfTotal(total: int)
    ensures GetTier(RoundedPercent(total)) ==
      if total <= 5 then Poorly
      else if total <= 8 then Minimally
      else if total <= 10 then Effectively
      else if total <= 12 then Highly
      else Mastery
  {
    var p := RoundedPercent(total);
    TierBands(p);
  }

  /** Each reported tier has its text in the definitions table, so the report
      never shows the empty fallback. */
  lemma ReportTextFound(f: Frame, user: string, comp: string)
    requires Complete(f.rows)
    requires comp in AggregateScores(f, user)
    ensures var t := AggregateScores(f, user)[comp].tier;
            DefinitionText(comp, Label(t)) == Some(Description(comp, t))
  {
    DefinitionFound(comp, AggregateScores(f, user)[comp].tier);
  }
}
