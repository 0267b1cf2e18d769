/**
 * The rating catalog of the 360 assessment application: the competency list,
 * the five-point rating scale, the descriptive texts per competency and tier,
 * and the classifier that turns a percentage into a tier.
 *
 * Percentages are integers in hundredths of a percent (73.33% is 7333), so the
 * tier thresholds 40, 55, 70 and 85 are 4000, 5500, 7000 and 8500.
 */
module Catalog {

  import opened Wrappers

  /** The five competency tiers, worst to best. */
  datatype Tier = Poorly | Minimally | Effectively | Highly | Mastery

  /** Every tier, in rank order. */
  const AllTiers: seq<Tier> := [Poorly, Minimally, Effectively, Highly, Mastery]

  /** The label the application shows and uses as a lookup key for a tier. */
  function Label(t: Tier): string
  {
    match t
    case Poorly => "Poorly Competent"
    case Minimally => "Minimally Competent"
    case Effectively => "Effectively Competent"
    case Highly => "Highly Competent"
    case Mastery => "Mastery Competent"
  }

  /** The position of a tier on the rating scale, worst = 1. */
  function Rank(t: Tier): int
  {
    match t
    case Poorly => 1
    case Minimally => 2
    case Effectively => 3
    case Highly => 4
    case Mastery => 5
  }

  /** The set of all tier labels. */
  function LabelSet(): set<string>
  {
    set t | t in AllTiers :: Label(t)
  }

  /** The competencies every assessment rates, in form order (get_competencies). */
  function Competencies(): seq<string>
  {
    [ "Predictive Maintenance", "Value Add Management", "Business Acumen",
      "Decision Quality", "Conceptual Thinking" ]
  }

  function CompetencySet(): set<string>
  {
    set c | c in Competencies()
  }

  /** The rating scale (get_ratings): a label-to-score dictionary. */
  function Ratings(): map<string, int>
  {
    map[
      "Poorly Competent" := 1,
      "Minimally Competent" := 2,
      "Effectively Competent" := 3,
      "Highly Competent" := 4,
      "Mastery Competent" := 5
    ]
  }

  /** A descriptive text of the catalog. The wording is display copy and is not
      modelled: a text is identified by the competency and tier it describes. */
  datatype Description = Description(competency: string, tier: Tier)

  /** One competency's row of get_definitions: a text for each of the five labels. */
  function TierTexts(comp: string): map<string, Description>
  {
    map[
      "Poorly Competent" := Description(comp, Poorly),
      "Minimally Competent" := Description(comp, Minimally),
      "Effectively Competent" := Description(comp, Effectively),
      "Highly Competent" := Description(comp, Highly),
      "Mastery Competent" := Description(comp, Mastery)
    ]
  }

  /** The per-competency, per-tier descriptive texts (get_definitions), keyed by
      competency name and then by tier label. */
  function Definitions(): map<string, map<string, Description>>
  {
    map[
      "Predictive Maintenance" := TierTexts("Predictive Maintenance"),
      "Value Add Management" := TierTexts("Value Add Management"),
      "Business Acumen" := TierTexts("Business Acumen"),
      "Decision Quality" := TierTexts("Decision Quality"),
      "Conceptual Thinking" := TierTexts("Conceptual Thinking")
    ]
  }

  /** The report's lookup `definitions.get(comp, {}).get(tier, "")`: an unknown
      competency or tier label yields None, standing for the empty fallback text,
      rather than an error. */
  function DefinitionText(comp: string, tierLabel: string): Option<Description>
  {
    if comp in Definitions() && tierLabel in Definitions()[comp]
    then Some(Definitions()[comp][tierLabel])
    else None
  }

  /** Every tier label is a key of the rating scale, and the scale maps it to the
      tier's rank: get_ratings is a bijection from the five labels onto 1..5. */
  lemma RatingsBijection()
    ensures Ratings().Keys == LabelSet()
    ensures forall t: Tier :: Label(t) in Ratings() && Ratings()[Label(t)] == Rank(t)
    ensures Ratings().Values == {1, 2, 3, 4, 5}
    ensures forall a, b :: a in Ratings() && b in Ratings() && Ratings()[a] == Ratings()[b] ==> a == b
  {
    LabelSetListed();
    assert Ratings()["Poorly Competent"] == 1 && Ratings()["Minimally Competent"] == 2;
    assert Ratings()["Effectively Competent"] == 3 && Ratings()["Highly Competent"] == 4;
    assert Ratings()["Mastery Competent"] == 5;
  }

  /** The label set written out. */
  lemma LabelSetListed()
    ensures LabelSet() == {"Poorly Competent", "Minimally Competent", "Effectively Competent",
                           "Highly Competent", "Mastery Competent"}
  {
    assert Label(Poorly) in LabelSet() && Label(Minimally) in LabelSet();
    assert Label(Effectively) in LabelSet() && Label(Highly) in LabelSet();
    assert Label(Mastery) in LabelSet();
  }

  /** Distinct tiers have distinct labels and distinct ranks. */
  lemma TierNamesDistinct(a: Tier, b: Tier)
    requires a != b
    ensures Label(a) != Label(b)
    ensures Rank(a) != Rank(b)
  {
  }

  /** The definitions table covers exactly the competencies, and each competency
      has a text for exactly the five tier labels. */
  lemma DefinitionsCoverCatalog()
    ensures Definitions().Keys == CompetencySet()
    ensures forall c :: c in CompetencySet() ==> Definitions()[c].Keys == LabelSet()
  {
    LabelSetListed();
  }

  /** For a catalog competency and any tier get_tier can produce, the report's
      lookup finds that competency's text for that tier, never the fallback. */
  lemma DefinitionFound(comp: string, t: Tier)
    requires comp in CompetencySet()
    ensures DefinitionText(comp, Label(t)) == Some(Description(comp, t))
  {
  }

  /** The get_tier thresholds in hundredths of a percent; each one is the
      inclusive lower bound of the next tier up. */
  const Thresholds: seq<int> := [4000, 5500, 7000, 8500]

  /** How many of the thresholds `ts` the percentage `p` has reached. */
  function Reached(ts: seq<int>, p: int): nat
  {
    if ts == [] then 0 else (if ts[0] <= p then 1 else 0) + Reached(ts[1..], p)
  }

  /** The thresholds a percentage has reached, counted out. */
  lemma ReachedThresholds(p: int)
    ensures Reached(Thresholds, p)
      == (if 4000 <= p then 1 else 0) + (if 5500 <= p then 1 else 0)
       + (if 7000 <= p then 1 else 0) + (if 8500 <= p then 1 else 0)
  {
    var ts := Thresholds;
    assert ts[1..] == [5500, 7000, 8500];
    assert ts[1..][1..] == [7000, 8500];
    assert ts[1..][1..][1..] == [8500];
    assert ts[1..][1..][1..][1..] == [];
    assert Reached([8500], p) == (if 8500 <= p then 1 else 0);
    assert Reached([7000, 8500], p) == (if 7000 <= p then 1 else 0) + Reached([8500], p);
    assert Reached([5500, 7000, 8500], p) == (if 5500 <= p then 1 else 0) + Reached([7000, 8500], p);
  }

  /** get_tier: the tier of a percentage given in hundredths. A tier's rank is one
      more than the number of thresholds the percentage has reached. */
  function GetTier(p: int): (t: Tier)
    ensures Rank(t) == 1 + Reached(Thresholds, p)
  {
    ReachedThresholds(p);
    if p < 4000 then Poorly
    else if 4000 <= p < 5500 then Minimally
    else if 5500 <= p < 7000 then Effectively
    else if 7000 <= p < 8500 then Highly
    else Mastery
  }

  /** The five tiers partition the percentages into the bands below 40, [40, 55),
      [55, 70), [70, 85) and from 85 up, each lower bound inclusive. */
  lemma TierBands(p: int)
    ensures GetTier(p) == Poorly <==> p < 4000
    ensures GetTier(p) == Minimally <==> 4000 <= p < 5500
    ensures GetTier(p) == Effectively <==> 5500 <= p < 7000
    ensures GetTier(p) == Highly <==> 7000 <= p < 8500
    ensures GetTier(p) == Mastery <==> 8500 <= p
  {
  }

  lemma {:induction false} ReachedMonotone(ts: seq<int>, p: int, q: int)
    requires p <= q
    ensures Reached(ts, p) <= Reached(ts, q)
    decreases |ts|
  {
    if ts != [] {
      ReachedMonotone(ts[1..], p, q);
    }
  }

  /** A higher percentage never yields a lower-ranked tier. */
  lemma GetTierMonotone(p: int, q: int)
    requires p <= q
    ensures Rank(GetTier(p)) <= Rank(GetTier(q))
  {
    ReachedMonotone(Thresholds, p, q);
  }
}
