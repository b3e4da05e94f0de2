/**
 * Risk levels of a return probability. The server counts the probabilities
 * in three masks (high above 0.7, medium above 0.3 up to 0.7, low up to 0.3)
 * and labels each order 1 when its probability is above 0.5; the browser
 * shows a level name and a style class by the same two thresholds, once on
 * the probability and once on the probability times 100.
 */
module Risk {

  datatype Level = High | Medium | Low

  /** The server's masks: probas > 0.7, (probas > 0.3) & (probas <= 0.7), probas <= 0.3. */
  predicate InHigh(p: real) { p > 0.7 }
  predicate InMedium(p: real) { p > 0.3 && p <= 0.7 }
  predicate InLow(p: real) { p <= 0.3 }

  /** Every probability is in exactly one of the three masks. */
  lemma MasksExclusive(p: real)
    ensures InHigh(p) || InMedium(p) || InLow(p)
    ensures !(InHigh(p) && InMedium(p)) && !(InHigh(p) && InLow(p)) && !(InMedium(p) && InLow(p))
  {
  }

  /** The level of a probability, by the thresholds 0.7 and 0.3. */
  function LevelOf(p: real): (l: Level)
    ensures l == High <==> InHigh(p)
    ensures l == Medium <==> InMedium(p)
    ensures l == Low <==> InLow(p)
  {
    if p > 0.7 then High else if p > 0.3 then Medium else Low
  }

  /** getRiskLevel: the name of the probability's level. */
  function RiskLevel(p: real): (name: string)
    ensures name == LevelLabel(LevelOf(p))
  {
    if p > 0.7 then "Élevé" else if p > 0.3 then "Modéré" else "Faible"
  }

  /** getRiskClass: the style class of the probability's level. */
  function RiskClass(p: real): (cls: string)
    ensures cls == LevelClass(LevelOf(p))
  {
    if p > 0.7 then "risk-high" else if p > 0.3 then "risk-medium" else "risk-low"
  }

  function LevelLabel(l: Level): string {
    match l
    case High => "Élevé"
    case Medium => "Modéré"
    case Low => "Faible"
  }

  function LevelClass(l: Level): string {
    match l
    case High => "risk-high"
    case Medium => "risk-medium"
    case Low => "risk-low"
  }

  /** The names, and the classes, of different levels differ. */
  lemma LabelsDistinct(l1: Level, l2: Level)
    ensures LevelLabel(l1) == LevelLabel(l2) <==> l1 == l2
    ensures LevelClass(l1) == LevelClass(l2) <==> l1 == l2
  {
  }

  /** getRiskLevel and getRiskClass agree for every probability: both name
      the level the thresholds give, so Élevé goes with risk-high, Modéré with
      risk-medium and Faible with risk-low. */
  lemma LevelAndClassAgree(p: real)
    ensures RiskLevel(p) == "Élevé" <==> RiskClass(p) == "risk-high"
    ensures RiskLevel(p) == "Modéré" <==> RiskClass(p) == "risk-medium"
    ensures RiskLevel(p) == "Faible" <==> RiskClass(p) == "risk-low"
  {
    LabelsDistinct(LevelOf(p), High);
    LabelsDistinct(LevelOf(p), Medium);
    LabelsDistinct(LevelOf(p), Low);
  }

  /** The risk branch of displaySinglePredictionResult, on the percentage
      probability * 100: (class, label). */
  function PercentRisk(percent: real): (string, string) {
    if percent > 70.0 then ("risk-high", "Élevé")
    else if percent > 30.0 then ("risk-medium", "Modéré")
    else ("risk-low", "Faible")
  }

  /** Over exact reals, going through the percentage gives the same class
      and label as getRiskClass and getRiskLevel on the probability. */
  lemma PercentRiskAgrees(p: real)
    ensures PercentRisk(p * 100.0) == (RiskClass(p), RiskLevel(p))
  {
  }

  /** The binary prediction: 1 exactly when the probability is above 0.5. */
  function Label(p: real): (b: int)
    ensures b == 0 || b == 1
    ensures b == 1 <==> p > 0.5
  {
    if p > 0.5 then 1 else 0
  }

  /** A high-risk order is always predicted to come back and a low-risk one
      never; a medium one can go either way. */
  lemma LabelFollowsLevel(p: real)
    ensures LevelOf(p) == High ==> Label(p) == 1
    ensures LevelOf(p) == Low ==> Label(p) == 0
  {
  }

  /** The number of probabilities of a level. */
  function CountLevel(ps: seq<real>, l: Level): (n: nat)
    ensures n <= |ps|
  {
    if ps == [] then 0
    else CountLevel(ps[..|ps| - 1], l) + (if LevelOf(ps[|ps| - 1]) == l then 1 else 0)
  }

  function HighCount(ps: seq<real>): nat { CountLevel(ps, High) }
  function MediumCount(ps: seq<real>): nat { CountLevel(ps, Medium) }
  function LowCount(ps: seq<real>): nat { CountLevel(ps, Low) }

  /** high_risk + medium_risk + low_risk == total_orders. */
  lemma {:induction false} CountsPartition(ps: seq<real>)
    ensures HighCount(ps) + MediumCount(ps) + LowCount(ps) == |ps|
  {
    if ps != [] {
      CountsPartition(ps[..|ps| - 1]);
    }
  }

  /** The number of labels equal to 1. */
  function CountPositive(ps: seq<real>): (n: nat)
    ensures n <= |ps|
  {
    if ps == [] then 0 else CountPositive(ps[..|ps| - 1]) + Label(ps[|ps| - 1])
  }

  /** At least every high-risk order and at most every order that is not
      low-risk is predicted to come back. */
  lemma {:induction false} PositivesBetweenCounts(ps: seq<real>)
    ensures HighCount(ps) <= CountPositive(ps) <= HighCount(ps) + MediumCount(ps)
  {
    if ps != [] {
      PositivesBetweenCounts(ps[..|ps| - 1]);
      LabelFollowsLevel(ps[|ps| - 1]);
    }
  }
}
