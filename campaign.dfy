/** The campaign agent's decision tables: the industry read off the service names, the
    budget split over Google, LinkedIn and Facebook ads with integer click estimates, and
    the per-industry success metrics. */
module Campaign {
  import opened Text
  import opened Seqs

  datatype Industry = Hvac | Tech | General

  /** Terms that make the services HVAC, checked first. */
  const HvacTerms: seq<string> := ["hvac", "heating", "cooling", "plumbing", "electrical"]

  /** Terms that make the services tech, checked second. */
  const TechTerms: seq<string> := ["tech", "software", "ai", "cloud"]

  /** ' '.join(services).lower(). */
  function ServicesText(services: seq<string>): string {
    Lower(JoinWith(services, " "))
  }

  /** The first term list with a term in the lower-cased, space-joined services decides. */
  function ClassifyIndustry(services: seq<string>): (i: Industry)
    ensures i == Hvac <==> AnyContained(ServicesText(services), HvacTerms)
    ensures i == Tech <==>
      !AnyContained(ServicesText(services), HvacTerms) && AnyContained(ServicesText(services), TechTerms)
    ensures i == General <==>
      !AnyContained(ServicesText(services), HvacTerms) && !AnyContained(ServicesText(services), TechTerms)
  {
    var text := ServicesText(services);
    if AnyContained(text, HvacTerms) then Hvac
    else if AnyContained(text, TechTerms) then Tech
    else General
  }

  /** The argument of analyze_target_market: a dict whose 'company_name' and 'services'
      keys may be missing, or anything else. */
  datatype DiscoveryInput =
    | NotADict
    | DiscoveryDict(companyName: Option<string>, services: Option<seq<string>>)

  datatype MarketAnalysis = MarketAnalysis(
    companyName: string, industry: Industry, targetAudience: string, keywords: string)

  function Audience(i: Industry): string {
    match i
    case Hvac => "Homeowners, Property Managers, Facility Directors"
    case Tech => "IT Directors, CTOs, Tech Managers"
    case General => "Business Owners, Decision Makers, Managers"
  }

  function Keywords(i: Industry): string {
    match i
    case Hvac => "HVAC services, heating repair, cooling installation, plumbing services"
    case Tech => "AI solutions, cloud services, software development"
    case General => "professional services, business solutions, consulting"
  }

  /** analyze_target_market. Without a dict the analysis is the general one, with a shorter
      audience and keyword list than a dict classified as general gets. */
  function AnalyzeTargetMarket(d: DiscoveryInput): (m: MarketAnalysis)
    ensures d.NotADict? ==>
      m == MarketAnalysis("Target Company", General, "Business Owners, Decision Makers",
                          "professional services, business solutions")
    ensures d.DiscoveryDict? ==>
      m.companyName == (if d.companyName.Some? then d.companyName.value else "Target Company")
      && m.industry == ClassifyIndustry(if d.services.Some? then d.services.value else [])
      && m.targetAudience == Audience(m.industry) && m.keywords == Keywords(m.industry)
    ensures d.NotADict? ==> m.industry == General && m.targetAudience != Audience(General)
  {
    match d
    case NotADict =>
      MarketAnalysis("Target Company", General, "Business Owners, Decision Makers",
                     "professional services, business solutions")
    case DiscoveryDict(name, services) =>
      var i := ClassifyIndustry(if services.Some? then services.value else []);
      MarketAnalysis(if name.Some? then name.value else "Target Company", i, Audience(i), Keywords(i))
  }

  // ---------------------------------------------------------------- platform strategy

  datatype Budgets = Budgets(google: nat, linkedin: nat, facebook: nat)

  function BudgetsFor(i: Industry): Budgets {
    match i
    case Hvac => Budgets(600, 150, 250)
    case Tech => Budgets(400, 400, 200)
    case General => Budgets(500, 350, 150)
  }

  function TotalBudget(b: Budgets): nat {
    b.google + b.facebook + b.linkedin
  }

  /** Every industry spends 1000 in all. */
  lemma BudgetsTotal(i: Industry)
    ensures TotalBudget(BudgetsFor(i)) == 1000
  {
    match i
    case Hvac =>
    case Tech =>
    case General =>
  }

  /** f"{part/total*100:.0f}": the nearest whole percentage, ties to the even one. */
  function Percentage(part: nat, total: nat): (p: nat)
    requires total > 0
    ensures 2 * (100 * part - p * total) <= total && 2 * (p * total - 100 * part) <= total
  {
    var q := 100 * part / total;
    var rem := 100 * part % total;
    if 2 * rem > total then q + 1
    else if 2 * rem < total then q
    else if q % 2 == 0 then q else q + 1
  }

  /** The three budgets are whole percentages of their total, so no rounding happens. */
  lemma PercentagesExact(i: Industry)
    ensures var b := BudgetsFor(i);
      var t := TotalBudget(b);
      Percentage(b.google, t) * t == 100 * b.google
      && Percentage(b.linkedin, t) * t == 100 * b.linkedin
      && Percentage(b.facebook, t) * t == 100 * b.facebook
      && Percentage(b.google, t) + Percentage(b.linkedin, t) + Percentage(b.facebook, t) == 100
  {
    BudgetsTotal(i);
  }

  /** The two bounds of f"{budget//low}-{budget//high}", kept as numbers. */
  datatype Clicks = Clicks(low: nat, high: nat)

  /** Dividing by the larger divisor never gives more. */
  lemma {:induction false} DivAntitone(b: nat, big: nat, small: nat)
    requires 0 < small <= big
    ensures b / big <= b / small
  {
    var q := b / big;
    var p := b / small;
    assert b == q * big + b % big;
    assert b == p * small + b % small;
    MulMonotone(small, big, q);
    if q > p {
      MulMonotone(p + 1, q, small);
      assert false;
    }
  }

  lemma MulMonotone(x: nat, y: nat, c: nat)
    requires x <= y
    ensures x * c <= y * c
  {
    assert y * c == x * c + (y - x) * c;
  }

  /** budget//big to budget//small. */
  function ClickRange(budget: nat, big: nat, small: nat): (c: Clicks)
    requires 0 < small <= big
    ensures c.low <= c.high
    ensures c.low * big <= budget < (c.low + 1) * big
    ensures c.high * small <= budget < (c.high + 1) * small
  {
    DivAntitone(budget, big, small);
    Clicks(budget / big, budget / small)
  }

  datatype GoogleAds = GoogleAds(
    budget: nat, percentage: nat, keywords: string, target: string,
    cpcRange: string, clicks: Clicks, roiTarget: string)

  datatype LinkedInAds = LinkedInAds(
    budget: nat, percentage: nat, target: string, industries: string,
    cpcRange: string, clicks: Clicks, roiTarget: string)

  datatype FacebookAds = FacebookAds(
    budget: nat, percentage: nat, target: string, ageGroup: string,
    cpcRange: string, clicks: Clicks, roiTarget: string)

  datatype Strategies = Strategies(google: GoogleAds, linkedin: LinkedInAds, facebook: FacebookAds)

  /** generate_platform_strategy: the strategies and the total budget. */
  function PlatformStrategy(m: MarketAnalysis): (r: (Strategies, nat))
    ensures var s := r.0;
      r.1 == s.google.budget + s.facebook.budget + s.linkedin.budget == 1000
      && s.google.percentage + s.linkedin.percentage + s.facebook.percentage == 100
      && s.google.percentage * r.1 == 100 * s.google.budget
      && s.linkedin.percentage * r.1 == 100 * s.linkedin.budget
      && s.facebook.percentage * r.1 == 100 * s.facebook.budget
    ensures var s := r.0;
      s.google.clicks.low <= s.google.clicks.high
      && s.linkedin.clicks.low <= s.linkedin.clicks.high
      && s.facebook.clicks.low <= s.facebook.clicks.high
      && s.google.clicks == Clicks(s.google.budget / 4, s.google.budget / 2)
      && s.linkedin.clicks == Clicks(s.linkedin.budget / 7, s.linkedin.budget / 5)
      && s.facebook.clicks == Clicks(s.facebook.budget / 3, s.facebook.budget)
  {
    var b := BudgetsFor(m.industry);
    var total := TotalBudget(b);
    BudgetsTotal(m.industry);
    PercentagesExact(m.industry);
    var hvac := m.industry == Hvac;
    var google := GoogleAds(
      b.google, Percentage(b.google, total), m.keywords, m.targetAudience,
      if hvac then "$2-5" else "$3-7", ClickRange(b.google, 4, 2),
      if hvac then "350%" else "300%");
    var linkedin := LinkedInAds(
      b.linkedin, Percentage(b.linkedin, total), "Business decision makers, industry professionals",
      if hvac then "Construction, Real Estate, Property Management" else "Technology, Software, Consulting",
      "$5-10", ClickRange(b.linkedin, 7, 5), "400%");
    var facebook := FacebookAds(
      b.facebook, Percentage(b.facebook, total),
      if hvac then "Local homeowners, business owners" else "Tech enthusiasts, startup founders",
      if hvac then "30-55 years" else "25-45 years",
      "$1-4", ClickRange(b.facebook, 3, 1), "250%");
    (Strategies(google, linkedin, facebook), total)
  }

  /** The fixed texts of each platform's strategy, and those that follow the industry. */
  lemma StrategyTexts(m: MarketAnalysis)
    ensures var g := PlatformStrategy(m).0.google;
      g.keywords == m.keywords && g.target == m.targetAudience
      && (g.cpcRange == "$2-5" <==> m.industry == Hvac) && (g.cpcRange == "$3-7" <==> m.industry != Hvac)
      && (g.roiTarget == "350%" <==> m.industry == Hvac) && (g.roiTarget == "300%" <==> m.industry != Hvac)
    ensures var l := PlatformStrategy(m).0.linkedin;
      l.target == "Business decision makers, industry professionals"
      && l.cpcRange == "$5-10" && l.roiTarget == "400%"
      && (l.industries == "Construction, Real Estate, Property Management" <==> m.industry == Hvac)
      && (l.industries == "Technology, Software, Consulting" <==> m.industry != Hvac)
    ensures var f := PlatformStrategy(m).0.facebook;
      f.cpcRange == "$1-4" && f.roiTarget == "250%"
      && (f.target == "Local homeowners, business owners" <==> m.industry == Hvac)
      && (f.target == "Tech enthusiasts, startup founders" <==> m.industry != Hvac)
      && (f.ageGroup == "30-55 years" <==> m.industry == Hvac)
      && (f.ageGroup == "25-45 years" <==> m.industry != Hvac)
  {
  }

  // ---------------------------------------------------------------- success metrics

  datatype SuccessMetrics = SuccessMetrics(
    targetLeads: string, costPerLead: string, conversionRate: string, expectedRevenue: string,
    brandAwareness: string, websiteTraffic: string, socialEngagement: string)

  /** calculate_success_metrics: the total budget is accepted and not used. */
  function CalculateSuccessMetrics(totalBudget: int, industry: Industry): (r: SuccessMetrics)
    ensures r.brandAwareness == "75,000+ impressions"
    ensures r.websiteTraffic == "800+ new visitors"
    ensures r.socialEngagement == "300+ interactions"
    ensures r.conversionRate == (if industry == Hvac then "4-6%" else "3-5%")
    ensures industry == Hvac ==> r.targetLeads == "20-30" && r.costPerLead == "$35-50" && r.expectedRevenue == "$8000-12000"
    ensures industry == Tech ==> r.targetLeads == "15-25" && r.costPerLead == "$40-65" && r.expectedRevenue == "$5000-8000"
    ensures industry == General ==> r.targetLeads == "18-28" && r.costPerLead == "$35-55" && r.expectedRevenue == "$6000-10000"
  {
    var (leads, cost, conversion, revenue) :=
      match industry
      case Hvac => ("20-30", "$35-50", "4-6%", "$8000-12000")
      case Tech => ("15-25", "$40-65", "3-5%", "$5000-8000")
      case General => ("18-28", "$35-55", "3-5%", "$6000-10000");
    SuccessMetrics(leads, cost, conversion, revenue,
                   "75,000+ impressions", "800+ new visitors", "300+ interactions")
  }

  /** The metrics depend on the industry alone, and the three industries get three
      different tables. */
  lemma MetricsByIndustryOnly(b1: int, b2: int, i: Industry, j: Industry)
    ensures CalculateSuccessMetrics(b1, i) == CalculateSuccessMetrics(b2, i)
    ensures i != j ==> CalculateSuccessMetrics(b1, i) != CalculateSuccessMetrics(b2, j)
  {
    var x := CalculateSuccessMetrics(b1, i);
    var y := CalculateSuccessMetrics(b2, j);
    if i != j {
      assert x.targetLeads != y.targetLeads;
    }
  }
}
