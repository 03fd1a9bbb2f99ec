/** The business consultant: the industry context read off the service names, the retry
    loop around the language-model request and its acceptance rule, the fallback analysis
    chosen when no reply is accepted, and the parts of the report built line by line. */
module Creative {
  import opened Text
  import opened Seqs

  // ---------------------------------------------------------------- industry context

  /** Terms that make the context HVAC, checked first. "ac" makes any service whose name
      contains those two letters (for instance "Accounting") count as HVAC. */
  const HvacContextTerms: seq<string> := ["hvac", "ac", "heating", "cooling", "air conditioning"]

  /** Terms that make the context technology, checked second. */
  const TechContextTerms: seq<string> := ["tech", "software", "ai", "cloud"]

  const HvacContext: string := "HVAC and energy services"
  const TechContext: string := "technology and software"
  const GeneralContext: string := "professional services"

  /** ' '.join(services).lower(). */
  function JoinedLower(services: seq<string>): string {
    Lower(JoinWith(services, " "))
  }

  /** The industry context of analyze_company_with_claude. */
  function IndustryContext(services: seq<string>): (c: string)
    ensures c == HvacContext <==> AnyContained(JoinedLower(services), HvacContextTerms)
    ensures c == TechContext <==>
      !AnyContained(JoinedLower(services), HvacContextTerms) && AnyContained(JoinedLower(services), TechContextTerms)
    ensures c == GeneralContext <==>
      !AnyContained(JoinedLower(services), HvacContextTerms) && !AnyContained(JoinedLower(services), TechContextTerms)
  {
    var text := JoinedLower(services);
    if AnyContained(text, HvacContextTerms) then HvacContext
    else if AnyContained(text, TechContextTerms) then TechContext
    else GeneralContext
  }

  // ---------------------------------------------------------------- fallback analysis

  /** The discovery record as the consultant reads it: each key may be missing. */
  datatype DiscoveryRecord = DiscoveryRecord(
    companyName: Option<string>, services: Option<seq<string>>,
    socialMedia: Option<map<string, string>>, testimonials: Option<seq<string>>)

  function ServicesOf(d: DiscoveryRecord): seq<string> {
    if d.services.Some? then d.services.value else []
  }

  /** The three fallback templates. Their text is not modelled; what fills them is. */
  datatype Template = HvacTemplate | TechTemplate | GeneralTemplate

  datatype FallbackAnalysis = FallbackAnalysis(
    template: Template, companyName: string, digitalStrength: string, customerFeedback: string)

  /** _create_company_specific_analysis: the template chosen by the context, filled with
      the company name and two labels. */
  function CompanySpecificAnalysis(d: DiscoveryRecord, context: string): (f: FallbackAnalysis)
    ensures f.companyName == if d.companyName.Some? then d.companyName.value else "Target Company"
    ensures var platforms := if d.socialMedia.Some? then |d.socialMedia.value| else 0;
      (f.digitalStrength == "strong" <==> platforms >= 3)
      && (f.digitalStrength == "developing" <==> platforms < 3)
    ensures var reviews := if d.testimonials.Some? then |d.testimonials.value| else 0;
      (f.customerFeedback == "excellent" <==> reviews >= 2)
      && (f.customerFeedback == "positive" <==> reviews < 2)
    ensures f.template == HvacTemplate <==> context == HvacContext
    ensures f.template == TechTemplate <==> context == TechContext
    ensures f.template == GeneralTemplate <==> context != HvacContext && context != TechContext
  {
    var name := if d.companyName.Some? then d.companyName.value else "Target Company";
    var social := if d.socialMedia.Some? then d.socialMedia.value else map[];
    var reviews := if d.testimonials.Some? then d.testimonials.value else [];
    var strength := if |social| >= 3 then "strong" else "developing";
    var feedback := if |reviews| >= 2 then "excellent" else "positive";
    var template :=
      if context == HvacContext then HvacTemplate
      else if context == TechContext then TechTemplate
      else GeneralTemplate;
    FallbackAnalysis(template, name, strength, feedback)
  }

  // ---------------------------------------------------------------- retry loop

  /** What one request attempt produced. A reply with status 200 carries the texts of its
      content blocks (none when the 'content' key is missing or empty). */
  datatype Outcome =
    | Reply(content: seq<string>)
    | RateLimited                 // status 429
    | HttpError(status: int)      // any other status
    | Timeout
    | Failed                       // any other exception

  /** The outcome of attempt k; attempts past the supplied outcomes fail. */
  function OutcomeAt(outcomes: seq<Outcome>, k: nat): Outcome {
    if k < |outcomes| then outcomes[k] else Failed
  }

  /** A reply whose first content text is more than 300 characters once stripped. */
  predicate Accepted(o: Outcome) {
    o.Reply? && |o.content| > 0 && LongEnough(o.content[0])
  }

  /** More than 300 characters once stripped. */
  predicate LongEnough(text: string) {
    |Strip(text)| > 300
  }

  const MaxAttempts: nat := 3

  datatype Analysis = ModelAnalysis(text: string) | Fallback(fallback: FallbackAnalysis)

  /** The retry loop of analyze_company_with_claude: up to three attempts, and the first
      accepted reply ends it. Rate limits, errors and timeouts only move on to the next
      attempt (the break on the last attempt ends the loop where it would end anyway). */
  method RequestAnalysis(outcomes: seq<Outcome>) returns (reply: Option<string>, attempts: nat)
    ensures 1 <= attempts <= MaxAttempts
    ensures reply.Some? ==>
      Accepted(OutcomeAt(outcomes, attempts - 1))
      && reply.value == OutcomeAt(outcomes, attempts - 1).content[0]
      && LongEnough(reply.value)
      && forall k :: 0 <= k < attempts - 1 ==> !Accepted(OutcomeAt(outcomes, k))
    ensures reply.None? <==> forall k :: 0 <= k < MaxAttempts ==> !Accepted(OutcomeAt(outcomes, k))
    ensures reply.None? ==> attempts == MaxAttempts
  {
    attempts := 0;
    for attempt := 0 to MaxAttempts
      invariant attempts == attempt
      invariant forall k :: 0 <= k < attempt ==> !Accepted(OutcomeAt(outcomes, k))
    {
      var o := OutcomeAt(outcomes, attempt);
      attempts := attempt + 1;
      match o {
        case Reply(content) =>
          if |content| > 0 {
            var text := content[0];
            if LongEnough(text) {
              assert Accepted(OutcomeAt(outcomes, attempt));
              reply := Some(text);
              return;
            }
          }
        case RateLimited =>
        case HttpError(_) | Timeout | Failed =>
          if attempt >= 2 {
            break;
          }
      }
      assert !Accepted(o);
    }
    reply := None;
  }

  /** analyze_company_with_claude: the first accepted reply of at most three attempts is
      the analysis; when none of the three is accepted, the fallback analysis for the
      industry context is. */
  method AnalyzeCompany(d: DiscoveryRecord, outcomes: seq<Outcome>) returns (a: Analysis)
    ensures a.ModelAnalysis? ==> LongEnough(a.text)
    ensures a.ModelAnalysis? ==>
      exists n :: (0 <= n < MaxAttempts && Accepted(OutcomeAt(outcomes, n))
                   && a.text == OutcomeAt(outcomes, n).content[0]
                   && forall k :: 0 <= k < n ==> !Accepted(OutcomeAt(outcomes, k)))
    ensures a.Fallback? <==> forall k :: 0 <= k < MaxAttempts ==> !Accepted(OutcomeAt(outcomes, k))
    ensures a.Fallback? ==> a.fallback == CompanySpecificAnalysis(d, IndustryContext(ServicesOf(d)))
  {
    var context := IndustryContext(ServicesOf(d));
    var reply, attempts := RequestAnalysis(outcomes);
    if reply.Some? {
      a := ModelAnalysis(reply.value);
    } else {
      a := Fallback(CompanySpecificAnalysis(d, context));
    }
  }

  // ---------------------------------------------------------------- report lines

  const Indent: string := "   "

  /** One analysis line in the report: blank lines stay blank, the others are stripped and
      indented by three spaces. */
  function IndentLine(line: string): (r: string)
    ensures Strip(line) == [] ==> r == []
    ensures Strip(line) != [] ==> |r| > 3 && r[..3] == Indent && r[3..] == Strip(line)
  {
    var t := Strip(line);
    if t != [] then Indent + t else []
  }

  /** Leading whitespace in front of a text not starting with whitespace is what TrimStart removes. */
  lemma TrimStartSpaces(p: string, t: string)
    requires AllSpace(p) && (t == [] || !IsSpace(t[0]))
    ensures TrimStart(p + t) == t
  {
    var s := p + t;
    assert s[..|p|] == p && s[|p|..] == t;
    TrimStartAt(s, |p|);
  }

  /** Indenting changes whitespace only: stripping an indented line gives the stripped line. */
  lemma IndentKeepsText(line: string)
    ensures Strip(IndentLine(line)) == Strip(line)
  {
    var t := Strip(line);
    if t != [] {
      TrimStartSpaces(Indent, t);
      assert TrimEnd(t) == t;
    }
  }

  /** The line loop of format_world_class_output: each line indented, in order. */
  method IndentLines(parts: seq<string>) returns (lines: seq<string>)
    ensures |lines| == |parts| && forall k :: 0 <= k < |parts| ==> lines[k] == IndentLine(parts[k])
  {
    lines := [];
    for i := 0 to |parts|
      invariant |lines| == i
      invariant forall k :: 0 <= k < i ==> lines[k] == IndentLine(parts[k])
    {
      var line := Strip(parts[i]);
      var shown: string;
      if line != [] {
        shown := Indent + line;
      } else {
        shown := [];
      }
      lines := lines + [shown];
    }
  }

  /** The analysis section of format_world_class_output: the stripped analysis split at
      line breaks, each line indented, in order. */
  method FormatAnalysisLines(analysis: string) returns (lines: seq<string>)
    ensures var parts := SplitOn(Strip(analysis), '\n');
      |lines| == |parts| && forall k :: 0 <= k < |parts| ==> lines[k] == IndentLine(parts[k])
  {
    lines := IndentLines(SplitOn(Strip(analysis), '\n'));
  }

  /** "   • Service {i}: {service}". */
  function ServiceLine(i: nat, service: string): string {
    "   • Service " + NatToString(i) + ": " + service
  }

  const NoServicesLine: string := "   • Services: Professional business solutions"

  /** The service portfolio: the first six services numbered from 1, or one placeholder
      line when there are none. */
  method ServicePortfolio(services: seq<string>) returns (lines: seq<string>)
    ensures services == [] ==> lines == [NoServicesLine]
    ensures services != [] ==>
      |lines| == (if |services| < 6 then |services| else 6)
      && forall k :: 0 <= k < |lines| ==> lines[k] == ServiceLine(k + 1, services[k])
  {
    if services == [] {
      lines := [NoServicesLine];
    } else {
      var shown := Take(services, 6);
      lines := [];
      for i := 0 to |shown|
        invariant |lines| == i
        invariant forall k :: 0 <= k < i ==> lines[k] == ServiceLine(k + 1, services[k])
      {
        lines := lines + [ServiceLine(i + 1, shown[i])];
      }
    }
  }

  /** The number on a service line reads back as its position, counted from 1. */
  lemma ServiceLineNumber(i: nat, service: string)
    ensures var n := NatToString(i);
      ServiceLine(i, service) == "   • Service " + n + ": " + service && ParseNat(n) == i
  {
    ParseNatToString(i);
  }
}
