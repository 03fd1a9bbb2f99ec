# Business consultant pipeline: a verified Dafny model

This project models the deterministic core of a three-agent business-consultant pipeline.

- **Discovery agent.** It reads a company's web pages and extracts:
  - the company name, by a cascade: domain table, logo alt text, page title, domain label;
  - one street address, by a three-tier search;
  - one business-hours string;
  - canonical phone numbers;
  - social-media links;
  - validated and deduplicated customer testimonials;
  - cleaned, validated and deduplicated service names.

  It then merges the landing page and its `/about` page into one record.
- **Campaign agent.** It classifies the industry from the service names. It splits a 1000 budget over Google, LinkedIn and Facebook ads, with integer click estimates, and picks a per-industry metrics table.
- **Consultant agent.** It:
  - picks an industry context;
  - retries the language-model request up to three times and accepts the first reply longer than 300 characters once stripped;
  - otherwise falls back to a company-specific template;
  - formats the report's service portfolio and analysis lines.

Modules, one or more per area of the source:

- `Text`, `Seqs`, `Order`, `Patterns` model the pieces of Python's `str`, `list`, `sorted` and `re` that the core uses.
- `DiscoveryCompany`, `DiscoveryContact`, `DiscoveryTestimonials`, `DiscoveryServices` and `DiscoveryRun` model `agents/discovery.py`.
- `Campaign` models `agents/campaign.py`.
- `Creative` models `agents/creative.py`.

Working rules:

- **Pure code stays pure.** The pure decision code becomes functions with contracts.
- **Loops stay loops.** The loops of the source become methods proved against specification functions:
  - the testimonial and service collection;
  - the similarity and overlap dedupe;
  - the social-link loop;
  - the page-merge loop of `run`;
  - the retry loop;
  - the report's line loops.
- **Supplied inputs.** The regexes that find candidates are not modelled: email, phone groups, address, hours, quoted testimonials and social URLs. Their matches are inputs, in match order. The HTML parser is not modelled either: element texts, alt texts and the title come in as sequences.

Points where the model states something the plain reading of the code may hide:

- **Substring matching hits unintended words.**
  - The consultant's HVAC term `ac` matches any service name containing `ac`, such as "Accounting".
  - The `ai` term of both classifiers matches "repair", "maintenance" or "email".
  - These are the source's own substring semantics, and the model keeps them.
- **Validation before collapse.** A testimonial is validated on the stripped text before whitespace is collapsed. So its length bound of 20 to 300 applies to the uncollapsed text.
- **No re-deduplication in the merge.** The page merge in `run` adds a service or testimonial by exact membership only. It does not re-apply the Jaccard similarity or the substring overlap across pages.
- **Social links overwrite.** Social links from a later page overwrite those of an earlier one.
- **Two general analyses.** A non-dict input to the campaign agent gets a shorter general audience and keyword list than a dict classified as general.
- **Jaccard threshold in integers.** The Jaccard threshold `len(A & B) / len(A | B) > 0.7` is modelled as `10·|A∩B| > 7·|A∪B|`. For the word counts a 300-character testimonial can have, the float comparison and the integer one agree.

## Model

| member | source | states |
|---|---|---|
| Text.Lower | agents/discovery.py:9 | `str.lower()` on ASCII letters: same length, each character lower-cased, others unchanged |
| Text.Strip | agents/discovery.py:47 | `str.strip()`: the result has no whitespace at either end, is no longer than the input, and leaves an already stripped string unchanged |
| Text.TrimStartAt | agents/discovery.py:47 | `lstrip()` removes exactly the leading whitespace run: any prefix of whitespace followed by a non-space character or the end is what goes |
| Text.TrimEndAt | agents/discovery.py:47 | `rstrip()` removes exactly the trailing whitespace run |
| Text.NonSpaceStrip | agents/discovery.py:47 | stripping keeps exactly the non-space characters |
| Text.StripSlice | agents/discovery.py:76 | what `strip()` removes is whitespace only, from the two ends, and what remains is a slice of the input |
| Text.Collapse | agents/discovery.py:129 | `re.sub(r'\s+', ' ', s)`: whitespace is left only as single spaces, the result is no longer, empty exactly when the input is, and starts with whitespace exactly when the input does (each run becoming exactly one space is CollapseSplit) |
| Text.CollapseSpaceRun | agents/discovery.py:129 | a leading whitespace run becomes exactly one space |
| Text.CollapsePrefix | agents/discovery.py:129 | a leading whitespace-free part is kept as it is |
| Text.CollapseSplit | agents/discovery.py:129 | a word, a whitespace run and the rest collapse to the word, exactly one space and the collapsed rest: word boundaries are kept and nothing else of the run survives |
| Text.CollapseKeepsText | agents/discovery.py:129 | collapsing whitespace keeps exactly the non-space characters |
| Text.CollapseIdentity | agents/discovery.py:129 | a string whose whitespace is already single spaces is left unchanged |
| Text.Normalize | agents/discovery.py:129 | `re.sub(r'\s+', ' ', s.strip())`: the result is stripped and has single-space whitespace only (word boundaries are NormalizeSplit) |
| Text.NormalizeSplit | agents/discovery.py:129 | a word, a whitespace run and further text normalise to the word, exactly one space and the normalised rest |
| Text.StripCollapsed | agents/discovery.py:273 | stripping a collapsed string leaves it stripped and collapsed |
| Text.NormalizeKeepsText | agents/discovery.py:215 | normalising keeps exactly the non-space characters |
| Text.NormalizeIdempotent | agents/discovery.py:215 | normalising twice is normalising once |
| Text.Words | agents/discovery.py:226 | `str.split()`: every word is non-empty and free of whitespace (what the words are is WordsJoin) |
| Text.WordsFromJoin | agents/discovery.py:226 | the words from a position on, joined by single spaces, are the normalised rest of the text |
| Text.WordsJoin | agents/discovery.py:226 | `' '.join(s.split())` is the normalised text: the words are the text's maximal whitespace-free runs, in order |
| Text.RemoveAll | agents/discovery.py:9 | `str.replace(pat, '')`: the result is no longer than the input, and a string without the pattern is unchanged (what is deleted is RemoveAllLeftmost) |
| Text.RemoveAllPrefix | agents/discovery.py:9 | a leading part in which no occurrence starts is kept unchanged |
| Text.RemoveAllLeftmost | agents/discovery.py:9 | the text before the leftmost occurrence is kept, the occurrence is deleted, and removal resumes after it: non-overlapping occurrences, left to right |
| Text.SplitOn | agents/creative.py:272 | `str.split('\n')`: at least one part, no part contains the separator, and joining the parts with it gives the input back |
| Text.TitleCase | agents/discovery.py:67 | `str.title()` on ASCII: same length; a letter is upper-cased when the character before it is not a letter and lower-cased otherwise |
| Text.TitleCaseSameLetters | agents/discovery.py:67 | title-casing changes letter case only: the lower-cased result equals the lower-cased input |
| Text.NatToString | agents/creative.py:261 | decimal rendering of a natural number: digits only, no leading zero |
| Text.ParseNatToString | agents/creative.py:261 | the rendering reads back as the same number |
| Seqs.FirstSome | agents/discovery.py:75-82 | the first element a checker accepts: None exactly when every element is rejected, otherwise the value of the first accepted one |
| Seqs.Sieve | agents/discovery.py:222-236 | keep-first dedupe: the kept list is no longer than the input |
| Seqs.SieveSubseq | agents/discovery.py:222-236 | the kept entries form a subsequence of the input |
| Seqs.SieveMembers | agents/discovery.py:222-236 | every kept entry comes from the input |
| Seqs.SieveFirst | agents/discovery.py:222-236 | the first element of a non-empty input is always kept |
| Seqs.SievePrefix | agents/discovery.py:222-236 | deduplicating a prefix yields a prefix of the result |
| Seqs.SievePairwise | agents/discovery.py:222-236 | no kept entry clashes with an earlier kept entry |
| Seqs.SieveDropJustified | agents/discovery.py:222-236 | every dropped entry clashes with an earlier kept entry, so the earlier entry is the one kept |
| Seqs.SieveKeepsOrder | agents/discovery.py:324-334 | an input in some order gives a kept list in the same order |
| Seqs.Take | agents/discovery.py:239 | `xs[:n]`: a prefix of length min(n, len(xs)) |
| Seqs.ClashesWithKept | agents/discovery.py:224-233 | the inner scan with `break` reports a clash exactly when some kept entry clashes |
| Seqs.KeepFirst | agents/discovery.py:220-236 | the outer append loop computes the keep-first dedupe |
| Seqs.ListOf | agents/discovery.py:219 | `list(set)`: every element exactly once, order left open |
| Order.LtIrreflexive | agents/discovery.py:324 | string order is irreflexive |
| Order.LtTransitive | agents/discovery.py:324 | string order is transitive |
| Order.LtTotal | agents/discovery.py:324 | two different strings are ordered one way or the other |
| Order.SortStrings | agents/discovery.py:324 | `sorted(list(set))`: strictly increasing, exactly the set's members |
| Patterns.SkipWhile | agents/discovery.py:269-270 | a greedy character-class run: every skipped character is in the class, the stopping one is not |
| Patterns.SubAll | agents/discovery.py:49 | `re.sub` with a never-empty pattern: never longer than the input, identity when the pattern matches nowhere (what is deleted is SubAllLeftmost) |
| Patterns.SubAllLeftmost | agents/discovery.py:49 | the text before the leftmost match is kept, the match is deleted, and the scan resumes where it ends |
| Patterns.TailCut | agents/discovery.py:57-60 | `re.sub` with a `\s*X...$` pattern: either no match and the input unchanged, or the input cut at the leftmost match |
| Patterns.TailCutFacts | agents/discovery.py:57-60 | cutting a right-stripped title leaves it right-stripped and a prefix of the original |
| DiscoveryCompany.CompanyFromDomain | agents/discovery.py:7-28 | a name exactly when the host (lower-cased, `www.` removed) is in the table or contains `belred` or `fission`; a table hit gives the table entry; otherwise `belred` gives "Belred", else `fission` gives "Fission Labs" |
| DiscoveryCompany.CompanyFromDomainNormalises | agents/discovery.py:9 | the override ignores letter case and a leading `www.` |
| DiscoveryCompany.RemoveLogoWordNoop | agents/discovery.py:48-49 | removing `\s*logo\s*` from a text without "logo" changes nothing |
| DiscoveryCompany.AltName | agents/discovery.py:47-51 | an alt text is accepted exactly when, stripped, it is 3 to 49 characters long without "logo", and the name is the stripped text |
| DiscoveryCompany.CleanTitle | agents/discovery.py:55-60 | the four tail cuts applied in order to the stripped title, each at its leftmost match; the result is a stripped prefix of the stripped title |
| DiscoveryCompany.TitleName | agents/discovery.py:62-63 | the title is used exactly when the cleaned title is 4 to 49 characters long, and then it is the cleaned title |
| DiscoveryCompany.FallbackName | agents/discovery.py:65-67 | the title-cased first label of the host with `www.` removed; it has no dot |
| DiscoveryCompany.CompanyName | agents/discovery.py:30-67 | the domain override wins; otherwise the first accepted alt text in selector order; otherwise the cleaned title when it is accepted; otherwise the fallback |
| DiscoveryContact.ExtractRealAddress | agents/discovery.py:69-113 | None exactly when all three tiers reject every candidate; a result is stripped and within a tier's bounds; the first accepted section when there is one, else the first accepted itemprop text, else the first accepted page match, which is junk-free and 26 to 119 characters long |
| DiscoveryContact.ExtractBusinessHours | agents/discovery.py:115-141 | None exactly when every match is rejected; a result is collapsed, junk-free, 11 to 79 characters long, and the first accepted match |
| DiscoveryContact.FormatPhone | agents/discovery.py:361-362 | every phone has the shape `(ddd) ddd-dddd` |
| DiscoveryContact.PhoneRoundTrip | agents/discovery.py:362 | the captured groups read back from the formatted phone, and every canonical phone is the rendering of its groups |
| DiscoveryContact.PagePhones | agents/discovery.py:361-362 | the page's phone set: all canonical, every match present, every phone is the rendering of some match |
| DiscoveryContact.WithScheme | agents/discovery.py:257-259 | the link starts with `http://` or `https://`; one that already did is unchanged, others get `https://` in front |
| DiscoveryContact.ExtractSocialMedia | agents/discovery.py:241-262 | a platform is a key exactly when its pattern matched; its link is the first match given a scheme |
| DiscoveryTestimonials.CountAtLeastTwo | agents/discovery.py:175-176 | the indicator count is at least 2 exactly when two different indicators occur |
| DiscoveryTestimonials.ValidTestimonialIff | agents/discovery.py:143-176 | IsValidTestimonial holds exactly when the length is 20 to 300, no excluded phrase occurs, and at least two different review indicators occur in the lower-cased text |
| DiscoveryTestimonials.PassingSource | agents/discovery.py:186-216 | a candidate is the normalised form of an input that passed its test (the stripped text for elements, the match as matched for the pattern) |
| DiscoveryTestimonials.CandidatesNormalized | agents/discovery.py:189-215 | every collected testimonial is stripped and whitespace-collapsed |
| DiscoveryTestimonials.AddElementTexts | agents/discovery.py:186-198 | the review and quote loops add exactly the collapsed forms of the texts whose stripped form is valid |
| DiscoveryTestimonials.AddMatches | agents/discovery.py:206-216 | the pattern loop adds exactly the normalised valid matches |
| DiscoveryTestimonials.CollectTestimonials | agents/discovery.py:180-216 | the collection loops build exactly the candidate set |
| DiscoveryTestimonials.Tokens | agents/discovery.py:226-227 | a text's word set holds non-empty, whitespace-free words (the words of the lower-cased text, by WordsJoin) |
| DiscoveryTestimonials.SimilarSelf | agents/discovery.py:229-232 | a text with a word is similar to itself, so a repeat is dropped |
| DiscoveryTestimonials.DisjointNotSimilar | agents/discovery.py:229-232 | texts with no word in common are not similar |
| DiscoveryTestimonials.SimilarSymmetric | agents/discovery.py:226-231 | the similarity test is symmetric |
| DiscoveryTestimonials.Dedupe | agents/discovery.py:219-239 | the dedupe loop keeps the first of similar entries and returns at most five |
| DiscoveryTestimonials.DedupeFacts | agents/discovery.py:219-239 | at most five entries, a subsequence of the input, no two similar either way, every dropped entry similar to an earlier kept one |
| DiscoveryTestimonials.ExtractUniqueTestimonials | agents/discovery.py:178-239 | at most five normalised candidates, no two similar, equal to the dedupe of some listing of the candidate set |
| DiscoveryServices.StripBullets | agents/discovery.py:270 | `^[•\-\*\d\.\s]+` removed: only bullet characters go, and the rest does not start with one |
| DiscoveryServices.CleanServiceText | agents/discovery.py:264-275 | the cleaned service is stripped, single-spaced and no longer than the input; empty input gives "" |
| DiscoveryServices.CleanServiceTextPlain | agents/discovery.py:264-275 | a text with no "Service N:" prefix, no leading list marker, no weekday range and no clock time cleans to its whitespace-normalised form |
| DiscoveryServices.PhoneNumberRejected | agents/discovery.py:281-282 | a text holding ten consecutive digits is not a valid service |
| DiscoveryServices.PlainWordsAccepted | agents/discovery.py:277-293 | letters and spaces, starting with a letter, at least 3 long and not starting with "http": a valid service |
| DiscoveryServices.ServiceCandidate | agents/discovery.py:302-321 | an accepted element text yields a valid service of 6 to 59 characters, collapsed |
| DiscoveryServices.ServiceCandidateAccepts | agents/discovery.py:302-321 | an element text is accepted exactly when its stripped form is 3 to 80 characters with a service keyword and its cleaned form is a valid service of 6 to 59 characters; the service is that cleaned form |
| DiscoveryServices.AcceptedSource | agents/discovery.py:302-321 | every collected service comes from some element |
| DiscoveryServices.ServiceSetValid | agents/discovery.py:320-321 | every collected service is valid, 6 to 59 characters and collapsed |
| DiscoveryServices.CollectServices | agents/discovery.py:296-322 | the element loop builds exactly the accepted set |
| DiscoveryServices.FallbackServices | agents/discovery.py:338-347 | the HVAC list exactly when the host has an HVAC term, else the tech list exactly when it has a tech term, else the generic list |
| DiscoveryServices.ExtractServices | agents/discovery.py:295-347 | 1 to 6 entries; the fallback when nothing was collected; otherwise the first six of the sorted candidates after dropping each one that overlaps an earlier kept one: valid, sorted, overlap-free, and when fewer than six, every dropped candidate overlaps a smaller kept one |
| DiscoveryServices.SortedServicesFacts | agents/discovery.py:324-339 | overlap dedupe of a sorted list stays sorted and overlap-free, and when fewer than six are kept every dropped service overlaps an earlier, smaller kept one |
| DiscoveryRun.ExtractBusinessData | agents/discovery.py:349-389 | one page's record: name, e-mails, phones, address, hours and social links are the extractors' results; services and testimonials meet the whole contracts of their extractors (ServicesFor, TestimonialsFor) |
| DiscoveryRun.TrimRight | agents/discovery.py:400 | `rstrip('/')`: only trailing slashes are removed, a prefix is left, and it does not end in a slash |
| DiscoveryRun.TargetPages | agents/discovery.py:398-401 | the URL, then the URL without trailing slashes followed by `/about` |
| DiscoveryRun.AppendNewFacts | agents/discovery.py:426-432 | appending absent entries keeps the list repeat-free and adds exactly the accepted missing ones |
| DiscoveryRun.AppendNewOrder | agents/discovery.py:426-432 | appending keeps the old list as a prefix, and the added entries are a subsequence of the new list |
| DiscoveryRun.AppendNewSieve | agents/discovery.py:426-432 | appending to an empty list keeps the first occurrence of each accepted entry, in order |
| DiscoveryRun.AppendNewConcat | agents/discovery.py:426-432 | two rounds of appending are one round over both lists |
| DiscoveryRun.Filter | agents/discovery.py:427 | the accepted entries: exactly the members the test accepts |
| DiscoveryRun.PageServices | agents/discovery.py:426-428 | the pages' services, page after page: a service is listed exactly when some page has it |
| DiscoveryRun.PageTestimonials | agents/discovery.py:430-432 | the pages' testimonials, page after page: listed exactly when some page has it |
| DiscoveryRun.AppendAbsent | agents/discovery.py:426-432 | the append loops compute the absent-entry append |
| DiscoveryRun.MergePage | agents/discovery.py:422-437 | one page merged into all_data: the first non-empty name kept, absent valid services and absent testimonials appended, contact sets united, social links overwritten |
| DiscoveryRun.SuccessesPrefix | agents/discovery.py:411-441 | the successes of a prefix of the pages are a prefix of all successes |
| DiscoveryRun.FailedPageIgnored | agents/discovery.py:442-444 | a page that fails contributes nothing and is not counted |
| DiscoveryRun.CleanContacts | agents/discovery.py:446-448 | the cleaned contacts are the non-empty stripped forms of the merged strings |
| DiscoveryRun.Run | agents/discovery.py:391-451 | the page loop merges, in order, the successful pages up to two, then strips the contacts and caps services at 6 and testimonials at 3 |
| DiscoveryRun.FoldCompanyName | agents/discovery.py:422-424 | the merged name is the first non-empty page name |
| DiscoveryRun.FoldLists | agents/discovery.py:426-432 | merged services are each valid page service once; merged testimonials are each page testimonial once |
| DiscoveryRun.FoldOrder | agents/discovery.py:426-432 | merged services are the first occurrences of the valid page services taken page after page, merged testimonials the first occurrences of the page testimonials |
| DiscoveryRun.FoldSocialKeys | agents/discovery.py:437 | a platform is linked exactly when some page links it |
| DiscoveryRun.FoldSocial | agents/discovery.py:437 | the merged links are the pages' links applied in order |
| DiscoveryRun.SocialUpToLast | agents/discovery.py:437 | a platform linked by the first n pages takes its link from the last of them that links it |
| DiscoveryRun.FoldSocialLast | agents/discovery.py:437 | a platform's link is that of the last page linking it |
| DiscoveryRun.FoldContacts | agents/discovery.py:434-435 | merged contact sets are the unions of the pages' sets |
| DiscoveryRun.RunFacts | agents/discovery.py:411-451 | at most two pages; the first non-empty name; the first 6 valid services and the first 3 testimonials in page order, each once; contacts stripped and non-empty |
| Campaign.ClassifyIndustry | agents/campaign.py:18-30 | hvac exactly when an HVAC term occurs, else tech exactly when a tech term occurs, else general |
| Campaign.AnalyzeTargetMarket | agents/campaign.py:11-42 | a non-dict gives the fixed general analysis, whose audience differs from a dict's general audience; a dict gives its name (or the default) and the audience and keywords of its industry |
| Campaign.BudgetsTotal | agents/campaign.py:52-65 | every industry's budgets sum to 1000 |
| Campaign.Percentage | agents/campaign.py:70 | the rounded percentage is within half a point of the exact one |
| Campaign.PercentagesExact | agents/campaign.py:70-87 | every budget is an exact whole percentage of the total, and the three sum to 100 |
| Campaign.DivAntitone | agents/campaign.py:74 | dividing a budget by a larger divisor never gives more |
| Campaign.ClickRange | agents/campaign.py:74 | a click range's low end never exceeds its high end, each end being its floor quotient |
| Campaign.PlatformStrategy | agents/campaign.py:44-97 | total 1000; percentages summing to 100, each the exact share of its budget; ordered click ranges, each end the floor quotient of the budget |
| Campaign.StrategyTexts | agents/campaign.py:67-97 | Google keeps the analysis's keywords and audience; the hvac-only Google, LinkedIn and Facebook strings exactly when hvac, the other ones exactly when not, and the shared LinkedIn and Facebook strings always |
| Campaign.CalculateSuccessMetrics | agents/campaign.py:99-125 | the three awareness fields are constant, and the other four are the industry's row |
| Campaign.MetricsByIndustryOnly | agents/campaign.py:99-125 | the budget argument has no effect, and different industries get different tables |
| Creative.IndustryContext | agents/creative.py:27-34 | the HVAC context exactly when an HVAC term occurs, else the technology context exactly when a tech term occurs, else professional services |
| Creative.CompanySpecificAnalysis | agents/creative.py:142-152 | "strong" exactly when there are 3 or more social platforms; "excellent" exactly when there are 2 or more testimonials; the template matches the context |
| Creative.RequestAnalysis | agents/creative.py:76-136 | at most three attempts; a reply is the first accepted one and is longer than 300 once stripped; no reply exactly when none of the three is accepted |
| Creative.AnalyzeCompany | agents/creative.py:16-140 | the analysis is the first accepted reply among three attempts, or, exactly when there is none, the fallback analysis for the context |
| Creative.IndentLine | agents/creative.py:273-277 | a blank line becomes "", any other becomes three spaces and the stripped line |
| Creative.IndentKeepsText | agents/creative.py:273-277 | indenting changes whitespace only: stripping the output gives the stripped input |
| Creative.IndentLines | agents/creative.py:273-277 | one output line per input line, in order, each indented |
| Creative.FormatAnalysisLines | agents/creative.py:272-277 | one output line per line of the stripped analysis, in order, each indented |
| Creative.ServicePortfolio | agents/creative.py:259-264 | at most the first six services, numbered from 1; exactly one placeholder line when there are none |
| Creative.ServiceLineNumber | agents/creative.py:261 | the number shown on a service line reads back as its position |

## Left out

- HTTP:
  - `requests.get` (discovery) and `requests.post` (consultant) are not modelled, and neither are the timeouts and `time.sleep` back-offs.
  - A page is an `Option` of its extracted record. A request attempt is an `Outcome`; attempts beyond the supplied outcomes count as failures.
- HTML parsing: BeautifulSoup and its CSS and attribute selectors are not modelled. Element texts and the title text come in as sequences in document order; alt texts come selector after selector, each selector's images in document order, so one image can appear more than once.
- Regexes whose matches are inputs:
  - the email, phone, address, hours, quoted-testimonial and social-link regexes;
  - for phones, the three captured digit groups;
  - for social links, the matches of each platform's pattern over the page HTML and its hrefs.
- `urlparse`: the host name (`netloc`) is an input.
- Set order:
  - Python's set iteration order is not modelled.
  - DiscoveryTestimonials.ExtractUniqueTestimonials: states the result for some listing of the candidate set, not for one fixed order.
  - DiscoveryRun.PageData: e-mails and phones are sets.
- DiscoveryRun.Run:
  - takes each page's extracted record rather than the page. Extraction is deterministic, so extracting only the processed pages gives the same result.
  - The exception path covers fetch and parse failures before any merge. A failure inside the merge itself is not modelled.
  - The text report it renders is left out (agents/discovery.py:453-519). Its `pagesAnalyzed` field is the counter the report prints.
- Collapse: its own ensures state the shape of the result; that each whitespace run becomes exactly one space is stated by CollapseSplit, a separate lemma, because the function's own contract is used by every caller.
- Normalize: likewise, the word-boundary rule is NormalizeSplit's.
- Words: likewise, what the words are is stated by WordsJoin (`' '.join(s.split())` is the normalised text).
- RemoveAll: likewise, which occurrences go is stated by RemoveAllLeftmost.
- SubAll: likewise, which matches go is stated by SubAllLeftmost.
- ServiceCandidate: its own ensures state one direction; which texts are accepted is stated by ServiceCandidateAccepts.
- CleanServiceText: the result is stated outright only for text that none of the three substitutions touches (CleanServiceTextPlain); for other text the contract gives its shape.
- Case folding and classes: `lower()`, `title()` and `\d`/`\s` are modelled for ASCII and the Python whitespace set. Non-ASCII case mappings and Unicode digits are not.
- Patterns.TailCut users: `$` is modelled as the end of the string. The title is stripped and each cut keeps it right-stripped, so the one case where `$` also matches before a final newline does not arise.
- Campaign.Percentage: rounds the exact rational half-to-even, not the binary float `f"{x:.0f}"` formats. With the fixed budgets the value is a whole number either way.
- Campaign.PlatformStrategy: a click estimate is the pair of its bounds; the `"low-high"` string it is printed as is not built.
- Reports: the text reports of the campaign and consultant agents (agents/campaign.py:127-229, agents/creative.py:239-283 apart from the two line loops) are not modelled.
- Templates: the prompt text and the three fallback template bodies (agents/creative.py:37-73, 153-237) are not modelled.
- Clock: `datetime.now()` is not modelled.
- Logging: `print` logging is not modelled.
- Flask: the request handler in app.py is not modelled.
