/** Customer testimonials of one page: the validity test, the candidates gathered from
    review elements, quote elements and quoted-text pattern matches, and the removal of
    near-duplicates by word-set similarity. */
module DiscoveryTestimonials {
  import opened Text
  import opened Seqs
  import opened Patterns

  /** Literal phrases that mark a company description rather than a review. */
  const ExcludedPhrases: seq<string> := [
    "we credit our success", "about us", "our company", "quick links", "book now",
    "financing", "careers", "emergency service", "superior products that res",
    "hard-working employees"]

  /** Words a review is expected to use. */
  const ReviewIndicators: seq<string> := [
    "recommend", "excellent", "professional", "great", "satisfied",
    "outstanding", "quality", "amazing", "fantastic", "helpful",
    "installed", "service", "work", "team", "staff", "technician",
    "quick", "fast", "reliable", "trust", "experience", "pleased"]

  /** Each word in turn, each one after a non-empty run of whitespace (`\s+word...`). */
  predicate SpacedWordsAt(s: string, i: nat, ws: seq<string>)
    decreases |ws|
  {
    ws == [] ||
    var j := SkipSpaces(s, i);
    j > i && OccursAt(s, ws[0], j) && SpacedWordsAt(s, j + |ws[0]|, ws[1..])
  }

  const YearsTail: seq<string> := ["&", "are", "looking", "forward"]

  /** `years?\s+&\s+are\s+looking\s+forward` matches at i. */
  predicate YearsPhraseAt(s: string, i: nat) {
    OccursAt(s, "year", i) &&
    (SpacedWordsAt(s, i + 4, YearsTail) || (i + 4 < |s| && s[i + 4] == 's' && SpacedWordsAt(s, i + 5, YearsTail)))
  }

  predicate HasYearsPhrase(s: string) {
    exists i :: 0 <= i < |s| && YearsPhraseAt(s, i)
  }

  /** How many of the phrases occur in s. */
  function CountContained(phrases: seq<string>, s: string): (n: nat)
    ensures n <= |phrases|
  {
    if phrases == [] then 0
    else (if Contains(s, phrases[0]) then 1 else 0) + CountContained(phrases[1..], s)
  }

  /** is_valid_testimonial: the length bounds, then the exclusions, then the indicator count. */
  predicate IsValidTestimonial(text: string) {
    if text == [] || |text| < 20 || |text| > 300 then false
    else
      var low := Lower(text);
      if AnyContained(low, ExcludedPhrases) || HasYearsPhrase(low) then false
      else CountContained(ReviewIndicators, low) >= 2
  }

  /** The same test, stated declaratively: within bounds, nothing excluded, and two
      different review indicators present. */
  ghost predicate TestimonialSpec(text: string) {
    var low := Lower(text);
    20 <= |text| <= 300 && !AnyContained(low, ExcludedPhrases) && !HasYearsPhrase(low)
    && exists i, j :: 0 <= i < j < |ReviewIndicators| && Contains(low, ReviewIndicators[i])
                                                      && Contains(low, ReviewIndicators[j])
  }

  lemma {:induction false} CountAtLeastOne(phrases: seq<string>, s: string)
    ensures CountContained(phrases, s) >= 1 <==> exists i :: 0 <= i < |phrases| && Contains(s, phrases[i])
  {
    if phrases != [] {
      CountAtLeastOne(phrases[1..], s);
      if exists i :: 0 <= i < |phrases| && Contains(s, phrases[i]) {
        var i :| 0 <= i < |phrases| && Contains(s, phrases[i]);
        if i > 0 { assert phrases[1..][i - 1] == phrases[i]; }
      }
      if exists i :: 0 <= i < |phrases[1..]| && Contains(s, phrases[1..][i]) {
        var i :| 0 <= i < |phrases[1..]| && Contains(s, phrases[1..][i]);
        assert phrases[i + 1] == phrases[1..][i];
      }
    }
  }

  /** The count reaches two exactly when two different phrases occur. */
  lemma {:induction false} CountAtLeastTwo(phrases: seq<string>, s: string)
    ensures CountContained(phrases, s) >= 2 <==>
      exists i, j :: 0 <= i < j < |phrases| && Contains(s, phrases[i]) && Contains(s, phrases[j])
  {
    if phrases != [] {
      var tail := phrases[1..];
      CountAtLeastTwo(tail, s);
      CountAtLeastOne(tail, s);
      if exists i, j :: 0 <= i < j < |phrases| && Contains(s, phrases[i]) && Contains(s, phrases[j]) {
        var i, j :| 0 <= i < j < |phrases| && Contains(s, phrases[i]) && Contains(s, phrases[j]);
        assert tail[j - 1] == phrases[j];
        if i > 0 {
          assert tail[i - 1] == phrases[i];
        }
      }
      if CountContained(phrases, s) >= 2 {
        if Contains(s, phrases[0]) {
          var j :| 0 <= j < |tail| && Contains(s, tail[j]);
          assert phrases[j + 1] == tail[j];
        } else {
          var i, j :| 0 <= i < j < |tail| && Contains(s, tail[i]) && Contains(s, tail[j]);
          assert phrases[i + 1] == tail[i] && phrases[j + 1] == tail[j];
        }
      }
    }
  }

  /** The validity test is exactly the declarative one. */
  lemma ValidTestimonialIff(text: string)
    ensures IsValidTestimonial(text) <==> TestimonialSpec(text)
  {
    CountAtLeastTwo(ReviewIndicators, Lower(text));
  }

  // ---------------------------------------------------------------- candidates

  /** The first n texts that pass the test, each stripped and whitespace-collapsed. */
  function Passing(texts: seq<string>, n: nat, test: string -> bool): set<string>
    requires n <= |texts|
  {
    if n == 0 then {}
    else
      Passing(texts, n - 1, test) + (if test(texts[n - 1]) then {Normalize(texts[n - 1])} else {})
  }

  /** The test made on review and quote elements: the stripped text passes. */
  function StrippedPasses(ok: string -> bool): string -> bool {
    t => ok(Strip(t))
  }

  /** What extract_unique_testimonials collects before removing near-duplicates: the
      review and quote elements validated after stripping, the pattern matches as matched. */
  function Candidates(elements: seq<string>, quotes: seq<string>, hits: seq<string>): set<string> {
    Passing(elements, |elements|, StrippedPasses(IsValidTestimonial))
    + Passing(quotes, |quotes|, StrippedPasses(IsValidTestimonial))
    + Passing(hits, |hits|, IsValidTestimonial)
  }

  /** A candidate comes from an input that passed the test, and is stripped and collapsed. */
  lemma {:induction false} PassingSource(texts: seq<string>, n: nat, test: string -> bool, c: string)
    requires n <= |texts| && c in Passing(texts, n, test)
    ensures Normalized(c)
    ensures exists i :: 0 <= i < n && test(texts[i]) && c == Normalize(texts[i])
  {
    if c !in Passing(texts, n - 1, test) {
      assert c == Normalize(texts[n - 1]);
    } else {
      PassingSource(texts, n - 1, test, c);
    }
  }

  /** Every candidate is stripped and collapsed. */
  lemma CandidatesNormalized(elements: seq<string>, quotes: seq<string>, hits: seq<string>, c: string)
    requires c in Candidates(elements, quotes, hits)
    ensures Normalized(c)
  {
    var test := StrippedPasses(IsValidTestimonial);
    if c in Passing(elements, |elements|, test) {
      PassingSource(elements, |elements|, test, c);
    } else if c in Passing(quotes, |quotes|, test) {
      PassingSource(quotes, |quotes|, test, c);
    } else {
      PassingSource(hits, |hits|, IsValidTestimonial, c);
    }
  }

  /** One loop over element texts: test the stripped text, add it collapsed. */
  method AddElementTexts(texts: seq<string>, ok: string -> bool, acc: set<string>) returns (r: set<string>)
    ensures r == acc + Passing(texts, |texts|, StrippedPasses(ok))
  {
    r := acc;
    for i := 0 to |texts|
      invariant r == acc + Passing(texts, i, StrippedPasses(ok))
    {
      var text := Strip(texts[i]);
      if ok(text) {
        var cleaned := Collapse(text);
        NormalizeUnfold(texts[i]);
        r := r + {cleaned};
      }
    }
  }

  /** The candidate set, built as the page is scanned. */
  method CollectTestimonials(elements: seq<string>, quotes: seq<string>, hits: seq<string>) returns (r: set<string>)
    ensures r == Candidates(elements, quotes, hits)
  {
    r := AddElementTexts(elements, IsValidTestimonial, {});
    r := AddElementTexts(quotes, IsValidTestimonial, r);
    r := AddMatches(hits, IsValidTestimonial, r);
  }

  /** The loop over pattern matches: test the text as matched, add it stripped and collapsed. */
  method AddMatches(hits: seq<string>, ok: string -> bool, acc: set<string>) returns (r: set<string>)
    ensures r == acc + Passing(hits, |hits|, ok)
  {
    r := acc;
    for i := 0 to |hits|
      invariant r == acc + Passing(hits, i, ok)
    {
      var text := hits[i];
      if ok(text) {
        var cleaned := Collapse(Strip(text));
        NormalizeUnfold(hits[i]);
        r := r + {cleaned};
      }
    }
  }

  // ---------------------------------------------------------------- near-duplicates

  /** The set of lower-cased words of a text. */
  function Tokens(s: string): (r: set<string>)
    ensures forall w :: w in r ==> w != [] && NoSpace(w)
  {
    set w | w in Words(Lower(s))
  }

  /** The Jaccard similarity of the word sets exceeds 0.7, written 10·|A∩B| > 7·|A∪B|
      (the test is only made when the newer text has words). */
  predicate Similar(t: string, e: string) {
    var a := Tokens(t);
    var b := Tokens(e);
    |a| > 0 && 10 * |a * b| > 7 * |a + b|
  }

  /** A text with at least one word is similar to itself, so a repeat is always dropped. */
  lemma SimilarSelf(t: string)
    requires Tokens(t) != {}
    ensures Similar(t, t)
  {
    var a := Tokens(t);
    assert a * a == a && a + a == a;
  }

  /** Texts without a common word are never similar. */
  lemma DisjointNotSimilar(t: string, e: string)
    requires Tokens(t) * Tokens(e) == {}
    ensures !Similar(t, e)
  {
  }

  /** Similarity does not depend on which text came first. */
  lemma SimilarSymmetric(t: string, e: string)
    requires Similar(t, e)
    ensures Similar(e, t)
  {
    var a := Tokens(t);
    var b := Tokens(e);
    assert a * b == b * a && a + b == b + a;
  }

  /** The near-duplicate loop: each text is kept unless it is similar to one already kept;
      the first five kept are returned. */
  method Dedupe(xs: seq<string>) returns (r: seq<string>)
    ensures r == Take(Sieve(xs, Similar), 5)
  {
    var kept := KeepFirst(xs, Similar);
    r := Take(kept, 5);
  }

  /** What the near-duplicate removal promises: at most five texts, in input order, no two
      of them similar either way round, and every dropped text similar to an earlier one
      that was kept. */
  lemma DedupeFacts(xs: seq<string>)
    ensures var kept := Sieve(xs, Similar);
      var r := Take(kept, 5);
      |r| <= 5 && IsSubseq(r, xs)
      && (forall i, j :: 0 <= i < j < |r| ==> !Similar(r[j], r[i]) && !Similar(r[i], r[j]))
      && (forall k :: 0 <= k < |xs| && xs[k] !in kept ==>
            exists j :: 0 <= j < k && xs[j] in kept && Similar(xs[k], xs[j]))
  {
    var kept := Sieve(xs, Similar);
    var n := if |kept| < 5 then |kept| else 5;
    SieveSubseq(xs, Similar);
    SubseqPrefix(kept, xs, n);
    SievePairwise(xs, Similar);
    SieveDropJustified(xs, Similar);
    forall i, j | 0 <= i < j < n ensures !Similar(kept[j], kept[i]) && !Similar(kept[i], kept[j]) {
      if Similar(kept[i], kept[j]) { SimilarSymmetric(kept[i], kept[j]); }
    }
  }

  /** What extract_unique_testimonials returns for the given texts: the first five of some
      listing of the candidates after similarity suppression. */
  ghost predicate TestimonialsFor(elements: seq<string>, quotes: seq<string>, hits: seq<string>, r: seq<string>) {
    && |r| <= 5
    && (forall t :: t in r ==> t in Candidates(elements, quotes, hits) && Normalized(t))
    && (forall i, j :: 0 <= i < j < |r| ==> !Similar(r[i], r[j]) && !Similar(r[j], r[i]))
    && exists order: seq<string> ::
         (Distinct(order)
          && (forall t :: t in order <==> t in Candidates(elements, quotes, hits))
          && r == Take(Sieve(order, Similar), 5))
  }

  /** extract_unique_testimonials: collect, list the set in some order, remove near-duplicates. */
  method ExtractUniqueTestimonials(elements: seq<string>, quotes: seq<string>, hits: seq<string>)
    returns (r: seq<string>)
    ensures |r| <= 5
    ensures forall t :: t in r ==> t in Candidates(elements, quotes, hits) && Normalized(t)
    ensures forall i, j :: 0 <= i < j < |r| ==> !Similar(r[i], r[j]) && !Similar(r[j], r[i])
    ensures exists order: seq<string> ::
      (Distinct(order)
       && (forall t :: t in order <==> t in Candidates(elements, quotes, hits))
       && r == Take(Sieve(order, Similar), 5))
    ensures TestimonialsFor(elements, quotes, hits, r)
  {
    var candidates := CollectTestimonials(elements, quotes, hits);
    var order := ListOf(candidates);
    r := Dedupe(order);
    DedupeFacts(order);
    SieveMembers(order, Similar);
    forall c | c in r ensures Normalized(c) {
      CandidatesNormalized(elements, quotes, hits, c);
    }
  }
}
