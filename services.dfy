/** Services offered by the company, read off headings, navigation, list items and
    divisions of one page: cleanup of the element text, the validity test, the candidate
    set, and the final list (sorted, with substring-overlapping entries suppressed,
    capped at six, or a fixed list chosen by domain keyword when nothing survives). */
module DiscoveryServices {
  import opened Text
  import opened Seqs
  import opened Patterns
  import opened Order

  // ---------------------------------------------------------------- clean_service_text

  /** Remove `^(Service\s*\d*:?\s*)`, ignoring case: "service", then greedily spaces,
      digits, one colon, spaces. */
  function StripServicePrefix(s: string): (r: string)
    ensures |r| <= |s| && r == s[|s| - |r|..]
  {
    if LitAt(s, "service", 0) then
      var a := SkipSpaces(s, 7);
      var b := SkipDigits(s, a);
      var c := if b < |s| && s[b] == ':' then b + 1 else b;
      s[SkipSpaces(s, c)..]
    else s
  }

  /** The class `[•\-\*\d\.\s]` of list markers. */
  predicate IsBulletChar(c: char) {
    c == '•' || c == '-' || c == '*' || IsDigit(c) || c == '.' || IsSpace(c)
  }

  /** Remove `^[•\-\*\d\.\s]+`: the leading run of list markers. */
  function StripBullets(s: string): (r: string)
    ensures |r| <= |s| && r == s[|s| - |r|..]
    ensures forall k :: 0 <= k < |s| - |r| ==> IsBulletChar(s[k])
    ensures r != [] ==> !IsBulletChar(r[0])
  {
    s[SkipWhile(s, 0, IsBulletChar)..]
  }

  /** The lazy `.*?(?:AM|PM)` from p: the end of the first "am" or "pm" (any case) at or
      after p that is reached without crossing a line break. */
  function MeridiemEnd(s: string, p: nat): (e: Option<nat>)
    ensures e.Some? ==> p + 2 <= e.value <= |s|
    decreases |s| - p
  {
    if LitAt(s, "am", p) || LitAt(s, "pm", p) then Some(p + 2)
    else if p < |s| && s[p] != '\n' then MeridiemEnd(s, p + 1)
    else None
  }

  /** The match of `Mon\s*[–-]\s*Fri.*?(?:AM|PM)` (ignoring case) starting at i. */
  function DayRangeMatch(s: string, i: nat): Option<nat> {
    if !LitAt(s, "mon", i) then None
    else
      var j := SkipSpaces(s, i + 3);
      if j < |s| && (s[j] == '–' || s[j] == '-') then
        var k := SkipSpaces(s, j + 1);
        if LitAt(s, "fri", k) then MeridiemEnd(s, k + 3) else None
      else None
  }

  /** `\d{n}:\d{2}\s*(?:AM|PM)` at i: the end of the match, if any. */
  function ClockWith(s: string, i: nat, n: nat): Option<nat> {
    var colon := i + n;
    if colon + 3 <= |s| && (forall k :: i <= k < colon ==> IsDigit(s[k])) && s[colon] == ':'
       && IsDigit(s[colon + 1]) && IsDigit(s[colon + 2]) then
      var m := SkipSpaces(s, colon + 3);
      if LitAt(s, "am", m) || LitAt(s, "pm", m) then Some(m + 2) else None
    else None
  }

  /** The match of `\d{1,2}:\d{2}\s*(?:AM|PM)` (ignoring case) at i: two hour digits are
      tried before one. */
  function ClockMatch(s: string, i: nat): Option<nat> {
    var two := ClockWith(s, i, 2);
    if two.Some? then two else ClockWith(s, i, 1)
  }

  /** clean_service_text: collapse, drop a "Service N:" prefix and list markers, remove
      weekday ranges and clock times, collapse and strip again. */
  function CleanServiceText(text: string): (r: string)
    ensures Normalized(r)
    ensures |r| <= |text|
    ensures text == [] ==> r == []
  {
    if text == [] then ""
    else
      var c1 := Normalize(text);
      var c2 := StripServicePrefix(c1);
      var c3 := StripBullets(c2);
      var c4 := SubAll(c3, 0, DayRangeMatch);
      var c5 := SubAll(c4, 0, ClockMatch);
      var c6 := Collapse(c5);
      StripCollapsed(c6);
      Strip(c6)
  }

  /** Text with no "Service N:" prefix, no leading list marker, no weekday range and no
      clock time comes out as its whitespace-normalized form. */
  lemma CleanServiceTextPlain(text: string)
    requires var n := Normalize(text);
      && !LitAt(n, "service", 0)
      && (n == [] || !IsBulletChar(n[0]))
      && (forall k :: 0 <= k < |n| ==> !Hit(n, k, DayRangeMatch))
      && (forall k :: 0 <= k < |n| ==> !Hit(n, k, ClockMatch))
    ensures CleanServiceText(text) == Normalize(text)
  {
    var n := Normalize(text);
    if text != [] {
      assert StripServicePrefix(n) == n;
      assert StripBullets(n) == n by {
        if n != [] { assert SkipWhile(n, 0, IsBulletChar) == 0; }
      }
      assert SubAll(n, 0, DayRangeMatch) == n[0..] == n;
      assert SubAll(n, 0, ClockMatch) == n;
      CollapseIdentity(n);
    }
  }

  // ---------------------------------------------------------------- is_valid_service

  predicate IsPhoneSep(c: char) {
    c == '-' || c == '.' || IsSpace(c)
  }

  predicate DigitsAt(s: string, i: nat, n: nat) {
    i + n <= |s| && forall k :: i <= k < i + n ==> IsDigit(s[k])
  }

  /** `\d{3}[-.\s]?\d{4}` at d. */
  predicate LineAt(s: string, d: nat) {
    DigitsAt(s, d, 3) && (DigitsAt(s, d + 3, 4) || (d + 3 < |s| && IsPhoneSep(s[d + 3]) && DigitsAt(s, d + 4, 4)))
  }

  /** `[-.\s]?\d{3}[-.\s]?\d{4}` at c. */
  predicate AfterAreaAt(s: string, c: nat) {
    LineAt(s, c) || (c < |s| && IsPhoneSep(s[c]) && LineAt(s, c + 1))
  }

  /** `\d{3}\)?[-.\s]?...` at a. */
  predicate AreaAt(s: string, a: nat) {
    DigitsAt(s, a, 3) && (AfterAreaAt(s, a + 3) || (a + 3 < |s| && s[a + 3] == ')' && AfterAreaAt(s, a + 4)))
  }

  /** `\(?\d{3}\)?[-.\s]?\d{3}[-.\s]?\d{4}` matches at i (every optional part tried both ways). */
  predicate PhoneAt(s: string, i: nat) {
    AreaAt(s, i) || (i < |s| && s[i] == '(' && AreaAt(s, i + 1))
  }

  predicate HasPhoneLike(s: string) {
    exists i :: 0 <= i < |s| && PhoneAt(s, i)
  }

  predicate IsAsciiAlnum(c: char) {
    IsAlpha(c) || IsDigit(c)
  }

  predicate IsLocalChar(c: char) {
    IsAsciiAlnum(c) || c == '.' || c == '_' || c == '%' || c == '+' || c == '-'
  }

  predicate IsDomainChar(c: char) {
    IsAsciiAlnum(c) || c == '.' || c == '-'
  }

  /** `[a-zA-Z0-9.-]+\.[a-zA-Z]{2,}` after the '@' at k, with its last dot at m. */
  predicate DomainAt(s: string, k: nat, m: nat) {
    k + 1 < m < |s| - 2 && (forall q :: k + 1 <= q < m ==> IsDomainChar(s[q]))
    && s[m] == '.' && IsAlpha(s[m + 1]) && IsAlpha(s[m + 2])
  }

  /** `[a-zA-Z0-9._%+-]+@[a-zA-Z0-9.-]+\.[a-zA-Z]{2,}` matches with its '@' at k. */
  predicate EmailAt(s: string, k: nat) {
    0 < k < |s| && s[k] == '@' && IsLocalChar(s[k - 1]) && exists m :: k + 1 < m < |s| - 2 && DomainAt(s, k, m)
  }

  predicate HasEmailLike(s: string) {
    exists k :: 0 <= k < |s| && EmailAt(s, k)
  }

  /** `^[\d\s\-\(\)]+$`: digits, whitespace, dashes and parentheses only. */
  predicate NumericJunk(s: string) {
    s != [] && forall k :: 0 <= k < |s| ==> IsDigit(s[k]) || IsSpace(s[k]) || s[k] == '-' || s[k] == '(' || s[k] == ')'
  }

  /** is_valid_service: at least three characters, no phone number or e-mail address
      inside, not a link or path, not only digits and punctuation. */
  predicate IsValidService(text: string) {
    && |text| >= 3
    && !HasPhoneLike(text)
    && !HasEmailLike(text)
    && !(StartsWith(text, "http") || StartsWith(text, "/") || StartsWith(text, "www.") || StartsWith(text, "https"))
    && !NumericJunk(text)
  }

  /** Anything holding ten consecutive digits (an unformatted phone number) is rejected. */
  lemma PhoneNumberRejected(text: string, i: nat)
    requires DigitsAt(text, i, 10)
    ensures !IsValidService(text)
  {
    assert DigitsAt(text, i + 3, 3) && DigitsAt(text, i + 6, 4);
    assert PhoneAt(text, i);
  }

  /** Letters and spaces, starting with a letter, at least three long and not starting with
      "http": such a text is a valid service name. */
  lemma PlainWordsAccepted(text: string)
    requires |text| >= 3 && IsAlpha(text[0]) && !StartsWith(text, "http")
    requires forall k :: 0 <= k < |text| ==> IsAlpha(text[k]) || text[k] == ' '
    ensures IsValidService(text)
  {
    assert !HasPhoneLike(text) by {
      forall i | 0 <= i < |text| ensures !PhoneAt(text, i) {
        assert !IsDigit(text[i]);
      }
    }
    assert !HasEmailLike(text) by {
      forall k | 0 <= k < |text| ensures !EmailAt(text, k) {
        assert text[k] != '@';
      }
    }
    assert !StartsWith(text, "/") by { assert text[0] != '/'; }
    assert !StartsWith(text, "www.") by {
      if |text| >= 4 { assert text[..4][3] == text[3]; }
    }
    assert !StartsWith(text, "https") by {
      if |text| >= 5 { assert text[..5][..4] == text[..4]; }
    }
    assert !NumericJunk(text) by { assert !IsDigit(text[0]); }
  }

  // ---------------------------------------------------------------- extract_services_dynamically

  /** Words that mark an element text as describing a service. */
  const ServiceKeywords: seq<string> := [
    "solution", "service", "product", "offering", "platform",
    "technology", "consulting", "analytics", "intelligence",
    "ai", "data", "machine learning", "automation", "optimization",
    "installation", "repair", "maintenance", "hvac", "heating",
    "cooling", "air conditioning", "furnace", "plumbing",
    "development", "engineering", "cloud", "mobile", "web"]

  /** One element: its stripped text must be 3 to 80 characters and mention a keyword;
      the cleaned text is kept when it is valid and 6 to 59 characters long. */
  function ServiceCandidate(raw: string): (r: Option<string>)
    ensures r.Some? ==> IsValidService(r.value) && 5 < |r.value| < 60 && Normalized(r.value)
  {
    var t := Strip(raw);
    if |t| < 3 || |t| > 80 then None
    else if !AnyContained(Lower(t), ServiceKeywords) then None
    else
      var c := CleanServiceText(t);
      if c != [] && IsValidService(c) && 5 < |c| < 60 then Some(c) else None
  }

  /** An element text is accepted exactly when its stripped form passes the length and keyword
      gates and its cleaned form is a valid service of 6 to 59 characters; the service is the cleaned form. */
  lemma ServiceCandidateAccepts(raw: string)
    ensures ServiceCandidate(raw).Some? <==> var t := Strip(raw);
      3 <= |t| <= 80 && AnyContained(Lower(t), ServiceKeywords)
      && IsValidService(CleanServiceText(t)) && 5 < |CleanServiceText(t)| < 60
    ensures ServiceCandidate(raw).Some? ==> ServiceCandidate(raw) == Some(CleanServiceText(Strip(raw)))
  {
  }

  /** The accepted values among the first n elements. */
  function Accepted(texts: seq<string>, n: nat, f: string -> Option<string>): set<string>
    requires n <= |texts|
  {
    if n == 0 then {}
    else Accepted(texts, n - 1, f) + (if f(texts[n - 1]).Some? then {f(texts[n - 1]).value} else {})
  }

  /** Every accepted value is what f made of one of the elements. */
  lemma {:induction false} AcceptedSource(texts: seq<string>, n: nat, f: string -> Option<string>, c: string)
    requires n <= |texts| && c in Accepted(texts, n, f)
    ensures exists i :: 0 <= i < n && f(texts[i]) == Some(c)
  {
    if c !in Accepted(texts, n - 1, f) {
      assert f(texts[n - 1]) == Some(c);
    } else {
      AcceptedSource(texts, n - 1, f, c);
    }
  }

  /** The candidate set of a page. */
  function ServiceSet(texts: seq<string>): set<string> {
    Accepted(texts, |texts|, ServiceCandidate)
  }

  /** Every candidate passes the validity test and the length bounds. */
  lemma ServiceSetValid(texts: seq<string>, c: string)
    requires c in ServiceSet(texts)
    ensures IsValidService(c) && 5 < |c| < 60 && Normalized(c)
  {
    AcceptedSource(texts, |texts|, ServiceCandidate, c);
  }

  /** The loop that fills the `services` set. */
  method CollectServices(texts: seq<string>, f: string -> Option<string>) returns (r: set<string>)
    ensures r == Accepted(texts, |texts|, f)
  {
    r := {};
    for i := 0 to |texts|
      invariant r == Accepted(texts, i, f)
    {
      var c := f(texts[i]);
      if c.Some? {
        r := r + {c.value};
      }
    }
  }

  /** One service duplicates another when either lower-cased text contains the other. */
  predicate Overlap(s: string, e: string) {
    Contains(Lower(e), Lower(s)) || Contains(Lower(s), Lower(e))
  }

  const HvacServices: seq<string> := ["HVAC Services", "Heating & Cooling", "Equipment Installation"]
  const TechServices: seq<string> := ["Software Development", "AI & ML Solutions", "Cloud Services"]
  const GenericServices: seq<string> := ["Professional Services", "Business Solutions", "Customer Support"]

  /** The list used when no service survives, chosen by keywords of the lower-cased host
      name: HVAC words first, then technology words, else a generic list. */
  function FallbackServices(netloc: string): (r: seq<string>)
    ensures r == HvacServices <==> AnyContained(Lower(netloc), ["hvac", "heating", "cooling", "air", "belred"])
    ensures r == TechServices <==> !AnyContained(Lower(netloc), ["hvac", "heating", "cooling", "air", "belred"])
                                   && AnyContained(Lower(netloc), ["fission", "tech", "labs"])
    ensures r == HvacServices || r == TechServices || r == GenericServices
  {
    var d := Lower(netloc);
    if AnyContained(d, ["hvac", "heating", "cooling", "air", "belred"]) then HvacServices
    else if AnyContained(d, ["fission", "tech", "labs"]) then
      assert TechServices[0] != HvacServices[0];
      TechServices
    else
      assert GenericServices[0] != HvacServices[0] && GenericServices[0] != TechServices[0];
      GenericServices
  }

  /** What extract_services_dynamically returns for the given element texts: with candidates,
      the first six of a strictly sorted listing of them after overlap suppression, each valid;
      without, the domain's fallback list. */
  ghost predicate ServicesFor(netloc: string, texts: seq<string>, r: seq<string>) {
    && 1 <= |r| <= 6
    && (ServiceSet(texts) == {} ==> r == FallbackServices(netloc))
    && (ServiceSet(texts) != {} ==>
          (forall s :: s in r ==> s in ServiceSet(texts) && IsValidService(s) && 5 < |s| < 60)
          && exists xs :: StrictlySorted(xs) && (forall x :: x in xs <==> x in ServiceSet(texts))
                          && r == Take(Sieve(xs, Overlap), 6))
  }

  /** extract_services_dynamically. With candidates, the result is the first six of the
      sorted candidates after suppressing each one that overlaps an earlier kept one; it is
      sorted, overlap-free, drawn from the candidates, and misses no candidate unless six
      were kept. Without candidates it is the domain's fallback list. Never empty. */
  method ExtractServices(netloc: string, texts: seq<string>) returns (r: seq<string>)
    ensures 1 <= |r| <= 6
    ensures ServiceSet(texts) == {} ==> r == FallbackServices(netloc)
    ensures ServiceSet(texts) != {} ==>
      (forall s :: s in r ==> s in ServiceSet(texts) && IsValidService(s) && 5 < |s| < 60)
      && StrictlySorted(r)
      && (forall i, j :: 0 <= i < j < |r| ==> !Overlap(r[i], r[j]))
      && (|r| < 6 ==> forall c :: c in ServiceSet(texts) ==> c in r || exists s :: s in r && Overlap(c, s))
    ensures ServiceSet(texts) != {} ==>
      (|r| < 6 ==> forall c :: c in ServiceSet(texts) && c !in r ==> exists s :: s in r && Lt(s, c) && Overlap(c, s))
    ensures ServiceSet(texts) != {} ==>
      exists xs :: StrictlySorted(xs) && (forall x :: x in xs <==> x in ServiceSet(texts))
                   && r == Take(Sieve(xs, Overlap), 6)
    ensures ServicesFor(netloc, texts, r)
  {
    var services := CollectServices(texts, ServiceCandidate);
    var sorted := SortStrings(services);
    var kept := KeepFirst(sorted, Overlap);
    if kept != [] {
      r := Take(kept, 6);
    } else {
      assert services == {} by {
        if services != {} {
          var x :| x in services;
          assert x in sorted;
          SieveFirst(sorted, Overlap);
          assert false;
        }
      }
      r := FallbackServices(netloc);
      return;
    }
    assert services != {};
    SortedServicesFacts(sorted);
    assert StrictlySorted(sorted) && (forall x :: x in sorted <==> x in ServiceSet(texts))
           && r == Take(Sieve(sorted, Overlap), 6);
    forall s | s in r ensures IsValidService(s) && 5 < |s| < 60 {
      ServiceSetValid(texts, s);
    }
  }

  /** What the suppression loop and the cap make of a strictly sorted list. */
  lemma SortedServicesFacts(sorted: seq<string>)
    requires StrictlySorted(sorted)
    ensures var r := Take(Sieve(sorted, Overlap), 6);
      (forall s :: s in r ==> s in sorted)
      && StrictlySorted(r)
      && (forall i, j :: 0 <= i < j < |r| ==> !Overlap(r[i], r[j]))
      && (|r| < 6 ==> forall c :: c in sorted ==> c in r || exists s :: s in r && Overlap(c, s))
      && (|r| < 6 ==> forall c :: c in sorted && c !in r ==> exists s :: s in r && Lt(s, c) && Overlap(c, s))
  {
    var kept := Sieve(sorted, Overlap);
    var r := Take(kept, 6);
    SieveMembers(sorted, Overlap);
    SievePairwise(sorted, Overlap);
    assert Ordered(sorted, Lt);
    SieveKeepsOrder(sorted, Overlap, Lt);
    assert forall i, j :: 0 <= i < j < |r| ==> r[i] == kept[i] && r[j] == kept[j];
    if |r| < 6 {
      assert r == kept;
      SieveDropJustified(sorted, Overlap);
      forall c | c in sorted && c !in r ensures exists s :: s in r && Lt(s, c) && Overlap(c, s) {
        var k :| 0 <= k < |sorted| && sorted[k] == c;
        var j :| 0 <= j < k && sorted[j] in kept && Overlap(sorted[k], sorted[j]);
        assert Lt(sorted[j], sorted[k]);
      }
    }
  }
}
