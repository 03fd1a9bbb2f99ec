/** The company-name cascade of the discovery agent: a domain override table, then the
    alt text of logo/brand images, then the cleaned page title, then the first label of
    the domain, title-cased. The page supplies the alt texts (in selector order) and the
    text of its <title> element, if it has one. */
module DiscoveryCompany {
  import opened Text
  import opened Seqs
  import opened Patterns

  /** Exact domains with a fixed company name. */
  const KnownDomains: map<string, string> := map[
    "belred.com" := "Belred",
    "fissionlabs.com" := "Fission Labs",
    "microsoft.com" := "Microsoft",
    "google.com" := "Google",
    "amazon.com" := "Amazon",
    "apple.com" := "Apple"]

  /** The names the domain override can produce. */
  predicate KnownName(n: string) {
    n in KnownDomains.Values
  }

  /** The host name lower-cased, every "www." removed. */
  function DomainKey(netloc: string): string {
    RemoveAll(Lower(netloc), "www.")
  }

  /** get_company_name_from_domain: an exact table hit, else a "belred" or "fission"
      substring, else nothing. */
  function CompanyFromDomain(netloc: string): (r: Option<string>)
    ensures r.Some? <==> var d := DomainKey(netloc);
      d in KnownDomains || Contains(d, "belred") || Contains(d, "fission")
    ensures DomainKey(netloc) in KnownDomains ==> r == Some(KnownDomains[DomainKey(netloc)])
    ensures r.Some? ==> KnownName(r.value)
    ensures DomainKey(netloc) !in KnownDomains && Contains(DomainKey(netloc), "belred") ==> r == Some("Belred")
    ensures (DomainKey(netloc) !in KnownDomains && !Contains(DomainKey(netloc), "belred")
             && Contains(DomainKey(netloc), "fission")) ==> r == Some("Fission Labs")
  {
    var d := DomainKey(netloc);
    if d in KnownDomains then Some(KnownDomains[d])
    else if Contains(d, "belred") then
      assert KnownDomains["belred.com"] == "Belred";
      Some("Belred")
    else if Contains(d, "fission") then
      assert KnownDomains["fissionlabs.com"] == "Fission Labs";
      Some("Fission Labs")
    else None
  }

  lemma LowerIdempotent(s: string)
    ensures Lower(Lower(s)) == Lower(s)
  {
  }

  /** The override ignores letter case and a leading "www.". */
  lemma CompanyFromDomainNormalises(netloc: string)
    ensures CompanyFromDomain(Lower(netloc)) == CompanyFromDomain(netloc)
    ensures CompanyFromDomain("www." + netloc) == CompanyFromDomain(netloc)
  {
    LowerIdempotent(netloc);
    LowerAppend("www.", netloc);
    assert Lower("www.") == "www.";
    var s := "www." + Lower(netloc);
    assert s[..4] == "www." && s[4..] == Lower(netloc);
  }

  // ---------------------------------------------------------------- logo alt text

  /** The match of `\s*logo\s*` (ignoring case) starting at i, if any. */
  function LogoMatch(s: string, i: nat): Option<nat> {
    var j := SkipSpaces(s, i);
    if LitAt(s, "logo", j) then Some(SkipSpaces(s, j + 4)) else None
  }

  /** re.sub(r'\s*logo\s*', '', s, flags=re.IGNORECASE). */
  function RemoveLogoWord(s: string): string {
    SubAll(s, 0, LogoMatch)
  }

  /** Without "logo" in the lower-cased text the substitution removes nothing. */
  lemma RemoveLogoWordNoop(s: string)
    requires !Contains(Lower(s), "logo")
    ensures RemoveLogoWord(s) == s
  {
    forall k | 0 <= k < |s| ensures !Hit(s, k, LogoMatch) {
      var j := SkipSpaces(s, k);
      if LitAt(s, "logo", j) { LitAtLower(s, "logo", j); }
    }
    assert s[0..] == s;
  }

  /** One alt text: accepted when, stripped, it is 3 to 49 characters long and does not
      contain "logo"; the name is what is left after removing the word "logo". */
  function AltName(alt: string): (r: Option<string>)
    ensures r.Some? <==> var t := Strip(alt); 2 < |t| < 50 && !Contains(Lower(t), "logo")
    ensures r.Some? ==> r.value == Strip(alt)
  {
    var t := Strip(alt);
    if t != [] && 2 < |t| < 50 && !Contains(Lower(t), "logo") then
      var c := Strip(RemoveLogoWord(t));
      RemoveLogoWordNoop(t);
      if c != [] then Some(c) else None
    else None
  }

  // ---------------------------------------------------------------- page title

  /** `[-|–]\s*.+$` at j, `$` being the end: a dash or bar, then a tail with no line break. */
  predicate DashTail(s: string, j: nat) {
    j < |s| && (s[j] == '-' || s[j] == '|' || s[j] == '–') &&
    var w := SkipSpaces(s, j + 1);
    w < |s| && '\n' !in s[w..]
  }

  /** `\|\s*.+$` at j. */
  predicate BarTail(s: string, j: nat) {
    j < |s| && s[j] == '|' &&
    var w := SkipSpaces(s, j + 1);
    w < |s| && '\n' !in s[w..]
  }

  /** `Home\s*$` at j, ignoring case. */
  predicate HomeTail(s: string, j: nat) {
    LitAt(s, "home", j) && AllSpace(s[j + 4..])
  }

  /** `-\s*Home\s*$` at j, ignoring case. */
  predicate DashHomeTail(s: string, j: nat) {
    j < |s| && s[j] == '-' && HomeTail(s, SkipSpaces(s, j + 1))
  }

  /** One cut keeps a stripped string stripped, and leaves a prefix of it. */
  lemma TailCutStripped(s: string, q: (string, nat) -> bool)
    requires Stripped(s)
    ensures Stripped(TailCut(s, 0, q)) && StartsWith(s, TailCut(s, 0, q))
  {
    TailCutFacts(s, q);
    var r := TailCut(s, 0, q);
    assert r != [] ==> r[0] == s[0];
  }

  lemma StartsWithTrans(a: string, b: string, c: string)
    requires StartsWith(a, b) && StartsWith(b, c)
    ensures StartsWith(a, c)
  {
    assert a[..|c|] == a[..|b|][..|c|];
  }

  /** The four substitutions applied to the stripped title, in order. */
  function CleanTitle(title: string): (r: string)
    ensures Stripped(r) && StartsWith(Strip(title), r)
    ensures r == TailCut(TailCut(TailCut(TailCut(Strip(title), 0, DashTail), 0, BarTail), 0, DashHomeTail), 0, HomeTail)
  {
    var t := Strip(title);
    var a := TailCut(t, 0, DashTail);
    TailCutStripped(t, DashTail);
    var b := TailCut(a, 0, BarTail);
    TailCutStripped(a, BarTail);
    StartsWithTrans(t, a, b);
    var c := TailCut(b, 0, DashHomeTail);
    TailCutStripped(b, DashHomeTail);
    StartsWithTrans(t, b, c);
    var d := TailCut(c, 0, HomeTail);
    TailCutStripped(c, HomeTail);
    StartsWithTrans(t, c, d);
    d
  }

  /** The title tier: the cleaned title when it is 4 to 49 characters long. */
  function TitleName(title: string): (r: Option<string>)
    ensures r.Some? <==> 3 < |CleanTitle(title)| < 50
    ensures r.Some? ==> r.value == CleanTitle(title)
    ensures r.Some? ==> 3 < |r.value| < 50 && Stripped(r.value) && StartsWith(Strip(title), r.value)
  {
    var c := CleanTitle(title);
    if 3 < |c| < 50 then Some(Strip(c)) else None
  }

  // ---------------------------------------------------------------- domain fallback

  /** The first label of the host name with "www." removed (not lower-cased), title-cased. */
  function FallbackName(netloc: string): (r: string)
    ensures '.' !in r
    ensures Lower(r) == Lower(SplitOn(RemoveAll(netloc, "www."), '.')[0])
    ensures r == TitleCase(SplitOn(RemoveAll(netloc, "www."), '.')[0])
  {
    var first := SplitOn(RemoveAll(netloc, "www."), '.')[0];
    TitleCaseSameLetters(first);
    var r := TitleCase(first);
    assert forall i :: 0 <= i < |r| ==> r[i] != '.' by {
      forall i | 0 <= i < |r| ensures r[i] != '.' {
        assert first[i] != '.';
      }
    }
    r
  }

  /** extract_company_name: the first tier that yields a name wins. */
  function CompanyName(netloc: string, alts: seq<string>, title: Option<string>): (r: string)
    ensures CompanyFromDomain(netloc).Some? ==> r == CompanyFromDomain(netloc).value
    ensures CompanyFromDomain(netloc).None? ==>
      (exists i :: 0 <= i < |alts| && AltName(alts[i]) == Some(r))
      || (title.Some? && TitleName(title.value) == Some(r))
      || r == FallbackName(netloc)
    ensures KnownName(r) || (2 < |r| < 50 && Stripped(r)) || r == FallbackName(netloc)
    ensures CompanyFromDomain(netloc).None? && !NoneAccepted(alts, AltName) ==>
      FirstAccepted(alts, AltName, Some(r))
    ensures (CompanyFromDomain(netloc).None? && NoneAccepted(alts, AltName)
             && title.Some? && TitleName(title.value).Some?) ==> r == TitleName(title.value).value
    ensures (CompanyFromDomain(netloc).None? && NoneAccepted(alts, AltName)
             && (title.None? || TitleName(title.value).None?)) ==> r == FallbackName(netloc)
  {
    match CompanyFromDomain(netloc)
    case Some(n) => n
    case None =>
      match FirstSome(alts, AltName)
      case Some(a) => a
      case None =>
        if title.Some? && TitleName(title.value).Some? then TitleName(title.value).value
        else FallbackName(netloc)
  }
}
