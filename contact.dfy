/** Contact facts of one page: the street address (three tiers), the business hours,
    phone numbers in canonical form, and social-media links. The address, hours, phone
    and social regexes are not modelled: their matches are inputs, in match order. */
module DiscoveryContact {
  import opened Text
  import opened Seqs

  // ---------------------------------------------------------------- address

  /** Phrases that mark a pattern-matched address as navigation or marketing text. */
  const AddressJunk: seq<string> := [
    "emergency service", "quick links", "book now", "financing",
    "careers", "blog", "customer tools", "comfort", "care",
    "years", "looking forward", "about us", "our company"]

  /** Tier 1: the address regex matched inside a contact/address/location section. */
  function SectionAddress(m: string): Option<string> {
    var a := Strip(m);
    if 25 < |a| < 120 then Some(a) else None
  }

  /** Tier 2: the text of an element marked up with itemprop address/streetAddress. */
  function ItempropAddress(text: string): Option<string> {
    var a := Strip(text);
    if 15 < |a| < 100 && HasDigit(a) then Some(a) else None
  }

  /** Tier 3: a full-page match of the strict address patterns (the ZIP pattern's matches first). */
  function PageAddress(m: string): Option<string> {
    var a := Strip(m);
    if !AnyContained(Lower(a), AddressJunk) && 25 < |a| < 120 then Some(a) else None
  }

  /** extract_real_address: the first accepted candidate of the first tier that has one. */
  function ExtractRealAddress(sections: seq<string>, itemprops: seq<string>, matches: seq<string>): (r: Option<string>)
    ensures r.None? <==>
      (forall i :: 0 <= i < |sections| ==> SectionAddress(sections[i]).None?) &&
      (forall i :: 0 <= i < |itemprops| ==> ItempropAddress(itemprops[i]).None?) &&
      (forall i :: 0 <= i < |matches| ==> PageAddress(matches[i]).None?)
    ensures r.Some? ==> Stripped(r.value)
    ensures r.Some? ==> (25 < |r.value| < 120) || (15 < |r.value| < 100 && HasDigit(r.value))
    ensures r.Some? && (exists i :: 0 <= i < |sections| && SectionAddress(sections[i]).Some?) ==>
      exists i :: 0 <= i < |sections| && SectionAddress(sections[i]) == r
             && forall j :: 0 <= j < i ==> SectionAddress(sections[j]).None?
    ensures r.Some? && (forall i :: 0 <= i < |sections| ==> SectionAddress(sections[i]).None?)
                    && (forall i :: 0 <= i < |itemprops| ==> ItempropAddress(itemprops[i]).None?) ==>
      !AnyContained(Lower(r.value), AddressJunk) && 25 < |r.value| < 120 &&
      exists i :: 0 <= i < |matches| && PageAddress(matches[i]) == r
    ensures NoneAccepted(sections, SectionAddress) && !NoneAccepted(itemprops, ItempropAddress) ==>
      FirstAccepted(itemprops, ItempropAddress, r)
    ensures NoneAccepted(sections, SectionAddress) && NoneAccepted(itemprops, ItempropAddress)
            && !NoneAccepted(matches, PageAddress) ==>
      FirstAccepted(matches, PageAddress, r)
  {
    var t1 := FirstSome(sections, SectionAddress);
    if t1.Some? then t1
    else
      var t2 := FirstSome(itemprops, ItempropAddress);
      if t2.Some? then t2 else FirstSome(matches, PageAddress)
  }

  // ---------------------------------------------------------------- hours

  /** Phrases that mark an hours match as navigation or marketing text. */
  const HoursJunk: seq<string> := [
    "quick links", "book now", "financing", "careers", "blog",
    "customer tools", "comfort", "care", "emergency service"]

  /** One hours match: whitespace collapsed, junk-free and 11 to 79 characters long. */
  function HoursCandidate(m: string): (r: Option<string>)
    ensures r.Some? ==> r.value == Normalize(m) && !AnyContained(Lower(r.value), HoursJunk) && 10 < |r.value| < 80
  {
    var h := Normalize(m);
    if !AnyContained(Lower(h), HoursJunk) && 10 < |h| < 80 then Some(h) else None
  }

  /** extract_clean_business_hours over the matches of the three day-range patterns, in order. */
  function ExtractBusinessHours(matches: seq<string>): (r: Option<string>)
    ensures r.None? <==> forall i :: 0 <= i < |matches| ==> HoursCandidate(matches[i]).None?
    ensures r.Some? ==> Normalized(r.value) && !AnyContained(Lower(r.value), HoursJunk)
                        && 10 < |r.value| < 80
    ensures r.Some? ==> exists i :: 0 <= i < |matches| && r.value == Normalize(matches[i])
                                    && forall j :: 0 <= j < i ==> HoursCandidate(matches[j]).None?
  {
    FirstSome(matches, HoursCandidate)
  }

  // ---------------------------------------------------------------- phones

  predicate AllDigits(s: string) {
    forall i :: 0 <= i < |s| ==> IsDigit(s[i])
  }

  /** The three groups the phone regex captures: 3, 3 and 4 decimal digits. */
  datatype PhoneMatch = PhoneMatch(area: string, exchange: string, line: string)

  predicate WellFormed(m: PhoneMatch) {
    |m.area| == 3 && AllDigits(m.area) && |m.exchange| == 3 && AllDigits(m.exchange)
    && |m.line| == 4 && AllDigits(m.line)
  }

  /** Only well-formed groups come out of the regex. */
  type PhoneGroups = m: PhoneMatch | WellFormed(m) witness PhoneMatch("000", "000", "0000")

  /** The canonical phone shape "(ddd) ddd-dddd". */
  predicate PhoneShape(p: string) {
    |p| == 14 && p[0] == '(' && p[4] == ')' && p[5] == ' ' && p[9] == '-'
    && AllDigits(p[1..4]) && AllDigits(p[6..9]) && AllDigits(p[10..])
  }

  /** f"({area}) {exchange}-{line}". */
  function FormatPhone(m: PhoneGroups): (p: string)
    ensures PhoneShape(p)
  {
    var p := "(" + m.area + ") " + m.exchange + "-" + m.line;
    assert p[1..4] == m.area && p[6..9] == m.exchange && p[10..] == m.line;
    p
  }

  /** The groups read back from a canonical phone. */
  function ParsePhone(p: string): (m: PhoneGroups)
    requires PhoneShape(p)
  {
    PhoneMatch(p[1..4], p[6..9], p[10..])
  }

  /** Formatting loses nothing: the groups can be read back, and every canonical phone is
      the rendering of its groups. So two matches give the same phone exactly when their
      groups agree. */
  lemma PhoneRoundTrip(m: PhoneGroups, p: string)
    ensures ParsePhone(FormatPhone(m)) == m
    ensures PhoneShape(p) ==> FormatPhone(ParsePhone(p)) == p
  {
    var q := FormatPhone(m);
    assert q[1..4] == m.area && q[6..9] == m.exchange && q[10..] == m.line;
    if PhoneShape(p) {
      assert p == "(" + p[1..4] + ") " + p[6..9] + "-" + p[10..];
    }
  }

  /** The distinct canonical phones of a page. */
  function PagePhones(ms: seq<PhoneGroups>): (r: set<string>)
    ensures forall p :: p in r ==> PhoneShape(p)
    ensures forall i :: 0 <= i < |ms| ==> FormatPhone(ms[i]) in r
    ensures forall p :: p in r ==> exists i :: 0 <= i < |ms| && ParsePhone(p) == ms[i]
  {
    var r := set i | 0 <= i < |ms| :: FormatPhone(ms[i]);
    forall p | p in r ensures exists i :: 0 <= i < |ms| && ParsePhone(p) == ms[i] {
      var i :| 0 <= i < |ms| && p == FormatPhone(ms[i]);
      PhoneRoundTrip(ms[i], p);
    }
    r
  }

  // ---------------------------------------------------------------- social media

  datatype Platform = Facebook | LinkedIn | Instagram | Twitter

  /** The platforms in the order the patterns are tried. */
  const Platforms: seq<Platform> := [Facebook, LinkedIn, Instagram, Twitter]

  function PlatformIndex(p: Platform): (i: nat)
    ensures i < |Platforms| && Platforms[i] == p
  {
    match p
    case Facebook => 0
    case LinkedIn => 1
    case Instagram => 2
    case Twitter => 3
  }

  /** The findall results of each platform's pattern over the page and its hrefs, in order. */
  datatype SocialHits = SocialHits(facebook: seq<string>, linkedin: seq<string>,
                                   instagram: seq<string>, twitter: seq<string>)

  function HitsFor(h: SocialHits, p: Platform): seq<string> {
    match p
    case Facebook => h.facebook
    case LinkedIn => h.linkedin
    case Instagram => h.instagram
    case Twitter => h.twitter
  }

  predicate HasScheme(url: string) {
    StartsWith(url, "http://") || StartsWith(url, "https://")
  }

  /** A link without an http:// or https:// prefix gets https:// in front. */
  function WithScheme(url: string): (r: string)
    ensures HasScheme(r)
    ensures HasScheme(url) ==> r == url
    ensures !HasScheme(url) ==> r == "https://" + url
  {
    if HasScheme(url) then url
    else
      assert ("https://" + url)[..8] == "https://";
      "https://" + url
  }

  /** The links extract_social_media returns for the given matches: exactly the platforms
      with a match, each linked to its first match given a scheme. */
  predicate SocialLinksFor(h: SocialHits, links: map<Platform, string>) {
    && (forall p :: p in links <==> HitsFor(h, p) != [])
    && (forall p :: p in links ==> HitsFor(h, p) != [] && links[p] == WithScheme(HitsFor(h, p)[0]))
  }

  /** extract_social_media: a platform with at least one match is linked to its first
      match, given a scheme; a platform without one is absent. */
  method ExtractSocialMedia(h: SocialHits) returns (links: map<Platform, string>)
    ensures forall p :: p in links <==> HitsFor(h, p) != []
    ensures forall p :: p in links ==> links[p] == WithScheme(HitsFor(h, p)[0])
    ensures forall p :: p in links ==> HasScheme(links[p])
  {
    links := map[];
    for i := 0 to |Platforms|
      invariant forall p :: p in links <==> PlatformIndex(p) < i && HitsFor(h, p) != []
      invariant forall p :: p in links ==> links[p] == WithScheme(HitsFor(h, p)[0])
    {
      var platform := Platforms[i];
      assert PlatformIndex(platform) == i;
      var matches := HitsFor(h, platform);
      if matches != [] {
        var url := matches[0];
        if !HasScheme(url) {
          url := "https://" + url;
        }
        links := links[platform := url];
      }
    }
  }
}
