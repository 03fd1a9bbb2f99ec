/** One page's business data (extract_business_data) and the discovery run over the
    target pages (run): pages are analysed in order until two have succeeded, a page whose
    fetch or parse fails is skipped, and the per-page results are merged into one record. */
module DiscoveryRun {
  import opened Text
  import opened Seqs
  import opened DiscoveryCompany
  import opened DiscoveryContact
  import opened DiscoveryTestimonials
  import opened DiscoveryServices

  // ---------------------------------------------------------------- one page

  /** What the parsed page supplies: the host name, the element texts and attribute values
      the extractors read, and the matches of the regexes that are not modelled. */
  datatype PageInput = PageInput(
    netloc: string,
    altTexts: seq<string>, title: Option<string>,
    emailMatches: seq<string>, phoneMatches: seq<PhoneGroups>,
    sectionAddresses: seq<string>, itempropTexts: seq<string>, addressMatches: seq<string>,
    hoursMatches: seq<string>,
    serviceTexts: seq<string>,
    reviewTexts: seq<string>, quoteTexts: seq<string>, quotedMatches: seq<string>,
    socialHits: SocialHits)

  /** The record extract_business_data returns. E-mails and phones are deduplicated
      (list(set(...))), so their order is not modelled. */
  datatype PageData = PageData(
    companyName: string, emails: set<string>, phones: set<string>,
    addresses: seq<string>, hours: seq<string>,
    services: seq<string>, testimonials: seq<string>, social: map<Platform, string>)

  /** [x] if x else []. */
  function OptionList(o: Option<string>): (r: seq<string>)
    ensures |r| <= 1
    ensures o.Some? ==> r == [o.value]
    ensures o.None? ==> r == []
  {
    if o.Some? then [o.value] else []
  }

  /** extract_business_data: every extractor applied to the same page. */
  method ExtractBusinessData(p: PageInput) returns (d: PageData)
    ensures d.companyName == CompanyName(p.netloc, p.altTexts, p.title)
    ensures d.emails == set e | e in p.emailMatches
    ensures d.phones == PagePhones(p.phoneMatches) && forall q :: q in d.phones ==> PhoneShape(q)
    ensures d.addresses == OptionList(ExtractRealAddress(p.sectionAddresses, p.itempropTexts, p.addressMatches))
    ensures d.hours == OptionList(ExtractBusinessHours(p.hoursMatches))
    ensures ServicesFor(p.netloc, p.serviceTexts, d.services)
    ensures TestimonialsFor(p.reviewTexts, p.quoteTexts, p.quotedMatches, d.testimonials)
    ensures SocialLinksFor(p.socialHits, d.social)
  {
    var name := CompanyName(p.netloc, p.altTexts, p.title);
    var emails := set e | e in p.emailMatches;
    var phones := PagePhones(p.phoneMatches);
    var address := ExtractRealAddress(p.sectionAddresses, p.itempropTexts, p.addressMatches);
    var hours := ExtractBusinessHours(p.hoursMatches);
    var services := ExtractServices(p.netloc, p.serviceTexts);
    var testimonials := ExtractUniqueTestimonials(p.reviewTexts, p.quoteTexts, p.quotedMatches);
    var social := ExtractSocialMedia(p.socialHits);
    d := PageData(name, emails, phones, OptionList(address), OptionList(hours), services, testimonials, social);
  }

  // ---------------------------------------------------------------- target pages

  /** s.rstrip(c) for one character. */
  function TrimRight(s: string, c: char): (r: string)
    ensures |r| <= |s| && r == s[..|r|]
    ensures forall k :: |r| <= k < |s| ==> s[k] == c
    ensures r == [] || r[|r| - 1] != c
  {
    if s != [] && s[|s| - 1] == c then TrimRight(s[..|s| - 1], c) else s
  }

  /** The URL itself, then its /about page. */
  function TargetPages(url: string): (r: seq<string>)
    ensures |r| == 2 && r[0] == url
    ensures r[1] == TrimRight(url, '/') + "/about"
  {
    [url, TrimRight(url, '/') + "/about"]
  }

  // ---------------------------------------------------------------- the merge

  /** The all_data record while pages are merged into it. */
  datatype Aggregate = Aggregate(
    companyName: string, emails: set<string>, phones: set<string>,
    addresses: set<string>, hours: set<string>,
    services: seq<string>, testimonials: seq<string>, social: map<Platform, string>)

  const Empty: Aggregate := Aggregate("", {}, {}, {}, {}, [], [], map[])

  /** Append each element of xs, in order, that ok accepts and that is not present yet. */
  function AppendNew(acc: seq<string>, xs: seq<string>, ok: string -> bool): seq<string>
    decreases |xs|
  {
    if xs == [] then acc
    else
      var a := AppendNew(acc, xs[..|xs| - 1], ok);
      var x := xs[|xs| - 1];
      if x !in a && ok(x) then a + [x] else a
  }

  /** Appending absent elements keeps a list without repeats, and adds exactly the
      accepted elements that were missing. */
  lemma {:induction false} AppendNewFacts(acc: seq<string>, xs: seq<string>, ok: string -> bool)
    requires Distinct(acc)
    ensures Distinct(AppendNew(acc, xs, ok))
    ensures forall x :: x in AppendNew(acc, xs, ok) <==> x in acc || (x in xs && ok(x))
    decreases |xs|
  {
    if xs != [] {
      var p := xs[..|xs| - 1];
      AppendNewFacts(acc, p, ok);
      assert xs == p + [xs[|xs| - 1]];
    }
  }

  /** Appending keeps the list it starts from as a prefix and adds elements in the order
      they come in xs. */
  lemma {:induction false} AppendNewOrder(acc: seq<string>, xs: seq<string>, ok: string -> bool)
    ensures |acc| <= |AppendNew(acc, xs, ok)| && AppendNew(acc, xs, ok)[..|acc|] == acc
    ensures IsSubseq(AppendNew(acc, xs, ok)[|acc|..], xs)
    decreases |xs|
  {
    if xs != [] {
      var p := xs[..|xs| - 1];
      var x := xs[|xs| - 1];
      AppendNewOrder(acc, p, ok);
      var a := AppendNew(acc, p, ok);
      var t := a[|acc|..];
      if x !in a && ok(x) {
        assert (a + [x])[..|acc|] == a[..|acc|];
        assert (a + [x])[|acc|..] == t + [x];
        assert (t + [x])[..|t|] == t;
      } else if t != [] {
        assert xs[..|xs| - 1] == p;
      }
    }
  }

  /** The elements of xs that ok accepts, in order. */
  function Filter(xs: seq<string>, ok: string -> bool): (r: seq<string>)
    ensures forall x :: x in r <==> x in xs && ok(x)
    ensures |r| <= |xs|
    decreases |xs|
  {
    if xs == [] then []
    else
      var p := xs[..|xs| - 1];
      assert xs == p + [xs[|xs| - 1]];
      Filter(p, ok) + (if ok(xs[|xs| - 1]) then [xs[|xs| - 1]] else [])
  }

  /** Equality as a clash: a keep-first sieve with it keeps first occurrences. */
  predicate Same(a: string, b: string) {
    a == b
  }

  /** Appending absent accepted elements to an empty list keeps the first occurrence of
      each accepted element: the keep-first sieve of the accepted elements under equality. */
  lemma {:induction false} AppendNewSieve(xs: seq<string>, ok: string -> bool)
    ensures AppendNew([], xs, ok) == Sieve(Filter(xs, ok), Same)
    decreases |xs|
  {
    if xs != [] {
      var p := xs[..|xs| - 1];
      var x := xs[|xs| - 1];
      var a := AppendNew([], p, ok);
      assert a == Sieve(Filter(p, ok), Same) by { AppendNewSieve(p, ok); }
      assert AppendNew([], xs, ok) == if x !in a && ok(x) then a + [x] else a;
      if ok(x) {
        assert Filter(xs, ok) == Filter(p, ok) + [x];
        assert ClashesWithAny(x, a, Same) <==> x in a by {
          if x in a {
            var j :| 0 <= j < |a| && a[j] == x;
            assert Same(x, a[j]);
          }
        }
        SieveStep(Filter(p, ok), x, Same);
      } else {
        assert Filter(xs, ok) == Filter(p, ok);
      }
    }
  }

  /** Two rounds of appending are one round over both lists. */
  lemma {:induction false} AppendNewConcat(acc: seq<string>, a: seq<string>, b: seq<string>, ok: string -> bool)
    ensures AppendNew(AppendNew(acc, a, ok), b, ok) == AppendNew(acc, a + b, ok)
    decreases |b|
  {
    if b == [] {
      assert a + b == a;
    } else {
      var p := b[..|b| - 1];
      AppendNewConcat(acc, a, p, ok);
      assert (a + b)[..|a + b| - 1] == a + p;
      assert (a + b)[|a + b| - 1] == b[|b| - 1];
    }
  }

  /** Accepting everything filters nothing. */
  lemma {:induction false} FilterAll(xs: seq<string>)
    ensures Filter(xs, AnyTestimonial) == xs
    decreases |xs|
  {
    if xs != [] {
      var p := xs[..|xs| - 1];
      var x := xs[|xs| - 1];
      FilterAll(p);
      assert AnyTestimonial(x);
      assert Filter(xs, AnyTestimonial) == Filter(p, AnyTestimonial) + [x];
      assert p + [x] == xs;
    }
  }

  /** One loop of run: test each element, append it when it is absent. */
  method AppendAbsent(acc: seq<string>, xs: seq<string>, ok: string -> bool) returns (r: seq<string>)
    ensures r == AppendNew(acc, xs, ok)
  {
    r := acc;
    for i := 0 to |xs|
      invariant r == AppendNew(acc, xs[..i], ok)
    {
      assert xs[..i + 1][..i] == xs[..i];
      if xs[i] !in r && ok(xs[i]) {
        r := r + [xs[i]];
      }
    }
    assert xs[..|xs|] == xs;
  }

  /** run appends every absent testimonial; the loop and Merge share this acceptance test. */
  predicate AnyTestimonial(t: string) {
    true
  }

  /** One successful page merged into all_data. */
  function Merge(acc: Aggregate, d: PageData): Aggregate {
    Aggregate(
      if acc.companyName == "" && d.companyName != "" then d.companyName else acc.companyName,
      acc.emails + d.emails, acc.phones + d.phones,
      acc.addresses + (set a | a in d.addresses), acc.hours + (set h | h in d.hours),
      AppendNew(acc.services, d.services, IsValidService),
      AppendNew(acc.testimonials, d.testimonials, AnyTestimonial),
      acc.social + d.social)
  }

  /** The services of the pages, page after page. */
  function PageServices(ds: seq<PageData>): (r: seq<string>)
    ensures forall s :: s in r <==> exists i :: 0 <= i < |ds| && s in ds[i].services
  {
    if ds == [] then []
    else
      var p := ds[..|ds| - 1];
      assert forall i :: 0 <= i < |p| ==> p[i] == ds[i];
      PageServices(p) + ds[|ds| - 1].services
  }

  /** The testimonials of the pages, page after page. */
  function PageTestimonials(ds: seq<PageData>): (r: seq<string>)
    ensures forall t :: t in r <==> exists i :: 0 <= i < |ds| && t in ds[i].testimonials
  {
    if ds == [] then []
    else
      var p := ds[..|ds| - 1];
      assert forall i :: 0 <= i < |p| ==> p[i] == ds[i];
      PageTestimonials(p) + ds[|ds| - 1].testimonials
  }

  /** All successful pages merged, in order. */
  function Fold(ds: seq<PageData>): Aggregate {
    if ds == [] then Empty else Merge(Fold(ds[..|ds| - 1]), ds[|ds| - 1])
  }

  /** The data of the pages that were fetched and parsed, in order. */
  function Successes(pages: seq<Option<PageData>>): seq<PageData> {
    if pages == [] then []
    else
      var last := pages[|pages| - 1];
      Successes(pages[..|pages| - 1]) + (if last.Some? then [last.value] else [])
  }

  lemma {:induction false} SuccessesPrefix(pages: seq<Option<PageData>>, i: nat)
    requires i <= |pages|
    ensures |Successes(pages[..i])| <= |Successes(pages)|
    ensures Successes(pages[..i]) == Successes(pages)[..|Successes(pages[..i])|]
    decreases |pages|
  {
    if i < |pages| {
      var p := pages[..|pages| - 1];
      SuccessesPrefix(p, i);
      assert p[..i] == pages[..i];
    } else {
      assert pages[..i] == pages;
    }
  }

  lemma {:induction false} SuccessesAppend(a: seq<Option<PageData>>, b: seq<Option<PageData>>)
    ensures Successes(a + b) == Successes(a) + Successes(b)
    decreases |b|
  {
    if b == [] {
      assert a + b == a;
    } else {
      var p := b[..|b| - 1];
      SuccessesAppend(a, p);
      assert (a + b)[..|a + b| - 1] == a + p;
    }
  }

  /** A page whose fetch or parse fails contributes nothing and is not counted. */
  lemma FailedPageIgnored(a: seq<Option<PageData>>, b: seq<Option<PageData>>)
    ensures Processed(a + [None] + b) == Processed(a + b)
  {
    SuccessesAppend(a + [None], b);
    SuccessesAppend(a, [None]);
    SuccessesAppend(a, b);
    var none: seq<Option<PageData>> := [None];
    assert none[..0] == [];
    assert Successes(none) == [];
  }

  /** The pages run analyses: the successful ones, up to two. */
  function Processed(pages: seq<Option<PageData>>): seq<PageData> {
    Take(Successes(pages), 2)
  }

  /** The stripped, non-empty contact strings. */
  function CleanContacts(s: set<string>): (r: set<string>)
    ensures forall x :: x in r <==> x != [] && exists y :: y in s && Strip(y) == x
  {
    set y | y in s && Strip(y) != [] :: Strip(y)
  }

  /** The record run returns. */
  datatype Discovery = Discovery(
    companyName: string, emails: set<string>, phones: set<string>,
    addresses: set<string>, hours: set<string>,
    services: seq<string>, testimonials: seq<string>, social: map<Platform, string>,
    pagesAnalyzed: nat)

  /** The clean-up after the page loop: contacts stripped and deduplicated, six services
      and three testimonials at most. */
  function Finish(a: Aggregate, analyzed: nat): Discovery {
    Discovery(a.companyName, CleanContacts(a.emails), CleanContacts(a.phones),
              CleanContacts(a.addresses), CleanContacts(a.hours),
              Take(a.services, 6), Take(a.testimonials, 3), a.social, analyzed)
  }

  /** The body of run's page loop: one page's data merged into all_data in place. */
  method MergePage(acc: Aggregate, d: PageData) returns (r: Aggregate)
    ensures r == Merge(acc, d)
  {
    var name := acc.companyName;
    if name == "" && d.companyName != "" {
      name := d.companyName;
    }
    var services := AppendAbsent(acc.services, d.services, IsValidService);
    var testimonials := AppendAbsent(acc.testimonials, d.testimonials, AnyTestimonial);
    r := Aggregate(name, acc.emails + d.emails, acc.phones + d.phones,
                   acc.addresses + (set a | a in d.addresses), acc.hours + (set h | h in d.hours),
                   services, testimonials, acc.social + d.social);
  }

  lemma SuccessesStep(pages: seq<Option<PageData>>, i: nat)
    requires i < |pages|
    ensures Successes(pages[..i + 1])
      == Successes(pages[..i]) + (if pages[i].Some? then [pages[i].value] else [])
  {
    assert pages[..i + 1][..i] == pages[..i];
  }

  lemma FoldSnoc(ds: seq<PageData>, d: PageData)
    ensures Fold(ds + [d]) == Merge(Fold(ds), d)
  {
    assert (ds + [d])[..|ds|] == ds;
  }

  /** Where the page loop stops, the pages merged so far are the processed ones. */
  lemma LoopExit(pages: seq<Option<PageData>>, i: nat)
    requires i <= |pages|
    requires i == |pages| || |Successes(pages[..i])| >= 2
    requires |Successes(pages[..i])| <= 2
    ensures Successes(pages[..i]) == Processed(pages)
  {
    SuccessesPrefix(pages, i);
    if i == |pages| {
      assert pages[..i] == pages;
    }
  }

  /** run: pages[i] is the page data of the i-th target page, or None when fetching or
      parsing it failed. Pages are taken in order until two have been analysed. */
  method Run(pages: seq<Option<PageData>>) returns (r: Discovery)
    ensures r == Finish(Fold(Processed(pages)), |Processed(pages)|)
    ensures r.pagesAnalyzed <= 2
  {
    var all := Empty;
    var analyzed := 0;
    var i := 0;
    while i < |pages|
      invariant 0 <= i <= |pages|
      invariant analyzed == |Successes(pages[..i])| <= 2
      invariant all == Fold(Successes(pages[..i]))
    {
      if analyzed >= 2 {
        break;
      }
      SuccessesStep(pages, i);
      var page := pages[i];
      if page.Some? {
        FoldSnoc(Successes(pages[..i]), page.value);
        all := MergePage(all, page.value);
        analyzed := analyzed + 1;
      }
      i := i + 1;
    }
    LoopExit(pages, i);
    r := Finish(all, analyzed);
  }

  // ---------------------------------------------------------------- what the merge promises

  /** The first non-empty company name among the pages, or "". */
  function FirstNonEmptyName(ds: seq<PageData>): string {
    if ds == [] then ""
    else if ds[0].companyName != "" then ds[0].companyName
    else FirstNonEmptyName(ds[1..])
  }

  lemma {:induction false} FirstNonEmptyNameSnoc(ds: seq<PageData>, d: PageData)
    ensures FirstNonEmptyName(ds + [d]) ==
      if FirstNonEmptyName(ds) != "" then FirstNonEmptyName(ds) else d.companyName
  {
    if ds != [] {
      assert (ds + [d])[1..] == ds[1..] + [d];
      FirstNonEmptyNameSnoc(ds[1..], d);
    }
  }

  /** The company name is the first non-empty one. */
  lemma {:induction false} FoldCompanyName(ds: seq<PageData>)
    ensures Fold(ds).companyName == FirstNonEmptyName(ds)
  {
    if ds != [] {
      var p := ds[..|ds| - 1];
      FoldCompanyName(p);
      FirstNonEmptyNameSnoc(p, ds[|ds| - 1]);
      assert p + [ds[|ds| - 1]] == ds;
    }
  }

  /** The merged services are the valid page services, each once; the merged
      testimonials are the page testimonials, each once. */
  lemma {:induction false} FoldLists(ds: seq<PageData>)
    ensures Distinct(Fold(ds).services) && Distinct(Fold(ds).testimonials)
    ensures forall s :: s in Fold(ds).services <==>
      IsValidService(s) && exists i :: 0 <= i < |ds| && s in ds[i].services
    ensures forall t :: t in Fold(ds).testimonials <==>
      exists i :: 0 <= i < |ds| && t in ds[i].testimonials
  {
    if ds != [] {
      var p := ds[..|ds| - 1];
      var d := ds[|ds| - 1];
      FoldLists(p);
      AppendNewFacts(Fold(p).services, d.services, IsValidService);
      AppendNewFacts(Fold(p).testimonials, d.testimonials, AnyTestimonial);
      assert forall i :: 0 <= i < |p| ==> p[i] == ds[i];
    }
  }

  /** The merged lists in page order: the services are the first occurrences of the valid
      services of the pages taken page after page, the testimonials the first occurrences of
      their testimonials. */
  lemma {:induction false} FoldOrder(ds: seq<PageData>)
    ensures Fold(ds).services == AppendNew([], PageServices(ds), IsValidService)
    ensures Fold(ds).testimonials == AppendNew([], PageTestimonials(ds), AnyTestimonial)
    ensures Fold(ds).services == Sieve(Filter(PageServices(ds), IsValidService), Same)
    ensures Fold(ds).testimonials == Sieve(PageTestimonials(ds), Same)
  {
    if ds != [] {
      var p := ds[..|ds| - 1];
      var d := ds[|ds| - 1];
      FoldOrder(p);
      AppendNewConcat([], PageServices(p), d.services, IsValidService);
      AppendNewConcat([], PageTestimonials(p), d.testimonials, AnyTestimonial);
    }
    AppendNewSieve(PageServices(ds), IsValidService);
    AppendNewSieve(PageTestimonials(ds), AnyTestimonial);
    FilterAll(PageTestimonials(ds));
  }

  /** Social links: a platform is linked exactly when some page links it. */
  lemma {:induction false} FoldSocialKeys(ds: seq<PageData>)
    ensures forall q :: q in Fold(ds).social <==> exists i :: 0 <= i < |ds| && q in ds[i].social
  {
    if ds != [] {
      var p := ds[..|ds| - 1];
      FoldSocialKeys(p);
      assert forall i :: 0 <= i < |p| ==> p[i] == ds[i];
    }
  }

  /** The link of a platform is the one of the last page that links it: a later page
      overwrites an earlier one. */
  predicate LastLink(ds: seq<PageData>, q: Platform, url: string) {
    exists i :: 0 <= i < |ds| && q in ds[i].social && url == ds[i].social[q]
                && forall j :: i < j < |ds| ==> q !in ds[j].social
  }

  /** The social links of the first n pages merged in order, a later page overwriting an
      earlier one. */
  function SocialUpTo(ds: seq<PageData>, n: nat): map<Platform, string>
    requires n <= |ds|
  {
    if n == 0 then map[] else SocialUpTo(ds, n - 1) + ds[n - 1].social
  }

  lemma {:induction false} SocialUpToPrefix(ds: seq<PageData>, m: nat, n: nat)
    requires n <= m <= |ds|
    ensures SocialUpTo(ds[..m], n) == SocialUpTo(ds, n)
  {
    if n > 0 {
      SocialUpToPrefix(ds, m, n - 1);
      assert ds[..m][n - 1] == ds[n - 1];
    }
  }

  lemma {:induction false} FoldSocial(ds: seq<PageData>)
    ensures Fold(ds).social == SocialUpTo(ds, |ds|)
  {
    if ds != [] {
      var p := ds[..|ds| - 1];
      var d := ds[|ds| - 1];
      assert Fold(ds).social == Fold(p).social + d.social by {
        assert Fold(ds) == Merge(Fold(p), d);
      }
      FoldSocial(p);
      SocialUpToPrefix(ds, |ds| - 1, |ds| - 1);
      assert SocialUpTo(ds, |ds|) == SocialUpTo(ds, |ds| - 1) + d.social;
    }
  }

  /** Among the first n pages, page i is the last to link platform q. */
  predicate LastLinkBelow(ds: seq<PageData>, n: nat, q: Platform, i: nat)
    requires n <= |ds|
  {
    i < n && q in ds[i].social && forall j :: i < j < n ==> q !in ds[j].social
  }

  lemma {:induction false} SocialUpToLast(ds: seq<PageData>, n: nat, q: Platform) returns (i: nat)
    requires n <= |ds| && q in SocialUpTo(ds, n)
    ensures LastLinkBelow(ds, n, q, i) && SocialUpTo(ds, n)[q] == ds[i].social[q]
  {
    var d := ds[n - 1];
    if q in d.social {
      i := n - 1;
    } else {
      i := SocialUpToLast(ds, n - 1, q);
    }
  }

  lemma FoldSocialLast(ds: seq<PageData>, q: Platform)
    requires q in Fold(ds).social
    ensures LastLink(ds, q, Fold(ds).social[q])
  {
    FoldSocial(ds);
    var i := SocialUpToLast(ds, |ds|, q);
    assert LastLinkBelow(ds, |ds|, q, i);
  }

  /** The merged contact sets are the unions of the pages' sets. */
  lemma {:induction false} FoldContacts(ds: seq<PageData>)
    ensures forall e :: e in Fold(ds).emails <==> exists i :: 0 <= i < |ds| && e in ds[i].emails
    ensures forall e :: e in Fold(ds).phones <==> exists i :: 0 <= i < |ds| && e in ds[i].phones
    ensures forall a :: a in Fold(ds).addresses <==> exists i :: 0 <= i < |ds| && a in ds[i].addresses
    ensures forall h :: h in Fold(ds).hours <==> exists i :: 0 <= i < |ds| && h in ds[i].hours
  {
    if ds != [] {
      FoldContacts(ds[..|ds| - 1]);
      assert forall i :: 0 <= i < |ds| - 1 ==> ds[..|ds| - 1][i] == ds[i];
    }
  }

  lemma TakeFacts<T>(xs: seq<T>, n: nat)
    ensures forall x :: x in Take(xs, n) ==> x in xs
    ensures Distinct(xs) ==> Distinct(Take(xs, n))
  {
    var r := Take(xs, n);
    assert forall k :: 0 <= k < |r| ==> r[k] == xs[k];
  }

  /** What run returns, in the terms of the processed pages: at most two pages; the first
      non-empty company name; the first six valid services in page order, each listed once;
      the first three testimonials in page order, each listed once; contact strings stripped
      and non-empty. */
  lemma RunFacts(pages: seq<Option<PageData>>, r: Discovery)
    requires r == Finish(Fold(Processed(pages)), |Processed(pages)|)
    ensures r.pagesAnalyzed <= 2
    ensures r.companyName == FirstNonEmptyName(Processed(pages))
    ensures |r.services| <= 6 && Distinct(r.services)
    ensures forall s :: s in r.services ==>
      IsValidService(s) && exists i :: 0 <= i < |Processed(pages)| && s in Processed(pages)[i].services
    ensures |r.testimonials| <= 3 && Distinct(r.testimonials)
    ensures forall t :: t in r.testimonials ==>
      exists i :: 0 <= i < |Processed(pages)| && t in Processed(pages)[i].testimonials
    ensures r.services == Take(Sieve(Filter(PageServices(Processed(pages)), IsValidService), Same), 6)
    ensures r.testimonials == Take(Sieve(PageTestimonials(Processed(pages)), Same), 3)
    ensures forall e :: e in r.emails ==> e != [] && Stripped(e)
    ensures forall e :: e in r.phones ==> e != [] && Stripped(e)
    ensures forall e :: e in r.addresses ==> e != [] && Stripped(e)
    ensures forall e :: e in r.hours ==> e != [] && Stripped(e)
  {
    var ds := Processed(pages);
    FoldCompanyName(ds);
    FoldLists(ds);
    FoldOrder(ds);
    TakeFacts(Fold(ds).services, 6);
    TakeFacts(Fold(ds).testimonials, 3);
  }
}
