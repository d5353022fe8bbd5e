/**
 * The technical SEO helpers (lib/seo.ts): the string steps of normalizeUrl, which turns the
 * configured site URL into SITE_URL; canonicalPath, which appends a cleaned path to it; and the
 * builders of the FAQPage and BlogPosting JSON-LD objects. The URL parser whose hostname
 * normalizeUrl inspects is a parameter.
 */
module Seo {
  import opened Js

  /** FALLBACK_SITE_URL. */
  const FallbackSiteUrl := "https://framemogr.com"

  predicate AllSlashes(s: string) {
    forall i | 0 <= i < |s| :: s[i] == '/'
  }

  /** A path with no "//" in it. */
  predicate NoDoubleSlash(s: string) {
    forall i | 0 <= i < |s| - 1 :: !(s[i] == '/' && s[i + 1] == '/')
  }

  /** The characters of s other than '/', in order. */
  function Unslashed(s: string): string {
    if s == [] then [] else (if s[0] == '/' then [] else [s[0]]) + Unslashed(s[1..])
  }

  /** `replace(/\/+$/, "")`: the trailing run of slashes is dropped. */
  function StripTrailingSlashes(s: string): (r: string)
    ensures |r| <= |s| && r == s[..|r|] && AllSlashes(s[|r|..])
    ensures r == [] || r[|r| - 1] != '/'
  {
    if |s| > 0 && s[|s| - 1] == '/' then
      var init := s[..|s| - 1];
      var r := StripTrailingSlashes(init);
      assert init[..|r|] == s[..|r|];
      assert AllSlashes(s[|r|..]) by {
        forall i | |r| <= i < |s| - 1 ensures s[i] == '/' {
          assert init[|r|..][i - |r|] == s[i];
        }
      }
      r
    else s
  }

  /** The leading run of slashes dropped. */
  function TrimLeadingSlashes(s: string): (r: string)
    ensures |r| <= |s| && r == s[|s| - |r|..] && AllSlashes(s[..|s| - |r|])
    ensures r == [] || r[0] != '/'
  {
    if |s| > 0 && s[0] == '/' then
      var r := TrimLeadingSlashes(s[1..]);
      TrimLeadingStep(s, r);
      r
    else s
  }

  /** A suffix of s[1..] after a run of slashes is a suffix of s after a run of slashes, when s
      starts with a slash. */
  lemma TrimLeadingStep(s: string, r: string)
    requires |s| > 0 && s[0] == '/' && |r| <= |s| - 1
    requires r == s[1..][|s| - 1 - |r|..] && AllSlashes(s[1..][..|s| - 1 - |r|])
    ensures r == s[|s| - |r|..] && AllSlashes(s[..|s| - |r|])
  {
    var n := |s| - |r|;
    assert s[1..][n - 1..] == s[n..];
    forall i | 1 <= i < n ensures s[i] == '/' {
      assert s[1..][..n - 1][i - 1] == s[i];
    }
  }

  /** One leading slash followed by a character other than a slash is all the leading run. */
  lemma TrimLeadingOne(s: string)
    requires |s| > 0 && s[0] == '/' && (|s| < 2 || s[1] != '/')
    ensures TrimLeadingSlashes(s) == s[1..]
  {
    assert TrimLeadingSlashes(s[1..]) == s[1..];
  }

  /** `replace(/^\/+/, "/")`. */
  function OneLeadingSlash(s: string): string {
    if |s| > 0 && s[0] == '/' then "/" + TrimLeadingSlashes(s) else s
  }

  /** `replace(/\/+/g, "/")`: every run of slashes becomes one slash. */
  function CollapseSlashes(s: string): (r: string)
    ensures NoDoubleSlash(r)
    ensures |s| > 0 ==> |r| > 0 && r[0] == s[0]
    ensures Unslashed(r) == Unslashed(s)
  {
    if |s| == 0 then []
    else if |s| >= 2 && s[0] == '/' && s[1] == '/' then CollapseSlashes(s[1..])
    else [s[0]] + CollapseSlashes(s[1..])
  }

  /** Reference reading of `replace(/\/+/g, "/")`: scanning left to right, a slash is dropped
      exactly when the character before it (kept or not) is a slash; `afterSlash` says whether the
      previous character was one. */
  function DropRepeatedSlashes(s: string, afterSlash: bool): string {
    if s == [] then []
    else if s[0] == '/' && afterSlash then DropRepeatedSlashes(s[1..], true)
    else [s[0]] + DropRepeatedSlashes(s[1..], s[0] == '/')
  }

  /** CollapseSlashes drops exactly the slashes that follow a slash. */
  lemma {:induction false} CollapseMatchesReference(s: string)
    ensures CollapseSlashes(s) == DropRepeatedSlashes(s, false)
    decreases |s|
  {
    if |s| >= 2 && s[0] == '/' && s[1] == '/' {
      CollapseMatchesReference(s[1..]);
      assert s[1..][1..] == s[2..];
    } else if |s| > 0 {
      CollapseMatchesReference(s[1..]);
    }
  }

  /** A doubled slash anywhere collapses like a single one. */
  lemma {:induction false} CollapseDoubleSlash(a: string, b: string)
    ensures CollapseSlashes(a + "//" + b) == CollapseSlashes(a + "/" + b)
    decreases |a|
  {
    if a == [] {
      assert a + "//" + b == "//" + b && ("//" + b)[1..] == "/" + b;
      assert a + "/" + b == "/" + b;
    } else {
      CollapseDoubleSlash(a[1..], b);
      var x, y := a + "//" + b, a + "/" + b;
      DoubleSlashShape(a, b);
      assert CollapseSlashes(x) == (if x[1] == '/' && x[0] == '/' then [] else [x[0]]) + CollapseSlashes(x[1..]);
      assert CollapseSlashes(y) == (if y[1] == '/' && y[0] == '/' then [] else [y[0]]) + CollapseSlashes(y[1..]);
    }
  }

  lemma DoubleSlashShape(a: string, b: string)
    requires a != []
    ensures var x, y := a + "//" + b, a + "/" + b;
      && |x| >= 2 && |y| >= 2 && x[0] == y[0] == a[0] && x[1] == y[1]
      && x[1..] == a[1..] + "//" + b && y[1..] == a[1..] + "/" + b
  {
    var x, y := a + "//" + b, a + "/" + b;
    assert x[1..] == a[1..] + "//" + b;
    assert y[1..] == a[1..] + "/" + b;
    if |a| == 1 {
      assert x[1] == '/' == y[1];
    } else {
      assert x[1] == a[1] == y[1];
    }
  }

  /** A leading run of slashes collapses like a single leading slash. */
  lemma {:induction false} CollapseLeadingRun(s: string)
    requires |s| > 0 && s[0] == '/'
    ensures CollapseSlashes(s) == CollapseSlashes("/" + TrimLeadingSlashes(s))
    decreases |s|
  {
    if |s| >= 2 && s[1] == '/' {
      CollapseLeadingRun(s[1..]);
    } else {
      TrimLeadingOne(s);
      assert "/" + s[1..] == s;
    }
  }

  lemma {:induction false} UnslashedAppend(a: string, b: string)
    ensures Unslashed(a + b) == Unslashed(a) + Unslashed(b)
    decreases |a|
  {
    if a != [] {
      assert (a + b)[0] == a[0] && (a + b)[1..] == a[1..] + b;
      UnslashedAppend(a[1..], b);
    } else {
      assert a + b == b;
    }
  }

  lemma {:induction false} UnslashedOfSlashes(s: string)
    requires AllSlashes(s)
    ensures Unslashed(s) == []
    decreases |s|
  {
    if s != [] {
      UnslashedOfSlashes(s[1..]);
    }
  }

  /** Collapsing keeps a string that has no "//". */
  lemma {:induction false} CollapseFixed(s: string)
    requires NoDoubleSlash(s)
    ensures CollapseSlashes(s) == s
    decreases |s|
  {
    if |s| > 0 {
      CollapseFixed(s[1..]);
    }
  }

  /** The path part of canonicalPath: the trimmed path with every run of slashes made one slash,
      then a leading slash added if there is none. It starts with exactly one "/" and holds the
      path's other characters in order. */
  function PathPart(path: string): (r: string)
    ensures |r| >= 1 && r[0] == '/' && NoDoubleSlash(r)
    ensures Unslashed(r) == Unslashed(Trim(path))
  {
    var t := Trim(path);
    var p := CollapseSlashes(OneLeadingSlash(t));
    assert Unslashed(OneLeadingSlash(t)) == Unslashed(t) by {
      if |t| > 0 && t[0] == '/' {
        var rest := TrimLeadingSlashes(t);
        var k := |t| - |rest|;
        assert t == t[..k] + rest;
        UnslashedAppend(t[..k], rest);
        UnslashedOfSlashes(t[..k]);
        UnslashedAppend("/", rest);
      }
    }
    if StartsWith(p, "/") then p
    else
      UnslashedAppend("/", p);
      "/" + p
  }

  /** The path part is "/" followed by the trimmed path, with every slash that follows a slash
      removed. */
  lemma PathPartExact(path: string)
    ensures PathPart(path) == DropRepeatedSlashes("/" + Trim(path), false)
  {
    var t := Trim(path);
    PathPartCollapsed(t);
    CollapseMatchesReference("/" + t);
  }

  lemma PathPartCollapsed(t: string)
    ensures (var p := CollapseSlashes(OneLeadingSlash(t));
             if StartsWith(p, "/") then p else "/" + p) == CollapseSlashes("/" + t)
  {
    if |t| > 0 && t[0] == '/' {
      CollapseSlashStart(t);
    } else {
      CollapseOtherStart(t);
    }
  }

  lemma CollapseSlashStart(t: string)
    requires |t| > 0 && t[0] == '/'
    ensures StartsWith(CollapseSlashes(OneLeadingSlash(t)), "/")
    ensures CollapseSlashes(OneLeadingSlash(t)) == CollapseSlashes("/" + t)
  {
    CollapseLeadingRun(t);
    var st := "/" + t;
    assert st[1..] == t;
    assert CollapseSlashes(st) == CollapseSlashes(t);
  }

  lemma CollapseOtherStart(t: string)
    requires t == [] || t[0] != '/'
    ensures OneLeadingSlash(t) == t
    ensures !StartsWith(CollapseSlashes(t), "/")
    ensures "/" + CollapseSlashes(t) == CollapseSlashes("/" + t)
  {
    var st := "/" + t;
    assert st[1..] == t;
    if t == [] {
      assert CollapseSlashes(st) == "/" + CollapseSlashes(st[1..]);
    } else {
      assert st[1] != '/';
    }
  }

  /** canonicalPath, for the site URL SITE_URL: the site URL without its trailing slashes,
      followed by a path that starts with one "/", has no "//", and keeps the other characters of
      the trimmed path. */
  function CanonicalPath(siteUrl: string, path: string): (r: string)
    ensures var base := StripTrailingSlashes(siteUrl);
      && StartsWith(r, base) && |r| > |base|
      && r[|base|] == '/' && NoDoubleSlash(r[|base|..])
      && Unslashed(r[|base|..]) == Unslashed(Trim(path))
  {
    var base := StripTrailingSlashes(siteUrl);
    var r := base + PathPart(path);
    assert r[|base|..] == PathPart(path);
    r
  }

  /** The canonical URL is the stripped site URL, "/", and the trimmed path with every slash
      that follows a slash removed. */
  lemma CanonicalPathExact(siteUrl: string, path: string)
    ensures CanonicalPath(siteUrl, path) ==
      StripTrailingSlashes(siteUrl) + DropRepeatedSlashes("/" + Trim(path), false)
  {
    PathPartExact(path);
  }

  /** The empty path and "/" both give the site's root. */
  lemma CanonicalRoot(siteUrl: string)
    ensures CanonicalPath(siteUrl, "") == StripTrailingSlashes(siteUrl) + "/"
    ensures CanonicalPath(siteUrl, "/") == StripTrailingSlashes(siteUrl) + "/"
  {
    PathPartEmpty();
    PathPartSlash();
  }

  lemma PathPartEmpty()
    ensures PathPart("") == "/"
  {
    assert Trim("") == "";
    assert OneLeadingSlash("") == "";
    assert CollapseSlashes("") == "";
  }

  lemma PathPartSlash()
    ensures PathPart("/") == "/"
  {
    assert !IsSpace('/');
    assert TrimStart("/") == "/";
    assert TrimEnd("/") == "/";
    assert TrimLeadingSlashes("/"[1..]) == "";
    assert TrimLeadingSlashes("/") == "";
    assert OneLeadingSlash("/") == "/";
    assert CollapseSlashes("/"[1..]) == "";
    assert CollapseSlashes("/") == "/";
  }

  /** A path that is already clean (trimmed, starting with "/", without "//") is appended
      unchanged. */
  lemma CanonicalKeepsCleanPath(siteUrl: string, path: string)
    requires Trim(path) == path && StartsWith(path, "/") && NoDoubleSlash(path)
    ensures CanonicalPath(siteUrl, path) == StripTrailingSlashes(siteUrl) + path
  {
    TrimLeadingOne(path);
    assert OneLeadingSlash(path) == path;
    CollapseFixed(path);
  }

  // ------------------------------------------------------------------ normalizeUrl

  /** `/^https?:\/\//i`. */
  predicate HasHttpScheme(u: string) {
    StartsWith(ToLower(u), "http://") || StartsWith(ToLower(u), "https://")
  }

  /** The hosts that would make SITE_URL point at a development machine; `host` is already
      lower-cased. */
  predicate IsLocalHost(host: string) {
    host == "localhost" || host == "127.0.0.1" || StartsWith(host, "192.168.") ||
    (|host| >= 6 && host[|host| - 6..] == ".local")
  }

  /** The input of normalizeUrl trimmed and stripped of its trailing slashes. */
  function Stripped(url: string): string {
    StripTrailingSlashes(Trim(url))
  }

  /** Lines 11-12 of normalizeUrl: a URL without an http or https scheme gets "https://" in
      front, and an http scheme in any case becomes "https://". A non-empty input without a
      trailing slash gives an https URL without a trailing slash. */
  function ForceHttps(u: string): (r: string)
    requires u != [] && u[|u| - 1] != '/'
    ensures StartsWith(ToLower(r), "https://") && r[|r| - 1] != '/'
    ensures || (StartsWith(ToLower(u), "http://") && r == "https://" + u[7..])
            || (StartsWith(ToLower(u), "https://") && r == u)
            || (!HasHttpScheme(u) && r == "https://" + u)
  {
    UpgradeHttp(WithScheme(u))
  }

  /** Line 11: a URL without an http or https scheme gets "https://" in front. */
  function WithScheme(u: string): (r: string)
    requires u != []
    ensures HasHttpScheme(r) && r[|r| - 1] == u[|u| - 1]
    ensures HasHttpScheme(u) ==> r == u
    ensures !HasHttpScheme(u) ==> r == "https://" + u && !StartsWith(ToLower(r), "http://")
  {
    if HasHttpScheme(u) then u
    else
      var r := "https://" + u;
      assert ToLower(r)[4] == 's';
      r
  }

  /** Line 12: an http scheme in any case becomes "https://"; any other URL is kept. */
  function UpgradeHttp(u: string): (r: string)
    requires HasHttpScheme(u) && u[|u| - 1] != '/'
    ensures StartsWith(ToLower(r), "https://") && r[|r| - 1] == u[|u| - 1]
    ensures StartsWith(ToLower(u), "http://") ==> r == "https://" + u[7..]
    ensures !StartsWith(ToLower(u), "http://") ==> r == u
  {
    if StartsWith(ToLower(u), "http://") then
      assert ToLower(u)[6] == '/';
      var r := "https://" + u[7..];
      assert ToLower(r)[..8] == ToLower("https://") == "https://";
      r
    else u
  }

  /** The input of normalizeUrl with its scheme made https (lines 8-12), or None when it is
      blank after trimming and stripping. */
  function HttpsCandidate(url: string): Option<string> {
    var u := Stripped(url);
    if u == "" then None else Some(ForceHttps(u))
  }

  /** Lines 14-21 of normalizeUrl: the URL parses and its lower-cased host is not local. */
  predicate AcceptedHost(u: string, hostname: string -> Option<string>) {
    hostname(u).Some? && !IsLocalHost(ToLower(hostname(u).value))
  }

  /** What normalizeUrl returns, given the hostname the URL parser finds in a string (None where
      the parser throws). A blank input, an unparsable URL and a local host give the fallback;
      any other input gives itself with its scheme made https and no trailing slash. */
  function NormalizedUrl(url: string, hostname: string -> Option<string>): (r: string)
    ensures HttpsCandidate(url).None? ==> r == FallbackSiteUrl
    ensures HttpsCandidate(url).Some? && AcceptedHost(HttpsCandidate(url).value, hostname) ==>
      r == HttpsCandidate(url).value
    ensures HttpsCandidate(url).Some? && !AcceptedHost(HttpsCandidate(url).value, hostname) ==>
      r == FallbackSiteUrl
    ensures r == FallbackSiteUrl ||
      (&& StartsWith(ToLower(r), "https://") && (r == [] || r[|r| - 1] != '/') && AcceptedHost(r, hostname))
  {
    var candidate := HttpsCandidate(url);
    if candidate.Some? && AcceptedHost(candidate.value, hostname) then candidate.value
    else FallbackSiteUrl
  }

  /** normalizeUrl, reassigning `u` as the source does. */
  method NormalizeUrl(url: string, hostname: string -> Option<string>) returns (r: string)
    ensures r == NormalizedUrl(url, hostname)
  {
    var u := StripTrailingSlashes(Trim(url));
    if u == "" {
      return FallbackSiteUrl;
    }
    if !HasHttpScheme(u) {
      u := "https://" + u;
    }
    if StartsWith(ToLower(u), "http://") {
      u := "https://" + u[7..];
    }
    var host := hostname(u);
    if host.None? || IsLocalHost(ToLower(host.value)) {
      return FallbackSiteUrl;
    }
    r := u;
  }

  /** SITE_URL: the configured NEXT_PUBLIC_SITE_URL, or the fallback when it is unset or empty,
      normalised. */
  function SiteUrl(configured: Option<string>, hostname: string -> Option<string>): string {
    var raw := if configured.Some? && configured.value != "" then configured.value else FallbackSiteUrl;
    NormalizedUrl(raw, hostname)
  }

  /** Lower-casing keeps a string without capital letters. */
  lemma LowerFixed(s: string)
    requires forall i | 0 <= i < |s| :: !('A' <= s[i] <= 'Z')
    ensures ToLower(s) == s
  {
  }

  lemma FallbackStripped()
    ensures Stripped(FallbackSiteUrl) == FallbackSiteUrl
  {
    var f := FallbackSiteUrl;
    TrimStartFixed(f);
    TrimEndFixed(f);
  }

  lemma FallbackForced()
    ensures ForceHttps(FallbackSiteUrl) == FallbackSiteUrl
  {
    var f := FallbackSiteUrl;
    LowerFixed(f);
    assert f[..8] == "https://";
    assert f[4] == 's';
    assert !StartsWith(ToLower(f), "http://") && StartsWith(ToLower(f), "https://");
  }

  lemma FallbackHostNotLocal()
    ensures !IsLocalHost(ToLower("framemogr.com"))
  {
    LowerFixed("framemogr.com");
    var h := "framemogr.com";
    assert h[0] == 'f' && h[|h| - 6] == 'g';
    assert h[..8] != "192.168." && h[|h| - 6..] != ".local";
  }

  /** Without configuration, SITE_URL is the fallback itself. */
  lemma UnconfiguredSiteUrl(hostname: string -> Option<string>)
    requires hostname(FallbackSiteUrl) == Some("framemogr.com")
    ensures SiteUrl(None, hostname) == FallbackSiteUrl
  {
    FallbackStripped();
    FallbackForced();
    FallbackHostNotLocal();
    assert SiteUrl(None, hostname) == NormalizedUrl(FallbackSiteUrl, hostname);
  }

  // ------------------------------------------------------------------ FAQPage

  /** A FAQ entry with each field None when it is not a string (a null entry has neither). */
  datatype FaqItem = FaqItem(question: Option<string>, answer: Option<string>)

  /** A `Question` of the FAQPage's mainEntity. */
  datatype FaqQuestion = FaqQuestion(name: string, acceptedAnswer: string)

  /** The FAQPage object; its "@context" and "@type" fields are constants. */
  datatype FaqPage = FaqPage(mainEntity: seq<FaqQuestion>)

  predicate IsValidFaq(f: FaqItem) {
    f.question.Some? && Trim(f.question.value) != "" && f.answer.Some? && Trim(f.answer.value) != ""
  }

  /** The filter of buildFaqPageJsonLd. */
  function ValidFaqs(faqs: seq<FaqItem>): (r: seq<FaqItem>)
    ensures |r| <= |faqs|
    ensures forall i | 0 <= i < |r| :: IsValidFaq(r[i])
  {
    if faqs == [] then []
    else (if IsValidFaq(faqs[0]) then [faqs[0]] else []) + ValidFaqs(faqs[1..])
  }

  /** The filter keeps exactly the valid entries, in input order. */
  lemma {:induction false} ValidFaqsProperties(a: seq<FaqItem>, b: seq<FaqItem>)
    ensures ValidFaqs(a + b) == ValidFaqs(a) + ValidFaqs(b)
    ensures forall f :: f in ValidFaqs(a) <==> f in a && IsValidFaq(f)
    decreases |a|
  {
    if a != [] {
      assert (a + b)[0] == a[0] && (a + b)[1..] == a[1..] + b;
      ValidFaqsProperties(a[1..], b);
      assert a == [a[0]] + a[1..];
    } else {
      assert a + b == b;
    }
  }

  /** buildFaqPageJsonLd, with `faqs ?? []`: null when fewer than two entries have a non-blank
      question and answer; otherwise one Question per such entry, in order, with both texts
      trimmed. */
  function BuildFaqPageJsonLd(faqs: Option<seq<FaqItem>>): (r: Option<FaqPage>)
    ensures var valid := ValidFaqs(faqs.GetOr([]));
      && (r.None? <==> |valid| < 2)
      && (r.Some? ==> |r.value.mainEntity| == |valid|)
      && (r.Some? ==> forall i | 0 <= i < |valid| ::
            r.value.mainEntity[i] == FaqQuestion(Trim(valid[i].question.value), Trim(valid[i].answer.value)))
  {
    var valid := ValidFaqs(faqs.GetOr([]));
    if |valid| < 2 then None
    else
      Some(FaqPage(seq(|valid|, i requires 0 <= i < |valid| =>
        FaqQuestion(Trim(valid[i].question.value), Trim(valid[i].answer.value)))))
  }

  /** Every emitted question and answer is non-blank and already trimmed. */
  lemma FaqPageTexts(faqs: Option<seq<FaqItem>>)
    ensures var r := BuildFaqPageJsonLd(faqs);
      r.Some? ==> forall i | 0 <= i < |r.value.mainEntity| ::
        var q := r.value.mainEntity[i];
        q.name != "" && q.acceptedAnswer != "" && Trim(q.name) == q.name && Trim(q.acceptedAnswer) == q.acceptedAnswer
  {
    var valid := ValidFaqs(faqs.GetOr([]));
    forall i | 0 <= i < |valid| ensures Trim(Trim(valid[i].question.value)) == Trim(valid[i].question.value)
                                     && Trim(Trim(valid[i].answer.value)) == Trim(valid[i].answer.value) {
      TrimIdempotent(valid[i].question.value);
      TrimIdempotent(valid[i].answer.value);
    }
  }

  // ------------------------------------------------------------------ BlogPosting

  datatype Author = Author(name: string, url: Option<string>)

  /** BlogPostingJsonLdMeta; a missing `keywords` or `author` is None. */
  datatype PostMeta = PostMeta(headline: string, description: string, datePublished: string,
                               dateModified: string, url: string, keywords: Option<seq<string>>,
                               author: Option<Author>)

  /** A schema.org Person; `url` is present only when set. */
  datatype Person = Person(name: string, url: Option<string>)

  /** ORGANIZATION. */
  datatype Organization = Organization(name: string, url: string)

  /** The posting object: `kind` is its "@type", `mainEntityOfPage` the "@id" of its WebPage. */
  datatype Posting = Posting(kind: string, headline: string, description: string,
                             datePublished: string, dateModified: string, mainEntityOfPage: string,
                             author: Person, publisher: Organization, keywords: Option<string>)

  function Publisher(siteUrl: string): Organization {
    Organization("FrameMog", siteUrl)
  }

  /** buildBlogPostingJsonLd, for the site URL SITE_URL. The texts and the page URL are copied;
      the author defaults to the Person "FrameMog" and carries a url only when a non-empty one is
      given; keywords appear, joined by ", ", only for a non-empty list. */
  function BuildBlogPostingJsonLd(meta: PostMeta, siteUrl: string): (r: Posting)
    ensures r.kind == "BlogPosting" && r.publisher == Publisher(siteUrl)
    ensures r.headline == meta.headline && r.description == meta.description
    ensures r.datePublished == meta.datePublished && r.dateModified == meta.dateModified
    ensures r.mainEntityOfPage == meta.url
    ensures meta.author.None? ==> r.author == Person("FrameMog", None)
    ensures meta.author.Some? ==>
      && r.author.name == meta.author.value.name
      && (r.author.url.Some? <==> meta.author.value.url.Some? && meta.author.value.url.value != "")
      && (r.author.url.Some? ==> r.author.url == meta.author.value.url)
    ensures r.keywords.Some? <==> meta.keywords.Some? && |meta.keywords.value| > 0
    ensures r.keywords.Some? ==> r.keywords.value == Join(meta.keywords.value, ", ")
  {
    var author := match meta.author
      case None => Person("FrameMog", None)
      case Some(a) => Person(a.name, if a.url.Some? && a.url.value != "" then a.url else None);
    var keywords := if meta.keywords.Some? && |meta.keywords.value| > 0
                    then Some(Join(meta.keywords.value, ", ")) else None;
    Posting("BlogPosting", meta.headline, meta.description, meta.datePublished, meta.dateModified,
            meta.url, author, Publisher(siteUrl), keywords)
  }

  /** buildArticleJsonLd: the same object with "@type" "Article". */
  function BuildArticleJsonLd(meta: PostMeta, siteUrl: string): (r: Posting)
    ensures r.kind == "Article"
    ensures r.(kind := "BlogPosting") == BuildBlogPostingJsonLd(meta, siteUrl)
  {
    BuildBlogPostingJsonLd(meta, siteUrl).(kind := "Article")
  }

  /** A single keyword is emitted as it is; each further keyword adds ", " and itself. */
  lemma KeywordsJoined(meta: PostMeta, siteUrl: string, k: string, ks: seq<string>)
    requires meta.keywords == Some([k] + ks)
    ensures var r := BuildBlogPostingJsonLd(meta, siteUrl);
      r.keywords == Some(if ks == [] then k else k + ", " + Join(ks, ", "))
  {
    assert ([k] + ks)[1..] == ks;
  }
}
