/**
 * The open-redirect guard of the login and signup pages (app/login/page.tsx and
 * app/signup/page.tsx hold identical copies of validateNext): a `next` query parameter is
 * followed only when it is a same-site path under one of the app's own sections.
 */
module RedirectGuard {
  import opened Js

  /** ALLOWED_NEXT_PREFIXES. */
  const AllowedPrefixes: seq<string> := ["/calibrate", "/analyzing", "/results", "/select", "/paywall"]

  /** Where the page goes when `next` is refused or absent. */
  const DefaultRedirect := "/calibrate"

  predicate HasAllowedPrefix(s: string) {
    exists i | 0 <= i < |AllowedPrefixes| :: StartsWith(s, AllowedPrefixes[i])
  }

  /** validateNext. toLowerCase is modelled on ASCII letters; no other character lower-cases to
      a character of "http://" or "https://". */
  function ValidateNext(raw: Option<string>): (r: Option<string>)
    ensures raw.None? || raw.value == "" ==> r == None
    ensures r.Some? <==>
      (raw.Some? && raw.value != "" && StartsWith(raw.value, "/") && !StartsWith(raw.value, "//") &&
       !Contains(ToLower(raw.value), "http://") && !Contains(ToLower(raw.value), "https://") &&
       HasAllowedPrefix(raw.value))
    ensures r.Some? ==> r == raw
  {
    match raw
    case None => None
    case Some(s) =>
      if s == [] then None
      else if !StartsWith(s, "/") || StartsWith(s, "//") then None
      else
        var lower := ToLower(s);
        if Contains(lower, "http://") || Contains(lower, "https://") then None
        else if !HasAllowedPrefix(s) then None
        else Some(s)
  }

  /** `safeNext ?? "/calibrate"`. */
  function RedirectTo(rawNext: Option<string>): string {
    ValidateNext(rawNext).GetOr(DefaultRedirect)
  }

  /** The page goes to the accepted value itself, or to /calibrate; either way to a path that
      starts with one allowed prefix and not with "//". */
  lemma RedirectToProperties(rawNext: Option<string>)
    ensures ValidateNext(rawNext).Some? ==> RedirectTo(rawNext) == rawNext.value
    ensures ValidateNext(rawNext).None? ==> RedirectTo(rawNext) == DefaultRedirect
    ensures HasAllowedPrefix(RedirectTo(rawNext)) && !StartsWith(RedirectTo(rawNext), "//")
  {
    if ValidateNext(rawNext).None? {
      assert StartsWith(DefaultRedirect, AllowedPrefixes[0]);
      assert DefaultRedirect[1] != '/';
    }
  }

  /** Lower-casing keeps a prefix a prefix. */
  lemma StartsWithLower(s: string, p: string)
    requires StartsWith(s, p)
    ensures StartsWith(ToLower(s), ToLower(p))
  {
    assert ToLower(s)[..|p|] == ToLower(p);
  }

  /** Lower-casing keeps a substring a substring. */
  lemma {:induction false} ContainsLower(s: string, sub: string)
    requires Contains(s, sub)
    ensures Contains(ToLower(s), ToLower(sub))
    decreases |s|
  {
    if StartsWith(s, sub) {
      StartsWithLower(s, sub);
    } else {
      ContainsLower(s[1..], sub);
      assert ToLower(s)[1..] == ToLower(s[1..]);
    }
  }

  /** A value holding "http://" or "https://" in any mix of cases is refused. */
  lemma SchemesRefused(raw: string, scheme: string)
    requires ToLower(scheme) == "http://" || ToLower(scheme) == "https://"
    requires Contains(raw, scheme)
    ensures ValidateNext(Some(raw)) == None
  {
    ContainsLower(raw, scheme);
  }

  /** A protocol-relative path is refused. */
  lemma ProtocolRelativeRefused()
    ensures ValidateNext(Some("//evil.example/results")) == None
  {
    assert StartsWith("//evil.example/results", "//");
  }

  /** An absolute URL smuggled in upper case is refused. */
  lemma UpperCaseSchemeRefused()
    ensures ValidateNext(Some("/results?next=HTTPS://x")) == None
  {
    var encoded := "/results?next=HTTPS://x";
    assert encoded[14..] == "HTTPS://x";
    assert StartsWith(encoded[14..], "HTTPS://");
    ContainsSuffix(encoded, 14, "HTTPS://");
    assert ToLower("HTTPS://") == "https://";
    SchemesRefused(encoded, "HTTPS://");
  }

  /** An app path passes unchanged. */
  lemma AppPathAccepted()
    ensures ValidateNext(Some("/results/abc")) == Some("/results/abc")
  {
    var good := "/results/abc";
    assert StartsWith(good, AllowedPrefixes[2]);
    assert good[1] != '/';
    assert ':' !in ToLower(good);
    NoColonNoScheme(ToLower(good));
  }

  /** A path outside the allowed sections is refused. */
  lemma OtherSectionRefused()
    ensures ValidateNext(Some("/admin")) == None
  {
    var admin := "/admin";
    forall i | 0 <= i < |AllowedPrefixes| ensures !StartsWith(admin, AllowedPrefixes[i]) {
      assert admin[1] == 'a';
    }
  }

  /** A string that has `sub` at offset k contains it. */
  lemma {:induction false} ContainsSuffix(s: string, k: nat, sub: string)
    requires k <= |s| && StartsWith(s[k..], sub)
    ensures Contains(s, sub)
    decreases k
  {
    if k > 0 {
      assert s[1..][k - 1..] == s[k..];
      ContainsSuffix(s[1..], k - 1, sub);
    } else {
      assert s[0..] == s;
    }
  }

  /** A string without ':' holds no URL scheme. */
  lemma {:induction false} NoColonNoScheme(s: string)
    requires ':' !in s
    ensures !Contains(s, "http://") && !Contains(s, "https://")
    decreases |s|
  {
    if |s| > 0 {
      forall i | 0 <= i < |s[1..]| ensures s[1..][i] != ':' {
        assert s[1..][i] == s[i + 1];
      }
      NoColonNoScheme(s[1..]);
    }
    SchemeHasColon(s);
  }

  lemma SchemeHasColon(s: string)
    ensures StartsWith(s, "http://") ==> ':' in s
    ensures StartsWith(s, "https://") ==> ':' in s
  {
    if StartsWith(s, "http://") {
      assert s[4] == "http://"[4];
    }
    if StartsWith(s, "https://") {
      assert s[5] == "https://"[5];
    }
  }
}
