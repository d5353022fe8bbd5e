/**
 * escapeXml of the RSS feed route (app/rss.xml/route.ts, lines 5-12): the five XML special
 * characters replaced by their predefined entities, ampersands first.
 */
module RssEscape {
  import opened Js

  /** escapeXml: a chain of global replaces, '&' first and then the four of AfterAmp, in the
      source's order. */
  function EscapeXml(s: string): string {
    AfterAmp(ReplaceAll(s, '&', "&amp;"))
  }

  /** What one character becomes. */
  function EscapeChar(c: char): string {
    if c == '&' then "&amp;"
    else if c == '<' then "&lt;"
    else if c == '>' then "&gt;"
    else if c == '"' then "&quot;"
    else if c == '\'' then "&apos;"
    else [c]
  }

  /** Each character escaped on its own. */
  function Escaped(s: string): string {
    if s == [] then [] else EscapeChar(s[0]) + Escaped(s[1..])
  }

  predicate IsSpecial(c: char) {
    c == '&' || c == '<' || c == '>' || c == '"' || c == '\''
  }

  lemma EscapeXmlAppend(a: string, b: string)
    ensures EscapeXml(a + b) == EscapeXml(a) + EscapeXml(b)
  {
    var amp := ReplaceAll(a, '&', "&amp;");
    var lt := ReplaceAll(amp, '<', "&lt;");
    var gt := ReplaceAll(lt, '>', "&gt;");
    var quot := ReplaceAll(gt, '"', "&quot;");
    var amp' := ReplaceAll(b, '&', "&amp;");
    var lt' := ReplaceAll(amp', '<', "&lt;");
    var gt' := ReplaceAll(lt', '>', "&gt;");
    var quot' := ReplaceAll(gt', '"', "&quot;");
    ReplaceAllAppend(a, b, '&', "&amp;");
    ReplaceAllAppend(amp, amp', '<', "&lt;");
    ReplaceAllAppend(lt, lt', '>', "&gt;");
    ReplaceAllAppend(gt, gt', '"', "&quot;");
    ReplaceAllAppend(quot, quot', '\'', "&apos;");
  }

  /** The last four replaces of the chain. */
  function AfterAmp(amp: string): string {
    var lt := ReplaceAll(amp, '<', "&lt;");
    var gt := ReplaceAll(lt, '>', "&gt;");
    var quot := ReplaceAll(gt, '"', "&quot;");
    ReplaceAll(quot, '\'', "&apos;")
  }

  /** A character goes through the chain to its entity: an entity inserted by one replace holds
      none of the characters the later ones replace, which is why '&' must go first. */
  lemma EscapeXmlChar(c: char)
    ensures EscapeXml([c]) == EscapeChar(c)
  {
    ReplaceAllSingle(c, '&', "&amp;");
    assert EscapeXml([c]) == AfterAmp(ReplaceAll([c], '&', "&amp;"));
    if c == '&' {
      AmpPassesOn();
    } else {
      AfterAmpChar(c);
    }
  }

  lemma AmpPassesOn()
    ensures AfterAmp("&amp;") == "&amp;"
  {
    var e := "&amp;";
    assert '<' !in e && '>' !in e && '"' !in e && '\'' !in e;
  }

  lemma AfterAmpChar(c: char)
    requires c != '&'
    ensures AfterAmp([c]) == EscapeChar(c)
  {
    ReplaceAllSingle(c, '<', "&lt;");
    var lt := ReplaceAll([c], '<', "&lt;");
    if c == '<' {
      assert '>' !in lt && '"' !in lt && '\'' !in lt;
    } else {
      ReplaceAllSingle(c, '>', "&gt;");
      var gt := ReplaceAll([c], '>', "&gt;");
      if c == '>' {
        assert '"' !in gt && '\'' !in gt;
      } else {
        ReplaceAllSingle(c, '"', "&quot;");
        ReplaceAllSingle(c, '\'', "&apos;");
        var quot := ReplaceAll([c], '"', "&quot;");
        if c == '"' {
          assert '\'' !in quot;
        }
      }
    }
  }

  /** The chain of replaces escapes each character on its own. */
  lemma {:induction false} EscapeXmlIsEscaped(s: string)
    ensures EscapeXml(s) == Escaped(s)
    decreases |s|
  {
    if s == [] {
    } else {
      assert s == [s[0]] + s[1..];
      EscapeXmlAppend([s[0]], s[1..]);
      EscapeXmlChar(s[0]);
      EscapeXmlIsEscaped(s[1..]);
    }
  }

  lemma {:induction false} EscapedNoMarkup(s: string)
    ensures var r := Escaped(s); '<' !in r && '>' !in r && '"' !in r && '\'' !in r
    decreases |s|
  {
    if s != [] {
      EscapedNoMarkup(s[1..]);
      EscapeCharNoMarkup(s[0]);
      assert Escaped(s) == EscapeChar(s[0]) + Escaped(s[1..]);
    }
  }

  /** No character escapes to text holding <, >, " or '. */
  lemma EscapeCharNoMarkup(c: char)
    ensures var r := EscapeChar(c); '<' !in r && '>' !in r && '"' !in r && '\'' !in r
  {
    var r := EscapeChar(c);
    if IsSpecial(c) {
      assert r[0] == '&' && forall i | 1 <= i < |r| :: 'a' <= r[i] <= 'z' || r[i] == ';';
    } else {
      assert r == [c];
    }
  }

  /** The output holds no <, >, " or '. */
  lemma EscapeXmlNoMarkup(s: string)
    ensures var r := EscapeXml(s); '<' !in r && '>' !in r && '"' !in r && '\'' !in r
  {
    EscapeXmlIsEscaped(s);
    EscapedNoMarkup(s);
  }

  /** One of the five predefined entities starts at index i of r. */
  predicate EntityAt(r: string, i: nat)
    requires i <= |r|
  {
    StartsWith(r[i..], "&amp;") || StartsWith(r[i..], "&lt;") || StartsWith(r[i..], "&gt;") ||
    StartsWith(r[i..], "&quot;") || StartsWith(r[i..], "&apos;")
  }

  /** What a character escapes to has an '&' at most at its start, and then is an entity. */
  lemma EscapeCharShape(c: char)
    ensures var e := EscapeChar(c);
      && |e| >= 1
      && (forall j | 1 <= j < |e| :: e[j] != '&')
      && (e[0] == '&' ==> EntityAt(e, 0))
  {
    var e := EscapeChar(c);
    assert e[0..] == e;
  }

  /** An entity at the start of e is still there with anything after it. */
  lemma EntityPrefix(e: string, t: string)
    requires EntityAt(e, 0)
    ensures EntityAt(e + t, 0)
  {
    var r := e + t;
    assert r[0..] == r && e[0..] == e;
    if StartsWith(e, "&amp;") {
      assert r[..5] == e[..5];
    } else if StartsWith(e, "&lt;") {
      assert r[..4] == e[..4];
    } else if StartsWith(e, "&gt;") {
      assert r[..4] == e[..4];
    } else if StartsWith(e, "&quot;") {
      assert r[..6] == e[..6];
    } else {
      assert r[..6] == e[..6];
    }
  }

  predicate AmpersandsBeginEntities(r: string) {
    forall i | 0 <= i < |r| && r[i] == '&' :: EntityAt(r, i)
  }

  /** Every '&' of the output begins an entity. */
  lemma {:induction false} EscapedAmpersands(s: string)
    ensures AmpersandsBeginEntities(Escaped(s))
    decreases |s|
  {
    if s != [] {
      EscapedAmpersands(s[1..]);
      var e, rest := EscapeChar(s[0]), Escaped(s[1..]);
      var r := e + rest;
      EscapeCharShape(s[0]);
      forall i | 0 <= i < |r| && r[i] == '&' ensures EntityAt(r, i) {
        if i < |e| {
          assert e[i] == '&';
          assert i == 0;
          EntityPrefix(e, rest);
          assert r[i..] == r[0..] == e + rest;
          assert EntityAt(e + rest, 0);
        } else {
          var j := i - |e|;
          assert r[i..] == rest[j..];
          assert 0 <= j < |rest| && rest[j] == '&';
          assert EntityAt(rest, j);
        }
      }
    }
  }

  /** With escapeXml itself: every '&' of its output begins an entity. */
  lemma EscapeXmlAmpersands(s: string)
    ensures AmpersandsBeginEntities(EscapeXml(s))
  {
    EscapeXmlIsEscaped(s);
    EscapedAmpersands(s);
  }

  /** A string without special characters is returned unchanged. */
  lemma EscapeXmlClean(s: string)
    requires forall i | 0 <= i < |s| :: !IsSpecial(s[i])
    ensures EscapeXml(s) == s
  {
  }

  /** Ampersands go first: an ampersand before plain text becomes "&amp;", so an entity in the
      input is itself escaped ("&lt;" becomes "&amp;lt;"). */
  lemma AmpersandEscapedFirst(t: string)
    requires forall i | 0 <= i < |t| :: !IsSpecial(t[i])
    ensures EscapeXml("&" + t) == "&amp;" + t
  {
    EscapeXmlAppend("&", t);
    EscapeXmlChar('&');
    EscapeXmlClean(t);
  }

  /** Entities decoded back: the inverse of escapeXml. */
  function UnescapeXml(r: string): string
    decreases |r|
  {
    if r == [] then []
    else if StartsWith(r, "&amp;") then "&" + UnescapeXml(r[5..])
    else if StartsWith(r, "&lt;") then "<" + UnescapeXml(r[4..])
    else if StartsWith(r, "&gt;") then ">" + UnescapeXml(r[4..])
    else if StartsWith(r, "&quot;") then "\"" + UnescapeXml(r[6..])
    else if StartsWith(r, "&apos;") then "'" + UnescapeXml(r[6..])
    else [r[0]] + UnescapeXml(r[1..])
  }

  lemma UnescapePlain(c: char, rest: string)
    requires !IsSpecial(c)
    ensures UnescapeXml([c] + rest) == [c] + UnescapeXml(rest)
  {
    var r := [c] + rest;
    assert r[0] == c && r[1..] == rest;
  }

  lemma UnescapeEntity(c: char, rest: string)
    requires IsSpecial(c)
    ensures UnescapeXml(EscapeChar(c) + rest) == [c] + UnescapeXml(rest)
  {
    var e := EscapeChar(c);
    var r := e + rest;
    assert r[..|e|] == e && r[|e|..] == rest;
    assert r[1] == e[1];
    if c == '&' {
      assert StartsWith(r, "&amp;");
    } else if c == '<' {
      assert StartsWith(r, "&lt;");
    } else if c == '>' {
      assert StartsWith(r, "&gt;");
    } else if c == '"' {
      assert StartsWith(r, "&quot;");
    } else {
      assert StartsWith(r, "&apos;");
    }
  }

  lemma UnescapeChar(c: char, rest: string)
    ensures UnescapeXml(EscapeChar(c) + rest) == [c] + UnescapeXml(rest)
  {
    if IsSpecial(c) {
      UnescapeEntity(c, rest);
    } else {
      UnescapePlain(c, rest);
    }
  }

  /** Decoding the output gives the input back, so escaping loses nothing. */
  lemma {:induction false} EscapedRoundTrip(s: string)
    ensures UnescapeXml(Escaped(s)) == s
    decreases |s|
  {
    if s != [] {
      UnescapeChar(s[0], Escaped(s[1..]));
      EscapedRoundTrip(s[1..]);
    }
  }

  /** The same for escapeXml itself; hence different strings escape differently. */
  lemma EscapeXmlRoundTrip(s: string)
    ensures UnescapeXml(EscapeXml(s)) == s
  {
    EscapeXmlIsEscaped(s);
    EscapedRoundTrip(s);
  }
}
