/**
 * escapeJsonLd (components/JsonLd.tsx, lines 6-12): every '<' of the serialised JSON becomes the
 * six characters `\u003c`, so the JSON-LD cannot close its script element. JSON.stringify is not
 * modelled: safeJsonLdStringify applies this escape to its output.
 */
module JsonLd {
  import opened Js

  /** The replacement for '<'. */
  const LtEscape := "\\u003c"

  function EscapeJsonLd(json: string): (r: string)
    ensures '<' !in r
  {
    ReplaceAll(json, '<', LtEscape)
  }

  /** Each '<' becomes its escape and every other character stays as it is, piece by piece. */
  lemma EscapeJsonLdPieces(a: string, b: string, c: char)
    ensures EscapeJsonLd(a + b) == EscapeJsonLd(a) + EscapeJsonLd(b)
    ensures EscapeJsonLd([c]) == (if c == '<' then LtEscape else [c])
  {
    ReplaceAllAppend(a, b, '<', LtEscape);
    assert [c][1..] == [];
  }

  /** The output is five characters longer per '<'. */
  lemma EscapeJsonLdLength(json: string)
    ensures |EscapeJsonLd(json)| == |json| + 5 * Count(json, '<')
  {
    ReplaceAllLength(json, '<', LtEscape);
  }

  /** Escaping twice is escaping once, and JSON without '<' is left as it is. */
  lemma EscapeJsonLdIdempotent(json: string)
    ensures EscapeJsonLd(EscapeJsonLd(json)) == EscapeJsonLd(json)
    ensures '<' !in json ==> EscapeJsonLd(json) == json
  {
  }
}
