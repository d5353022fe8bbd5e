/**
 * extractJson, the identical helper of both vision runners (src/lib/runDominanceRanking.ts and
 * src/lib/runFrameMogV2.ts): strips Markdown code fences from a model reply, trims it, and cuts
 * out the text from the first '{' to the last '}' when there is such a pair.
 */
module JsonExtract {
  import opened Js
  import opened Json

  /** `s.replace(/```json\n?|\n?```/g, "")`: scanning from the left, an opening fence "```json"
      (with the newline after it, if any) or a closing fence "```" (with the newline before it,
      if any) is removed; every other character is kept. */
  function StripFences(s: string): string
    decreases |s|
  {
    if s == [] then []
    else if StartsWith(s, "```json") then
      if StartsWith(s[7..], "\n") then StripFences(s[8..]) else StripFences(s[7..])
    else if StartsWith(s, "\n```") then StripFences(s[4..])
    else if StartsWith(s, "```") then StripFences(s[3..])
    else [s[0]] + StripFences(s[1..])
  }

  predicate NoBacktick(s: string) {
    forall i :: 0 <= i < |s| ==> s[i] != '`'
  }

  /** Text without a backtick has no fence to strip. */
  lemma {:induction false} StripFencesNoBacktick(s: string)
    requires NoBacktick(s)
    ensures StripFences(s) == s
    decreases |s|
  {
    if s != [] {
      assert s[0] != '`' && (|s| > 1 ==> s[1] != '`');
      Kept(s);
      assert NoBacktick(s[1..]) by {
        forall i | 0 <= i < |s[1..]| ensures s[1..][i] != '`' {
          assert s[1..][i] == s[i + 1];
        }
      }
      StripFencesNoBacktick(s[1..]);
      assert s == [s[0]] + s[1..];
    }
  }

  /** Stripping never adds characters. */
  lemma {:induction false} StripFencesShorter(s: string)
    ensures |StripFences(s)| <= |s|
    decreases |s|
  {
    if s != [] {
      if StartsWith(s, "```json") {
        if StartsWith(s[7..], "\n") { StripFencesShorter(s[8..]); } else { StripFencesShorter(s[7..]); }
      } else if StartsWith(s, "\n```") {
        StripFencesShorter(s[4..]);
      } else if StartsWith(s, "```") {
        StripFencesShorter(s[3..]);
      } else {
        StripFencesShorter(s[1..]);
      }
    }
  }

  /** The stripped and trimmed reply. */
  function Stripped(raw: string): string {
    Trim(StripFences(raw))
  }

  /** The slice from the first '{' to the last '}', when a '{' comes before a later '}'. */
  function Cut(s: string): string {
    Between(s, IndexOf(s, '{'), LastIndexOf(s, '}'))
  }

  /** s from first to last inclusive when both were found in that order, else s. */
  function Between(s: string, first: int, last: int): string
    requires -1 <= first < |s| && -1 <= last < |s|
  {
    if first != -1 && last != -1 && last > first then s[first..last + 1] else s
  }

  /** extractJson: the stripped reply, cut to its outermost braces. */
  function Extract(raw: string): string {
    Cut(Stripped(raw))
  }

  /** extractJson cuts at the first '{' and the last '}' exactly when some '{' comes before some
      '}': the result then starts with '{' and ends with '}', and nothing cut off before it holds
      a '{' or after it a '}'. Otherwise it is the stripped text itself. */
  lemma ExtractProperties(raw: string)
    ensures var s := Stripped(raw);
            var r := Extract(raw);
      && ((exists i, j :: 0 <= i < j < |s| && s[i] == '{' && s[j] == '}') ==>
            var first := IndexOf(s, '{');
            var last := LastIndexOf(s, '}');
              0 <= first < last < |s| && r == s[first..last + 1] &&
              r[0] == '{' && r[|r| - 1] == '}' && '{' !in s[..first] && '}' !in s[last + 1..])
      && ((forall i, j :: 0 <= i < j < |s| && s[i] == '{' ==> s[j] != '}') ==> r == s)
  {
    var s := Stripped(raw);
    if i, j :| 0 <= i < j < |s| && s[i] == '{' && s[j] == '}' {
      CutAround(s, i, j);
      CutOuter(s, i, j);
    }
    if forall i, j :: 0 <= i < j < |s| && s[i] == '{' ==> s[j] != '}' {
      CutWhole(s);
    }
  }

  /** With a '{' at i before a '}' at j, the cut runs from the first '{' to the last '}'. */
  lemma CutAround(s: string, i: int, j: int)
    requires 0 <= i < j < |s| && s[i] == '{' && s[j] == '}'
    ensures var first := IndexOf(s, '{');
            var last := LastIndexOf(s, '}');
            var r := Cut(s);
      0 <= first < last < |s| && r == s[first..last + 1] && r[0] == '{' && r[|r| - 1] == '}'
  {
    var first := IndexOf(s, '{');
    var last := LastIndexOf(s, '}');
    PairCut(s, i, j);
    assert Cut(s) == Between(s, first, last);
    BetweenSlice(s, first, last);
  }

  /** Nothing cut off holds a '{' before the cut or a '}' after it. */
  lemma CutOuter(s: string, i: int, j: int)
    requires 0 <= i < j < |s| && s[i] == '{' && s[j] == '}'
    ensures var first := IndexOf(s, '{');
            var last := LastIndexOf(s, '}');
      0 <= first < last < |s| && '{' !in s[..first] && '}' !in s[last + 1..]
  {
    PairCut(s, i, j);
  }

  lemma BetweenSlice(s: string, first: int, last: int)
    requires 0 <= first < last < |s|
    ensures var r := Between(s, first, last);
      r == s[first..last + 1] && r[0] == s[first] && r[|r| - 1] == s[last]
  {
  }

  /** Without a '{' before a '}' nothing is cut. */
  lemma CutWhole(s: string)
    requires forall i, j :: 0 <= i < j < |s| && s[i] == '{' ==> s[j] != '}'
    ensures Cut(s) == s
  {
    CutHasPair(s);
  }

  /** A '{' before a '}' puts the first '{' before the last '}'. */
  lemma PairCut(s: string, i: int, j: int)
    requires 0 <= i < j < |s| && s[i] == '{' && s[j] == '}'
    ensures var first := IndexOf(s, '{');
            var last := LastIndexOf(s, '}');
      && 0 <= first <= i && j <= last < |s| && s[first] == '{' && s[last] == '}'
  {
    var first := IndexOf(s, '{');
    var last := LastIndexOf(s, '}');
    IndexOfAtMost(s, '{', i);
    LastIndexOfAtLeast(s, '}', j);
  }

  /** The first occurrence of c is at or before any occurrence. */
  lemma {:induction false} IndexOfAtMost(s: string, c: char, i: int)
    requires 0 <= i < |s| && s[i] == c
    ensures 0 <= IndexOf(s, c) <= i
    decreases |s|
  {
    if s[0] != c {
      assert s[1..][i - 1] == c;
      IndexOfAtMost(s[1..], c, i - 1);
    }
  }

  /** The last occurrence of c is at or after any occurrence. */
  lemma {:induction false} LastIndexOfAtLeast(s: string, c: char, j: int)
    requires 0 <= j < |s| && s[j] == c
    ensures j <= LastIndexOf(s, c) < |s|
    decreases |s|
  {
    if s[|s| - 1] != c {
      var init := s[..|s| - 1];
      assert init[j] == c;
      LastIndexOfAtLeast(init, c, j);
    }
  }

  /** A cut is made only around a '{' that comes before a '}'. */
  lemma CutHasPair(s: string)
    ensures var first := IndexOf(s, '{');
            var last := LastIndexOf(s, '}');
      first != -1 && last != -1 && last > first ==>
        exists i, j :: 0 <= i < j < |s| && s[i] == '{' && s[j] == '}'
  {
    var first := IndexOf(s, '{');
    var last := LastIndexOf(s, '}');
    if first != -1 && last != -1 && last > first {
      assert s[first] == '{' && s[last] == '}';
    }
  }

  /** What a vision call gave: it threw, or it answered with `choices[0]?.message?.content`. */
  datatype VisionReply = Threw | Answered(content: Option<string>)

  /** parseJsonOrNull over a given JSON.parse, which gives None where it would throw. */
  function ParseOrNull(parse: string -> Option<Json>, s: string): Json {
    match parse(s)
    case Some(v) => v
    case None => JNull
  }

  /** A reply in a ```json fence: the fence and the newlines next to it go. */
  lemma ExtractFenced()
    ensures Extract("```json\n{\"a\":1}\n```") == "{\"a\":1}"
  {
    FencedStripped();
    var body := "{\"a\":1}";
    TrimStartFixed(body);
    TrimEndFixed(body);
    assert IndexOf(body, '{') == 0;
    assert LastIndexOf(body, '}') == |body| - 1;
    assert body[0..|body|] == body;
  }

  lemma FencedStripped()
    ensures StripFences("```json\n{\"a\":1}\n```") == "{\"a\":1}"
  {
    var body := "{\"a\":1}";
    var raw := "```json\n{\"a\":1}\n```";
    assert raw[8..] == body + "\n```";
    StripFencesTail(body);
    assert StartsWith(raw, "```json") && StartsWith(raw[7..], "\n");
  }

  /** A character that starts no fence is kept. */
  lemma Kept(t: string)
    requires |t| > 0 && t[0] != '`' && (t[0] == '\n' && |t| > 1 ==> t[1] != '`')
    ensures StripFences(t) == [t[0]] + StripFences(t[1..])
  {
    assert !StartsWith(t, "```json") && !StartsWith(t, "```");
  }

  /** A backtick-free body followed by a closing fence loses the fence. */
  lemma {:induction false} StripFencesTail(body: string)
    requires NoBacktick(body) && (body == [] || body[|body| - 1] != '\n')
    ensures StripFences(body + "\n```") == body
    decreases |body|
  {
    var t := body + "\n```";
    if body == [] {
      assert t == "\n```";
      assert StartsWith(t, "\n```") && !StartsWith(t, "```json");
      assert t[4..] == [];
    } else {
      assert t[0] == body[0];
      if |body| > 1 {
        assert t[1] == body[1];
      } else {
        assert t[0] != '\n';
      }
      Kept(t);
      assert t[1..] == body[1..] + "\n```";
      assert NoBacktick(body[1..]) by {
        forall i | 0 <= i < |body[1..]| ensures body[1..][i] != '`' {
          assert body[1..][i] == body[i + 1];
        }
      }
      StripFencesTail(body[1..]);
    }
  }
}
