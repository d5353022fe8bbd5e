/**
 * Person labels (lib/analysis/labels.ts): "Person A" … "Person Z", "Person AA", "Person AB" …
 * is bijective base-26 over the letters A–Z; labelToPath turns a label into a storage-path
 * segment by replacing each whitespace run with "_".
 */
module Labels {
  import opened Js

  /** The letter for digit d (String.fromCharCode(65 + d)). */
  function Letter(d: int): char
    requires 0 <= d < 26
  {
    (65 + d) as char
  }

  predicate IsUpperLetter(c: char) {
    'A' <= c <= 'Z'
  }

  /** The letters the loop of getPersonLabel builds for n: empty for a negative n, otherwise the
      letters of n / 26 - 1 followed by the letter of n % 26. */
  function Letters(n: int): string
    decreases if n < 0 then 0 else n + 1
  {
    if n < 0 then "" else Letters(n / 26 - 1) + [Letter(n % 26)]
  }

  /** The label getPersonLabel returns. */
  function PersonLabel(index: int): string {
    "Person " + Letters(index)
  }

  /** getPersonLabel: prepends one letter per iteration while n >= 0. */
  method GetPersonLabel(index: int) returns (name: string)
    ensures name == PersonLabel(index)
  {
    var s := "";
    var n := index;
    while n >= 0
      invariant n >= -1 || n == index
      invariant Letters(n) + s == Letters(index)
      decreases n + 1
    {
      s := [Letter(n % 26)] + s;
      n := n / 26 - 1;
    }
    name := "Person " + s;
  }

  /** For a non-negative index the letters are a non-empty string over A–Z. */
  lemma {:induction false} LettersShape(n: int)
    requires n >= 0
    ensures |Letters(n)| >= 1
    ensures forall i :: 0 <= i < |Letters(n)| ==> IsUpperLetter(Letters(n)[i])
    decreases n
  {
    if n / 26 - 1 >= 0 {
      LettersShape(n / 26 - 1);
    }
  }

  lemma PersonLabelExamples()
    ensures PersonLabel(0) == "Person A"
    ensures PersonLabel(1) == "Person B"
    ensures PersonLabel(25) == "Person Z"
    ensures PersonLabel(26) == "Person AA"
    ensures PersonLabel(27) == "Person AB"
    ensures PersonLabel(701) == "Person ZZ"
    ensures PersonLabel(702) == "Person AAA"
  {
    assert Letters(26) == Letters(0) + "A";
    assert Letters(27) == Letters(0) + "B";
    assert Letters(701) == Letters(25) + "Z";
    assert Letters(702) == Letters(26) + "A";
  }

  /** The value a string of letters stands for in bijective base 26: the inverse of Letters. */
  function Decode(s: string): int
    requires |s| >= 1 && forall i :: 0 <= i < |s| ==> IsUpperLetter(s[i])
  {
    var d := s[|s| - 1] as int - 65;
    if |s| == 1 then d else (Decode(s[..|s| - 1]) + 1) * 26 + d
  }

  lemma {:induction false} DecodeLetters(n: int)
    requires n >= 0
    ensures LettersShapeHolds(n)
    ensures Decode(Letters(n)) == n
    decreases n
  {
    LettersShape(n);
    var m := n / 26 - 1;
    var d := n % 26;
    var s := Letters(n);
    assert s == Letters(m) + [Letter(d)];
    assert s[|s| - 1] as int - 65 == d;
    DivMod26(n);
    if m >= 0 {
      DecodeLetters(m);
      assert s[..|s| - 1] == Letters(m);
      assert Decode(s) == (Decode(Letters(m)) + 1) * 26 + d;
    } else {
      assert |s| == 1;
    }
  }

  /** n is (n / 26 - 1 + 1) * 26 + n % 26, and below 26 when n / 26 - 1 is negative. */
  lemma DivMod26(n: int)
    requires n >= 0
    ensures n == (n / 26 - 1 + 1) * 26 + n % 26
    ensures n / 26 - 1 < 0 ==> n % 26 == n
  {
  }

  predicate LettersShapeHolds(n: int) {
    |Letters(n)| >= 1 && forall i :: 0 <= i < |Letters(n)| ==> IsUpperLetter(Letters(n)[i])
  }

  lemma {:induction false} LettersDecode(s: string)
    requires |s| >= 1 && forall i :: 0 <= i < |s| ==> IsUpperLetter(s[i])
    ensures Decode(s) >= 0
    ensures Letters(Decode(s)) == s
    decreases |s|
  {
    var d := s[|s| - 1] as int - 65;
    if |s| > 1 {
      var init := s[..|s| - 1];
      LettersDecode(init);
      var n := Decode(s);
      assert n == (Decode(init) + 1) * 26 + d;
      assert n / 26 - 1 == Decode(init) && n % 26 == d;
      assert s == init + [s[|s| - 1]];
    }
  }

  /** Letters is a bijection between the non-negative integers and the non-empty strings over
      A–Z: distinct indices get distinct labels, and every such string is some index's
      letters. */
  lemma LettersBijective(m: int, n: int, s: string)
    requires m >= 0 && n >= 0
    requires |s| >= 1 && forall i :: 0 <= i < |s| ==> IsUpperLetter(s[i])
    ensures Letters(m) == Letters(n) <==> m == n
    ensures PersonLabel(m) == PersonLabel(n) <==> m == n
    ensures exists k :: k >= 0 && Letters(k) == s
  {
    DecodeLetters(m);
    DecodeLetters(n);
    LettersDecode(s);
    if PersonLabel(m) == PersonLabel(n) {
      assert Letters(m) == PersonLabel(m)[7..] == PersonLabel(n)[7..] == Letters(n);
    }
  }

  // ---------------------------------------------------------------- labelToPath

  /** `label.replace(/\s+/g, "_")`: each maximal whitespace run becomes one "_". */
  function ToPath(s: string): string
    decreases |s|
  {
    if s == [] then []
    else if IsSpace(s[0]) then "_" + ToPath(TrimStart(s))
    else [s[0]] + ToPath(s[1..])
  }

  /** The output of labelToPath holds no whitespace. */
  lemma {:induction false} ToPathNoSpace(s: string)
    ensures NoSpace(ToPath(s))
    decreases |s|
  {
    if s != [] {
      if IsSpace(s[0]) {
        ToPathNoSpace(TrimStart(s));
      } else {
        ToPathNoSpace(s[1..]);
      }
    }
  }

  /** A string without whitespace is its own path. */
  lemma {:induction false} ToPathIdentity(s: string)
    requires NoSpace(s)
    ensures ToPath(s) == s
    decreases |s|
  {
    if s != [] {
      ToPathIdentity(s[1..]);
    }
  }

  /** labelToPath is idempotent. */
  lemma ToPathIdempotent(s: string)
    ensures ToPath(ToPath(s)) == ToPath(s)
  {
    ToPathNoSpace(s);
    ToPathIdentity(ToPath(s));
  }

  /** A whitespace run of any length becomes a single "_". */
  lemma ToPathCollapsesRuns(a: string, run: string, b: string)
    requires NoSpace(a) && |run| >= 1 && AllSpace(run) && (b == [] || !IsSpace(b[0]))
    ensures ToPath(a + run + b) == a + "_" + ToPath(b)
  {
    ToPathPrefix(a, run + b);
    assert a + run + b == a + (run + b);
    TrimStartDropsRun(run, b);
    assert (run + b)[0] == run[0];
    assert ToPath(run + b) == "_" + ToPath(b);
  }

  lemma {:induction false} ToPathPrefix(a: string, t: string)
    requires NoSpace(a)
    ensures ToPath(a + t) == a + ToPath(t)
    decreases |a|
  {
    if a != [] {
      assert (a + t)[0] == a[0] && !IsSpace(a[0]) && (a + t)[1..] == a[1..] + t;
      assert NoSpace(a[1..]) by {
        forall i | 0 <= i < |a[1..]| ensures !IsSpace(a[1..][i]) {
          assert a[1..][i] == a[i + 1];
        }
      }
      ToPathPrefix(a[1..], t);
      calc {
        ToPath(a + t);
        [a[0]] + ToPath(a[1..] + t);
        [a[0]] + (a[1..] + ToPath(t));
        { assert a == [a[0]] + a[1..]; }
        a + ToPath(t);
      }
    } else {
      assert a + t == t;
    }
  }

  lemma {:induction false} TrimStartDropsRun(run: string, b: string)
    requires AllSpace(run) && (b == [] || !IsSpace(b[0]))
    ensures TrimStart(run + b) == b
    decreases |run|
  {
    if run == [] {
      assert run + b == b;
    } else {
      assert (run + b)[1..] == run[1..] + b;
      TrimStartDropsRun(run[1..], b);
    }
  }

  lemma ToPathExample()
    ensures ToPath("Person A") == "Person_A"
  {
    ToPathCollapsesRuns("Person", " ", "A");
    assert "Person" + " " + "A" == "Person A";
  }
}
