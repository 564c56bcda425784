/** The JSON-span extractor of the LLM client and its trailing-comma repair
    (llm_client.py, `_extract_first_json` and the fallback cleanup of `extract_entities`). */
module JsonSpan {
  import opened Wrappers
  import opened Text

  /** Curly-brace depth of a text: opening minus closing braces. Quotes are not special,
      so braces inside string literals count like any other. */
  function Depth(s: string): int {
    (multiset(s)['{'] as int) - (multiset(s)['}'] as int)
  }

  /** `s` opens with `{`, is back at depth zero at its end and at no shorter non-empty prefix. */
  predicate Balanced(s: string) {
    && |s| > 0 && s[0] == '{' && Depth(s) == 0
    && forall k :: 0 < k < |s| ==> Depth(s[..k]) > 0
  }

  /** After the brace at `start`, the depth of `text[start..k]` stays positive for every end `k`. */
  predicate NeverCloses(text: string, start: nat)
    requires start <= |text|
  {
    forall k :: start < k <= |text| ==> Depth(text[start..k]) > 0
  }

  /** `str.find(c)`: the first position of `c`, or -1. */
  function Find(s: string, c: char): (r: int)
    ensures -1 <= r < |s|
    ensures r == -1 <==> c !in s
    ensures 0 <= r ==> s[r] == c && c !in s[..r]
  {
    if |s| == 0 then -1
    else if s[0] == c then 0
    else
      var j := Find(s[1..], c);
      assert s == [s[0]] + s[1..];
      if j == -1 then -1
      else
        assert s[..j + 1] == [s[0]] + s[1..][..j];
        j + 1
  }

  /** The brace-counting loop, resumed at index `i` with running depth `depth`; returns the
      exclusive end of the span when the depth first returns to zero. */
  function Scan(text: string, start: nat, i: nat, depth: int): (r: Option<nat>)
    requires start < i <= |text| && text[start] == '{'
    requires depth == Depth(text[start..i])
    requires forall k :: start < k <= i ==> Depth(text[start..k]) > 0
    ensures r.Some? ==> i < r.value <= |text| && Balanced(text[start..r.value])
    ensures r.None? ==> NeverCloses(text, start)
    decreases |text| - i
  {
    if i == |text| then None
    else
      var c := text[i];
      var d := depth + Step(c);
      DepthStep(text, start, i);
      if d == 0 then
        BalancedFromPrefixes(text, start, i + 1);
        Some(i + 1)
      else
        assert Depth(text[start..i]) > 0;
        Scan(text, start, i + 1, d)
  }

  /** How one character moves the depth. */
  function Step(c: char): int {
    if c == '{' then 1 else if c == '}' then -1 else 0
  }

  /** Extending a span by one character moves its depth by that character's step. */
  lemma DepthStep(text: string, start: nat, i: nat)
    requires start <= i < |text|
    ensures Depth(text[start..i + 1]) == Depth(text[start..i]) + Step(text[i])
  {
    assert text[start..i + 1] == text[start..i] + [text[i]];
  }

  /** Restates the prefix depths of `text[start..end]` on the span itself. */
  lemma BalancedFromPrefixes(text: string, start: nat, end: nat)
    requires start < end <= |text| && text[start] == '{'
    requires Depth(text[start..end]) == 0
    requires forall k :: start < k < end ==> Depth(text[start..k]) > 0
    ensures Balanced(text[start..end])
  {
    var s := text[start..end];
    forall k | 0 < k < |s| ensures Depth(s[..k]) > 0 {
      assert s[..k] == text[start..start + k];
    }
  }

  /** `_extract_first_json`: the shortest brace-balanced span starting at the first `{`,
      or "" when the text has no `{` or the depth never returns to zero. */
  function ExtractFirstJson(text: string): (r: string)
    ensures '{' !in text ==> r == ""
    ensures r != "" ==> var s := Find(text, '{'); s + |r| <= |text| && r == text[s..s + |r|] && Balanced(r)
    ensures r == "" && '{' in text ==> NeverCloses(text, Find(text, '{'))
  {
    var start := Find(text, '{');
    if start == -1 then ""
    else
      assert text[start..start + 1] == ['{'];
      match Scan(text, start, start + 1, 1)
      case Some(e) => text[start..e]
      case None => ""
  }

  /** A balanced span has at least two characters and ends with `}`. */
  lemma BalancedEndsWithClose(s: string)
    requires Balanced(s)
    ensures |s| >= 2 && s[|s| - 1] == '}'
  {
    var n := |s| - 1;
    assert s == s[..n] + [s[n]];
    if n > 0 {
      assert Depth(s[..n]) > 0;
    }
  }

  /** Two balanced spans starting at the same position are the same span. */
  lemma {:induction false} BalancedUnique(text: string, start: nat, e1: nat, e2: nat)
    requires start <= e1 <= |text| && start <= e2 <= |text|
    requires Balanced(text[start..e1]) && Balanced(text[start..e2])
    ensures e1 == e2
  {
    var lo := if e1 < e2 then e1 else e2;
    var hi := if e1 < e2 then e2 else e1;
    assert text[start..hi][..lo - start] == text[start..lo];
  }

  /** The extracted span is the shortest one from the first `{` whose braces balance. */
  lemma {:induction false} ExtractIsShortest(text: string, e: nat)
    requires '{' in text
    requires Find(text, '{') < e <= |text|
    requires Depth(text[Find(text, '{')..e]) == 0
    ensures ExtractFirstJson(text) != ""
    ensures Find(text, '{') + |ExtractFirstJson(text)| <= e
  {
    var s := Find(text, '{');
    var r := ExtractFirstJson(text);
    assert r != "";
    var k := if e - s < |r| then e - s else |r|;
    assert r[..k] == text[s..s + k];
  }

  /** A reply made of brace-free prose, one balanced object, then anything at all yields
      exactly that object. */
  lemma {:induction false} ExtractFromWrapped(pre: string, obj: string, post: string)
    requires '{' !in pre
    requires Balanced(obj)
    ensures ExtractFirstJson(pre + obj + post) == obj
  {
    var text := pre + obj + post;
    assert text[|pre|] == '{';
    assert text[..|pre|] == pre;
    var s := Find(text, '{');
    assert s == |pre|;
    assert text[s..s + |obj|] == obj;
    var r := ExtractFirstJson(text);
    assert Depth(text[s..s + |obj|]) == 0;
    BalancedUnique(text, s, s + |r|, s + |obj|);
  }

  // ---------------------------------------------------------------------------
  // Trailing-comma cleanup: re.sub(r",\s*}", "}", t) then re.sub(r",\s*\]", "]", t)

  /** The end of the whitespace run that starts at `j`: the first index from `j` on that
      holds no whitespace, or the length. */
  function SpaceEnd(s: string, j: nat): (k: nat)
    requires j <= |s|
    ensures j <= k <= |s|
    ensures k < |s| ==> !IsSpace(s[k])
    decreases |s| - j
  {
    if j == |s| || !IsSpace(s[j]) then j else SpaceEnd(s, j + 1)
  }

  /** The pattern `,\s*close` matches at index `i`. Because `\s` never matches `close`,
      backtracking cannot help, so a greedy whitespace run decides the match. */
  predicate CommaAt(s: string, i: nat, close: char)
    requires i < |s| && !IsSpace(close)
  {
    s[i] == ',' && SpaceEnd(s, i + 1) < |s| && s[SpaceEnd(s, i + 1)] == close
  }

  /** No index of `s` starts a match of `,\s*close`. */
  predicate NoCommaBefore(s: string, close: char)
    requires !IsSpace(close)
  {
    forall p :: 0 <= p < |s| ==> !CommaAt(s, p, close)
  }

  /** The scan of one `re.sub(",\s*close", close, s)` pass, from index `i` on: a match is
      replaced by its closing bracket and the scan resumes after it; anything else is
      copied. */
  function DropFrom(s: string, i: nat, close: char): (r: string)
    requires i <= |s| && !IsSpace(close)
    ensures |r| <= |s| - i
    decreases |s| - i
  {
    if i == |s| then ""
    else if CommaAt(s, i, close) then [close] + DropFrom(s, SpaceEnd(s, i + 1) + 1, close)
    else [s[i]] + DropFrom(s, i + 1, close)
  }

  /** One left-to-right `re.sub(",\s*close", close, s)` pass. */
  function DropCommas(s: string, close: char): (r: string)
    requires !IsSpace(close)
    ensures |r| <= |s|
    ensures NoCommaBefore(s, close) ==> r == s
  {
    if NoCommaBefore(s, close) then
      DropFromNoMatch(s, 0, close);
      assert s[0..] == s;
      DropFrom(s, 0, close)
    else DropFrom(s, 0, close)
  }

  /** At a match the pass writes the closing bracket and resumes after it. */
  lemma DropFromSkips(s: string, i: nat, close: char)
    requires i < |s| && !IsSpace(close) && CommaAt(s, i, close)
    ensures DropFrom(s, i, close) == [close] + DropFrom(s, SpaceEnd(s, i + 1) + 1, close)
  {
  }

  /** Away from a match the pass copies the character. */
  lemma DropFromCopies(s: string, i: nat, close: char)
    requires i < |s| && !IsSpace(close) && !CommaAt(s, i, close)
    ensures DropFrom(s, i, close) == [s[i]] + DropFrom(s, i + 1, close)
  {
  }

  /** How many times `c` occurs in `s`. */
  function Count(s: string, c: char): nat {
    if |s| == 0 then 0 else (if s[0] == c then 1 else 0) + Count(s[1..], c)
  }

  lemma CountCons(x: char, t: string, c: char)
    ensures Count([x] + t, c) == (if x == c then 1 else 0) + Count(t, c)
  {
    assert ([x] + t)[1..] == t;
  }

  /** `Count` agrees with the multiset of the text. */
  lemma {:induction false} CountIsMultiplicity(s: string, c: char)
    ensures Count(s, c) == multiset(s)[c]
  {
    if |s| > 0 {
      CountIsMultiplicity(s[1..], c);
      assert s == [s[0]] + s[1..];
    }
  }

  /** How many times `c` occurs in `s[i..]`, counted by index. */
  function CountFrom(s: string, i: nat, c: char): nat
    requires i <= |s|
    decreases |s| - i
  {
    if i == |s| then 0 else (if s[i] == c then 1 else 0) + CountFrom(s, i + 1, c)
  }

  lemma {:induction false} CountFromSuffix(s: string, i: nat, c: char)
    requires i <= |s|
    ensures CountFrom(s, i, c) == Count(s[i..], c)
    decreases |s| - i
  {
    if i < |s| {
      CountFromSuffix(s, i + 1, c);
      assert s[i..][1..] == s[i + 1..];
    }
  }

  /** Skipping a whitespace run loses no occurrences, and none at all of a character that
      is not whitespace. */
  lemma {:induction false} RunCount(s: string, j: nat, c: char)
    requires j <= |s|
    ensures CountFrom(s, SpaceEnd(s, j), c) <= CountFrom(s, j, c)
    ensures !IsSpace(c) ==> CountFrom(s, SpaceEnd(s, j), c) == CountFrom(s, j, c)
    decreases |s| - j
  {
    if j < |s| && IsSpace(s[j]) {
      RunCount(s, j + 1, c);
    }
  }

  /** Counted from a match, the occurrences are those of its comma, its whitespace run,
      its closing bracket and the rest. */
  lemma MatchCountFrom(s: string, i: nat, close: char, c: char)
    requires i < |s| && !IsSpace(close) && CommaAt(s, i, close)
    ensures var rest := CountFrom(s, SpaceEnd(s, i + 1) + 1, c);
      && (if close == c then 1 else 0) + rest <= CountFrom(s, i, c)
      && (c != ',' && !IsSpace(c) ==> (if close == c then 1 else 0) + rest == CountFrom(s, i, c))
  {
    RunCount(s, i + 1, c);
  }

  /** From index `i` on, the scan only deletes characters. */
  lemma {:induction false} DropFromDeletes(s: string, i: nat, close: char, c: char)
    requires i <= |s| && !IsSpace(close)
    ensures Count(DropFrom(s, i, close), c) <= CountFrom(s, i, c)
    decreases |s| - i
  {
    if i < |s| {
      if CommaAt(s, i, close) {
        var e := SpaceEnd(s, i + 1);
        DropFromDeletes(s, e + 1, close, c);
        DropFromSkips(s, i, close);
        CountCons(close, DropFrom(s, e + 1, close), c);
        MatchCountFrom(s, i, close, c);
      } else {
        DropFromDeletes(s, i + 1, close, c);
        DropFromCopies(s, i, close);
        CountCons(s[i], DropFrom(s, i + 1, close), c);
      }
    }
  }

  /** From index `i` on, the scan keeps every character other than commas and whitespace. */
  lemma {:induction false} DropFromKeeps(s: string, i: nat, close: char, c: char)
    requires i <= |s| && !IsSpace(close)
    requires c != ',' && !IsSpace(c)
    ensures Count(DropFrom(s, i, close), c) == CountFrom(s, i, c)
    decreases |s| - i
  {
    if i < |s| {
      if CommaAt(s, i, close) {
        var e := SpaceEnd(s, i + 1);
        DropFromKeeps(s, e + 1, close, c);
        DropFromSkips(s, i, close);
        CountCons(close, DropFrom(s, e + 1, close), c);
        MatchCountFrom(s, i, close, c);
      } else {
        DropFromKeeps(s, i + 1, close, c);
        DropFromCopies(s, i, close);
        CountCons(s[i], DropFrom(s, i + 1, close), c);
      }
    }
  }

  /** Without a match from index `i` on, the scan copies the rest. */
  lemma {:induction false} DropFromNoMatch(s: string, i: nat, close: char)
    requires i <= |s| && !IsSpace(close)
    requires forall p :: i <= p < |s| ==> !CommaAt(s, p, close)
    ensures DropFrom(s, i, close) == s[i..]
    decreases |s| - i
  {
    if i < |s| {
      DropFromNoMatch(s, i + 1, close);
      DropFromCopies(s, i, close);
      assert s[i..] == [s[i]] + s[i + 1..];
    }
  }

  /** Over a stretch without a match the scan copies the stretch unchanged. */
  lemma {:induction false} DropFromCopiesRun(s: string, i: nat, j: nat, close: char)
    requires i <= j <= |s| && !IsSpace(close)
    requires forall p :: i <= p < j ==> !CommaAt(s, p, close)
    ensures DropFrom(s, i, close) == s[i..j] + DropFrom(s, j, close)
    decreases j - i
  {
    if i < j {
      DropFromCopiesRun(s, i + 1, j, close);
      DropFromCopies(s, i, close);
      assert s[i..j] == [s[i]] + s[i + 1..j];
    }
  }

  /** A whitespace stretch is skipped as a whole. */
  lemma {:induction false} SpaceEndSkips(s: string, j: nat, k: nat)
    requires j <= k <= |s|
    requires forall p :: j <= p < k ==> IsSpace(s[p])
    ensures SpaceEnd(s, j) == SpaceEnd(s, k)
    decreases k - j
  {
    if j < k {
      SpaceEndSkips(s, j + 1, k);
    }
  }

  /** The whitespace run of `v` is found at the same place after a prefix. */
  lemma {:induction false} SpaceEndShift(pre: string, v: string, j: nat)
    requires j <= |v|
    ensures SpaceEnd(pre + v, |pre| + j) == |pre| + SpaceEnd(v, j)
    decreases |v| - j
  {
    if j < |v| {
      assert (pre + v)[|pre| + j] == v[j];
      SpaceEndShift(pre, v, j + 1);
    }
  }

  /** The scan of `v` does not depend on what precedes it. */
  lemma {:induction false} DropFromShift(pre: string, v: string, i: nat, close: char)
    requires i <= |v| && !IsSpace(close)
    ensures DropFrom(pre + v, |pre| + i, close) == DropFrom(v, i, close)
    decreases |v| - i
  {
    if i < |v| {
      var s := pre + v;
      assert s[|pre| + i] == v[i];
      SpaceEndShift(pre, v, i + 1);
      var e := SpaceEnd(v, i + 1);
      if e < |v| {
        assert s[|pre| + e] == v[e];
      }
      assert CommaAt(s, |pre| + i, close) == CommaAt(v, i, close);
      if CommaAt(v, i, close) {
        DropFromShift(pre, v, e + 1, close);
        DropFromSkips(s, |pre| + i, close);
      } else {
        DropFromShift(pre, v, i + 1, close);
        DropFromCopies(s, |pre| + i, close);
      }
    }
  }

  /** One pass copies the text before the first match, replaces that match by its closing
      bracket, and then treats the rest of the text as a pass of its own: every match met
      from left to right is replaced. */
  lemma DropCommasFirstMatch(u: string, ws: string, close: char, v: string)
    requires !IsSpace(close)
    requires forall k :: 0 <= k < |ws| ==> IsSpace(ws[k])
    requires forall p :: 0 <= p < |u| ==> !CommaAt(u + [','] + ws + [close] + v, p, close)
    ensures DropCommas(u + [','] + ws + [close] + v, close) == u + [close] + DropCommas(v, close)
  {
    var pre := u + [','] + ws;
    var s := pre + [close] + v;
    DropFromCopiesRun(s, 0, |u|, close);
    assert s[0..|u|] == u;
    forall p | |u| + 1 <= p < |pre| ensures IsSpace(s[p]) {
      assert s[p] == ws[p - |u| - 1];
    }
    SpaceEndSkips(s, |u| + 1, |pre|);
    assert s[|pre|] == close;
    assert SpaceEnd(s, |pre|) == |pre|;
    assert CommaAt(s, |u|, close);
    DropFromSkips(s, |u|, close);
    assert s == (pre + [close]) + v;
    DropFromShift(pre + [close], v, 0, close);
  }

  /** A match from index `i` on makes the output strictly shorter than the rest. */
  lemma {:induction false} DropFromShrinks(s: string, i: nat, close: char, p: nat)
    requires i <= p < |s| && !IsSpace(close) && CommaAt(s, p, close)
    ensures |DropFrom(s, i, close)| < |s| - i
    decreases |s| - i
  {
    if CommaAt(s, i, close) {
      DropFromSkips(s, i, close);
    } else {
      DropFromCopies(s, i, close);
      DropFromShrinks(s, i + 1, close, p);
    }
  }

  /** A pass only deletes characters. */
  lemma DropCommasDeletes(s: string, close: char)
    requires !IsSpace(close)
    ensures multiset(DropCommas(s, close)) <= multiset(s)
  {
    forall c ensures multiset(DropCommas(s, close))[c] <= multiset(s)[c] {
      DropFromDeletes(s, 0, close, c);
      CountFromSuffix(s, 0, c);
      CountIsMultiplicity(DropCommas(s, close), c);
      CountIsMultiplicity(s, c);
      assert s[0..] == s;
    }
  }

  /** A pass keeps every character other than commas and whitespace. */
  lemma DropCommasKeeps(s: string, close: char, c: char)
    requires !IsSpace(close)
    requires c != ',' && !IsSpace(c)
    ensures multiset(DropCommas(s, close))[c] == multiset(s)[c]
  {
    DropFromKeeps(s, 0, close, c);
    CountFromSuffix(s, 0, c);
    CountIsMultiplicity(DropCommas(s, close), c);
    CountIsMultiplicity(s, c);
    assert s[0..] == s;
  }

  /** A pass changes nothing exactly when the pattern occurs nowhere. */
  lemma DropCommasIdentity(s: string, close: char)
    requires !IsSpace(close)
    ensures DropCommas(s, close) == s <==> NoCommaBefore(s, close)
  {
    if NoCommaBefore(s, close) {
      DropFromNoMatch(s, 0, close);
      assert s[0..] == s;
    } else {
      var p :| 0 <= p < |s| && CommaAt(s, p, close);
      DropFromShrinks(s, 0, close, p);
    }
  }

  /** The fallback repair: trailing commas before `}` first, then before `]`. */
  function Cleanup(s: string): (r: string)
    ensures |r| <= |s|
  {
    DropCommas(DropCommas(s, '}'), ']')
  }

  /** Cleanup only deletes characters, and only commas and whitespace. */
  lemma CleanupCounts(s: string)
    ensures multiset(Cleanup(s)) <= multiset(s)
    ensures forall c :: c != ',' && !IsSpace(c) ==> multiset(Cleanup(s))[c] == multiset(s)[c]
  {
    var t := DropCommas(s, '}');
    DropCommasDeletes(s, '}');
    DropCommasDeletes(t, ']');
    forall c | c != ',' && !IsSpace(c) ensures multiset(Cleanup(s))[c] == multiset(s)[c] {
      DropCommasKeeps(s, '}', c);
      DropCommasKeeps(t, ']', c);
    }
  }

  /** Cleanup leaves text without trailing commas untouched. */
  lemma CleanupIdentity(s: string)
    requires NoCommaBefore(s, '}') && NoCommaBefore(s, ']')
    ensures Cleanup(s) == s
  {
    DropCommasIdentity(s, '}');
    DropCommasIdentity(s, ']');
  }

  /** Cleanup never changes brace or bracket depth: the four structural characters keep
      their counts. */
  lemma CleanupKeepsBrackets(s: string)
    ensures Depth(Cleanup(s)) == Depth(s)
    ensures multiset(Cleanup(s))['['] == multiset(s)['[']
    ensures multiset(Cleanup(s))[']'] == multiset(s)[']']
  {
    CleanupCounts(s);
  }

  /** Cleanup is not idempotent: a doubled comma loses only its second half per pass. */
  lemma CleanupNotIdempotent()
    ensures Cleanup(",,}") == ",}"
    ensures Cleanup(Cleanup(",,}")) == "}"
  {
    var s := ",,}";
    assert SpaceEnd(s, 1) == 1 && !CommaAt(s, 0, '}');
    assert SpaceEnd(s, 2) == 2 && CommaAt(s, 1, '}');
    assert DropFrom(s, 3, '}') == "";
    assert DropFrom(s, 1, '}') == "}";
    assert DropCommas(s, '}') == ",}";
    var t := ",}";
    assert SpaceEnd(t, 1) == 1 && !CommaAt(t, 0, ']') && !CommaAt(t, 1, ']');
    assert DropFrom(t, 2, ']') == "";
    assert DropFrom(t, 1, ']') == "}";
    assert DropCommas(t, ']') == ",}";
    assert CommaAt(t, 0, '}');
    assert DropFrom(t, 2, '}') == "";
    assert DropCommas(t, '}') == "}";
    var u := "}";
    assert !CommaAt(u, 0, ']');
    assert DropFrom(u, 1, ']') == "";
    assert DropCommas(u, ']') == "}";
  }
}
