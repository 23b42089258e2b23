/** String primitives of Python that the chatbot relies on, written out
    explicitly: the whitespace class shared by str.isspace(), str.strip(),
    str.split() and the regex class \s; str.strip(); str.split() with no
    argument; sep.join(); str.split(sep) for a one-character separator;
    the sentence splitter re.split(r'(?<=[.!?])\s+', ...); ASCII
    lower-casing; list slicing with Python's index normalisation; decimal
    formatting of naturals; and path.split("/")[-1]. */
module Text {

  /** Python's str.isspace(): the characters `\s`, str.split() and
      str.strip() treat as whitespace. */
  predicate IsSpace(c: char) {
    c == ' ' || ('\t' <= c <= '\r') || ('\U{1C}' <= c <= '\U{1F}')
    || c == '\U{85}' || c == '\U{A0}' || c == '\U{1680}'
    || ('\U{2000}' <= c <= '\U{200A}') || c == '\U{2028}' || c == '\U{2029}'
    || c == '\U{202F}' || c == '\U{205F}' || c == '\U{3000}'
  }

  predicate AllSpace(s: string) {
    forall c <- s :: IsSpace(c)
  }

  /** A word of str.split(): a non-empty run of non-whitespace. */
  predicate IsWord(w: string) {
    w != [] && forall c <- w :: !IsSpace(c)
  }

  // ---------------------------------------------------------------- strip

  /** s.lstrip(): the suffix left after dropping leading whitespace. */
  function TrimLeft(s: string): (r: string)
    ensures |r| <= |s|
    ensures r == [] || !IsSpace(r[0])
    decreases |s|
  {
    if s != [] && IsSpace(s[0]) then TrimLeft(s[1..]) else s
  }

  /** What lstrip drops is whitespace, and it keeps the rest unchanged. */
  lemma {:induction false} TrimLeftDrops(s: string)
    ensures var r := TrimLeft(s);
      r == s[|s| - |r|..] && AllSpace(s[..|s| - |r|])
    decreases |s|
  {
    if s != [] && IsSpace(s[0]) {
      TrimLeftDrops(s[1..]);
      var r := TrimLeft(s);
      assert s[|s| - |r|..] == s[1..][|s| - 1 - |r|..];
      assert s[..|s| - |r|] == [s[0]] + s[1..][..|s| - 1 - |r|];
    }
  }

  /** s.rstrip(): the prefix left after dropping trailing whitespace. */
  function TrimRight(s: string): (r: string)
    ensures |r| <= |s|
    ensures r == [] || !IsSpace(r[|r| - 1])
    decreases |s|
  {
    if s != [] && IsSpace(s[|s| - 1]) then TrimRight(s[..|s| - 1]) else s
  }

  /** What rstrip drops is whitespace, and it keeps the rest unchanged. */
  lemma {:induction false} TrimRightDrops(s: string)
    ensures var r := TrimRight(s);
      r == s[..|r|] && AllSpace(s[|r|..])
    decreases |s|
  {
    if s != [] && IsSpace(s[|s| - 1]) {
      var q := s[..|s| - 1];
      TrimRightDrops(q);
      var r := TrimRight(s);
      assert s[..|r|] == q[..|r|];
      assert s[|r|..] == q[|r|..] + [s[|s| - 1]];
    }
  }

  /** s.strip(). */
  function Strip(s: string): (r: string)
    ensures |r| <= |s|
    ensures r == [] <==> AllSpace(s)
    ensures r != [] ==> !IsSpace(r[0]) && !IsSpace(r[|r| - 1])
  {
    StripFacts(s);
    TrimRight(TrimLeft(s))
  }

  /** rstrip after lstrip leaves nothing exactly for all-whitespace text,
      and otherwise starts with a non-whitespace character. */
  lemma StripFacts(s: string)
    ensures var r := TrimRight(TrimLeft(s));
      (r == [] <==> AllSpace(s)) && (r != [] ==> !IsSpace(r[0]))
  {
    TrimLeftBlank(s);
    TrimRightBlank(TrimLeft(s));
    TrimRightFirst(TrimLeft(s));
  }

  lemma TrimLeftBlank(s: string)
    ensures AllSpace(TrimLeft(s)) <==> AllSpace(s)
  {
    TrimLeftDrops(s);
    var l := TrimLeft(s);
    assert s == s[..|s| - |l|] + l;
  }

  lemma TrimRightBlank(s: string)
    ensures TrimRight(s) == [] <==> AllSpace(s)
  {
    TrimRightDrops(s);
    var r := TrimRight(s);
    if r != [] {
      assert r[|r| - 1] == s[|r| - 1];
      assert s[|r| - 1] in s;
    } else {
      assert s == s[|r|..];
    }
  }

  lemma TrimRightFirst(s: string)
    ensures TrimRight(s) != [] ==> TrimRight(s)[0] == s[0]
  {
    TrimRightDrops(s);
  }

  /** Stripping a string with no surrounding whitespace changes nothing. */
  lemma StripUnchanged(s: string)
    requires s == [] || (!IsSpace(s[0]) && !IsSpace(s[|s| - 1]))
    ensures Strip(s) == s
  {
  }

  // ---------------------------------------------------------------- words

  /** The first index at or after i that holds whitespace (or |s|). */
  function WordEnd(s: string, i: nat): (j: nat)
    requires i <= |s|
    ensures i <= j <= |s|
    ensures forall k | i <= k < j :: !IsSpace(s[k])
    ensures j < |s| ==> IsSpace(s[j])
    decreases |s| - i
  {
    if i < |s| && !IsSpace(s[i]) then WordEnd(s, i + 1) else i
  }

  /** s.split() with no argument: the maximal runs of non-whitespace. */
  function Words(s: string): (ws: seq<string>)
    ensures forall k | 0 <= k < |ws| :: IsWord(ws[k])
    decreases |s|
  {
    if s == [] then []
    else if IsSpace(s[0]) then Words(s[1..])
    else
      var e := WordEnd(s, 0);
      [s[..e]] + Words(s[e..])
  }

  function WordCount(s: string): nat {
    |Words(s)|
  }

  /** The string has no word exactly when it is all whitespace. */
  lemma {:induction false} NoWordsIffBlank(s: string)
    ensures Words(s) == [] <==> AllSpace(s)
    decreases |s|
  {
    if s != [] && IsSpace(s[0]) {
      NoWordsIffBlank(s[1..]);
      assert s == [s[0]] + s[1..];
    }
  }

  /** A word splits to itself. */
  lemma WordsOfWord(w: string)
    requires IsWord(w)
    ensures Words(w) == [w]
  {
    assert WordEnd(w, 0) == |w|;
    assert w[..|w|] == w && w[|w|..] == [];
  }

  lemma {:induction false} WordsOfBlankPrefix(w: string, b: string)
    requires AllSpace(w)
    ensures Words(w + b) == Words(b)
    decreases |w|
  {
    if w != [] {
      assert (w + b)[0] == w[0] && IsSpace(w[0]);
      assert (w + b)[1..] == w[1..] + b;
      assert AllSpace(w[1..]) by { forall c <- w[1..] ensures IsSpace(c) { assert c in w; } }
      WordsOfBlankPrefix(w[1..], b);
      assert Words(w + b) == Words((w + b)[1..]);
    } else {
      assert w + b == b;
    }
  }

  lemma {:induction false} WordEndBeforeGap(a: string, t: string, i: nat)
    requires i <= |a|
    requires t != [] && IsSpace(t[0])
    ensures WordEnd(a + t, i) == WordEnd(a, i)
    decreases |a| - i
  {
    if i < |a| && !IsSpace(a[i]) {
      WordEndBeforeGap(a, t, i + 1);
    }
  }

  /** Whitespace between two strings separates their words: the words of
      the whole are those of the left part followed by those of the right. */
  lemma {:induction false} WordsAcrossGap(a: string, w: string, b: string)
    requires w != [] && AllSpace(w)
    ensures Words(a + w + b) == Words(a) + Words(b)
    decreases |a|
  {
    var s := a + w + b;
    if a == [] {
      assert s == w + b;
      WordsOfBlankPrefix(w, b);
    } else if IsSpace(a[0]) {
      assert s[1..] == a[1..] + w + b;
      WordsAcrossGap(a[1..], w, b);
    } else {
      WordEndBeforeGap(a, w + b, 0);
      assert s == a + (w + b);
      var e := WordEnd(a, 0);
      assert s[..e] == a[..e];
      assert s[e..] == a[e..] + w + b;
      WordsAcrossGap(a[e..], w, b);
    }
  }

  // ----------------------------------------------------------------- join

  /** sep.join(parts). */
  function Join(sep: string, parts: seq<string>): string
    decreases |parts|
  {
    if |parts| == 0 then ""
    else if |parts| == 1 then parts[0]
    else parts[0] + sep + Join(sep, parts[1..])
  }

  /** All words of a list of strings, in order. */
  function AllWords(parts: seq<string>): seq<string>
    decreases |parts|
  {
    if parts == [] then [] else Words(parts[0]) + AllWords(parts[1..])
  }

  /** The total word count of a list of strings:
      sum(len(s.split()) for s in parts). */
  function SumWords(parts: seq<string>): nat
    decreases |parts|
  {
    if parts == [] then 0 else WordCount(parts[0]) + SumWords(parts[1..])
  }

  lemma {:induction false} SumWordsAppend(parts: seq<string>, s: string)
    ensures SumWords(parts + [s]) == SumWords(parts) + WordCount(s)
    decreases |parts|
  {
    if parts != [] {
      assert (parts + [s])[1..] == parts[1..] + [s];
      SumWordsAppend(parts[1..], s);
    }
  }

  lemma {:induction false} SumWordsIsAllWords(parts: seq<string>)
    ensures |AllWords(parts)| == SumWords(parts)
    decreases |parts|
  {
    if parts != [] {
      SumWordsIsAllWords(parts[1..]);
    }
  }

  /** Joining with a single space neither merges nor splits words: the
      words of " ".join(parts) are the words of the parts, in order. */
  lemma {:induction false} WordsOfJoin(parts: seq<string>)
    ensures Words(Join(" ", parts)) == AllWords(parts)
    decreases |parts|
  {
    if |parts| == 1 {
      assert AllWords(parts[1..]) == [];
    } else if |parts| > 1 {
      WordsOfJoin(parts[1..]);
      WordsAcrossGap(parts[0], " ", Join(" ", parts[1..]));
    }
  }

  /** The word count of " ".join(parts) is the sum of the parts' counts. */
  lemma WordCountOfJoin(parts: seq<string>)
    ensures WordCount(Join(" ", parts)) == SumWords(parts)
  {
    WordsOfJoin(parts);
    SumWordsIsAllWords(parts);
  }

  /** Splitting " ".join(words) gives back the words. */
  lemma {:induction false} JoinWordsRoundTrip(ws: seq<string>)
    requires forall k | 0 <= k < |ws| :: IsWord(ws[k])
    ensures Words(Join(" ", ws)) == ws
    decreases |ws|
  {
    WordsOfJoin(ws);
    AllWordsOfWords(ws);
  }

  lemma {:induction false} AllWordsOfWords(ws: seq<string>)
    requires forall k | 0 <= k < |ws| :: IsWord(ws[k])
    ensures AllWords(ws) == ws
    decreases |ws|
  {
    if ws != [] {
      WordsOfWord(ws[0]);
      AllWordsOfWords(ws[1..]);
    }
  }

  // -------------------------------------------------------------- sentences

  predicate IsTerminator(c: char) {
    c == '.' || c == '!' || c == '?'
  }

  /** Where `(?<=[.!?])\s+` can start matching at position p: p has a
      preceding terminator and holds whitespace. */
  predicate BreakAt(s: string, p: nat)
    requires 1 <= p < |s|
  {
    IsTerminator(s[p - 1]) && IsSpace(s[p])
  }

  /** The first break position at or after i (or |s| if there is none). */
  function NextBreak(s: string, i: nat): (p: nat)
    requires 1 <= i <= |s|
    ensures i <= p <= |s|
    ensures p < |s| ==> BreakAt(s, p)
    ensures forall k | i <= k < p :: !BreakAt(s, k)
    decreases |s| - i
  {
    if i == |s| || BreakAt(s, i) then i else NextBreak(s, i + 1)
  }

  /** The first index at or after i that is not whitespace (or |s|). */
  function SkipSpaces(s: string, i: nat): (j: nat)
    requires i <= |s|
    ensures i <= j <= |s|
    ensures AllSpace(s[i..j])
    ensures j < |s| ==> !IsSpace(s[j])
    decreases |s| - i
  {
    if i < |s| && IsSpace(s[i]) then SkipSpaces(s, i + 1) else i
  }

  /** re.split(r'(?<=[.!?])\s+', s): the text is cut at every maximal run
      of whitespace that directly follows '.', '!' or '?', and the run is
      dropped. The match scan resumes after a run, whose last character is
      whitespace, so no break can start at the first position of the rest. */
  function SplitSentences(s: string): (ss: seq<string>)
    ensures |ss| >= 1
    decreases |s|
  {
    if s == [] then [s]
    else
      var p := NextBreak(s, 1);
      if p == |s| then [s]
      else [s[..p]] + SplitSentences(s[SkipSpaces(s, p)..])
  }

  /** One step of the splitter on a text with a break. */
  lemma SplitSentencesStep(s: string)
    requires s != [] && NextBreak(s, 1) < |s|
    ensures NextBreak(s, 1) < SkipSpaces(s, NextBreak(s, 1))
    ensures SplitSentences(s) == [s[..NextBreak(s, 1)]] + SplitSentences(s[SkipSpaces(s, NextBreak(s, 1))..])
  {
  }

  /** Cutting out a whitespace run between two positions keeps the words. */
  lemma SplitAtGap(s: string, p: nat, q: nat)
    requires p < q <= |s| && AllSpace(s[p..q])
    ensures Words(s) == Words(s[..p]) + Words(s[q..])
  {
    assert s == s[..p] + s[p..q] + s[q..];
    WordsAcrossGap(s[..p], s[p..q], s[q..]);
  }

  lemma JoinCons(sep: string, x: string, rest: seq<string>)
    requires rest != []
    ensures Join(sep, [x] + rest) == x + sep + Join(sep, rest)
  {
    assert ([x] + rest)[1..] == rest;
  }

  /** The splitter loses no word: joining the sentences with single spaces
      has exactly the words of the text. */
  lemma {:induction false} SentencesKeepWords(s: string)
    ensures Words(Join(" ", SplitSentences(s))) == Words(s)
    decreases |s|
  {
    if s != [] && NextBreak(s, 1) < |s| {
      var p := NextBreak(s, 1);
      var q := SkipSpaces(s, p);
      SplitSentencesStep(s);
      var rest := SplitSentences(s[q..]);
      SentencesKeepWords(s[q..]);
      JoinCons(" ", s[..p], rest);
      WordsAcrossGap(s[..p], " ", Join(" ", rest));
      SplitAtGap(s, p, q);
    }
  }

  /** Non-empty and without surrounding whitespace. */
  predicate Trimmed(x: string) {
    x != [] && !IsSpace(x[0]) && !IsSpace(x[|x| - 1])
  }

  /** Applied to stripped non-empty text, the splitter yields non-empty
      sentences without surrounding whitespace. */
  lemma {:induction false} SentencesAreTrimmed(s: string)
    requires Trimmed(s)
    ensures forall k | 0 <= k < |SplitSentences(s)| :: Trimmed(SplitSentences(s)[k])
    decreases |s|
  {
    var p := NextBreak(s, 1);
    if p < |s| {
      var q := SkipSpaces(s, p);
      SplitSentencesStep(s);
      assert s[q..][|s[q..]| - 1] == s[|s| - 1];
      SentencesAreTrimmed(s[q..]);
      var ss := SplitSentences(s);
      assert Trimmed(s[..p]) by { assert IsTerminator(s[p - 1]); }
      forall k | 0 <= k < |ss| ensures Trimmed(ss[k]) {
        if k > 0 { assert ss[k] == SplitSentences(s[q..])[k - 1]; }
      }
    }
  }

  // ------------------------------------------------------------ lower case

  /** str.lower() restricted to ASCII letters. */
  function LowerChar(c: char): char {
    if 'A' <= c <= 'Z' then (c as int - 'A' as int + 'a' as int) as char else c
  }

  function Lower(s: string): (r: string)
    ensures |r| == |s|
  {
    seq(|s|, i requires 0 <= i < |s| => LowerChar(s[i]))
  }

  // ------------------------------------------------------- Python slicing

  /** How Python turns a slice bound into a position of a sequence of
      length n: negative bounds count from the end, and both ends clamp. */
  function PyIndex(n: nat, i: int): (r: nat)
    ensures r <= n
    ensures 0 <= i <= n ==> r == i
    ensures i < 0 && 0 <= n + i ==> r == n + i
    ensures n + i < 0 ==> r == 0
    ensures n < i ==> r == n
  {
    if i < 0 then (if n + i < 0 then 0 else n + i)
    else if i > n then n
    else i
  }

  /** s[lo:hi] on a Python list. */
  function PySlice<T>(s: seq<T>, lo: int, hi: int): seq<T> {
    var a, b := PyIndex(|s|, lo), PyIndex(|s|, hi);
    if a < b then s[a..b] else []
  }

  // ---------------------------------------------------- decimal integers

  predicate IsDigit(c: char) {
    '0' <= c <= '9'
  }

  function DigitChar(d: nat): (c: char)
    requires d < 10
    ensures IsDigit(c)
  {
    ('0' as int + d) as char
  }

  function DigitValue(c: char): (d: nat)
    requires IsDigit(c)
    ensures d < 10 && DigitChar(d) == c
  {
    c as int - '0' as int
  }

  /** str(n) for a natural number. */
  function NatToString(n: nat): (r: string)
    ensures r != [] && forall c <- r :: IsDigit(c)
    decreases n
  {
    if n < 10 then [DigitChar(n)] else NatToString(n / 10) + [DigitChar(n % 10)]
  }

  /** int(s) for a string of decimal digits. */
  function ParseNat(s: string): nat
    requires forall c <- s :: IsDigit(c)
    decreases |s|
  {
    if s == [] then 0
    else
      assert s[|s| - 1] in s;
      ParseNat(s[..|s| - 1]) * 10 + DigitValue(s[|s| - 1])
  }

  /** int(str(n)) == n. */
  lemma {:induction false} ParseFormatRoundTrip(n: nat)
    ensures ParseNat(NatToString(n)) == n
    decreases n
  {
    var r := NatToString(n);
    if n >= 10 {
      ParseFormatRoundTrip(n / 10);
      assert r[..|r| - 1] == NatToString(n / 10);
    }
  }

  /** Different numbers print differently. */
  lemma NatToStringInjective(m: nat, n: nat)
    requires NatToString(m) == NatToString(n)
    ensures m == n
  {
    ParseFormatRoundTrip(m);
    ParseFormatRoundTrip(n);
  }

  // ------------------------------------------------------- sequences etc.

  predicate EndsWith(s: string, suffix: string) {
    |suffix| <= |s| && s[|s| - |suffix|..] == suffix
  }

  /** path.split("/")[-1]: the text after the last '/'. */
  function BaseName(path: string): (r: string)
    ensures '/' !in r
    decreases |path|
  {
    if path == [] || path[|path| - 1] == '/' then []
    else BaseName(path[..|path| - 1]) + [path[|path| - 1]]
  }

  /** The base name is the part of the path after its last '/', or the
      whole path when it has none. */
  lemma {:induction false} BaseNameIsLastPart(path: string)
    ensures var r := BaseName(path);
      |r| <= |path| && r == path[|path| - |r|..]
      && (|r| < |path| ==> path[|path| - |r| - 1] == '/')
    decreases |path|
  {
    if path != [] && path[|path| - 1] != '/' {
      var q := path[..|path| - 1];
      BaseNameIsLastPart(q);
      var r := BaseName(q);
      assert path[|path| - |r| - 1..] == q[|q| - |r|..] + [path[|path| - 1]];
      if |r| < |q| {
        assert path[|path| - |r| - 2] == q[|q| - |r| - 1];
      }
    }
  }

  /** s.split(sep) for a one-character separator. */
  function SplitOn(s: string, sep: char): (parts: seq<string>)
    ensures |parts| >= 1
    decreases |s|
  {
    if sep !in s then [s]
    else
      var p := IndexOf(s, sep);
      [s[..p]] + SplitOn(s[p + 1..], sep)
  }

  /** No part holds the separator. */
  lemma {:induction false} SplitOnNoSep(s: string, sep: char)
    ensures forall k | 0 <= k < |SplitOn(s, sep)| :: sep !in SplitOn(s, sep)[k]
    decreases |s|
  {
    if sep in s {
      var p := IndexOf(s, sep);
      SplitOnNoSep(s[p + 1..], sep);
      var parts := SplitOn(s, sep);
      assert parts == [s[..p]] + SplitOn(s[p + 1..], sep);
      forall k | 0 <= k < |parts|
        ensures sep !in parts[k]
      {
        if k > 0 {
          assert parts[k] == SplitOn(s[p + 1..], sep)[k - 1];
        }
      }
    }
  }

  function IndexOf(s: string, c: char): (p: nat)
    requires c in s
    ensures p < |s| && s[p] == c && c !in s[..p]
  {
    if s[0] == c then 0 else 1 + IndexOf(s[1..], c)
  }

  /** Splitting at a separator the parts do not contain undoes the join. */
  lemma {:induction false} SplitJoinRoundTrip(parts: seq<string>, sep: char)
    requires |parts| >= 1
    requires forall k | 0 <= k < |parts| :: sep !in parts[k]
    ensures SplitOn(Join([sep], parts), sep) == parts
    decreases |parts|
  {
    if |parts| > 1 {
      var tail := Join([sep], parts[1..]);
      assert Join([sep], parts) == parts[0] + [sep] + tail;
      SplitOnConcat(parts[0], tail, sep);
      assert SplitOn(parts[0], sep) == [parts[0]];
      SplitJoinRoundTrip(parts[1..], sep);
      assert parts == [parts[0]] + parts[1..];
    }
  }

  lemma IndexOfUnique(s: string, c: char, p: nat)
    requires p < |s| && s[p] == c && c !in s[..p]
    ensures IndexOf(s, c) == p
  {
  }

  /** Splitting at the first separator, found at p. */
  lemma SplitOnAt(s: string, sep: char, p: nat)
    requires p < |s| && s[p] == sep && sep !in s[..p]
    ensures SplitOn(s, sep) == [s[..p]] + SplitOn(s[p + 1..], sep)
  {
    IndexOfUnique(s, sep, p);
  }

  lemma DropAppend<T>(a: seq<T>, b: seq<T>, k: nat)
    requires k <= |a|
    ensures (a + b)[k..] == a[k..] + b
  {
  }

  lemma ConsAppend<T>(whole: seq<T>, wholeRest: seq<T>, left: seq<T>, leftRest: seq<T>, right: seq<T>, head: T)
    requires whole == [head] + wholeRest && left == [head] + leftRest && wholeRest == leftRest + right
    ensures whole == left + right
  {
    assert [head] + (leftRest + right) == ([head] + leftRest) + right;
  }

  /** A separator between two strings splits the whole into the parts of
      the left followed by the parts of the right. */
  lemma {:induction false} SplitOnConcat(x: string, y: string, sep: char)
    ensures SplitOn(x + [sep] + y, sep) == SplitOn(x, sep) + SplitOn(y, sep)
    decreases |x|
  {
    var s := x + [sep] + y;
    if sep !in x {
      assert s[|x|] == sep && s[..|x|] == x && s[|x| + 1..] == y;
      SplitOnAt(s, sep, |x|);
    } else {
      var p := IndexOf(x, sep);
      var head, tail := x[..p], x[p + 1..];
      assert s[p] == sep && s[..p] == head;
      DropAppend(x + [sep], y, p + 1);
      DropAppend(x, [sep], p + 1);
      SplitOnAt(s, sep, p);
      SplitOnAt(x, sep, p);
      SplitOnConcat(tail, y, sep);
      ConsAppend(SplitOn(s, sep), SplitOn(tail + [sep] + y, sep), SplitOn(x, sep), SplitOn(tail, sep), SplitOn(y, sep), head);
    }
  }
}
