/** app.py: pretty_bot_answer, which lays out a model answer for the chat
    window as numbered or dashed lines. The rest of the user interface is
    not part of this model. */
module App {
  import opened Text

  // -------------------------------------------------------- numbered items

  /** The length of the run of ASCII digits at the start of s. */
  function LeadingDigits(s: string): (n: nat)
    ensures n <= |s|
    decreases |s|
  {
    if s != [] && IsDigit(s[0]) then 1 + LeadingDigits(s[1..]) else 0
  }

  /** The run is all digits and is not followed by one. */
  lemma {:induction false} LeadingDigitsRun(s: string)
    ensures forall k | 0 <= k < LeadingDigits(s) :: IsDigit(s[k])
    ensures LeadingDigits(s) < |s| ==> !IsDigit(s[LeadingDigits(s)])
    decreases |s|
  {
    if s != [] && IsDigit(s[0]) {
      LeadingDigitsRun(s[1..]);
      forall k | 1 <= k < LeadingDigits(s) ensures IsDigit(s[k]) {
        assert s[k] == s[1..][k - 1];
      }
    }
  }

  /** The three conditions above pin the run length down. */
  lemma {:induction false} LeadingDigitsExact(s: string, n: nat)
    requires n <= |s| && (forall k | 0 <= k < n :: IsDigit(s[k])) && (n < |s| ==> !IsDigit(s[n]))
    ensures LeadingDigits(s) == n
    decreases n
  {
    if n > 0 {
      LeadingDigitsExact(s[1..], n - 1);
    }
  }

  /** s matches ^\d+\. : a digit run followed by a dot. */
  predicate StartsNumbered(s: string) {
    var n := LeadingDigits(s);
    0 < n < |s| && s[n] == '.'
  }

  /** Some digit is immediately followed by a dot, i.e. \d+\. occurs. */
  predicate ContainsNumbering(s: string) {
    exists i | 0 <= i < |s| - 1 :: IsDigit(s[i]) && s[i + 1] == '.'
  }

  /** re.sub(r'(\d+\.)', r'\n\1', s): a newline before every digit run that
      ends in a dot. A digit run not followed by a dot is passed over
      whole, since no shorter run inside it is followed by a dot either. */
  function InsertBreaks(s: string): string
    decreases |s|
  {
    if s == [] then []
    else if IsDigit(s[0]) then
      var n := LeadingDigits(s);
      if n < |s| && s[n] == '.' then "\n" + s[..n + 1] + InsertBreaks(s[n + 1..])
      else s[..n] + InsertBreaks(s[n..])
    else [s[0]] + InsertBreaks(s[1..])
  }

  /** Without a digit followed by a dot the substitution changes nothing. */
  lemma {:induction false} InsertBreaksIdentity(s: string)
    requires !ContainsNumbering(s)
    ensures InsertBreaks(s) == s
    decreases |s|
  {
    if s != [] {
      if IsDigit(s[0]) {
        var n := LeadingDigits(s);
        LeadingDigitsRun(s);
        assert !(n < |s| && s[n] == '.') by {
          if n < |s| {
            assert !(IsDigit(s[n - 1]) && s[n - 1 + 1] == '.');
          }
        }
        assert !ContainsNumbering(s[n..]) by {
          forall i | 0 <= i < |s[n..]| - 1 ensures !(IsDigit(s[n..][i]) && s[n..][i + 1] == '.') {
            assert s[n..][i] == s[n + i] && s[n..][i + 1] == s[n + i + 1];
          }
        }
        InsertBreaksIdentity(s[n..]);
        assert s == s[..n] + s[n..];
      } else {
        assert !ContainsNumbering(s[1..]) by {
          forall i | 0 <= i < |s[1..]| - 1 ensures !(IsDigit(s[1..][i]) && s[1..][i + 1] == '.') {
            assert s[1..][i] == s[1 + i] && s[1..][i + 1] == s[1 + i + 1];
          }
        }
        InsertBreaksIdentity(s[1..]);
        assert s == [s[0]] + s[1..];
      }
    }
  }

  /** s with every newline removed. */
  function WithoutNewlines(s: string): string
    decreases |s|
  {
    if s == [] then [] else (if s[0] == '\n' then [] else [s[0]]) + WithoutNewlines(s[1..])
  }

  lemma {:induction false} WithoutNewlinesAppend(a: string, b: string)
    ensures WithoutNewlines(a + b) == WithoutNewlines(a) + WithoutNewlines(b)
    decreases |a|
  {
    if a == [] {
      assert a + b == b;
    } else {
      var head := if a[0] == '\n' then [] else [a[0]];
      assert (a + b)[0] == a[0];
      assert (a + b)[1..] == a[1..] + b;
      WithoutNewlinesAppend(a[1..], b);
      calc {
        WithoutNewlines(a + b);
        head + WithoutNewlines(a[1..] + b);
        head + (WithoutNewlines(a[1..]) + WithoutNewlines(b));
        (head + WithoutNewlines(a[1..])) + WithoutNewlines(b);
      }
    }
  }

  /** One step of the substitution: a piece h of output for the first m
      input characters, with the same characters apart from newlines. A
      step never stops inside a run of digits. */
  lemma InsertBreaksStep(s: string) returns (h: string, m: nat)
    requires s != []
    ensures 0 < m <= |s| && InsertBreaks(s) == h + InsertBreaks(s[m..])
    ensures WithoutNewlines(h) == WithoutNewlines(s[..m])
    ensures m == if StartsNumbered(s) then LeadingDigits(s) + 1
                 else if IsDigit(s[0]) then LeadingDigits(s) else 1
    ensures m < |s| && IsDigit(s[m]) ==> !IsDigit(s[m - 1])
  {
    if IsDigit(s[0]) {
      var n := LeadingDigits(s);
      if n < |s| && s[n] == '.' {
        h, m := "\n" + s[..n + 1], n + 1;
        assert h[1..] == s[..m];
      } else {
        LeadingDigitsRun(s);
        h, m := s[..n], n;
      }
    } else {
      h, m := [s[0]], 1;
    }
  }

  /** The substitution only inserts newlines: removing all newlines from
      its result gives back the input with its own newlines removed. */
  lemma {:induction false} InsertBreaksOnlyAddsNewlines(s: string)
    ensures WithoutNewlines(InsertBreaks(s)) == WithoutNewlines(s)
    decreases |s|
  {
    if s != [] {
      var h, m := InsertBreaksStep(s);
      InsertBreaksOnlyAddsNewlines(s[m..]);
      WithoutNewlinesAppend(h, InsertBreaks(s[m..]));
      WithoutNewlinesAppend(s[..m], s[m..]);
      assert s == s[..m] + s[m..];
    }
  }

  /** Every character of t is a digit. */
  predicate AllDigits(t: string) {
    forall c <- t :: IsDigit(c)
  }

  /** A text that starts with a numbered item gets a newline in front,
      and the item itself, up to its dot, comes through unchanged. */
  lemma BreakAtStart(s: string) returns (y: string)
    requires StartsNumbered(s)
    ensures InsertBreaks(s) == "\n" + y && StartsNumbered(y)
    ensures y[..LeadingDigits(s) + 1] == s[..LeadingDigits(s) + 1]
  {
    var n := LeadingDigits(s);
    LeadingDigitsRun(s);
    var rest := InsertBreaks(s[n + 1..]);
    y := s[..n + 1] + rest;
    assert StartsNumbered(y) by {
      assert forall k | 0 <= k <= n :: y[k] == s[k];
      LeadingDigitsExact(y, n);
    }
    assert InsertBreaks(s) == "\n" + y by {
      assert InsertBreaks(s) == "\n" + s[..n + 1] + rest;
    }
  }

  /** The digit at i and its dot end the numbered item s starts with: the
      break goes in front of the whole text. */
  lemma BreakAtFirstRun(s: string, i: nat) returns (x: string, y: string, j: nat)
    requires i < |s| - 1 && IsDigit(s[i]) && s[i + 1] == '.'
    requires StartsNumbered(s) && i < LeadingDigits(s)
    ensures InsertBreaks(s) == x + "\n" + y && StartsNumbered(y)
    ensures j == 0 && x == []
    ensures j <= i && AllDigits(s[j..i + 1])
    ensures WithoutNewlines(x) == WithoutNewlines(s[..j])
    ensures i + 2 - j <= |y| && y[..i + 2 - j] == s[j..i + 2]
  {
    var n := LeadingDigits(s);
    LeadingDigitsRun(s);
    assert !IsDigit(s[i + 1]);
    assert i + 1 == n;
    var run := s[..i + 1];
    assert AllDigits(run) by {
      forall k | 0 <= k < |run| ensures IsDigit(run[k]) {
        assert run[k] == s[k];
      }
    }
    y := BreakAtStart(s);
    x, j := [], 0;
    Regroup([], [], y);
    assert s[..0] == [];
  }

  /** A break found in s[m..], after output h that stands for the first m
      input characters, is a break in s at the same digit run. */
  lemma LiftBreak(s: string, i: nat, m: nat, h: string, x': string, y': string, j': nat)
    returns (x: string, j: nat)
    requires 0 < m <= i < |s| - 1
    requires IsDigit(s[m]) ==> !IsDigit(s[m - 1])
    requires WithoutNewlines(h) == WithoutNewlines(s[..m])
    requires j' <= i - m && AllDigits(s[m..][j'..i - m + 1])
    requires j' == 0 || !IsDigit(s[m..][j' - 1])
    requires WithoutNewlines(x') == WithoutNewlines(s[m..][..j'])
    requires i - m + 2 - j' <= |y'| && y'[..i - m + 2 - j'] == s[m..][j'..i - m + 2]
    ensures h + (x' + "\n" + y') == x + "\n" + y'
    ensures j <= i && AllDigits(s[j..i + 1]) && (j == 0 || !IsDigit(s[j - 1]))
    ensures WithoutNewlines(x) == WithoutNewlines(s[..j])
    ensures i + 2 - j <= |y'| && y'[..i + 2 - j] == s[j..i + 2]
  {
    x, j := h + x', m + j';
    Regroup(h, x', y');
    assert AllDigits(s[j..i + 1]) by {
      SliceOfSuffix(s, m, j', i - m + 1);
    }
    if j' == 0 {
      var run := s[j..i + 1];
      assert run[0] in run && run[0] == s[m];
    } else {
      assert s[j - 1] == s[m..][j' - 1];
    }
    assert y'[..i + 2 - j] == s[j..i + 2] by {
      SliceOfSuffix(s, m, j', i - m + 2);
    }
    ShiftKept(s, m, h, x', j');
  }

  /** Moving a break across a concatenation. */
  lemma Regroup(h: string, x: string, y: string)
    ensures h + (x + "\n" + y) == (h + x) + "\n" + y
  {
  }

  /** A slice of a suffix is a slice of the whole. */
  lemma SliceOfSuffix(s: string, m: nat, a: nat, b: nat)
    requires a <= b && m + b <= |s|
    ensures s[m..][a..b] == s[m + a..m + b]
  {
    forall k | 0 <= k < b - a ensures s[m..][a..b][k] == s[m + a..m + b][k] {
    }
  }

  /** Output for s[..m] followed by output for the next j' characters is,
      apart from newlines, s[..m + j']. */
  lemma ShiftKept(s: string, m: nat, h: string, x': string, j': nat)
    requires m + j' <= |s|
    requires WithoutNewlines(h) == WithoutNewlines(s[..m])
    requires WithoutNewlines(x') == WithoutNewlines(s[m..][..j'])
    ensures WithoutNewlines(h + x') == WithoutNewlines(s[..m + j'])
  {
    WithoutNewlinesAppend(h, x');
    WithoutNewlinesAppend(s[..m], s[m..][..j']);
    SliceOfSuffix(s, m, 0, j');
    assert s[..m] + s[m..][..j'] == s[..m + j'];
  }

  /** Unless the digit at i belongs to the numbered item s starts with, the
      first step of the substitution stops at or before i. */
  lemma StepBeforeDigit(s: string, i: nat, m: nat)
    requires i < |s| - 1 && IsDigit(s[i]) && s[i + 1] == '.'
    requires !(StartsNumbered(s) && i < LeadingDigits(s))
    requires m == if StartsNumbered(s) then LeadingDigits(s) + 1
                  else if IsDigit(s[0]) then LeadingDigits(s) else 1
    ensures m <= i
  {
    LeadingDigitsRun(s);
    assert !IsDigit(s[i + 1]);
  }

  /** Where the input has a digit at i followed by a dot, the result has a
      newline directly before the digit run j..i that holds it: x is the
      output for the input before j, and y starts with that run and its
      dot, unchanged, and is a numbered item. */
  lemma {:induction false} BreakBeforeNumber(s: string, i: nat) returns (x: string, y: string, j: nat)
    requires i < |s| - 1 && IsDigit(s[i]) && s[i + 1] == '.'
    ensures InsertBreaks(s) == x + "\n" + y && StartsNumbered(y)
    ensures j <= i && AllDigits(s[j..i + 1]) && (j == 0 || !IsDigit(s[j - 1]))
    ensures WithoutNewlines(x) == WithoutNewlines(s[..j])
    ensures i + 2 - j <= |y| && y[..i + 2 - j] == s[j..i + 2]
    decreases |s|
  {
    if StartsNumbered(s) && i < LeadingDigits(s) {
      x, y, j := BreakAtFirstRun(s, i);
    } else {
      var h, m := InsertBreaksStep(s);
      StepBeforeDigit(s, i, m);
      var x', y', j' := BreakBeforeNumber(s[m..], i - m);
      x, j := LiftBreak(s, i, m, h, x', y', j');
      y := y';
    }
  }

  // --------------------------------------------------------- working lines

  /** [l.strip() for l in parts if l.strip()]. */
  function NonBlankStripped(parts: seq<string>): (lines: seq<string>)
    ensures |lines| <= |parts|
    decreases |parts|
  {
    if parts == [] then []
    else KeptLine(parts[0]) + NonBlankStripped(parts[1..])
  }

  /** [l.strip()] when that is not blank, [] otherwise. */
  function KeptLine(part: string): seq<string> {
    if Strip(part) != "" then [Strip(part)] else []
  }

  /** Every working line is non-empty and has no surrounding whitespace. */
  lemma {:induction false} WorkingLinesStripped(parts: seq<string>, k: nat)
    requires k < |NonBlankStripped(parts)|
    ensures var l := NonBlankStripped(parts)[k];
      l != [] && !IsSpace(l[0]) && !IsSpace(l[|l| - 1])
    decreases |parts|
  {
    var head := KeptLine(parts[0]);
    if k >= |head| {
      WorkingLinesStripped(parts[1..], k - |head|);
    }
  }

  lemma {:induction false} NonBlankStrippedAppend(a: seq<string>, b: seq<string>)
    ensures NonBlankStripped(a + b) == NonBlankStripped(a) + NonBlankStripped(b)
    decreases |a|
  {
    if a == [] {
      assert a + b == b;
    } else {
      var head := KeptLine(a[0]);
      assert (a + b)[0] == a[0];
      assert (a + b)[1..] == a[1..] + b;
      NonBlankStrippedAppend(a[1..], b);
      calc {
        NonBlankStripped(a + b);
        head + NonBlankStripped(a[1..] + b);
        head + (NonBlankStripped(a[1..]) + NonBlankStripped(b));
        (head + NonBlankStripped(a[1..])) + NonBlankStripped(b);
      }
    }
  }

  /** The stripped, non-blank lines of the answer, in order. */
  function WorkingLines(t: string): seq<string> {
    NonBlankStripped(SplitOn(t, '\n'))
  }

  /** A character absent from s is absent from s.strip(). */
  lemma StripKeepsAbsent(s: string, c: char)
    requires c !in s
    ensures c !in Strip(s)
  {
    TrimLeftDrops(s);
    TrimRightDrops(TrimLeft(s));
  }

  /** Stripping a string that starts with a non-space keeps a prefix of
      it, and that prefix reaches past any other non-space position m. */
  lemma StripKeepsPrefix(s: string, m: nat)
    requires m < |s| && !IsSpace(s[0]) && !IsSpace(s[m])
    ensures m < |Strip(s)| && Strip(s) == s[..|Strip(s)|]
  {
    TrimRightDrops(s);
    var r := TrimRight(s);
    forall j | |r| <= j < |s| ensures IsSpace(s[j]) {
      assert s[|r|..][j - |r|] == s[j];
    }
    assert m < |r|;
  }

  lemma {:induction false} WorkingLinesNoNewline(parts: seq<string>)
    requires forall k | 0 <= k < |parts| :: '\n' !in parts[k]
    ensures forall k | 0 <= k < |NonBlankStripped(parts)| :: '\n' !in NonBlankStripped(parts)[k]
    decreases |parts|
  {
    if parts != [] {
      StripKeepsAbsent(parts[0], '\n');
      WorkingLinesNoNewline(parts[1..]);
    }
  }

  /** The first part of a split keeps any separator-free prefix. */
  lemma FirstPartKeepsPrefix(y: string, sep: char, m: nat)
    requires m <= |y| && sep !in y[..m]
    ensures m <= |SplitOn(y, sep)[0]| && SplitOn(y, sep)[0][..m] == y[..m]
  {
    if sep in y {
      var p := IndexOf(y, sep);
      forall j | 0 <= j < m ensures y[j] != sep {
        assert y[..m][j] == y[j];
      }
      assert m <= p;
    }
  }

  // ---------------------------------------------------------------- markers

  /** The length of the bullet_pat marker at the start of a line: digits and
      a dot, or one of '-', U+2022 (bullet) and '*'; 0 when there is none. */
  function MarkerLength(l: string): (m: nat)
    ensures m <= |l|
  {
    if StartsNumbered(l) then LeadingDigits(l) + 1
    else if l != [] && (l[0] == '-' || l[0] == '\U{2022}' || l[0] == '*') then 1
    else 0
  }

  /** bullet_pat.match(l). */
  predicate IsBullet(l: string) {
    MarkerLength(l) > 0
  }

  /** One output line of the bullet layout: a numbered line as it is,
      any other as "- " and the line without its marker and the
      whitespace after it (bullet_pat.sub('', l)). */
  function BulletLine(l: string): string {
    if StartsNumbered(l) then l else "- " + TrimLeft(l[MarkerLength(l)..])
  }

  function BulletLines(lines: seq<string>): (out: seq<string>)
    ensures |out| == |lines|
  {
    seq(|lines|, k requires 0 <= k < |lines| => BulletLine(lines[k]))
  }

  function Dashed(lines: seq<string>): (out: seq<string>)
    ensures |out| == |lines|
  {
    seq(|lines|, k requires 0 <= k < |lines| => "- " + lines[k])
  }

  predicate AnyBullet(lines: seq<string>) {
    exists k | 0 <= k < |lines| :: IsBullet(lines[k])
  }

  /** pretty_bot_answer(ans). */
  function Formatted(ans: string): string {
    var t := InsertBreaks(Strip(ans));
    var lines := WorkingLines(t);
    if AnyBullet(lines) then Join("\n", BulletLines(lines))
    else if |lines| > 2 then Join("\n", Dashed(lines))
    else t
  }

  /** The loop of the bullet layout, one output line per working line. */
  method LayOutBullets(lines: seq<string>) returns (bulletStrs: seq<string>)
    ensures bulletStrs == BulletLines(lines)
  {
    bulletStrs := [];
    for i := 0 to |lines|
      invariant |bulletStrs| == i
      invariant forall k | 0 <= k < i :: bulletStrs[k] == BulletLine(lines[k])
    {
      bulletStrs := bulletStrs + [BulletLine(lines[i])];
    }
  }

  /** pretty_bot_answer(ans). */
  method PrettyBotAnswer(ans: string) returns (r: string)
    ensures r == Formatted(ans)
  {
    var t := InsertBreaks(Strip(ans));
    var lines := WorkingLines(t);
    var foundBullet := exists k | 0 <= k < |lines| :: IsBullet(lines[k]);
    if foundBullet {
      var bulletStrs := LayOutBullets(lines);
      return Join("\n", bulletStrs);
    }
    if |lines| > 2 {
      return Join("\n", Dashed(lines));
    }
    return t;
  }

  // ------------------------------------------------------------- properties

  /** A working line with no marker becomes "- " and the line; one with a
      '-', bullet or '*' marker loses the marker and the spaces after it. */
  lemma BulletLineShape(l: string)
    requires l != [] && !IsSpace(l[0]) && !StartsNumbered(l)
    ensures !IsBullet(l) ==> BulletLine(l) == "- " + l
    ensures IsBullet(l) ==> exists k :: 1 <= k <= |l| && BulletLine(l) == "- " + l[k..]
                                       && AllSpace(l[1..k]) && (k < |l| ==> !IsSpace(l[k]))
  {
    if IsBullet(l) {
      TrimLeftDrops(l[1..]);
      var r := TrimLeft(l[1..]);
      var k := |l| - |r|;
      assert l[1..][|l[1..]| - |r|..] == l[k..];
      assert l[1..][..|l[1..]| - |r|] == l[1..k];
      assert BulletLine(l) == "- " + l[k..];
    }
  }

  /** No output line of either layout contains a newline. */
  lemma LayoutLinesNoNewline(lines: seq<string>)
    requires forall k | 0 <= k < |lines| :: '\n' !in lines[k]
    ensures forall k | 0 <= k < |lines| :: '\n' !in BulletLines(lines)[k] && '\n' !in Dashed(lines)[k]
  {
    forall k | 0 <= k < |lines|
      ensures '\n' !in BulletLines(lines)[k]
    {
      var l := lines[k];
      if !StartsNumbered(l) {
        TrimLeftDrops(l[MarkerLength(l)..]);
        assert '\n' !in l[MarkerLength(l)..];
      }
    }
  }

  /** A text that starts with a numbered item has that item, stripped, as
      its first working line. */
  lemma NumberedFirstLine(y: string)
    requires StartsNumbered(y)
    ensures var lines := NonBlankStripped(SplitOn(y, '\n'));
      lines != [] && StartsNumbered(lines[0])
  {
    var n := LeadingDigits(y);
    LeadingDigitsRun(y);
    forall j | 0 <= j < n + 1 ensures y[j] != '\n' {
      if j < n { assert IsDigit(y[j]); }
    }
    assert '\n' !in y[..n + 1];
    FirstPartKeepsPrefix(y, '\n', n + 1);
    var parts := SplitOn(y, '\n');
    var p := parts[0];
    assert p[..n + 1] == y[..n + 1];
    assert forall k | 0 <= k <= n :: p[k] == y[k];
    StripKeepsPrefix(p, n);
    var line := Strip(p);
    assert forall k | 0 <= k <= n :: line[k] == p[k];
    LeadingDigitsExact(line, n);
    assert parts == [p] + parts[1..];
    NonBlankStrippedAppend([p], parts[1..]);
  }

  /** Any answer containing a digit run that ends in a dot takes the
      bullet layout. */
  lemma NumberingMeansBullets(ans: string)
    requires ContainsNumbering(Strip(ans))
    ensures AnyBullet(WorkingLines(InsertBreaks(Strip(ans))))
  {
    var i :| 0 <= i < |Strip(ans)| - 1 && IsDigit(Strip(ans)[i]) && Strip(ans)[i + 1] == '.';
    var x, y, j := BreakBeforeNumber(Strip(ans), i);
    SplitOnConcat(x, y, '\n');
    NonBlankStrippedAppend(SplitOn(x, '\n'), SplitOn(y, '\n'));
    NumberedFirstLine(y);
    var before := NonBlankStripped(SplitOn(x, '\n'));
    var lines := WorkingLines(InsertBreaks(Strip(ans)));
    assert lines[|before|] == NonBlankStripped(SplitOn(y, '\n'))[0];
    assert IsBullet(lines[|before|]);
  }

  /** In the bullet layout the output has one line per working line:
      numbered lines as they are, the others dashed. */
  lemma BulletLayoutLines(ans: string)
    requires AnyBullet(WorkingLines(InsertBreaks(Strip(ans))))
    ensures SplitOn(Formatted(ans), '\n') == BulletLines(WorkingLines(InsertBreaks(Strip(ans))))
  {
    var lines := WorkingLines(InsertBreaks(Strip(ans)));
    SplitOnNoSep(InsertBreaks(Strip(ans)), '\n');
    WorkingLinesNoNewline(SplitOn(InsertBreaks(Strip(ans)), '\n'));
    LayoutLinesNoNewline(lines);
    SplitJoinRoundTrip(BulletLines(lines), '\n');
  }

  /** With no marker and more than two lines every line is dashed. */
  lemma DashedLayoutLines(ans: string)
    requires var lines := WorkingLines(InsertBreaks(Strip(ans)));
      !AnyBullet(lines) && |lines| > 2
    ensures SplitOn(Formatted(ans), '\n') == Dashed(WorkingLines(InsertBreaks(Strip(ans))))
  {
    var lines := WorkingLines(InsertBreaks(Strip(ans)));
    SplitOnNoSep(InsertBreaks(Strip(ans)), '\n');
    WorkingLinesNoNewline(SplitOn(InsertBreaks(Strip(ans)), '\n'));
    LayoutLinesNoNewline(lines);
    SplitJoinRoundTrip(Dashed(lines), '\n');
  }

  /** Otherwise the answer comes back as ans.strip(), unchanged. */
  lemma PlainAnswerUnchanged(ans: string)
    requires var lines := WorkingLines(InsertBreaks(Strip(ans)));
      !AnyBullet(lines) && |lines| <= 2
    ensures Formatted(ans) == Strip(ans)
  {
    if ContainsNumbering(Strip(ans)) {
      NumberingMeansBullets(ans);
    } else {
      InsertBreaksIdentity(Strip(ans));
    }
  }
}
