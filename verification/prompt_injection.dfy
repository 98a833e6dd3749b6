/** `sanitize_input` and `wrap_user_input`: user text loses its control
    characters, its runs of blanks and its long runs of blank lines, is cut to
    the length limit and stripped, and is then framed by fixed delimiters
    before it reaches the model. */
module PromptInjection {
  import opened Text

  /** Inputs longer than this are cut. */
  const MaxInputLength: nat := 10000

  const BeginDelimiter: string := "---BEGIN USER INPUT---"
  const EndDelimiter: string := "---END USER INPUT---"

  /** The context label `wrap_user_input` uses when none is given. */
  const DefaultContext: string := "user request"

  // ---------------------------------------------------------------------------
  // What a sanitized text looks like

  /** The characters of `[\x00-\x08\x0b-\x0c\x0e-\x1f]`: every C0 control except
      tab, line feed and carriage return. */
  predicate IsRemovedControl(c: char) {
    c <= '\U{08}' || '\U{0b}' <= c <= '\U{0c}' || '\U{0e}' <= c <= '\U{1f}'
  }

  /** The characters of `[ \t]`. */
  predicate IsBlank(c: char) {
    c == ' ' || c == '\t'
  }

  predicate NoControl(s: string) {
    forall i :: 0 <= i < |s| ==> !IsRemovedControl(s[i])
  }

  predicate NoTab(s: string) {
    forall i :: 0 <= i < |s| ==> s[i] != '\t'
  }

  /** Two spaces in a row start at `i`. */
  predicate DoubleSpaceAt(s: string, i: int) {
    0 <= i && i + 1 < |s| && s[i] == ' ' && s[i + 1] == ' '
  }

  ghost predicate NoDoubleSpace(s: string) {
    forall i :: !DoubleSpaceAt(s, i)
  }

  /** Three line feeds in a row start at `i`. */
  predicate TripleNewlineAt(s: string, i: int) {
    0 <= i && i + 2 < |s| && s[i] == '\n' && s[i + 1] == '\n' && s[i + 2] == '\n'
  }

  ghost predicate NoTripleNewline(s: string) {
    forall i :: !TripleNewlineAt(s, i)
  }

  /** Neither end is whitespace. */
  predicate Trimmed(s: string) {
    |s| > 0 ==> !IsSpace(s[0]) && !IsSpace(s[|s| - 1])
  }

  /** What the three substitutions guarantee. */
  ghost predicate Clean(s: string) {
    NoControl(s) && NoTab(s) && NoDoubleSpace(s) && NoTripleNewline(s)
  }

  /** Everything `sanitize_input` guarantees of its result. */
  ghost predicate Sanitized(s: string) {
    Clean(s) && |s| <= MaxInputLength && Trimmed(s)
  }

  /** The character-wise properties survive taking any infix. */
  lemma InfixKeeps(s: string, a: nat, b: nat)
    requires a <= b <= |s|
    ensures NoControl(s) ==> NoControl(s[a..b])
    ensures NoTab(s) ==> NoTab(s[a..b])
    ensures NoDoubleSpace(s) ==> NoDoubleSpace(s[a..b])
    ensures NoTripleNewline(s) ==> NoTripleNewline(s[a..b])
  {
    var t := s[a..b];
    assert forall i :: 0 <= i < |t| ==> t[i] == s[a + i];
    assert forall i :: DoubleSpaceAt(t, i) ==> DoubleSpaceAt(s, a + i);
    assert forall i :: TripleNewlineAt(t, i) ==> TripleNewlineAt(s, a + i);
  }

  lemma SuffixKeeps(s: string, k: nat)
    requires k <= |s|
    ensures NoControl(s) ==> NoControl(s[k..])
    ensures NoTab(s) ==> NoTab(s[k..])
    ensures NoDoubleSpace(s) ==> NoDoubleSpace(s[k..])
    ensures NoTripleNewline(s) ==> NoTripleNewline(s[k..])
  {
    InfixKeeps(s, k, |s|);
    assert s[k..] == s[k..|s|];
  }

  lemma SuffixClean(s: string, k: nat)
    requires k <= |s| && Clean(s)
    ensures Clean(s[k..])
  {
    SuffixKeeps(s, k);
  }

  lemma InfixClean(s: string, a: nat, b: nat)
    requires a <= b <= |s| && Clean(s)
    ensures Clean(s[a..b])
  {
    InfixKeeps(s, a, b);
  }

  // ---------------------------------------------------------------------------
  // The steps

  /** `re.sub(r'[\x00-\x08\x0b-\x0c\x0e-\x1f]', '', text)`. */
  function RemoveControls(s: string): (r: string)
    ensures |r| <= |s|
    ensures NoControl(r)
    ensures forall c :: c in r <==> c in s && !IsRemovedControl(c)
    ensures |s| == 1 ==> r == (if IsRemovedControl(s[0]) then "" else s)
    decreases |s|
  {
    if |s| == 0 then ""
    else
      assert forall c :: c in s <==> c == s[0] || c in s[1..];
      var rest := RemoveControls(s[1..]);
      if IsRemovedControl(s[0]) then rest
      else
        assert forall i :: 1 <= i < |[s[0]] + rest| ==> ([s[0]] + rest)[i] == rest[i - 1];
        [s[0]] + rest
  }

  /** The removal works character by character and keeps the order: it
      distributes over concatenation. With the one-character case of its
      contract, this determines it on every text. */
  lemma {:induction false} RemoveControlsAppend(a: string, b: string)
    ensures RemoveControls(a + b) == RemoveControls(a) + RemoveControls(b)
    decreases |a|
  {
    if |a| > 0 {
      assert (a + b)[0] == a[0];
      assert (a + b)[1..] == a[1..] + b;
      RemoveControlsAppend(a[1..], b);
    } else {
      assert a + b == b;
    }
  }

  /** A text without those controls comes through unchanged. */
  lemma {:induction false} RemoveControlsKeepsClean(s: string)
    requires NoControl(s)
    ensures RemoveControls(s) == s
    decreases |s|
  {
    if |s| > 0 {
      SuffixKeeps(s, 1);
      RemoveControlsKeepsClean(s[1..]);
      assert [s[0]] + s[1..] == s;
    }
  }

  /** The characters of `s` outside `drop`, in their order. */
  function Without(s: string, drop: set<char>): (r: string)
    ensures |r| <= |s|
    decreases |s|
  {
    if |s| == 0 then "" else (if s[0] in drop then "" else [s[0]]) + Without(s[1..], drop)
  }

  lemma WithoutCons(c: char, t: string, drop: set<char>)
    ensures Without([c] + t, drop) == (if c in drop then "" else [c]) + Without(t, drop)
  {
    assert ([c] + t)[0] == c && ([c] + t)[1..] == t;
  }

  /** `s` without its leading blanks. */
  function SkipBlanks(s: string): (r: string)
    ensures |r| <= |s| && r == s[|s| - |r|..]
    ensures |r| > 0 ==> !IsBlank(r[0])
    decreases |s|
  {
    if |s| > 0 && IsBlank(s[0]) then SkipBlanks(s[1..]) else s
  }

  const Blanks: set<char> := {' ', '\t'}

  /** Skipping leading blanks drops no other character. */
  lemma {:induction false} SkipBlanksWithout(s: string)
    ensures Without(SkipBlanks(s), Blanks) == Without(s, Blanks)
    decreases |s|
  {
    if |s| > 0 && IsBlank(s[0]) {
      SkipBlanksWithout(s[1..]);
    }
  }

  /** Skipping blanks stops at the first other character. */
  lemma {:induction false} SkipBlanksSplit(a: string, x: char, b: string)
    requires !IsBlank(x)
    ensures SkipBlanks(a + [x] + b) == SkipBlanks(a) + [x] + b
    decreases |a|
  {
    var s := a + [x] + b;
    if |a| == 0 {
      assert s == [x] + b;
    } else {
      SplitTail(a, x, b);
      if IsBlank(a[0]) {
        SkipBlanksSplit(a[1..], x, b);
      }
    }
  }

  /** The head and tail of `a + [x] + b` when `a` is not empty. */
  lemma SplitTail(a: string, x: char, b: string)
    requires |a| > 0
    ensures (a + [x] + b)[0] == a[0] && (a + [x] + b)[1..] == a[1..] + [x] + b
  {
  }

  /** Every character of a suffix is a character of the whole. */
  lemma SuffixChars(s: string, k: nat)
    requires k <= |s|
    ensures forall c :: c in s[k..] ==> c in s
  {
    forall c | c in s[k..] ensures c in s {
      var j :| 0 <= j < |s[k..]| && s[k..][j] == c;
      assert s[k + j] == c;
    }
  }

  /** Putting one character in front keeps a text free of tabs and double
      spaces, unless that character is a tab or a space before a space. */
  lemma ConsBlankFree(c: char, rest: string)
    requires c != '\t' && NoTab(rest) && NoDoubleSpace(rest)
    requires c == ' ' && |rest| > 0 ==> rest[0] != ' '
    ensures NoTab([c] + rest) && NoDoubleSpace([c] + rest)
  {
    var r := [c] + rest;
    assert forall i :: 1 <= i < |r| ==> r[i] == rest[i - 1];
    assert forall i :: DoubleSpaceAt(r, i) && i >= 1 ==> DoubleSpaceAt(rest, i - 1);
  }

  /** `re.sub(r'[ \t]+', ' ', text)`: every run of spaces and tabs becomes one space. */
  function CollapseBlanks(s: string): (r: string)
    ensures |r| <= |s|
    ensures NoTab(r) && NoDoubleSpace(r)
    ensures |s| > 0 ==> |r| > 0 && r[0] == (if IsBlank(s[0]) then ' ' else s[0])
    ensures forall c :: c in r ==> c in s || c == ' '
    ensures Without(r, Blanks) == Without(s, Blanks)
    decreases |s|
  {
    if |s| == 0 then ""
    else if IsBlank(s[0]) then
      var tail := SkipBlanks(s[1..]);
      var rest := CollapseBlanks(tail);
      SuffixChars(s, |s| - |tail|);
      ConsBlankFree(' ', rest);
      WithoutCons(' ', rest, Blanks);
      SkipBlanksWithout(s[1..]);
      [' '] + rest
    else
      var rest := CollapseBlanks(s[1..]);
      SuffixChars(s, 1);
      ConsBlankFree(s[0], rest);
      WithoutCons(s[0], rest, Blanks);
      [s[0]] + rest
  }

  /** A run of blanks collapses to one space ... */
  lemma CollapseBlanksRun(s: string)
    requires |s| > 0 && forall i :: 0 <= i < |s| ==> IsBlank(s[i])
    ensures CollapseBlanks(s) == " "
  {
    assert forall i :: 0 <= i < |s[1..]| ==> IsBlank(s[1..][i]);
    assert SkipBlanks(s[1..]) == "";
  }

  /** The collapse on a text that starts with a blank, and on one that does not. */
  lemma CollapseBlanksHead(s: string)
    requires |s| > 0
    ensures IsBlank(s[0]) ==> CollapseBlanks(s) == [' '] + CollapseBlanks(SkipBlanks(s[1..]))
    ensures !IsBlank(s[0]) ==> CollapseBlanks(s) == [s[0]] + CollapseBlanks(s[1..])
  {
  }

  /** ... and every other character stays where it is, splitting the text into
      parts collapsed independently. With the run case and the empty text, this
      determines the collapse on every text. */
  lemma {:induction false} CollapseBlanksSplit(a: string, x: char, b: string)
    requires !IsBlank(x)
    ensures CollapseBlanks(a + [x] + b) == CollapseBlanks(a) + [x] + CollapseBlanks(b)
    decreases |a|
  {
    if |a| == 0 {
      var s := a + [x] + b;
      assert s == [x] + b && s[1..] == b;
      CollapseBlanksHead(s);
    } else if IsBlank(a[0]) {
      SkipBlanksSplit(a[1..], x, b);
      CollapseBlanksSplit(SkipBlanks(a[1..]), x, b);
      BlankHeadStep(a, x, b);
    } else {
      CollapseBlanksSplit(a[1..], x, b);
      KeptHeadStep(a, x, b);
    }
  }

  /** The split step for a text that starts with a blank. */
  lemma BlankHeadStep(a: string, x: char, b: string)
    requires |a| > 0 && IsBlank(a[0]) && !IsBlank(x)
    requires SkipBlanks(a[1..] + [x] + b) == SkipBlanks(a[1..]) + [x] + b
    requires CollapseBlanks(SkipBlanks(a[1..]) + [x] + b)
             == CollapseBlanks(SkipBlanks(a[1..])) + [x] + CollapseBlanks(b)
    ensures CollapseBlanks(a + [x] + b) == CollapseBlanks(a) + [x] + CollapseBlanks(b)
  {
    var s := a + [x] + b;
    var u := SkipBlanks(a[1..]);
    SplitTail(a, x, b);
    CollapseBlanksHead(s);
    assert CollapseBlanks(s) == [' '] + (CollapseBlanks(u) + [x] + CollapseBlanks(b));
    CollapseBlanksHead(a);
    Assemble(CollapseBlanks(s), CollapseBlanks(a), [' '], CollapseBlanks(u), [x], CollapseBlanks(b));
  }

  /** `h + (m + x + t)` regrouped as `(h + m) + x + t`, with names for each side. */
  lemma Assemble(whole: string, left: string, h: string, m: string, x: string, t: string)
    requires whole == h + (m + x + t) && left == h + m
    ensures whole == left + x + t
  {
  }

  /** The split step for a text that starts with any other character. */
  lemma KeptHeadStep(a: string, x: char, b: string)
    requires |a| > 0 && !IsBlank(a[0]) && !IsBlank(x)
    requires CollapseBlanks(a[1..] + [x] + b) == CollapseBlanks(a[1..]) + [x] + CollapseBlanks(b)
    ensures CollapseBlanks(a + [x] + b) == CollapseBlanks(a) + [x] + CollapseBlanks(b)
  {
    var s := a + [x] + b;
    SplitTail(a, x, b);
    CollapseBlanksHead(s);
    assert CollapseBlanks(s) == [a[0]] + (CollapseBlanks(a[1..]) + [x] + CollapseBlanks(b));
    CollapseBlanksHead(a);
    Assemble(CollapseBlanks(s), CollapseBlanks(a), [a[0]], CollapseBlanks(a[1..]), [x], CollapseBlanks(b));
  }

  /** A text without tabs and double spaces comes through unchanged. */
  lemma {:induction false} CollapseBlanksKeepsClean(s: string)
    requires NoTab(s) && NoDoubleSpace(s)
    ensures CollapseBlanks(s) == s
    decreases |s|
  {
    if |s| > 0 {
      SuffixKeeps(s, 1);
      assert !DoubleSpaceAt(s, 0);
      CollapseBlanksKeepsClean(s[1..]);
      assert [s[0]] + s[1..] == s;
    }
  }

  /** The number of line feeds `s` starts with. */
  function NewlineRun(s: string): (n: nat)
    ensures n <= |s|
    ensures forall i :: 0 <= i < n ==> s[i] == '\n'
    ensures n < |s| ==> s[n] != '\n'
    decreases |s|
  {
    if |s| > 0 && s[0] == '\n' then 1 + NewlineRun(s[1..]) else 0
  }

  /** One character other than a line feed in front keeps a text free of three
      line feeds in a row, and of double spaces unless it is a space before a space. */
  lemma ConsNewlineFree(c: char, rest: string)
    requires c != '\n' && NoTripleNewline(rest)
    ensures NoTripleNewline([c] + rest)
    ensures NoDoubleSpace(rest) && (c == ' ' && |rest| > 0 ==> rest[0] != ' ') ==> NoDoubleSpace([c] + rest)
  {
    var r := [c] + rest;
    assert forall i :: 1 <= i < |r| ==> r[i] == rest[i - 1];
    assert forall i :: DoubleSpaceAt(r, i) && i >= 1 ==> DoubleSpaceAt(rest, i - 1);
    assert forall i :: TripleNewlineAt(r, i) && i >= 1 ==> TripleNewlineAt(rest, i - 1);
  }

  /** At most two line feeds in front of a text that does not start with one
      keep it free of three line feeds in a row and of double spaces. */
  lemma RunNewlineFree(head: string, rest: string)
    requires |head| <= 2 && forall i :: 0 <= i < |head| ==> head[i] == '\n'
    requires |rest| > 0 ==> rest[0] != '\n'
    requires NoTripleNewline(rest)
    ensures NoTripleNewline(head + rest)
    ensures NoDoubleSpace(rest) ==> NoDoubleSpace(head + rest)
  {
    var r := head + rest;
    assert forall i :: |head| <= i < |r| ==> r[i] == rest[i - |head|];
    assert forall i :: DoubleSpaceAt(r, i) && i >= |head| ==> DoubleSpaceAt(rest, i - |head|);
    assert forall i :: TripleNewlineAt(r, i) && i >= |head| ==> TripleNewlineAt(rest, i - |head|);
    assert forall i :: TripleNewlineAt(r, i) ==> i >= |head|;
  }

  /** `re.sub(r'\n{3,}', '\n\n', text)`: every run of three or more line feeds
      becomes two. */
  function CollapseNewlines(s: string): (r: string)
    ensures |r| <= |s|
    ensures NoTripleNewline(r)
    ensures |s| > 0 ==> |r| > 0 && r[0] == s[0]
    ensures forall c :: c in r ==> c in s
    ensures NoDoubleSpace(s) ==> NoDoubleSpace(r)
    ensures Without(r, {'\n'}) == Without(s, {'\n'})
    decreases |s|
  {
    if |s| == 0 then ""
    else if s[0] != '\n' then
      var rest := CollapseNewlines(s[1..]);
      SuffixChars(s, 1);
      SuffixKeeps(s, 1);
      assert NoDoubleSpace(s) ==> !DoubleSpaceAt(s, 0);
      ConsNewlineFree(s[0], rest);
      WithoutCons(s[0], rest, {'\n'});
      [s[0]] + rest
    else
      var n := NewlineRun(s);
      var head := if n >= 3 then "\n\n" else s[..n];
      var rest := CollapseNewlines(s[n..]);
      SuffixChars(s, n);
      SuffixKeeps(s, n);
      RunNewlineFree(head, rest);
      assert forall c :: c in head ==> c in s by {
        forall c | c in head ensures c in s { assert s[0] == '\n'; }
      }
      NewlinesWithout(head, rest);
      NewlinesWithout(s[..n], s[n..]);
      assert s[..n] + s[n..] == s;
      head + rest
  }

  /** Line feeds in front contribute nothing once line feeds are dropped. */
  lemma {:induction false} NewlinesWithout(head: string, rest: string)
    requires forall i :: 0 <= i < |head| ==> head[i] == '\n'
    ensures Without(head + rest, {'\n'}) == Without(rest, {'\n'})
    decreases |head|
  {
    if |head| > 0 {
      assert (head + rest)[0] == '\n' && (head + rest)[1..] == head[1..] + rest;
      NewlinesWithout(head[1..], rest);
    } else {
      assert head + rest == rest;
    }
  }

  /** A text of line feeds only becomes two of them when it has three or more,
      and stays as it is otherwise ... */
  lemma CollapseNewlinesRun(s: string)
    requires forall i :: 0 <= i < |s| ==> s[i] == '\n'
    ensures CollapseNewlines(s) == (if |s| >= 3 then "\n\n" else s)
  {
    if |s| > 0 {
      var n := NewlineRun(s);
      assert n == |s|;
      assert s[..n] == s && s[n..] == "";
    }
  }

  /** The leading run of line feeds ends at the first other character. */
  lemma {:induction false} NewlineRunSplit(a: string, x: char, b: string)
    requires x != '\n'
    ensures NewlineRun(a + [x] + b) == NewlineRun(a)
    decreases |a|
  {
    var s := a + [x] + b;
    if |a| == 0 {
      assert s[0] == x;
    } else {
      SplitTail(a, x, b);
      if a[0] == '\n' {
        NewlineRunSplit(a[1..], x, b);
      }
    }
  }

  /** ... and every other character stays where it is, splitting the text into
      parts collapsed independently. With the run case, this determines the
      collapse on every text. */
  lemma {:induction false} CollapseNewlinesSplit(a: string, x: char, b: string)
    requires x != '\n'
    ensures CollapseNewlines(a + [x] + b) == CollapseNewlines(a) + [x] + CollapseNewlines(b)
    decreases |a|
  {
    if |a| == 0 {
      var s := a + [x] + b;
      assert s == [x] + b && s[1..] == b;
      CollapseNewlinesHead(s);
    } else if a[0] != '\n' {
      CollapseNewlinesSplit(a[1..], x, b);
      KeptCharStep(a, x, b);
    } else {
      var n := NewlineRun(a);
      CollapseNewlinesSplit(a[n..], x, b);
      NewlineRunStep(a, x, b);
    }
  }

  /** The split step for a text that starts with a character other than a line feed. */
  lemma KeptCharStep(a: string, x: char, b: string)
    requires |a| > 0 && a[0] != '\n' && x != '\n'
    requires CollapseNewlines(a[1..] + [x] + b) == CollapseNewlines(a[1..]) + [x] + CollapseNewlines(b)
    ensures CollapseNewlines(a + [x] + b) == CollapseNewlines(a) + [x] + CollapseNewlines(b)
  {
    var s := a + [x] + b;
    SplitTail(a, x, b);
    CollapseNewlinesHead(s);
    assert CollapseNewlines(s) == [a[0]] + (CollapseNewlines(a[1..]) + [x] + CollapseNewlines(b));
    CollapseNewlinesHead(a);
    Assemble(CollapseNewlines(s), CollapseNewlines(a), [a[0]], CollapseNewlines(a[1..]), [x], CollapseNewlines(b));
  }

  /** The split step for a text that starts with a run of line feeds. */
  lemma NewlineRunStep(a: string, x: char, b: string)
    requires |a| > 0 && a[0] == '\n' && x != '\n'
    requires var n := NewlineRun(a);
      CollapseNewlines(a[n..] + [x] + b) == CollapseNewlines(a[n..]) + [x] + CollapseNewlines(b)
    ensures CollapseNewlines(a + [x] + b) == CollapseNewlines(a) + [x] + CollapseNewlines(b)
  {
    var s := a + [x] + b;
    var n := NewlineRun(a);
    NewlineRunSplit(a, x, b);
    var head := if n >= 3 then "\n\n" else a[..n];
    RunTail(a, x, b, n);
    CollapseNewlinesHead(s);
    assert CollapseNewlines(s) == head + (CollapseNewlines(a[n..]) + [x] + CollapseNewlines(b));
    CollapseNewlinesHead(a);
    Assemble(CollapseNewlines(s), CollapseNewlines(a), head, CollapseNewlines(a[n..]), [x], CollapseNewlines(b));
  }

  /** Cutting `a + [x] + b` after a prefix of `a`. */
  lemma RunTail(a: string, x: char, b: string, n: nat)
    requires 0 < n <= |a|
    ensures (a + [x] + b)[0] == a[0] && (a + [x] + b)[..n] == a[..n]
    ensures (a + [x] + b)[n..] == a[n..] + [x] + b
  {
  }

  /** The collapse on a text that starts with a line feed, and on one that does not. */
  lemma CollapseNewlinesHead(s: string)
    requires |s| > 0
    ensures s[0] != '\n' ==> CollapseNewlines(s) == [s[0]] + CollapseNewlines(s[1..])
    ensures s[0] == '\n' ==> var n := NewlineRun(s);
      CollapseNewlines(s) == (if n >= 3 then "\n\n" else s[..n]) + CollapseNewlines(s[n..])
  {
  }

  /** A text without three line feeds in a row comes through unchanged. */
  lemma {:induction false} CollapseNewlinesKeepsClean(s: string)
    requires NoTripleNewline(s)
    ensures CollapseNewlines(s) == s
    decreases |s|
  {
    if |s| > 0 && s[0] != '\n' {
      SuffixKeeps(s, 1);
      CollapseNewlinesKeepsClean(s[1..]);
      assert CollapseNewlines(s) == [s[0]] + CollapseNewlines(s[1..]);
      assert [s[0]] + s[1..] == s;
    } else if |s| > 0 {
      var n := NewlineRun(s);
      ShortRun(s);
      SuffixKeeps(s, n);
      CollapseNewlinesKeepsClean(s[n..]);
      assert CollapseNewlines(s) == s[..n] + CollapseNewlines(s[n..]);
      assert s[..n] + s[n..] == s;
    }
  }

  /** A text without three line feeds in a row starts with at most two. */
  lemma ShortRun(s: string)
    requires NoTripleNewline(s)
    ensures NewlineRun(s) < 3
  {
    assert !TripleNewlineAt(s, 0);
  }

  /** `text[:10000]` when the text is longer. */
  function Truncate(s: string): (r: string)
    ensures |r| <= MaxInputLength
    ensures |s| <= MaxInputLength ==> r == s
    ensures |s| > MaxInputLength ==> r == s[..MaxInputLength]
  {
    if |s| > MaxInputLength then s[..MaxInputLength] else s
  }

  /** Stripping a text whose ends are not whitespace changes nothing. */
  lemma StripKeepsTrimmed(s: string)
    requires Trimmed(s)
    ensures Strip(s) == s
  {
    assert StripLeft(s) == s;
    assert StripRight(s) == s;
  }

  /** Cutting keeps the character-wise properties. */
  lemma TruncateKeepsClean(c: string)
    requires Clean(c)
    ensures Clean(Truncate(c)) && |Truncate(c)| <= |c|
  {
    InfixClean(c, 0, |Truncate(c)|);
    assert Truncate(c) == c[0..|Truncate(c)|];
  }

  lemma StripLeftClean(d: string)
    requires Clean(d)
    ensures Clean(StripLeft(d))
  {
    var l := StripLeft(d);
    SuffixClean(d, |d| - |l|);
  }

  lemma StripRightClean(d: string)
    requires Clean(d)
    ensures Clean(StripRight(d))
  {
    var r := StripRight(d);
    assert r == d[0..|r|];
    InfixClean(d, 0, |r|);
  }

  /** Stripping a clean text that fits the limit gives a sanitized one. */
  lemma StripKeepsClean(d: string)
    requires Clean(d) && |d| <= MaxInputLength
    ensures Sanitized(Strip(d)) && |Strip(d)| <= |d|
  {
    StripLeftClean(d);
    StripRightClean(StripLeft(d));
  }

  // ---------------------------------------------------------------------------
  // The operations

  /** The three substitutions, in the order `sanitize_input` applies them. */
  function Substituted(text: string): (r: string)
    ensures |r| <= |text|
    ensures Clean(r)
  {
    var a := RemoveControls(text);
    var b := CollapseBlanks(a);
    var c := CollapseNewlines(b);
    assert forall i :: 0 <= i < |c| ==> c[i] in c;
    c
  }

  /** `sanitize_input`: the empty text stays empty; any other comes out without
      removed controls, tabs, double spaces or three line feeds in a row, at
      most `MaxInputLength` long and stripped. */
  function SanitizeInput(text: string): (r: string)
    ensures text == "" ==> r == ""
    ensures Sanitized(r)
    ensures |r| <= |text|
    ensures Clean(text) && |text| <= MaxInputLength ==> r == Strip(text)
  {
    if text == "" then ""
    else
      var c := Substituted(text);
      TruncateKeepsClean(c);
      StripKeepsClean(Truncate(c));
      assert Clean(text) ==> c == text by {
        if Clean(text) { SubstitutedKeepsClean(text); }
      }
      Strip(Truncate(c))
  }

  /** Legitimate content is preserved: a text that already meets every
      guarantee comes back unchanged. */
  lemma SanitizedFixed(s: string)
    requires Sanitized(s)
    ensures SanitizeInput(s) == s
  {
    StripKeepsTrimmed(s);
  }

  /** Sanitizing is idempotent. */
  lemma SanitizeIdempotent(text: string)
    ensures SanitizeInput(SanitizeInput(text)) == SanitizeInput(text)
  {
    SanitizedFixed(SanitizeInput(text));
  }

  /** A clean text comes through the three substitutions unchanged. */
  lemma SubstitutedKeepsClean(s: string)
    requires Clean(s)
    ensures Substituted(s) == s
  {
    RemoveControlsKeepsClean(s);
    CollapseBlanksKeepsClean(s);
    CollapseNewlinesKeepsClean(s);
  }

  /** `wrap_user_input`: the begin delimiter, then the context label and a colon
      on their own line, then the sanitized text, then the end delimiter. */
  function WrapUserInput(text: string, context: string): (r: string)
    ensures StartsWith(r, BeginDelimiter + "\n" + context + ":\n")
    ensures r[|r| - |EndDelimiter| - 1..] == "\n" + EndDelimiter
    ensures var from := |BeginDelimiter| + |context| + 3;
      from <= |r| - |EndDelimiter| - 1 && r[from..|r| - |EndDelimiter| - 1] == SanitizeInput(text)
  {
    var head := BeginDelimiter + "\n" + context + ":\n";
    var body := SanitizeInput(text);
    var tail := "\n" + EndDelimiter;
    ThreeParts(head, body, tail);
    head + body + tail
  }

  /** The three parts of a concatenation can be sliced back out. */
  lemma ThreeParts(a: string, b: string, c: string)
    ensures (a + b + c)[..|a|] == a
    ensures (a + b + c)[|a|..|a| + |b|] == b
    ensures (a + b + c)[|a| + |b|..] == c
  {
    var r := a + b + c;
    assert r[..|a|] == a;
    assert r[|a|..|a| + |b|] == b;
    assert r[|a| + |b|..] == c;
  }
}
