/** String helpers mirroring the Python string operations the core relies on:
    prefix and substring tests, ASCII case mapping, `str.title`, `str.strip`,
    `str.replace` on single characters, `" ".join`, and the decimal and
    hexadecimal renderings used by `str(int)` and by placeholder suffixes.

    Case mapping is modelled on ASCII letters only; Python's `lower` and
    `title` also map non-ASCII letters. */
module Text {

  predicate StartsWith(s: string, prefix: string) {
    |prefix| <= |s| && s[..|prefix|] == prefix
  }

  /** The needle occurs in the haystack starting at offset `i`. */
  predicate OccursAt(hay: string, needle: string, i: int) {
    0 <= i && i + |needle| <= |hay| && hay[i..i + |needle|] == needle
  }

  /** Python's `needle in hay` on strings. */
  predicate Contains(hay: string, needle: string)
    decreases |hay|
  {
    StartsWith(hay, needle) || (|hay| > 0 && Contains(hay[1..], needle))
  }

  /** `Contains` holds exactly when the needle occurs at some offset. */
  lemma {:induction false} ContainsAt(hay: string, needle: string)
    ensures Contains(hay, needle) <==> exists i :: OccursAt(hay, needle, i)
    decreases |hay|
  {
    if StartsWith(hay, needle) {
      assert OccursAt(hay, needle, 0);
    } else if |hay| == 0 {
    } else {
      ContainsAt(hay[1..], needle);
      if exists i :: OccursAt(hay, needle, i) {
        var i :| OccursAt(hay, needle, i);
        assert i != 0;
        assert OccursAt(hay[1..], needle, i - 1);
      }
      if Contains(hay[1..], needle) {
        var j :| OccursAt(hay[1..], needle, j);
        assert OccursAt(hay, needle, j + 1);
      }
    }
  }

  /** Substring containment is transitive. */
  lemma ContainsTransitive(a: string, b: string, c: string)
    requires Contains(a, b) && Contains(b, c)
    ensures Contains(a, c)
  {
    ContainsAt(a, b);
    ContainsAt(b, c);
    var i :| OccursAt(a, b, i);
    var j :| OccursAt(b, c, j);
    forall k | 0 <= k < |c|
      ensures a[i + j + k] == c[k]
    {
      assert a[i + j + k] == a[i..i + |b|][j + k] == b[j + k];
      assert b[j + k] == b[j..j + |c|][k];
    }
    assert a[i + j..i + j + |c|] == c;
    assert OccursAt(a, c, i + j);
    ContainsAt(a, c);
  }

  /** The middle part of a concatenation occurs in it. */
  lemma ContainsInfix(a: string, b: string, c: string)
    ensures Contains(a + b + c, b)
  {
    var h := a + b + c;
    assert h[|a|..|a| + |b|] == b;
    assert OccursAt(h, b, |a|);
    ContainsAt(h, b);
  }

  /** What occurs in a part occurs in the concatenation. */
  lemma ContainsInPart(a: string, b: string, c: string, needle: string)
    requires Contains(b, needle)
    ensures Contains(a + b + c, needle)
  {
    ContainsInfix(a, b, c);
    ContainsTransitive(a + b + c, b, needle);
  }

  /** A text never contains a needle holding a character the text lacks. */
  lemma MissingChar(hay: string, needle: string, c: char)
    requires c in needle && c !in hay
    ensures !Contains(hay, needle)
  {
    var j :| 0 <= j < |needle| && needle[j] == c;
    forall i ensures !OccursAt(hay, needle, i) {
      if 0 <= i && i + |needle| <= |hay| {
        assert hay[i..i + |needle|][j] == hay[i + j];
      }
    }
    ContainsAt(hay, needle);
  }

  /** A needle without the character `c` that occurs in a text split at a `c`
      occurs on one side of it. */
  lemma ContainsAcross(a: string, c: char, b: string, needle: string)
    requires c !in needle && Contains(a + [c] + b, needle)
    ensures Contains(a, needle) || Contains(b, needle)
  {
    var h := a + [c] + b;
    ContainsAt(h, needle);
    var i :| OccursAt(h, needle, i);
    assert h[|a|] == c;
    assert !(i <= |a| < i + |needle|);
    if i + |needle| <= |a| {
      assert a[i..i + |needle|] == h[i..i + |needle|];
      assert OccursAt(a, needle, i);
      ContainsAt(a, needle);
    } else {
      assert b[i - |a| - 1..i - |a| - 1 + |needle|] == h[i..i + |needle|];
      assert OccursAt(b, needle, i - |a| - 1);
      ContainsAt(b, needle);
    }
  }

  /** Each part of a join occurs in it. */
  lemma {:induction false} JoinContains(sep: string, parts: seq<string>, k: nat)
    requires k < |parts|
    ensures Contains(Join(sep, parts), parts[k])
    decreases |parts|
  {
    if |parts| == 1 {
      ContainsInfix("", parts[0], "");
      assert "" + parts[0] + "" == parts[0];
    } else if k == 0 {
      ContainsInfix("", parts[0], sep + Join(sep, parts[1..]));
      assert "" + parts[0] + (sep + Join(sep, parts[1..])) == Join(sep, parts);
    } else {
      JoinContains(sep, parts[1..], k - 1);
      ContainsInPart(parts[0] + sep, Join(sep, parts[1..]), "", parts[k]);
      assert parts[0] + sep + Join(sep, parts[1..]) + "" == Join(sep, parts);
    }
  }

  predicate IsAsciiUpper(c: char) { 'A' <= c <= 'Z' }
  predicate IsAsciiLower(c: char) { 'a' <= c <= 'z' }
  predicate IsAsciiLetter(c: char) { IsAsciiUpper(c) || IsAsciiLower(c) }

  function LowerChar(c: char): char {
    if IsAsciiUpper(c) then (c as int + 32) as char else c
  }

  function UpperChar(c: char): char {
    if IsAsciiLower(c) then (c as int - 32) as char else c
  }

  function Lower(s: string): (r: string)
    ensures |r| == |s|
    ensures forall i :: 0 <= i < |s| ==> r[i] == LowerChar(s[i])
  {
    seq(|s|, i requires 0 <= i < |s| => LowerChar(s[i]))
  }

  lemma LowerAppend(a: string, b: string)
    ensures Lower(a + b) == Lower(a) + Lower(b)
  {
  }

  /** Lower-casing keeps every occurrence. */
  lemma LowerContains(a: string, b: string)
    requires Contains(a, b)
    ensures Contains(Lower(a), Lower(b))
  {
    ContainsAt(a, b);
    var i :| OccursAt(a, b, i);
    assert Lower(a)[i..i + |b|] == Lower(b);
    assert OccursAt(Lower(a), Lower(b), i);
    ContainsAt(Lower(a), Lower(b));
  }

  /** A lower-case letter is missing from a lower-cased text when neither it nor
      its upper-case form occurs in the original. */
  lemma LowerLacks(s: string, c: char)
    requires IsAsciiLower(c) && c !in s && UpperChar(c) !in s
    ensures c !in Lower(s)
  {
    forall i | 0 <= i < |s| ensures Lower(s)[i] != c {
      assert s[i] != c && s[i] != UpperChar(c);
    }
  }

  /** Python's `str.title()`: a letter is upper-cased when the character before it
      is not a letter, and lower-cased otherwise. */
  function TitleFrom(s: string, afterLetter: bool): (r: string)
    decreases |s|
  {
    if |s| == 0 then []
    else
      var c := if !IsAsciiLetter(s[0]) then s[0]
               else if afterLetter then LowerChar(s[0])
               else UpperChar(s[0]);
      [c] + TitleFrom(s[1..], IsAsciiLetter(s[0]))
  }

  function Title(s: string): string {
    TitleFrom(s, false)
  }

  /** `s.replace(a, b)` for single characters. */
  function ReplaceChar(s: string, a: char, b: char): (r: string)
    ensures |r| == |s|
    ensures forall i :: 0 <= i < |s| ==> r[i] == (if s[i] == a then b else s[i])
  {
    seq(|s|, i requires 0 <= i < |s| => if s[i] == a then b else s[i])
  }

  /** The characters Python's `str.isspace()` accepts, hence the ones `strip()` removes. */
  predicate IsSpace(c: char) {
    c == ' ' || ('\t' <= c <= '\r') || ('\U{1c}' <= c <= '\U{1f}') || c == '\U{85}' || c == '\U{a0}'
    || c == '\U{1680}' || ('\U{2000}' <= c <= '\U{200a}') || c == '\U{2028}' || c == '\U{2029}'
    || c == '\U{202f}' || c == '\U{205f}' || c == '\U{3000}'
  }

  function StripLeft(s: string): (r: string)
    ensures |r| <= |s| && r == s[|s| - |r|..]
    ensures |r| > 0 ==> !IsSpace(r[0])
    ensures forall i :: 0 <= i < |s| - |r| ==> IsSpace(s[i])
    decreases |s|
  {
    if |s| > 0 && IsSpace(s[0]) then StripLeft(s[1..]) else s
  }

  function StripRight(s: string): (r: string)
    ensures |r| <= |s| && r == s[..|r|]
    ensures |r| > 0 ==> !IsSpace(r[|r| - 1])
    ensures forall i :: |r| <= i < |s| ==> IsSpace(s[i])
    decreases |s|
  {
    if |s| > 0 && IsSpace(s[|s| - 1]) then StripRight(s[..|s| - 1]) else s
  }

  /** Python's `str.strip()`: the longest infix without leading or trailing whitespace. */
  function Strip(s: string): (r: string)
    ensures exists a :: OccursAt(s, r, a)
    ensures |r| > 0 ==> !IsSpace(r[0]) && !IsSpace(r[|r| - 1])
  {
    var l := StripLeft(s);
    var r := StripRight(l);
    assert OccursAt(s, r, |s| - |l|);
    r
  }

  /** `sep.join(parts)`. */
  function Join(sep: string, parts: seq<string>): string
    decreases |parts|
  {
    if |parts| == 0 then ""
    else if |parts| == 1 then parts[0]
    else parts[0] + sep + Join(sep, parts[1..])
  }

  // ---------------------------------------------------------------------------
  // Number renderings

  function DecimalDigit(d: nat): char
    requires d < 10
  {
    "0123456789"[d]
  }

  function DecimalNat(n: nat): (r: string)
    ensures |r| > 0
    decreases n
  {
    if n < 10 then [DecimalDigit(n)] else DecimalNat(n / 10) + [DecimalDigit(n % 10)]
  }

  /** Python's `str(i)` for an integer. */
  function IntToString(i: int): string {
    if i < 0 then "-" + DecimalNat(-i) else DecimalNat(i)
  }

  const HexDigits: string := "0123456789abcdef"

  function HexDigit(d: nat): char
    requires d < 16
  {
    HexDigits[d]
  }

  /** Lower-case hexadecimal rendering without leading zeros (as `uuid.hex` digits). */
  function Hex(n: nat): (r: string)
    ensures |r| > 0
    decreases n
  {
    if n < 16 then [HexDigit(n)] else Hex(n / 16) + [HexDigit(n % 16)]
  }

  function PadLeft(s: string, width: nat): (r: string)
    ensures |r| >= width && |r| >= |s|
    decreases width - |s|
  {
    if |s| >= width then s else PadLeft(['0'] + s, width)
  }

  /** `n` in lower-case hexadecimal, zero-padded to at least `width` digits. */
  function HexPad(n: nat, width: nat): (r: string)
    ensures |r| >= width
  {
    PadLeft(Hex(n), width)
  }

  function HexDigitValue(c: char): (r: nat)
    ensures r < 16
  {
    if '0' <= c <= '9' then c as int - '0' as int
    else if 'a' <= c <= 'f' then c as int - 'a' as int + 10
    else 0
  }

  /** Reads a hexadecimal digit string back as a number. */
  function HexValue(s: string): nat
    decreases |s|
  {
    if |s| == 0 then 0 else HexValue(s[..|s| - 1]) * 16 + HexDigitValue(s[|s| - 1])
  }

  lemma {:induction false} HexRoundTrip(n: nat)
    ensures HexValue(Hex(n)) == n
    decreases n
  {
    if n >= 16 {
      var h := Hex(n / 16) + [HexDigit(n % 16)];
      assert h[..|h| - 1] == Hex(n / 16);
      HexRoundTrip(n / 16);
    }
  }

  lemma {:induction false} LeadingZero(s: string)
    ensures HexValue(['0'] + s) == HexValue(s)
    decreases |s|
  {
    if |s| > 0 {
      var t := ['0'] + s;
      assert t[..|t| - 1] == ['0'] + s[..|s| - 1];
      LeadingZero(s[..|s| - 1]);
    }
  }

  lemma {:induction false} PadLeftValue(s: string, width: nat)
    ensures HexValue(PadLeft(s, width)) == HexValue(s)
    decreases width - |s|
  {
    if |s| < width {
      PadLeftValue(['0'] + s, width);
      LeadingZero(s);
    }
  }

  /** Reading a padded rendering back yields the number: rendering is injective. */
  lemma HexPadRoundTrip(n: nat, width: nat)
    ensures HexValue(HexPad(n, width)) == n
  {
    PadLeftValue(Hex(n), width);
    HexRoundTrip(n);
  }
}
