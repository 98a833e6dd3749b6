/** Python's `repr` of a `str`, as the validator's messages print names with
    it: the quote is chosen from the contents, and backslashes, the chosen
    quote and ASCII control characters are escaped. `UnRepr` reads such a
    literal back, which pins down that the rendering loses nothing.

    Python also escapes the non-printable characters outside ASCII; here every
    non-ASCII character is taken as printable and written as it is. */
module PyRepr {
  import opened Wrappers
  import opened Text

  /** Double quotes when the string holds a single quote and no double quote,
      single quotes otherwise. */
  function ReprQuote(s: string): char {
    if '\'' in s && '"' !in s then '"' else '\''
  }

  predicate IsQuote(q: char) { q == '\'' || q == '"' }

  /** ASCII controls other than tab, newline and carriage return, and DEL:
      written as `\xhh`. */
  predicate HexEscaped(c: char) {
    (c < ' ' && c != '\t' && c != '\n' && c != '\r') || c as int == 0x7f
  }

  /** Characters written as they are inside quotes `q`. */
  predicate Verbatim(c: char, q: char) {
    c != '\\' && c != q && c != '\t' && c != '\n' && c != '\r' && !HexEscaped(c)
  }

  /** How one character is written inside quotes `q`. */
  function ReprChar(c: char, q: char): (r: string)
    ensures |r| > 0
    ensures Verbatim(c, q) <==> r == [c]
  {
    if c == '\\' then "\\\\"
    else if c == q then ['\\', q]
    else if c == '\t' then "\\t"
    else if c == '\n' then "\\n"
    else if c == '\r' then "\\r"
    else if HexEscaped(c) then "\\x" + [HexDigit(c as int / 16), HexDigit(c as int % 16)]
    else [c]
  }

  function ReprBody(s: string, q: char): (r: string)
    ensures |r| >= |s|
  {
    if |s| == 0 then "" else ReprChar(s[0], q) + ReprBody(s[1..], q)
  }

  /** `repr(s)`: the body between two copies of the chosen quote. */
  function Repr(s: string): (r: string)
    ensures |r| >= |s| + 2
    ensures r[0] == ReprQuote(s) && r[|r| - 1] == ReprQuote(s)
  {
    [ReprQuote(s)] + ReprBody(s, ReprQuote(s)) + [ReprQuote(s)]
  }

  /** Reads the inside of a literal quoted with `q`; `None` for a bare quote
      or an escape `repr` never writes. */
  function UnreprBody(r: string, q: char): Option<string>
    decreases |r|
  {
    if |r| == 0 then Some("")
    else if r[0] == q then None
    else if r[0] != '\\' then
      var rest :- UnreprBody(r[1..], q);
      Some([r[0]] + rest)
    else if |r| < 2 then None
    else if r[1] == '\\' || r[1] == q then
      var rest :- UnreprBody(r[2..], q);
      Some([r[1]] + rest)
    else if r[1] == 't' || r[1] == 'n' || r[1] == 'r' then
      var rest :- UnreprBody(r[2..], q);
      Some([if r[1] == 't' then '\t' else if r[1] == 'n' then '\n' else '\r'] + rest)
    else if r[1] == 'x' && |r| >= 4 then
      var rest :- UnreprBody(r[4..], q);
      Some([(HexDigitValue(r[2]) * 16 + HexDigitValue(r[3])) as char] + rest)
    else None
  }

  /** Reads a quoted literal back. */
  function UnRepr(r: string): Option<string> {
    if |r| >= 2 && IsQuote(r[0]) && r[|r| - 1] == r[0] then UnreprBody(r[1..|r| - 1], r[0]) else None
  }

  lemma HexDigitRoundTrip(d: nat)
    requires d < 16
    ensures HexDigitValue(HexDigit(d)) == d
  {
    HexRoundTrip(d);
    assert HexValue([HexDigit(d)]) == HexValue([]) * 16 + HexDigitValue(HexDigit(d));
  }

  /** One written character is read back as itself, ahead of the rest. */
  lemma UnreprChar(c: char, q: char, t: string)
    requires IsQuote(q)
    ensures UnreprBody(ReprChar(c, q) + t, q)
              == (if UnreprBody(t, q).Some? then Some([c] + UnreprBody(t, q).value) else None)
  {
    var r := ReprChar(c, q) + t;
    if Verbatim(c, q) {
      assert r[1..] == t;
    } else if c == '\\' || c == q || c == '\t' || c == '\n' || c == '\r' {
      assert r[2..] == t;
    } else {
      var n := c as int;
      HexDigitRoundTrip(n / 16);
      HexDigitRoundTrip(n % 16);
      assert r[2] == HexDigit(n / 16) && r[3] == HexDigit(n % 16);
      assert r[4..] == t;
    }
  }

  lemma {:induction false} BodyRoundTrip(s: string, q: char)
    requires IsQuote(q)
    ensures UnreprBody(ReprBody(s, q), q) == Some(s)
    decreases |s|
  {
    if |s| > 0 {
      BodyRoundTrip(s[1..], q);
      UnreprChar(s[0], q, ReprBody(s[1..], q));
      assert [s[0]] + s[1..] == s;
    }
  }

  /** `repr` loses nothing: its literal reads back as the string. */
  lemma ReprRoundTrip(s: string)
    ensures UnRepr(Repr(s)) == Some(s)
  {
    var r := Repr(s);
    assert r[1..|r| - 1] == ReprBody(s, ReprQuote(s));
    BodyRoundTrip(s, ReprQuote(s));
  }

  lemma {:induction false} BodyVerbatim(s: string, q: char)
    requires forall i :: 0 <= i < |s| ==> Verbatim(s[i], q)
    ensures ReprBody(s, q) == s
    decreases |s|
  {
    if |s| > 0 {
      BodyVerbatim(s[1..], q);
      assert [s[0]] + s[1..] == s;
    }
  }

  /** A name without backslashes, control characters or single quotes is
      printed between single quotes as it is. */
  lemma ReprPlain(s: string)
    requires forall i :: 0 <= i < |s| ==> Verbatim(s[i], '\'')
    ensures Repr(s) == "'" + s + "'"
  {
    BodyVerbatim(s, '\'');
  }

  /** A name holding a single quote but no double quote, backslash or control
      character is printed between double quotes as it is. */
  lemma ReprApostrophe(s: string)
    requires '\'' in s
    requires forall i :: 0 <= i < |s| ==> Verbatim(s[i], '"')
    ensures Repr(s) == "\"" + s + "\""
  {
    BodyVerbatim(s, '"');
  }
}
