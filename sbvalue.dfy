/** The value-coercion helpers that `src/LLDBHelper/SBValue.py` attaches to
    LLDB's `SBValue`. A value is reduced to what the helpers read from it:
    whether it is valid, its value string and its summary string. */
module SBValueHelper {
  import opened PyTypes
  import opened PyStr

  /** `IsValid()`, `GetValue()` and `GetSummary()`; LLDB answers `None` for
      the latter two when it has nothing to show. */
  datatype SBValue = SBValue(valid: bool, value: Option<string>, summary: Option<string>)

  // ---------------------------------------------------------------------------
  // Python `int(s, 0)`
  // ---------------------------------------------------------------------------

  /** The ASCII whitespace that `int` ignores around a literal. */
  predicate IsSpace(c: char)
  {
    c == ' ' || c == '\t' || c == '\n' || c == '\r' || c == '\U{B}' || c == '\U{C}'
  }

  function TrimLeft(s: string): (r: string)
    ensures |r| <= |s| && r == s[|s| - |r|..]
    ensures r == [] || !IsSpace(r[0])
    ensures forall i :: 0 <= i < |s| - |r| ==> IsSpace(s[i])
    decreases |s|
  {
    if s != [] && IsSpace(s[0]) then TrimLeft(s[1..]) else s
  }

  function TrimRight(s: string): (r: string)
    ensures |r| <= |s| && r == s[..|r|]
    ensures r == [] || !IsSpace(r[|r| - 1])
    ensures forall i :: |r| <= i < |s| ==> IsSpace(s[i])
    decreases |s|
  {
    if s != [] && IsSpace(s[|s| - 1]) then TrimRight(s[..|s| - 1]) else s
  }

  /** `s.strip()` for ASCII whitespace. */
  function Strip(s: string): string
  {
    TrimRight(TrimLeft(s))
  }

  /** The value of a digit in any base up to 36, or 36 for a character that is
      no digit at all. */
  function DigitValue(c: char): nat
  {
    if '0' <= c <= '9' then c as int - '0' as int
    else if 'a' <= c <= 'z' then c as int - 'a' as int + 10
    else if 'A' <= c <= 'Z' then c as int - 'A' as int + 10
    else 36
  }

  /** Digits of `base`, separated by single underscores, neither first nor
      last: the digit part of a Python integer literal. */
  predicate Grouped(s: string, base: nat)
  {
    |s| > 0 && s[0] != '_' && s[|s| - 1] != '_'
    && (forall i :: 0 <= i < |s| ==> s[i] == '_' || DigitValue(s[i]) < base)
    && (forall i :: 0 <= i < |s| - 1 ==> !UnderscorePairAt(s, i))
  }

  predicate UnderscorePairAt(s: string, i: nat)
    requires i + 1 < |s|
  {
    s[i] == '_' && s[i + 1] == '_'
  }

  /** The number the digits of `s` spell in `base`, underscores skipped. */
  function DigitsValue(s: string, base: nat): nat
    decreases |s|
  {
    if s == [] then 0
    else if s[|s| - 1] == '_' then DigitsValue(s[..|s| - 1], base)
    else DigitsValue(s[..|s| - 1], base) * base + DigitValue(s[|s| - 1])
  }

  /** The base a two-character prefix `0x`, `0o` or `0b` (either case) selects. */
  function PrefixBase(c: char): nat
  {
    if c == 'x' || c == 'X' then 16
    else if c == 'o' || c == 'O' then 8
    else if c == 'b' || c == 'B' then 2
    else 0
  }

  /** An unsigned literal under base 0: a prefixed literal, whose digits may
      start with one underscore, or a decimal one, which may start with `0`
      only when every digit is `0`. */
  function ParseUnsigned(t: string): (r: Option<int>)
    ensures r.Some? ==> |t| > 0 && r.value >= 0
  {
    if |t| >= 2 && t[0] == '0' && PrefixBase(t[1]) != 0 then
      var base := PrefixBase(t[1]);
      var digits := if |t| > 2 && t[2] == '_' then t[3..] else t[2..];
      if Grouped(digits, base) then Some(DigitsValue(digits, base)) else None
    else if Grouped(t, 10) && (t[0] != '0' || forall i :: 0 <= i < |t| ==> t[i] == '0' || t[i] == '_') then
      Some(DigitsValue(t, 10))
    else None
  }

  /** An optionally signed literal, whitespace already stripped. */
  function ParseSigned(t: string): Option<int>
  {
    if |t| > 0 && (t[0] == '+' || t[0] == '-') then
      match ParseUnsigned(t[1..])
      case Some(n) => Some(if t[0] == '-' then -n else n)
      case None => None
    else ParseUnsigned(t)
  }

  /** Python `int(s, 0)`, with `None` for the `ValueError` it raises. */
  function ParseIntLiteral(s: string): Option<int>
  {
    ParseSigned(Strip(s))
  }

  // ---------------------------------------------------------------------------
  // Rendering, the partner of the parse
  // ---------------------------------------------------------------------------

  function DigitChar(d: nat): (c: char)
    requires d < 16
    ensures DigitValue(c) == d
  {
    if d < 10 then ('0' as int + d) as char else ('a' as int + d - 10) as char
  }

  /** The digits of `n` in `base` (10 or 16), most significant first, with no
      leading zero. */
  function Digits(n: nat, base: nat): (r: string)
    requires base == 10 || base == 16
    ensures |r| > 0
    decreases n
  {
    if n < base then [DigitChar(n)] else Digits(n / base, base) + [DigitChar(n % base)]
  }

  /** `str(n)`. */
  function DecimalString(n: int): string
  {
    if n < 0 then "-" + Digits(-n, 10) else Digits(n, 10)
  }

  lemma {:induction false} DigitsSpell(n: nat, base: nat)
    requires base == 10 || base == 16
    ensures Grouped(Digits(n, base), base)
    ensures DigitsValue(Digits(n, base), base) == n
    ensures '_' !in Digits(n, base) && !IsSpace(Digits(n, base)[0])
    ensures |Digits(n, base)| > 1 ==> Digits(n, base)[0] != '0'
    ensures Digits(n, base)[0] == '0' ==> n == 0
    decreases n
  {
    if n >= base {
      var q, d := n / base, n % base;
      DigitsSpell(q, base);
      AppendDigit(Digits(q, base), DigitChar(d), base);
      assert Digits(n, base) == Digits(q, base) + [DigitChar(d)];
      assert DigitsValue(Digits(n, base), base) == q * base + d;
      assert q * base + d == n;
    }
  }

  /** One more digit after grouped digits without underscores. */
  lemma AppendDigit(init: string, c: char, base: nat)
    requires Grouped(init, base) && '_' !in init && DigitValue(c) < base && c != '_'
    ensures Grouped(init + [c], base) && '_' !in init + [c] && (init + [c])[0] == init[0]
    ensures DigitsValue(init + [c], base) == DigitsValue(init, base) * base + DigitValue(c)
  {
    var r := init + [c];
    assert r[..|r| - 1] == init;
    forall i | 0 <= i < |r| ensures r[i] == '_' || DigitValue(r[i]) < base {
      if i < |init| {
        assert r[i] == init[i];
      }
    }
  }

  /** A string that neither starts nor ends with whitespace is its own strip. */
  lemma StripClean(s: string)
    requires s == [] || (!IsSpace(s[0]) && !IsSpace(s[|s| - 1]))
    ensures Strip(s) == s
  {
  }

  /** The parse reads a string only through its strip. */
  lemma ParseReadsStrip(a: string, b: string)
    requires Strip(a) == Strip(b)
    ensures ParseIntLiteral(a) == ParseIntLiteral(b)
  {
  }

  /** On a stripped string with no sign the parse is the unsigned parse. */
  lemma UnsignedRead(t: string)
    requires |t| > 0 && t[0] != '+' && t[0] != '-'
    ensures ParseSigned(t) == ParseUnsigned(t)
  {
  }

  /** On a stripped string with a minus sign the parse negates the unsigned
      parse of the rest. */
  lemma NegativeRead(t: string, k: nat)
    requires |t| > 0 && t[0] == '-' && ParseUnsigned(t[1..]) == Some(k)
    ensures ParseSigned(t) == Some(-(k as int))
  {
  }

  /** A prefixed literal whose digits do not start with an underscore. */
  lemma PrefixedRead(t: string)
    requires |t| > 2 && t[0] == '0' && PrefixBase(t[1]) != 0 && t[2] != '_'
    requires Grouped(t[2..], PrefixBase(t[1]))
    ensures ParseUnsigned(t) == Some(DigitsValue(t[2..], PrefixBase(t[1])))
  {
  }

  /** Decimal digits without a leading zero are read as the number they spell. */
  lemma DecimalDigitsRead(d: string)
    requires Grouped(d, 10) && (d[0] != '0' || |d| == 1)
    ensures ParseUnsigned(d) == Some(DigitsValue(d, 10))
  {
  }

  /** The parse reads back every number as `str` prints it. */
  lemma DecimalRoundTrip(n: int)
    ensures ParseIntLiteral(DecimalString(n)) == Some(n)
  {
    var m := if n < 0 then -n else n;
    var d := Digits(m, 10);
    DecimalDigits(m);
    if n < 0 {
      assert DecimalString(n) == "-" + d;
      NegatedRead(d, m);
    } else {
      assert DecimalString(n) == d;
      PlainRead(d, m);
    }
  }

  /** The decimal digits of a number: unsigned, unpadded, read back as it. */
  lemma DecimalDigits(m: nat)
    ensures var d := Digits(m, 10);
      !IsSpace(d[0]) && !IsSpace(d[|d| - 1]) && d[0] != '+' && d[0] != '-'
      && ParseUnsigned(d) == Some(m)
  {
    var d := Digits(m, 10);
    DigitsSpell(m, 10);
    DecimalDigitsRead(d);
    assert DigitValue(d[0]) < 10 && DigitValue(d[|d| - 1]) < 10;
  }

  /** A literal with no surrounding whitespace and no sign is read unsigned. */
  lemma PlainRead(d: string, k: nat)
    requires |d| > 0 && !IsSpace(d[0]) && !IsSpace(d[|d| - 1]) && d[0] != '+' && d[0] != '-'
    requires ParseUnsigned(d) == Some(k)
    ensures ParseIntLiteral(d) == Some(k)
  {
    StripClean(d);
    ParseOfClean(d);
    UnsignedRead(d);
  }

  /** A minus sign before a literal with no trailing whitespace negates it. */
  lemma NegatedRead(d: string, k: nat)
    requires |d| > 0 && !IsSpace(d[|d| - 1]) && ParseUnsigned(d) == Some(k)
    ensures ParseIntLiteral("-" + d) == Some(-(k as int))
  {
    var s := "-" + d;
    assert s[1..] == d && s[0] == '-';
    assert s[|s| - 1] == d[|d| - 1];
    StripClean(s);
    ParseOfClean(s);
    NegativeRead(s, k);
  }

  /** The parse reads back every non-negative number written in hexadecimal
      with the `0x` prefix. */
  lemma HexRoundTrip(n: nat)
    ensures ParseIntLiteral("0x" + Digits(n, 16)) == Some(n)
  {
    var d := Digits(n, 16);
    DigitsSpell(n, 16);
    HexClean(d);
    HexSigned(d);
  }

  lemma HexClean(d: string)
    requires |d| > 0 && !IsSpace(d[|d| - 1])
    ensures ParseIntLiteral("0x" + d) == ParseSigned("0x" + d)
  {
    var s := "0x" + d;
    assert s[|s| - 1] == d[|d| - 1];
    StripClean(s);
    ParseOfClean(s);
  }

  lemma HexSigned(d: string)
    requires Grouped(d, 16)
    ensures ParseSigned("0x" + d) == Some(DigitsValue(d, 16))
  {
    var s := "0x" + d;
    UnsignedRead(s);
    assert s[2..] == d && s[2] == d[0] && s[1] == 'x';
    PrefixedRead(s);
  }

  /** Whitespace around a literal does not change what it parses to. */
  lemma SpacesIgnored(s: string, c: char)
    requires IsSpace(c)
    ensures ParseIntLiteral([c] + s) == ParseIntLiteral(s)
    ensures ParseIntLiteral(s + [c]) == ParseIntLiteral(s)
  {
    assert ([c] + s)[1..] == s;
    assert TrimLeft([c] + s) == TrimLeft(s);
    ParseReadsStrip([c] + s, s);
    TrimLeftAppend(s, c);
    ParseReadsStrip(s + [c], s);
  }

  lemma {:induction false} TrimLeftAppend(s: string, c: char)
    requires IsSpace(c)
    ensures TrimRight(TrimLeft(s + [c])) == TrimRight(TrimLeft(s))
    decreases |s|
  {
    if s != [] && IsSpace(s[0]) {
      assert (s + [c])[1..] == s[1..] + [c];
      TrimLeftAppend(s[1..], c);
    } else if s == [] {
      assert TrimLeft([c]) == [];
    } else {
      assert TrimLeft(s + [c]) == s + [c];
      assert (s + [c])[..|s + [c]| - 1] == s;
    }
  }

  /** A decimal literal with a leading zero followed by a non-zero digit is
      refused, as Python 3 refuses `07`. */
  lemma LeadingZeroRefused(t: string)
    requires |t| >= 2 && t[0] == '0' && '1' <= t[1] <= '9'
    requires forall i :: 0 <= i < |t| ==> '0' <= t[i] <= '9'
    ensures ParseIntLiteral(t) == None
  {
    assert !IsSpace(t[|t| - 1]);
    StripClean(t);
    ParseOfClean(t);
    LeadingZeroSigned(t);
  }

  lemma LeadingZeroSigned(t: string)
    requires |t| >= 2 && t[0] == '0' && '1' <= t[1] <= '9'
    ensures ParseSigned(t) == None
  {
    UnsignedRead(t);
    LeadingZeroUnsigned(t);
  }

  lemma ParseOfClean(t: string)
    requires Strip(t) == t
    ensures ParseIntLiteral(t) == ParseSigned(t)
  {
  }

  lemma LeadingZeroUnsigned(t: string)
    requires |t| >= 2 && t[0] == '0' && '1' <= t[1] <= '9'
    ensures ParseUnsigned(t) == None
  {
    assert PrefixBase(t[1]) == 0;
    assert !(t[1] == '0' || t[1] == '_');
  }

  // ---------------------------------------------------------------------------
  // asInt, asBool, asStr
  // ---------------------------------------------------------------------------

  /** `asInt`: the integer literal in the value string, `None` for an invalid
      value, a missing value string or a literal `int` refuses. It never
      raises. */
  function AsInt(v: SBValue): (r: Option<int>)
    ensures r.Some? ==> v.valid && v.value.Some? && ParseIntLiteral(v.value.value) == r
    ensures v.valid && v.value.Some? ==> r == ParseIntLiteral(v.value.value)
  {
    if !v.valid then None
    else match v.value
      case None => None
      case Some(s) => ParseIntLiteral(s)
  }

  const TrueSpellings: seq<string> := ["true", "TRUE", "YES"]
  const FalseSpellings: seq<string> := ["false", "FALSE", "NO"]

  /** `asBool`: the six spellings first, then whether the integer is positive. */
  function AsBool(v: SBValue): (r: Option<bool>)
    ensures !v.valid ==> r == None
    ensures v.valid && v.value.Some? && v.value.value in TrueSpellings ==> r == Some(true)
    ensures v.valid && v.value.Some? && v.value.value in FalseSpellings ==> r == Some(false)
    ensures r == None ==> !v.valid || AsInt(v) == None
  {
    if !v.valid then None
    else if v.value.Some? && v.value.value in TrueSpellings then Some(true)
    else if v.value.Some? && v.value.value in FalseSpellings then Some(false)
    else match AsInt(v)
      case Some(n) => Some(n > 0)
      case None => None
  }

  /** A number printed by `str` is no spelling: `asBool` reads it as positive
      or not, so zero and negative numbers are false. */
  lemma AsBoolOfNumber(n: int, summary: Option<string>)
    ensures AsBool(SBValue(true, Some(DecimalString(n)), summary)) == Some(n > 0)
  {
    NumberNoSpelling(n);
    DecimalRoundTrip(n);
  }

  lemma NumberNoSpelling(n: int)
    ensures DecimalString(n) !in TrueSpellings && DecimalString(n) !in FalseSpellings
  {
    var s := DecimalString(n);
    var m := if n < 0 then -n else n;
    var d := Digits(m, 10);
    DigitsSpell(m, 10);
    assert s[0] == '-' || s[0] == d[0];
    assert DigitValue(d[0]) < 10;
    assert s[0] == '-' || '0' <= s[0] <= '9';
    assert forall w :: w in TrueSpellings || w in FalseSpellings ==> |w| > 0 && 'A' <= w[0] <= 'z';
  }

  /** Every result of `asBool` on a valid value comes from a spelling or from
      the sign of a parsed integer. */
  lemma AsBoolSource(v: SBValue)
    requires AsBool(v).Some?
    ensures v.valid
    ensures AsBool(v) == Some(true) ==>
              (v.value.Some? && v.value.value in TrueSpellings) || (AsInt(v).Some? && AsInt(v).value > 0)
    ensures AsBool(v) == Some(false) ==>
              (v.value.Some? && v.value.value in FalseSpellings) || (AsInt(v).Some? && AsInt(v).value <= 0)
  {
  }

  /** `asStr`: the summary with one layer of C-string quotes or of Objective-C
      string-literal quotes removed. */
  function AsStr(v: SBValue): (r: Option<string>)
    ensures r.Some? <==> v.valid && v.summary.Some?
    ensures r.Some? ==> |r.value| <= |v.summary.value|
    ensures r.Some? ==> exists i, j :: 0 <= i <= j <= |v.summary.value| && r.value == v.summary.value[i..j]
  {
    if !v.valid then None
    else match v.summary
      case None => None
      case Some(s) =>
        if StartsWith(s, "\"") && EndsWith(s, "\"") && |s| > 1 then Some(s[1..|s| - 1])
        else if StartsWith(s, "@\"") && EndsWith(s, "\"") && |s| > 2 then Some(s[2..|s| - 1])
        else assert s[0..|s|] == s; Some(s)
  }

  /** A C string summary gives back its text. */
  lemma QuotedRoundTrip(text: string, value: Option<string>)
    ensures AsStr(SBValue(true, value, Some("\"" + text + "\""))) == Some(text)
  {
    var s := "\"" + text + "\"";
    assert s[..1] == "\"" && s[|s| - 1..] == "\"";
    assert s[1..|s| - 1] == text;
  }

  /** An Objective-C string summary gives back its text. */
  lemma AtQuotedRoundTrip(text: string, value: Option<string>)
    ensures AsStr(SBValue(true, value, Some("@\"" + text + "\""))) == Some(text)
  {
    var s := "@\"" + text + "\"";
    assert s[0] == '@';
    assert s[..2] == "@\"" && s[|s| - 1..] == "\"";
    assert s[2..|s| - 1] == text;
  }

  /** A summary that is not closed by a quote, or not opened by one, comes
      back unchanged; so do the lone `"` and the bare `@"`. */
  lemma UnquotedUnchanged(s: string, value: Option<string>)
    requires !EndsWith(s, "\"") || (!StartsWith(s, "\"") && !StartsWith(s, "@\"")) || s == "\"" || s == "@\""
    ensures AsStr(SBValue(true, value, Some(s))) == Some(s)
  {
    if s == "@\"" {
      assert s[0] == '@';
    }
  }
}
