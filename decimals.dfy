/**
 * Exact decimal numbers and the subset of Python's `float(str)` literal
 * grammar that sale prices use: an optional sign, digits, and an optional
 * dot followed by digits, with at least one digit in all.
 */
module Decimals {
  import opened Wrappers
  import opened Text

  /** The number `units / 10^scale`, kept exactly. */
  datatype Decimal = Decimal(units: int, scale: nat) {
    function Value(): real {
      units as real / Pow10(scale) as real
    }
  }

  function Pow10(n: nat): (p: nat)
    ensures p >= 1
  {
    if n == 0 then 1 else 10 * Pow10(n - 1)
  }

  predicate IsDigit(c: char) { '0' <= c <= '9' }

  predicate AllDigits(s: string) { forall i :: 0 <= i < |s| ==> IsDigit(s[i]) }

  /** The number a string of decimal digits denotes, most significant first. */
  function DigitsValue(s: string): nat
    requires AllDigits(s)
  {
    if s == [] then 0 else 10 * DigitsValue(s[..|s| - 1]) + (s[|s| - 1] as int - '0' as int)
  }

  /** Position of the first '.', or `|s|` when there is none. */
  function FindDot(s: string): (k: nat)
    ensures k <= |s|
    ensures k < |s| ==> s[k] == '.'
    ensures forall i :: 0 <= i < k ==> s[i] != '.'
  {
    if s == [] then 0 else if s[0] == '.' then 0 else 1 + FindDot(s[1..])
  }

  function StripSign(s: string): string
  {
    if |s| > 0 && (s[0] == '+' || s[0] == '-') then s[1..] else s
  }

  /**
   * The accepted literals, described without reference to the parser: after
   * an optional sign, only digits and dots, at most one dot, some digit.
   */
  predicate IsLiteral(s: string)
  {
    var body := StripSign(s);
    && (forall i :: 0 <= i < |body| ==> IsDigit(body[i]) || body[i] == '.')
    && (forall i, j :: 0 <= i < j < |body| && body[i] == '.' ==> body[j] != '.')
    && (exists i :: 0 <= i < |body| && IsDigit(body[i]))
  }

  /** The digits behind the first dot, if there is one. */
  function Fraction(body: string, dot: nat): string
    requires dot <= |body|
  {
    if dot < |body| then body[dot + 1..] else []
  }

  /** Parses an unsigned literal: digits, an optional dot, digits. */
  function ParseUnsigned(body: string): (r: Option<Decimal>)
    ensures r.Some? ==> r.value.units >= 0
  {
    var dot := FindDot(body);
    var ip := body[..dot];
    var fp := Fraction(body, dot);
    if AllDigits(ip) && AllDigits(fp) && |ip| + |fp| > 0 then
      AllDigitsAppend(ip, fp);
      Some(Decimal(DigitsValue(ip + fp), |fp|))
    else None
  }

  /**
   * Parses a dot-decimal literal into its exact value: the digits before and
   * after the dot read as one integer, scaled by the number of fraction digits,
   * negated after a leading '-'. `None` stands for the `ValueError` that
   * `float` raises.
   */
  function Parse(s: string): (r: Option<Decimal>)
    ensures r.Some? && r.value.units < 0 ==> |s| > 0 && s[0] == '-'
  {
    match ParseUnsigned(StripSign(s))
    case None => None
    case Some(d) => Some(if |s| > 0 && s[0] == '-' then Decimal(-d.units, d.scale) else d)
  }

  /** Parse accepts exactly the literals of the grammar. */
  lemma ParseAcceptsLiterals(s: string)
    ensures Parse(s).Some? <==> IsLiteral(s)
  {
    var body := StripSign(s);
    var dot := FindDot(body);
    var ip := body[..dot];
    var fp := Fraction(body, dot);
    assert forall k :: dot < k < |body| ==> body[k] == fp[k - dot - 1];
    assert forall k :: 0 <= k < dot ==> body[k] == ip[k];
    if AllDigits(ip) && AllDigits(fp) && |ip| + |fp| > 0 {
      if |ip| > 0 {
        assert IsDigit(body[0]);
      } else {
        assert IsDigit(body[dot + 1]);
      }
    }
    if IsLiteral(s) {
      assert AllDigits(fp) by {
        forall k | 0 <= k < |fp| ensures IsDigit(fp[k]) {
          assert fp[k] == body[dot + 1 + k];
        }
      }
      var w :| 0 <= w < |body| && IsDigit(body[w]);
      assert w != dot;
    }
  }

  /** A leading '+' does not change the result. */
  lemma ParsePlusSign(s: string)
    requires |s| > 0 && s[0] != '+' && s[0] != '-'
    ensures Parse("+" + s) == Parse(s)
  {
    assert ("+" + s)[1..] == s;
  }

  /** A leading '-' negates the result and is otherwise rejected with it. */
  lemma ParseMinusSign(s: string)
    requires |s| > 0 && s[0] != '+' && s[0] != '-'
    ensures Parse("-" + s) == match Parse(s)
                              case None => None
                              case Some(d) => Some(Decimal(-d.units, d.scale))
  {
    assert ("-" + s)[1..] == s;
  }

  /** Nor does a leading zero: "05.49" is "5.49", and "0.5" is ".5". */
  lemma {:induction false} ParseLeadingZero(s: string)
    requires |s| > 0 && s[0] != '+' && s[0] != '-' && s != "."
    ensures Parse("0" + s) == Parse(s)
  {
    assert StripSign("0" + s) == "0" + s && StripSign(s) == s;
    UnsignedLeadingZero(s);
  }

  lemma {:induction false} UnsignedLeadingZero(s: string)
    requires |s| > 0 && s != "."
    ensures ParseUnsigned("0" + s) == ParseUnsigned(s)
  {
    var z := "0" + s;
    var dot := FindDot(s);
    var ip := s[..dot];
    var fp := Fraction(s, dot);
    assert FindDot(z) == dot + 1 by { assert z[1..] == s; }
    assert z[..dot + 1] == "0" + ip;
    assert Fraction(z, dot + 1) == fp;
    assert AllDigits("0" + ip) <==> AllDigits(ip) by {
      assert forall i :: 0 < i < |"0" + ip| ==> ("0" + ip)[i] == ip[i - 1];
    }
    if AllDigits(ip) && AllDigits(fp) {
      assert |ip| + |fp| > 0 by {
        if dot < |s| { assert s[dot] == '.'; } else { assert |ip| == |s|; }
      }
      DigitsLeadingZero(ip, fp);
    }
  }

  /** One leading zero digit does not change the value of a digit string. */
  lemma DigitsLeadingZero(ip: string, fp: string)
    requires AllDigits(ip) && AllDigits(fp)
    ensures AllDigits(ip + fp) && AllDigits(("0" + ip) + fp)
    ensures DigitsValue(("0" + ip) + fp) == DigitsValue(ip + fp)
  {
    AllDigitsAppend(ip, fp);
    assert ("0" + ip) + fp == Zeros(1) + (ip + fp);
    DigitsValueLeadingZeros(1, ip + fp);
  }

  /** A trailing dot without fraction digits does not change the result: "5." is "5". */
  lemma {:induction false} ParseTrailingDot(s: string)
    requires |s| > 0 && s[0] != '+' && s[0] != '-' && '.' !in s
    ensures Parse(s + ".") == Parse(s)
  {
    assert StripSign(s + ".") == s + "." && StripSign(s) == s;
    UnsignedTrailingDot(s);
  }

  lemma {:induction false} UnsignedTrailingDot(s: string)
    requires '.' !in s
    ensures ParseUnsigned(s + ".") == ParseUnsigned(s)
  {
    var t := s + ".";
    assert FindDot(s) == |s| by {
      assert forall i :: 0 <= i < |s| ==> s[i] in s;
    }
    assert FindDot(t) == |s| by {
      assert forall i :: 0 <= i < |s| ==> t[i] == s[i] && s[i] in s;
      assert t[|s|] == '.';
    }
    assert t[..|s|] == s && s[..|s|] == s;
    assert Fraction(t, |s|) == [] && Fraction(s, |s|) == [];
  }

  // ---------------------------------------------------------------------
  // Formatting, the inverse used to state what Parse computes.

  function DigitChar(d: nat): (c: char)
    requires d < 10
    ensures IsDigit(c) && c as int - '0' as int == d
  {
    ('0' as int + d) as char
  }

  /** The shortest decimal digit string of `n` ("0" for zero). */
  function NatDigits(n: nat): (s: string)
    ensures |s| > 0 && AllDigits(s)
    ensures DigitsValue(s) == n
  {
    var last := [DigitChar(n % 10)];
    if n < 10 then last
    else
      var prefix := NatDigits(n / 10);
      var s := prefix + last;
      assert s[..|s| - 1] == prefix;
      s
  }

  function Zeros(k: nat): (s: string)
    ensures |s| == k && AllDigits(s) && DigitsValue(s) == 0
  {
    if k == 0 then [] else
      var s := Zeros(k - 1) + "0";
      assert s[..|s| - 1] == Zeros(k - 1);
      s
  }

  /** Leading zeros do not change the value of a digit string. */
  lemma {:induction false} DigitsValueLeadingZeros(k: nat, s: string)
    requires AllDigits(s)
    ensures AllDigits(Zeros(k) + s) && DigitsValue(Zeros(k) + s) == DigitsValue(s)
    decreases |s|
  {
    var z := Zeros(k) + s;
    assert AllDigits(z) by {
      forall i | 0 <= i < |z| ensures IsDigit(z[i]) {
        if i < k { assert z[i] == Zeros(k)[i]; } else { assert z[i] == s[i - k]; }
      }
    }
    if s != [] {
      assert z[..|z| - 1] == Zeros(k) + s[..|s| - 1];
      assert z[|z| - 1] == s[|s| - 1];
      DigitsValueLeadingZeros(k, s[..|s| - 1]);
    } else {
      assert z == Zeros(k);
    }
  }

  /** The magnitude's digits, padded so that at least one precedes the dot. */
  function Padded(d: Decimal): (p: string)
    ensures |p| > d.scale && AllDigits(p)
    ensures DigitsValue(p) == if d.units < 0 then -d.units else d.units
  {
    var ds := NatDigits(if d.units < 0 then -d.units else d.units);
    if |ds| > d.scale then ds
    else
      DigitsValueLeadingZeros(d.scale + 1 - |ds|, ds);
      Zeros(d.scale + 1 - |ds|) + ds
  }

  /** A sign, integer digits and, when there are any, the separator and fraction digits. */
  function Layout(neg: bool, ip: string, fp: string, sep: char): string
  {
    (if neg then "-" else "") + (ip + (if |fp| > 0 then [sep] + fp else ""))
  }

  /** The character at each position of a layout. */
  lemma LayoutAt(neg: bool, ip: string, fp: string, sep: char, i: nat)
    requires i < |Layout(neg, ip, fp, sep)|
    ensures var n := if neg then 1 else 0;
            Layout(neg, ip, fp, sep)[i] ==
              if i < n then '-'
              else if i < n + |ip| then ip[i - n]
              else if i == n + |ip| then sep
              else fp[i - n - |ip| - 1]
  {
  }

  /**
   * Writes `d` with exactly `d.scale` fraction digits behind the separator
   * `sep`: `Format(Decimal(549, 2), ',')` is "5,49", the notation of the
   * raw sale-price column.
   */
  function Format(d: Decimal, sep: char): string
  {
    var p := Padded(d);
    Layout(d.units < 0, p[..|p| - d.scale], p[|p| - d.scale..], sep)
  }

  /** `d`, negated when `neg` holds. */
  function Signed(neg: bool, d: Decimal): Decimal
  {
    if neg then Decimal(-d.units, d.scale) else d
  }

  /** A sign, integer digits and optional fraction digits parse as expected. */
  lemma {:induction false} ParseShape(neg: bool, ip: string, fp: string)
    requires AllDigits(ip) && AllDigits(fp) && |ip| > 0
    ensures AllDigits(ip + fp)
    ensures Parse(Layout(neg, ip, fp, '.')) == Some(Signed(neg, Decimal(DigitsValue(ip + fp), |fp|)))
  {
    AllDigitsAppend(ip, fp);
    var tail := ip + (if |fp| > 0 then ['.'] + fp else "");
    var d := Decimal(DigitsValue(ip + fp), |fp|);
    assert ParseUnsigned(tail) == Some(d) by {
      ParseUnsignedShape(ip, fp);
    }
    assert IsDigit(tail[0]) by {
      assert tail[0] == ip[0];
    }
    ParseSigned(neg, tail, d);
  }

  lemma ParseSigned(neg: bool, tail: string, d: Decimal)
    requires |tail| > 0 && IsDigit(tail[0])
    requires ParseUnsigned(tail) == Some(d)
    ensures Parse((if neg then "-" else "") + tail) == Some(Signed(neg, d))
  {
    SignShape(neg, tail);
  }

  lemma SignShape(neg: bool, tail: string)
    requires |tail| > 0 && IsDigit(tail[0])
    ensures var s := (if neg then "-" else "") + tail;
            StripSign(s) == tail && (|s| > 0 && s[0] == '-' <==> neg)
  {
    var s := (if neg then "-" else "") + tail;
    if neg { assert s[1..] == tail; } else { assert s == tail; }
  }

  lemma {:induction false} ParseUnsignedShape(ip: string, fp: string)
    requires AllDigits(ip) && AllDigits(fp) && |ip| > 0
    requires AllDigits(ip + fp)
    ensures ParseUnsigned(ip + (if |fp| > 0 then ['.'] + fp else "")) == Some(Decimal(DigitsValue(ip + fp), |fp|))
  {
    var rest: string := if |fp| > 0 then ['.'] + fp else "";
    var tail := ip + rest;
    FindDotDigits(ip, rest);
    assert tail[..|ip|] == ip;
    assert Fraction(tail, |ip|) == fp;
  }

  lemma AllDigitsAppend(a: string, b: string)
    requires AllDigits(a) && AllDigits(b)
    ensures AllDigits(a + b)
  {
    forall i | 0 <= i < |a + b| ensures IsDigit((a + b)[i]) {
      if i < |a| { assert (a + b)[i] == a[i]; } else { assert (a + b)[i] == b[i - |a|]; }
    }
  }

  /** Every decimal written with a dot parses back to itself. */
  lemma FormatParse(d: Decimal)
    ensures Parse(Format(d, '.')) == Some(d)
  {
    var ip, fp := FormatPieces(d);
    ParseShape(d.units < 0, ip, fp);
    assert Signed(d.units < 0, Decimal(DigitsValue(ip + fp), |fp|)) == d;
  }

  /** Format lays out the sign, the integer digits and `d.scale` fraction digits of `d`. */
  lemma FormatPieces(d: Decimal) returns (ip: string, fp: string)
    ensures AllDigits(ip) && AllDigits(fp) && |ip| > 0 && |fp| == d.scale
    ensures AllDigits(ip + fp) && DigitsValue(ip + fp) == if d.units < 0 then -d.units else d.units
    ensures forall sep :: Format(d, sep) == Layout(d.units < 0, ip, fp, sep)
  {
    var p := Padded(d);
    ip := p[..|p| - d.scale];
    fp := p[|p| - d.scale..];
    assert ip + fp == p;
    assert AllDigits(ip) && AllDigits(fp) by {
      assert forall i :: 0 <= i < |ip| ==> ip[i] == p[i];
      assert forall i :: 0 <= i < |fp| ==> fp[i] == p[|p| - d.scale + i];
    }
  }

  lemma {:induction false} FindDotDigits(ds: string, rest: string)
    requires AllDigits(ds)
    requires rest == [] || rest[0] == '.'
    ensures FindDot(ds + rest) == |ds|
  {
    if ds != [] {
      assert (ds + rest)[1..] == ds[1..] + rest;
      FindDotDigits(ds[1..], rest);
    }
  }

  /**
   * The Brazilian notation with a decimal comma, after the comma is turned
   * into a dot, denotes exactly the decimal that was written.
   */
  lemma CommaFormatParse(d: Decimal)
    ensures ReplaceChar(Format(d, ','), ',', '.') == Format(d, '.')
    ensures Parse(ReplaceChar(Format(d, ','), ',', '.')) == Some(d)
  {
    var ip, fp := FormatPieces(d);
    ReplaceSeparator(d.units < 0, ip, fp);
    FormatParse(d);
  }

  /** Only the separator between the digit groups is a comma. */
  lemma ReplaceSeparator(neg: bool, ip: string, fp: string)
    requires AllDigits(ip) && AllDigits(fp)
    ensures ReplaceChar(Layout(neg, ip, fp, ','), ',', '.') == Layout(neg, ip, fp, '.')
  {
    var s := Layout(neg, ip, fp, ',');
    var t := Layout(neg, ip, fp, '.');
    var r := ReplaceChar(s, ',', '.');
    assert |s| == |t|;
    forall i | 0 <= i < |t| ensures r[i] == t[i] {
      LayoutAt(neg, ip, fp, ',', i);
      LayoutAt(neg, ip, fp, '.', i);
      var n := if neg then 1 else 0;
      if n <= i < n + |ip| {
        assert IsDigit(ip[i - n]);
      } else if i > n + |ip| {
        assert IsDigit(fp[i - n - |ip| - 1]);
      }
    }
  }

  /** The raw sale price "5,49" is exactly 549 hundredths. */
  lemma ParseExample()
    ensures Parse(ReplaceChar("5,49", ',', '.')) == Some(Decimal(549, 2))
    ensures Decimal(549, 2).Value() == 5.49
  {
    ReplaceExample();
    ParseDotExample();
  }

  lemma ParseDotExample()
    ensures Parse("5.49") == Some(Decimal(549, 2))
  {
    ParseShape(false, "5", "49");
    LayoutExample();
    DigitsExample();
  }

  lemma ReplaceExample()
    ensures ReplaceChar("5,49", ',', '.') == "5.49"
  {
    var t := ReplaceChar("5,49", ',', '.');
    assert |t| == 4 && t[0] == '5' && t[1] == '.' && t[2] == '4' && t[3] == '9';
  }

  lemma LayoutExample()
    ensures Layout(false, "5", "49", '.') == "5.49"
  {
    assert "" + ("5" + (['.'] + "49")) == "5.49";
  }

  lemma DigitsExample()
    ensures AllDigits("5" + "49") && DigitsValue("5" + "49") == 549
  {
    assert "5" + "49" == "549";
    assert "549"[..2] == "54";
    assert "54"[..1] == "5";
    assert "5"[..0] == "";
  }

}
