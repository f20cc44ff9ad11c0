/**
 * The text handling of a stat-card number: how animateNumber classifies the
 * label's text (currency, plain number, or anything else) and what the final
 * frame of animateCountUp writes back (the floored target, grouped with
 * en-US thousands separators, behind the "$" prefix for currency).
 *
 * parseFloat is modelled on non-negative decimal prefixes: leading white
 * space, then digits with at most one '.', or a '.' followed by digits.
 */
module StatNumber {
  import opened Wrappers

  /** ECMAScript WhiteSpace and LineTerminator: what trim() removes and parseFloat skips. */
  predicate IsJsSpace(c: char) {
    c == '\t' || c == '\n' || c == '\U{B}' || c == '\U{C}' || c == '\r' || c == ' '
    || c == '\U{A0}' || c == '\U{1680}' || ('\U{2000}' <= c <= '\U{200A}')
    || c == '\U{2028}' || c == '\U{2029}' || c == '\U{202F}' || c == '\U{205F}'
    || c == '\U{3000}' || c == '\U{FEFF}'
  }

  predicate IsDigit(c: char) {
    '0' <= c <= '9'
  }

  predicate AllDigits(s: string) {
    forall i :: 0 <= i < |s| ==> IsDigit(s[i])
  }

  // ---------------------------------------------------------------------
  // trim()
  // ---------------------------------------------------------------------

  /** How many white-space characters open s. */
  function LeadingSpaces(s: string): (k: nat)
    ensures k <= |s|
    ensures forall i :: 0 <= i < k ==> IsJsSpace(s[i])
    ensures k == |s| || !IsJsSpace(s[k])
  {
    if |s| == 0 || !IsJsSpace(s[0]) then 0 else 1 + LeadingSpaces(s[1..])
  }

  /** How many white-space characters close s. */
  function TrailingSpaces(s: string): (k: nat)
    ensures k <= |s|
    ensures forall i :: |s| - k <= i < |s| ==> IsJsSpace(s[i])
    ensures k == |s| || !IsJsSpace(s[|s| - 1 - k])
  {
    if |s| == 0 || !IsJsSpace(s[|s| - 1]) then 0 else 1 + TrailingSpaces(s[..|s| - 1])
  }

  /** String.prototype.trim: s without its leading and trailing white space. */
  function Trim(s: string): (r: string)
    ensures |r| <= |s|
    ensures r == [] || (!IsJsSpace(r[0]) && !IsJsSpace(r[|r| - 1]))
    ensures (s == [] || (!IsJsSpace(s[0]) && !IsJsSpace(s[|s| - 1]))) ==> r == s
    ensures (forall i :: 0 <= i < |s| ==> IsJsSpace(s[i])) ==> r == []
  {
    var t := s[LeadingSpaces(s)..];
    t[..|t| - TrailingSpaces(t)]
  }

  /** Trim keeps a slice of s and removes only white space: everything outside the slice is white space. */
  lemma {:induction false} TrimSlice(s: string)
    ensures exists i, j :: 0 <= i <= j <= |s| && Trim(s) == s[i..j]
              && forall k :: 0 <= k < |s| && !(i <= k < j) ==> IsJsSpace(s[k])
  {
    var i := LeadingSpaces(s);
    var t := s[i..];
    var j := i + |t| - TrailingSpaces(t);
    assert t[..|t| - TrailingSpaces(t)] == s[i..j];
    assert Trim(s) == s[i..j];
    forall k | j <= k < |s| ensures IsJsSpace(s[k]) {
      assert s[k] == t[k - i];
    }
  }

  /** A slice with no white space at its ends and only white space around it is what trim() keeps. */
  lemma {:induction false} TrimUnique(s: string, i: nat, j: nat)
    requires i <= j <= |s|
    requires forall k :: 0 <= k < |s| && !(i <= k < j) ==> IsJsSpace(s[k])
    requires i == j || (!IsJsSpace(s[i]) && !IsJsSpace(s[j - 1]))
    ensures Trim(s) == s[i..j]
  {
    if i == j {
      assert s[i..j] == [];
    } else {
      var a := LeadingSpaces(s);
      assert a < |s| ==> IsJsSpace(s[a]) || a >= i;
      assert a == i;
      var t := s[i..];
      var b := TrailingSpaces(t);
      assert t[j - 1 - i] == s[j - 1];
      assert b < |t| ==> t[|t| - 1 - b] == s[|s| - 1 - b];
      assert b == |s| - j;
      assert t[..|t| - b] == s[i..j];
    }
  }

  // ---------------------------------------------------------------------
  // replace(/[...]/g, '')
  // ---------------------------------------------------------------------

  /** s with every character of drop deleted, the others kept in order. */
  function RemoveChars(s: string, drop: set<char>): (r: string)
    ensures |r| <= |s|
  {
    if |s| == 0 then [] else (if s[0] in drop then [] else [s[0]]) + RemoveChars(s[1..], drop)
  }

  /** Nothing of drop is left, and every character that is left was in s. */
  lemma {:induction false} RemoveCharsDrops(s: string, drop: set<char>)
    ensures forall c :: c in RemoveChars(s, drop) <==> c in s && c !in drop
  {
    if |s| > 0 {
      RemoveCharsDrops(s[1..], drop);
      assert s == [s[0]] + s[1..];
    }
  }

  /** A string with nothing to delete is left as it is. */
  lemma {:induction false} RemoveCharsKeeps(s: string, drop: set<char>)
    requires forall i :: 0 <= i < |s| ==> s[i] !in drop
    ensures RemoveChars(s, drop) == s
  {
    if |s| > 0 {
      RemoveCharsKeeps(s[1..], drop);
      assert s == [s[0]] + s[1..];
    }
  }

  lemma {:induction false} RemoveCharsAppend(a: string, b: string, drop: set<char>)
    ensures RemoveChars(a + b, drop) == RemoveChars(a, drop) + RemoveChars(b, drop)
  {
    if |a| == 0 {
      assert a + b == b;
    } else {
      assert (a + b)[0] == a[0];
      assert (a + b)[1..] == a[1..] + b;
      RemoveCharsAppend(a[1..], b, drop);
    }
  }

  // ---------------------------------------------------------------------
  // parseFloat, on non-negative decimals
  // ---------------------------------------------------------------------

  /** A non-negative decimal as parseFloat reads it: integer digits and fraction digits. */
  datatype Decimal = Decimal(whole: nat, fraction: string)

  /** Math.floor of a non-negative decimal. */
  function Floor(d: Decimal): nat {
    d.whole
  }

  function Pow10(k: nat): (p: nat)
    ensures p >= 1
  {
    if k == 0 then 1 else 10 * Pow10(k - 1)
  }

  function DigitVal(c: char): nat
    requires IsDigit(c)
  {
    c as int - '0' as int
  }

  function DigitChar(d: nat): (c: char)
    requires d < 10
    ensures IsDigit(c) && DigitVal(c) == d
  {
    ('0' as int + d) as char
  }

  /** The value of a string of decimal digits, most significant first. */
  function DigitsValue(ds: string): nat
    requires AllDigits(ds)
  {
    if |ds| == 0 then 0 else 10 * DigitsValue(ds[..|ds| - 1]) + DigitVal(ds[|ds| - 1])
  }

  lemma {:induction false} DigitsValueAppend(a: string, b: string)
    requires AllDigits(a) && AllDigits(b)
    ensures AllDigits(a + b)
    ensures DigitsValue(a + b) == DigitsValue(a) * Pow10(|b|) + DigitsValue(b)
  {
    if |b| == 0 {
      assert a + b == a;
    } else {
      var b' := b[..|b| - 1];
      var ab := a + b;
      assert AllDigits(ab);
      assert ab[..|ab| - 1] == a + b';
      assert ab[|ab| - 1] == b[|b| - 1];
      DigitsValueAppend(a, b');
      var x, y, p, d := DigitsValue(a), DigitsValue(b'), Pow10(|b'|), DigitVal(b[|b| - 1]);
      assert DigitsValue(ab) == 10 * (x * p + y) + d;
      assert DigitsValue(b) == 10 * y + d;
      assert Pow10(|b|) == 10 * p;
      Regroup(x, p, y, d);
    }
  }

  lemma {:induction false} Regroup(x: int, p: int, y: int, d: int)
    ensures 10 * (x * p + y) + d == x * (10 * p) + (10 * y + d)
  {
    assert x * (10 * p) == 10 * (x * p);
  }

  /** How many decimal digits open s. */
  function DigitRun(s: string): (k: nat)
    ensures k <= |s|
    ensures AllDigits(s[..k])
    ensures k == |s| || !IsDigit(s[k])
  {
    if |s| == 0 || !IsDigit(s[0]) then 0
    else
      var k := 1 + DigitRun(s[1..]);
      assert s[..k] == [s[0]] + s[1..][..k - 1];
      k
  }

  /** Whether a decimal literal starts t: a digit, or a '.' followed by a digit. */
  predicate StartsNumeric(t: string) {
    (|t| > 0 && IsDigit(t[0])) || (|t| > 1 && t[0] == '.' && IsDigit(t[1]))
  }

  /**
   * parseFloat: skip leading white space, read the longest decimal prefix;
   * None stands for NaN (no digit where a number must start).
   */
  function ParseFloat(s: string): (r: Option<Decimal>)
    ensures r.Some? <==> StartsNumeric(s[LeadingSpaces(s)..])
  {
    var t := s[LeadingSpaces(s)..];
    var w := DigitRun(t);
    var frac := if w < |t| && t[w] == '.' then t[w + 1..][..DigitRun(t[w + 1..])] else "";
    if w == 0 && frac == "" then None
    else Some(Decimal(DigitsValue(t[..w]), frac))
  }

  lemma {:induction false} DigitRunOf(ds: string, rest: string)
    requires AllDigits(ds)
    requires rest == [] || !IsDigit(rest[0])
    ensures DigitRun(ds + rest) == |ds|
  {
    if |ds| == 0 {
      assert ds + rest == rest;
    } else {
      assert (ds + rest)[1..] == ds[1..] + rest;
      DigitRunOf(ds[1..], rest);
    }
  }

  /** A run of digits that nothing numeric continues parses to its own value. */
  lemma {:induction false} ParseDigits(ds: string, rest: string)
    requires |ds| > 0 && AllDigits(ds)
    requires rest == [] || (!IsDigit(rest[0]) && rest[0] != '.')
    ensures ParseFloat(ds + rest) == Some(Decimal(DigitsValue(ds), ""))
  {
    var s := ds + rest;
    assert LeadingSpaces(s) == 0 by { assert s[0] == ds[0]; }
    assert s[LeadingSpaces(s)..] == s;
    var w := DigitRun(s);
    DigitRunOf(ds, rest);
    assert s[..w] == ds;
  }

  /** White space followed by a non-space: the white space is all that opens the text. */
  lemma {:induction false} LeadingSpacesOf(ws: string, rest: string)
    requires forall i :: 0 <= i < |ws| ==> IsJsSpace(ws[i])
    requires rest == [] || !IsJsSpace(rest[0])
    ensures LeadingSpaces(ws + rest) == |ws|
  {
    if |ws| == 0 {
      assert ws + rest == rest;
    } else {
      assert (ws + rest)[0] == ws[0];
      assert (ws + rest)[1..] == ws[1..] + rest;
      LeadingSpacesOf(ws[1..], rest);
    }
  }

  /** parseFloat skips leading white space: the number read is the one that follows it. */
  lemma {:induction false} ParseSkipsSpace(ws: string, t: string)
    requires forall i :: 0 <= i < |ws| ==> IsJsSpace(ws[i])
    requires t == [] || !IsJsSpace(t[0])
    ensures ParseFloat(ws + t) == ParseFloat(t)
  {
    LeadingSpacesOf(ws, t);
    assert (ws + t)[|ws|..] == t;
    assert LeadingSpaces(t) == 0;
    assert t[0..] == t;
  }

  lemma {:induction false} WholeOfDigits(ds: string, rest: string)
    requires |ds| > 0 && AllDigits(ds)
    requires rest == [] || !IsDigit(rest[0])
    ensures ParseFloat(ds + rest).Some? && Floor(ParseFloat(ds + rest).value) == DigitsValue(ds)
  {
    var s := ds + rest;
    assert LeadingSpaces(s) == 0 by { assert s[0] == ds[0]; }
    assert s[LeadingSpaces(s)..] == s;
    DigitRunOf(ds, rest);
    assert s[..|ds|] == ds;
  }

  /**
   * After any leading white space, whatever follows a run of digits, if it
   * is not a digit, parseFloat's whole part is that run's value.
   */
  lemma {:induction false} ParseWhole(ws: string, ds: string, rest: string)
    requires forall i :: 0 <= i < |ws| ==> IsJsSpace(ws[i])
    requires |ds| > 0 && AllDigits(ds)
    requires rest == [] || !IsDigit(rest[0])
    ensures ParseFloat(ws + ds + rest).Some? && Floor(ParseFloat(ws + ds + rest).value) == DigitsValue(ds)
  {
    var t := ds + rest;
    assert ws + ds + rest == ws + t;
    assert ParseFloat(ws + t) == ParseFloat(t) by {
      assert t[0] == ds[0];
      ParseSkipsSpace(ws, t);
    }
    WholeOfDigits(ds, rest);
  }

  lemma {:induction false} FractionOfDigits(ds: string, rest: string)
    requires |ds| > 0 && AllDigits(ds)
    requires rest == [] || !IsDigit(rest[0])
    ensures ParseFloat("." + ds + rest) == Some(Decimal(0, ds))
  {
    var t := "." + ds + rest;
    assert LeadingSpaces(t) == 0;
    assert t[0..] == t;
    assert DigitRun(t) == 0;
    assert t[1..] == ds + rest;
    DigitRunOf(ds, rest);
    assert (ds + rest)[..|ds|] == ds;
    assert t[..0] == [];
  }

  /** After any leading white space, a '.' and digits parse to a fraction with whole part 0, so the floor is 0. */
  lemma {:induction false} ParseFraction(ws: string, ds: string, rest: string)
    requires forall i :: 0 <= i < |ws| ==> IsJsSpace(ws[i])
    requires |ds| > 0 && AllDigits(ds)
    requires rest == [] || !IsDigit(rest[0])
    ensures ParseFloat(ws + "." + ds + rest) == Some(Decimal(0, ds))
    ensures Floor(ParseFloat(ws + "." + ds + rest).value) == 0
  {
    assert ws + "." + ds + rest == ws + ("." + ds + rest);
    ParseSkipsSpace(ws, "." + ds + rest);
    FractionOfDigits(ds, rest);
  }

  /** A text that opens with '$' never parses: '$' is neither white space nor part of a number. */
  lemma {:induction false} DollarDoesNotParse(t: string)
    requires |t| > 0 && t[0] == '$'
    ensures ParseFloat(t) == None
  {
    assert LeadingSpaces(t) == 0;
    assert t[0..] == t;
  }

  // ---------------------------------------------------------------------
  // toLocaleString('en-US') of a non-negative integer
  // ---------------------------------------------------------------------

  /** The decimal numeral of n, without leading zeros. */
  function Digits(n: nat): (r: string)
    ensures |r| > 0 && AllDigits(r) && DigitsValue(r) == n
    ensures n == 0 ==> r == "0"
    ensures n > 0 ==> r[0] != '0'
  {
    if n < 10 then [DigitChar(n)]
    else
      var r := Digits(n / 10) + [DigitChar(n % 10)];
      assert r[..|r| - 1] == Digits(n / 10);
      r
  }

  /** A number below a thousand has at most three digits. */
  lemma {:induction false} DigitsShort(n: nat)
    requires n < 1000
    ensures |Digits(n)| <= 3
  {
    if n >= 10 {
      assert Digits(n) == Digits(n / 10) + [DigitChar(n % 10)];
      if n >= 100 {
        assert Digits(n / 10) == Digits(n / 10 / 10) + [DigitChar(n / 10 % 10)];
      }
    }
  }

  /** k < 1000 as exactly three digits, zero-padded: one group after a separator. */
  function Pad3(k: nat): (r: string)
    requires k < 1000
    ensures |r| == 3 && AllDigits(r) && DigitsValue(r) == k
  {
    var r := [DigitChar(k / 100), DigitChar(k / 10 % 10), DigitChar(k % 10)];
    assert r[..2][..1] == r[..1] && r[..1][..0] == [];
    assert DigitsValue(r[..1]) == k / 100;
    assert DigitsValue(r[..2]) == 10 * (k / 100) + k / 10 % 10;
    r
  }

  /** en-US grouping: the numeral of n with a ',' before every group of three digits. */
  function Group(n: nat): (r: string)
    ensures |r| > 0 && IsDigit(r[0]) && IsDigit(r[|r| - 1])
    ensures forall i :: 0 <= i < |r| ==> IsDigit(r[i]) || r[i] == ','
    ensures n == 0 ==> r == "0"
    ensures n > 0 ==> r[0] != '0'
    ensures ',' in r <==> n >= 1000
  {
    if n < 1000 then Digits(n)
    else
      var r := Group(n / 1000) + "," + Pad3(n % 1000);
      assert r[|Group(n / 1000)|] == ',';
      r
  }

  /** A ',' sits exactly at the places 4, 8, 12, ... counted from the right end (the last character is place 1). */
  predicate SeparatorsEvery4(r: string) {
    forall i :: 0 <= i < |r| ==> (r[i] == ',' <==> (|r| - i) % 4 == 0)
  }

  /** en-US grouping puts its separators every four places from the right: three digits, then a ','. */
  lemma {:induction false} GroupCommas(n: nat)
    ensures SeparatorsEvery4(Group(n))
  {
    if n < 1000 {
      DigitsShort(n);
      assert Group(n) == Digits(n);
    } else {
      GroupCommas(n / 1000);
      assert Group(n) == Group(n / 1000) + "," + Pad3(n % 1000);
      SeparatorJoin(Group(n / 1000), Pad3(n % 1000));
    }
  }

  /** One more separator and group of three digits keeps the separators every four places. */
  lemma {:induction false} SeparatorJoin(g: string, p: string)
    requires SeparatorsEvery4(g)
    requires |p| == 3 && AllDigits(p)
    ensures SeparatorsEvery4(g + "," + p)
  {
    var r := g + "," + p;
    forall i | 0 <= i < |r| ensures r[i] == ',' <==> (|r| - i) % 4 == 0 {
      if i < |g| {
        var m := |g| - i;
        assert r[i] == g[i] && |r| - i == m + 4;
        assert (m + 4) % 4 == m % 4;
      } else if i > |g| {
        assert r[i] == p[i - |g| - 1] && 1 <= |r| - i <= 3;
      }
    }
  }

  /**
   * Removing the separators (and any '$', which a grouped numeral lacks)
   * gives back the digits of n.
   */
  lemma {:induction false} GroupDigits(n: nat, drop: set<char>)
    requires ',' in drop
    requires forall c :: c in drop ==> !IsDigit(c)
    ensures var d := RemoveChars(Group(n), drop); |d| > 0 && AllDigits(d) && DigitsValue(d) == n
  {
    if n < 1000 {
      KeepsDigits(Digits(n), drop);
    } else {
      var q, k := n / 1000, n % 1000;
      var g, p := Group(q), Pad3(k);
      GroupDigits(q, drop);
      assert Group(n) == g + "," + p;
      StripJoin(g, p, drop);
      ValueJoin(RemoveChars(g, drop), p);
    }
  }

  /** Deleting the separators of g + "," + p, with p three digits, keeps p whole. */
  lemma {:induction false} StripJoin(g: string, p: string, drop: set<char>)
    requires ',' in drop
    requires forall c :: c in drop ==> !IsDigit(c)
    requires AllDigits(p)
    ensures RemoveChars(g + "," + p, drop) == RemoveChars(g, drop) + p
  {
    var dg := RemoveChars(g, drop);
    assert RemoveChars(g + ",", drop) == dg by {
      RemoveCharsAppend(g, ",", drop);
      assert RemoveChars(",", drop) == [] by {
        assert ","[1..] == [];
      }
      assert dg + [] == dg;
    }
    assert RemoveChars(p, drop) == p by {
      KeepsDigits(p, drop);
    }
    RemoveCharsAppend(g + ",", p, drop);
  }

  /** Appending a group of three digits multiplies the value by a thousand and adds the group. */
  lemma {:induction false} ValueJoin(d: string, p: string)
    requires AllDigits(d) && AllDigits(p) && |p| == 3
    ensures AllDigits(d + p) && DigitsValue(d + p) == DigitsValue(d) * 1000 + DigitsValue(p)
  {
    DigitsValueAppend(d, p);
    assert Pow10(3) == 1000;
  }

  /** Deleting non-digits leaves a string of digits as it is. */
  lemma {:induction false} KeepsDigits(s: string, drop: set<char>)
    requires AllDigits(s)
    requires forall c :: c in drop ==> !IsDigit(c)
    ensures RemoveChars(s, drop) == s
  {
    forall i | 0 <= i < |s| ensures s[i] !in drop {
      assert IsDigit(s[i]);
    }
    RemoveCharsKeeps(s, drop);
  }

  // ---------------------------------------------------------------------
  // animateNumber and the final frame of animateCountUp
  // ---------------------------------------------------------------------

  /** What animateNumber does with a label: start a count-up, or just show the trimmed text. */
  datatype Outcome =
    | CountUp(target: Decimal, prefix: string, isCurrency: bool)
    | Show(text: string)

  predicate StartsWithDollar(t: string) {
    |t| > 0 && t[0] == '$'
  }

  /**
   * animateNumber: a trimmed text opening with '$' whose '$'- and ','-free form
   * parses is currency; otherwise a text whose ','-free form parses is a plain
   * number; otherwise the trimmed text is shown as it is.
   */
  function AnimateNumber(content: string): (r: Outcome)
    ensures r.Show? <==> ParseFloat(RemoveChars(Trim(content), {','})).None?
                         && !(StartsWithDollar(Trim(content))
                              && ParseFloat(RemoveChars(Trim(content), {'$', ','})).Some?)
    ensures r.Show? ==> r.text == Trim(content)
    ensures r.CountUp? ==> (r.isCurrency <==> r.prefix == "$") && (r.isCurrency || r.prefix == "")
    ensures r.CountUp? && r.isCurrency ==> StartsWithDollar(Trim(content))
    ensures StartsWithDollar(Trim(content)) && ParseFloat(RemoveChars(Trim(content), {'$', ','})).Some? ==>
              r == CountUp(ParseFloat(RemoveChars(Trim(content), {'$', ','})).value, "$", true)
    ensures r.CountUp? && !r.isCurrency ==>
              ParseFloat(RemoveChars(Trim(content), {','})) == Some(r.target)
  {
    var text := Trim(content);
    var currency := ParseFloat(RemoveChars(text, {'$', ','}));
    var plain := ParseFloat(RemoveChars(text, {','}));
    if StartsWithDollar(text) && currency.Some? then CountUp(currency.value, "$", true)
    else if plain.Some? then CountUp(plain.value, "", false)
    else Show(text)
  }

  /**
   * A '$' text whose currency parse fails is never taken for a plain number:
   * the ','-free form still opens with '$'. It ends up shown as it is.
   */
  lemma {:induction false} DollarTextNeverPlain(content: string)
    requires StartsWithDollar(Trim(content))
    ensures AnimateNumber(content).Show? || AnimateNumber(content).isCurrency
  {
    var text := Trim(content);
    assert RemoveChars(text, {','}) == [text[0]] + RemoveChars(text[1..], {','});
    DollarDoesNotParse(RemoveChars(text, {','}));
  }

  /**
   * The text the final frame of animateCountUp writes: the floored target,
   * grouped, behind the prefix for currency. ReadsPlain and ReadsCurrency
   * show that animateNumber reads it back as the same count-up.
   */
  function FinalFrame(target: Decimal, prefix: string, isCurrency: bool): (r: string)
    ensures |r| > 0 && IsDigit(r[|r| - 1])
    ensures !isCurrency || prefix == "$" ==> IsDigit(r[0]) || r[0] == '$'
    ensures !isCurrency || prefix == "$" ==> !IsJsSpace(r[0]) && !IsJsSpace(r[|r| - 1])
  {
    var g := Group(Floor(target));
    DigitNotSpace(g[0]);
    DigitNotSpace(g[|g| - 1]);
    if isCurrency then prefix + g else g
  }

  /** The text a stat label settles on once animateNumber and its count-up have finished. */
  function SettledText(content: string): (r: string)
    ensures r == [] || (!IsJsSpace(r[0]) && !IsJsSpace(r[|r| - 1]))
  {
    match AnimateNumber(content)
    case CountUp(target, prefix, isCurrency) => FinalFrame(target, prefix, isCurrency)
    case Show(text) => text
  }

  /** A grouped number behind a prefix that does not open with white space is already trimmed. */
  lemma GroupTrimmed(pre: string, n: nat)
    requires pre == [] || !IsJsSpace(pre[0])
    ensures Trim(pre + Group(n)) == pre + Group(n)
  {
    var g := Group(n);
    var c := pre + g;
    DigitNotSpace(g[0]);
    DigitNotSpace(g[|g| - 1]);
    assert c[0] == if pre == [] then g[0] else pre[0];
    assert c[|c| - 1] == g[|g| - 1];
  }

  /** A canonically grouped number is read back as a plain number of the same value. */
  lemma {:induction false} ReadsPlain(n: nat)
    ensures AnimateNumber(Group(n)) == CountUp(Decimal(n, ""), "", false)
  {
    var g := Group(n);
    assert Trim(g) == g && !StartsWithDollar(g) by {
      assert [] + g == g;
      GroupTrimmed([], n);
    }
    assert ParseFloat(RemoveChars(g, {','})) == Some(Decimal(n, "")) by {
      GroupDigits(n, {','});
      var d := RemoveChars(g, {','});
      assert d + [] == d;
      ParseDigits(d, []);
    }
  }

  /** Deleting '$' and ',' from "$" and a grouped number leaves its digits, which parse to it. */
  lemma {:induction false} CurrencyParse(n: nat)
    ensures ParseFloat(RemoveChars("$" + Group(n), {'$', ','})) == Some(Decimal(n, ""))
  {
    var g := Group(n);
    assert forall ch :: ch in {'$', ','} ==> !IsDigit(ch);
    GroupDigits(n, {'$', ','});
    RemoveCharsAppend("$", g, {'$', ','});
    assert RemoveChars("$", {'$', ','}) == [] by {
      assert "$"[1..] == [];
    }
    var d := RemoveChars(g, {'$', ','});
    assert RemoveChars("$" + g, {'$', ','}) == d;
    assert d + [] == d;
    ParseDigits(d, []);
    assert ParseFloat(d) == Some(Decimal(n, ""));
  }

  /** "$" and a canonically grouped number is read back as currency of the same value. */
  lemma {:induction false} ReadsCurrency(n: nat)
    ensures AnimateNumber("$" + Group(n)) == CountUp(Decimal(n, ""), "$", true)
  {
    var c := "$" + Group(n);
    assert Trim(c) == c && StartsWithDollar(c) by {
      GroupTrimmed("$", n);
    }
    assert ParseFloat(RemoveChars(c, {'$', ','})) == Some(Decimal(n, "")) by {
      CurrencyParse(n);
    }
    assert AnimateNumber(c) == CountUp(Decimal(n, ""), "$", true);
  }

  /** Canonically grouped numbers, with or without '$', come back unchanged. */
  lemma {:induction false} RoundTrip(n: nat)
    ensures SettledText(Group(n)) == Group(n)
    ensures SettledText("$" + Group(n)) == "$" + Group(n)
  {
    ReadsPlain(n);
    ReadsCurrency(n);
  }

  /** animateNumber reads every final frame back as a count-up to the floored target, with the same currency choice. */
  lemma {:induction false} FinalFrameReadsBack(target: Decimal, isCurrency: bool)
    ensures var prefix := if isCurrency then "$" else "";
            AnimateNumber(FinalFrame(target, prefix, isCurrency)) == CountUp(Decimal(Floor(target), ""), prefix, isCurrency)
  {
    ReadsPlain(Floor(target));
    ReadsCurrency(Floor(target));
  }

  /**
   * A label's text is left as it is exactly when it is already trimmed and
   * non-numeric, or it is a canonically grouped number with or without '$'.
   */
  lemma {:induction false} SettledFixedPoint(t: string)
    ensures SettledText(t) == t <==>
              (t == Trim(t) && AnimateNumber(t).Show?)
              || exists n: nat :: t == Group(n) || t == "$" + Group(n)
  {
    if exists n: nat :: t == Group(n) || t == "$" + Group(n) {
      var n: nat :| t == Group(n) || t == "$" + Group(n);
      RoundTrip(n);
    }
    if SettledText(t) == t {
      match AnimateNumber(t)
      case CountUp(target, prefix, isCurrency) =>
        var n := Floor(target);
        assert t == Group(n) || t == "$" + Group(n);
      case Show(text) =>
    }
  }

  /** Only the trimmed text matters: a label settles where its trimmed text does. */
  lemma {:induction false} SettledTrim(s: string)
    ensures SettledText(s) == SettledText(Trim(s))
  {
    assert Trim(Trim(s)) == Trim(s);
    assert AnimateNumber(Trim(s)) == AnimateNumber(s);
  }

  /** Animating a label twice settles on the same text as animating it once. */
  lemma {:induction false} SettledIdempotent(t: string)
    ensures SettledText(SettledText(t)) == SettledText(t)
  {
    match AnimateNumber(t)
    case CountUp(target, prefix, isCurrency) =>
      RoundTrip(Floor(target));
    case Show(text) =>
      assert Trim(text) == text;
  }

  /** "$12,345" counts up to exactly "$12,345". */
  lemma ExampleCurrency()
    ensures SettledText("$12,345") == "$12,345"
  {
    GroupExample();
    assert "$" + Group(12345) == "$12,345";
    RoundTrip(12345);
  }

  lemma GroupExample()
    ensures Group(12345) == "12,345"
  {
    assert Group(12) == "12" by {
      assert Digits(1) == "1";
    }
    assert Pad3(345) == "345";
    assert Group(12345) == Group(12) + "," + Pad3(345);
  }

  /** Deleting '$' and ',' from "$ " and a grouped number leaves a space and its digits; parseFloat skips the space. */
  lemma {:induction false} SpacedCurrencyParse(n: nat)
    ensures ParseFloat(RemoveChars("$ " + Group(n), {'$', ','})) == Some(Decimal(n, ""))
  {
    var g := Group(n);
    var drop := {'$', ','};
    var d := RemoveChars(g, drop);
    StripSpacedDollar(g, drop);
    assert forall ch :: ch in drop ==> !IsDigit(ch);
    GroupDigits(n, drop);
    ParseSpacedDigits(d);
  }

  /** A space and a run of digits parse to the value of the digits. */
  lemma ParseSpacedDigits(d: string)
    requires |d| > 0 && AllDigits(d)
    ensures ParseFloat(" " + d) == Some(Decimal(DigitsValue(d), ""))
  {
    DigitNotSpace(d[0]);
    ParseSkipsSpace(" ", d);
    assert d + [] == d;
    ParseDigits(d, []);
  }

  lemma DigitNotSpace(c: char)
    requires IsDigit(c)
    ensures !IsJsSpace(c)
  {
  }

  /** Deleting '$' and ',' from "$ " and g leaves the space and what is left of g. */
  lemma StripSpacedDollar(g: string, drop: set<char>)
    requires drop == {'$', ','}
    ensures RemoveChars("$ " + g, drop) == " " + RemoveChars(g, drop)
  {
    RemoveCharsAppend("$ ", g, drop);
    assert "$ "[1..] == " " && " "[1..] == [];
  }

  /** "$ " and a grouped number is read as currency: it settles on "$" and the grouped number, the space gone. */
  lemma {:induction false} ReadsSpacedCurrency(n: nat)
    ensures SettledText("$ " + Group(n)) == "$" + Group(n)
  {
    var c := "$ " + Group(n);
    assert Trim(c) == c && StartsWithDollar(c) by {
      GroupTrimmed("$ ", n);
    }
    assert ParseFloat(RemoveChars(c, {'$', ','})) == Some(Decimal(n, "")) by {
      SpacedCurrencyParse(n);
    }
    assert AnimateNumber(c) == CountUp(Decimal(n, ""), "$", true);
  }

  /** "42" counts up to exactly "42". */
  lemma ExamplePlain()
    ensures SettledText("42") == "42"
  {
    assert Digits(42) == "42";
    assert Group(42) == "42";
    RoundTrip(42);
  }

  /**
   * A plain text made of digits and a non-numeric, comma-free tail settles
   * on the grouped value of the digits: the tail (a fraction, a unit, a '%',
   * trailing white space) is dropped.
   */
  lemma {:induction false} SettledPlain(ds: string, rest: string)
    requires |ds| > 0 && AllDigits(ds)
    requires rest == [] || !IsDigit(rest[0])
    requires forall i :: 0 <= i < |rest| ==> rest[i] != ','
    ensures SettledText(ds + rest) == Group(DigitsValue(ds))
  {
    var kept := rest[..|rest| - TrailingSpaces(rest)];
    TrimPlain(ds, rest);
    SettledTrim(ds + rest);
    assert forall i :: 0 <= i < |kept| ==> kept[i] != ',';
    SettledPlainTrimmed(ds, kept);
  }

  /** Trimming digits and a tail drops only the white space that ends the tail. */
  lemma {:induction false} TrimPlain(ds: string, rest: string)
    requires |ds| > 0 && AllDigits(ds)
    ensures var kept := rest[..|rest| - TrailingSpaces(rest)];
            Trim(ds + rest) == ds + kept && (kept == [] || !IsJsSpace(kept[|kept| - 1]))
  {
    var k := |rest| - TrailingSpaces(rest);
    var s := ds + rest;
    assert s[..|ds| + k] == ds + rest[..k];
    forall i | 0 <= i < |s| && !(0 <= i < |ds| + k) ensures IsJsSpace(s[i]) {
      assert s[i] == rest[i - |ds|];
    }
    assert s[0] == ds[0];
    assert s[|ds| + k - 1] == if k == 0 then ds[|ds| - 1] else rest[k - 1];
    TrimUnique(s, 0, |ds| + k);
  }

  /** SettledPlain for a tail that does not end in white space. */
  lemma {:induction false} SettledPlainTrimmed(ds: string, rest: string)
    requires |ds| > 0 && AllDigits(ds)
    requires rest == [] || (!IsDigit(rest[0]) && !IsJsSpace(rest[|rest| - 1]))
    requires forall i :: 0 <= i < |rest| ==> rest[i] != ','
    ensures SettledText(ds + rest) == Group(DigitsValue(ds))
  {
    PlainTrimmed(ds, rest);
    PlainCommaFree(ds, rest);
    WholeOfDigits(ds, rest);
  }

  lemma {:induction false} PlainTrimmed(ds: string, rest: string)
    requires |ds| > 0 && AllDigits(ds)
    requires rest == [] || !IsJsSpace(rest[|rest| - 1])
    ensures Trim(ds + rest) == ds + rest && !StartsWithDollar(ds + rest)
  {
    var t := ds + rest;
    assert t[0] == ds[0];
    assert t[|t| - 1] == if rest == [] then ds[|ds| - 1] else rest[|rest| - 1];
  }

  lemma {:induction false} PlainCommaFree(ds: string, rest: string)
    requires AllDigits(ds)
    requires forall i :: 0 <= i < |rest| ==> rest[i] != ','
    ensures RemoveChars(ds + rest, {','}) == ds + rest
  {
    var t := ds + rest;
    forall i | 0 <= i < |t| ensures t[i] !in {','} {
      if i < |ds| {
        assert t[i] == ds[i] && IsDigit(ds[i]);
      } else {
        assert t[i] == rest[i - |ds|];
      }
    }
    RemoveCharsKeeps(t, {','});
  }

  /** "4.5" settles on "4": the target is floored. */
  lemma ExampleFraction()
    ensures SettledText("4.5") == "4"
  {
    assert "4" + ".5" == "4.5";
    SettledPlainTrimmed("4", ".5");
    assert DigitsValue("4") == 4;
    assert Group(4) == "4";
  }

  /** "42%" settles on "42": parseFloat reads only the numeric prefix. */
  lemma ExampleSuffix()
    ensures SettledText("42%") == "42"
  {
    assert "42" + "%" == "42%";
    SettledPlainTrimmed("42", "%");
    assert "42"[..1] == "4";
    assert DigitsValue("42") == 42;
    assert Digits(42) == "42";
    assert Group(42) == "42";
  }

  /**
   * A label whose trimmed text opens with anything but a digit, '.', '$' or
   * ',' is not a number: it is shown trimmed.
   */
  lemma {:induction false} SettledWord(t: string)
    requires |Trim(t)| > 0
    requires var c := Trim(t)[0]; !IsDigit(c) && c != '.' && c != '$' && c != ','
    ensures SettledText(t) == Trim(t)
  {
    var text := Trim(t);
    var plain := RemoveChars(text, {','});
    assert plain == [text[0]] + RemoveChars(text[1..], {','});
    assert LeadingSpaces(plain) == 0;
    assert plain[0..] == plain;
    assert ParseFloat(plain) == None;
  }

  /** "  N/A " is not a number: it is shown trimmed, as "N/A". */
  lemma ExampleText()
    ensures SettledText("  N/A ") == "N/A"
  {
    var t := "  N/A ";
    TrimUnique(t, 2, 5);
    assert t[2..5] == "N/A";
    SettledWord(t);
  }
}
