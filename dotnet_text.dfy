/**
 * The two .NET string services the scoreboard state relies on:
 * `String.Trim()` (which removes `char.IsWhiteSpace` characters from both
 * ends) and `int.TryParse(s, out i)` under the default `NumberStyles.Integer`.
 */
module DotNetText {
  import opened Wrappers

  const MinInt32: int := -0x8000_0000
  const MaxInt32: int := 0x7FFF_FFFF

  /** `char.IsWhiteSpace`: the characters `String.Trim()` removes. */
  predicate IsWhiteSpace(c: char) {
    ('\U{9}' <= c <= '\U{D}') || c == ' ' || c == '\U{85}' || c == '\U{A0}' || c == '\U{1680}'
    || ('\U{2000}' <= c <= '\U{200A}') || c == '\U{2028}' || c == '\U{2029}'
    || c == '\U{202F}' || c == '\U{205F}' || c == '\U{3000}'
  }

  /** The white space that `NumberStyles.AllowLeadingWhite` and `AllowTrailingWhite` skip. */
  predicate IsNumberWhite(c: char) {
    ('\U{9}' <= c <= '\U{D}') || c == ' '
  }

  /** `int.TryParse` reads ASCII digits only. */
  predicate IsDigit(c: char) {
    '0' <= c <= '9'
  }

  /** The character classes the two services scan for. */
  datatype CharClass = WhiteSpace | NumberWhite | Digit

  predicate In(c: char, k: CharClass) {
    match k
    case WhiteSpace => IsWhiteSpace(c)
    case NumberWhite => IsNumberWhite(c)
    case Digit => IsDigit(c)
  }

  predicate All(s: string, p: CharClass) {
    forall i :: 0 <= i < |s| ==> In(s[i], p)
  }

  /** Length of the longest prefix of `s` whose characters all satisfy `p`. */
  function PrefixWhile(s: string, p: CharClass): (n: nat)
    ensures n <= |s|
    ensures All(s[..n], p)
    ensures n < |s| ==> !In(s[n], p)
  {
    if s == [] || !In(s[0], p) then 0
    else
      var m := PrefixWhile(s[1..], p);
      assert s[..m + 1] == [s[0]] + s[1..][..m];
      m + 1
  }

  /** Length of the longest suffix of `s` whose characters all satisfy `p`. */
  function SuffixWhile(s: string, p: CharClass): (n: nat)
    ensures n <= |s|
    ensures All(s[|s| - n..], p)
    ensures n < |s| ==> !In(s[|s| - n - 1], p)
  {
    if s == [] || !In(s[|s| - 1], p) then 0
    else
      var init := s[..|s| - 1];
      var m := SuffixWhile(init, p);
      assert s[|s| - (m + 1)..] == init[|init| - m..] + [s[|s| - 1]];
      m + 1
  }

  lemma {:induction false} PrefixWhileOfConcat(x: string, y: string, p: CharClass)
    requires All(x, p)
    requires y == [] || !In(y[0], p)
    ensures PrefixWhile(x + y, p) == |x|
  {
    if x != [] {
      assert (x + y)[1..] == x[1..] + y;
      PrefixWhileOfConcat(x[1..], y, p);
    }
  }

  /** A string with no white space at either end. */
  predicate IsTrimmed(s: string) {
    s == [] || (!IsWhiteSpace(s[0]) && !IsWhiteSpace(s[|s| - 1]))
  }

  /**
   * `String.Trim()`. The result is trimmed, empty exactly when `s` is all
   * white space, and is the part of `s` that follows its leading white space,
   * with only white space after it.
   */
  function Trim(s: string): (r: string)
    ensures IsTrimmed(r)
    ensures r == [] <==> All(s, WhiteSpace)
    ensures var a := PrefixWhile(s, WhiteSpace);
            a + |r| <= |s| && r == s[a..a + |r|] && All(s[a + |r|..], WhiteSpace)
  {
    var a := PrefixWhile(s, WhiteSpace);
    var b := SuffixWhile(s[a..], WhiteSpace);
    TrimEnds(s, a, b);
    TrimmedSuffix(s, a, b);
    TrimBlank(s, a, b);
    s[a..|s| - b]
  }

  lemma TrimEnds(s: string, a: nat, b: nat)
    requires a + b <= |s|
    requires a < |s| ==> !IsWhiteSpace(s[a])
    requires a + b < |s| ==> !IsWhiteSpace(s[|s| - b - 1])
    ensures IsTrimmed(s[a..|s| - b])
  {
  }

  lemma TrimmedSuffix(s: string, a: nat, b: nat)
    requires a <= |s| && b == SuffixWhile(s[a..], WhiteSpace)
    ensures a + b <= |s| && All(s[|s| - b..], WhiteSpace)
  {
    assert s[|s| - b..] == s[a..][|s| - a - b..];
  }

  lemma TrimBlank(s: string, a: nat, b: nat)
    requires a == PrefixWhile(s, WhiteSpace) && b == SuffixWhile(s[a..], WhiteSpace)
    ensures a + b == |s| <==> All(s, WhiteSpace)
  {
    if a + b == |s| {
      assert s[a..] == s[a..][|s[a..]| - b..];
      assert a == |s|;
      forall i | 0 <= i < |s| ensures In(s[i], WhiteSpace) { assert s[..a][i] == s[i]; }
    }
  }

  lemma {:induction false} SuffixWhileOfConcat(x: string, y: string, p: CharClass)
    requires All(y, p)
    requires x == [] || !In(x[|x| - 1], p)
    ensures SuffixWhile(x + y, p) == |y|
  {
    if y != [] {
      var init := y[..|y| - 1];
      assert (x + y)[..|x + y| - 1] == x + init;
      SuffixWhileOfConcat(x, init, p);
    }
  }

  /** Trimming removes exactly the white space around a trimmed middle part. */
  lemma {:induction false} TrimUnique(lead: string, mid: string, trail: string)
    requires All(lead, WhiteSpace) && All(trail, WhiteSpace) && IsTrimmed(mid)
    ensures Trim(lead + mid + trail) == mid
  {
    var s := lead + mid + trail;
    if mid == [] {
      assert s == lead + trail;
      assert All(s, WhiteSpace) by {
        forall i | 0 <= i < |s| ensures IsWhiteSpace(s[i]) {
          if i < |lead| { assert s[i] == lead[i]; } else { assert s[i] == trail[i - |lead|]; }
        }
      }
    } else {
      assert s == lead + (mid + trail);
      PrefixWhileOfConcat(lead, mid + trail, WhiteSpace);
      assert s[|lead|..] == mid + trail;
      SuffixWhileOfConcat(mid, trail, WhiteSpace);
      assert (mid + trail)[..|mid|] == mid;
    }
  }

  /** A string with no white space at either end is its own trim. */
  lemma TrimOfTrimmed(s: string)
    requires IsTrimmed(s)
    ensures Trim(s) == s
  {
    TrimUnique("", s, "");
    assert "" + s + "" == s;
  }

  lemma TrimIdempotent(s: string)
    ensures Trim(Trim(s)) == Trim(s)
  {
    TrimOfTrimmed(Trim(s));
  }

  /** The parts of an integer as `NumberStyles.Integer` reads them. */
  datatype IntegerText = IntegerText(lead: string, sign: string, digits: string, trail: string)

  predicate WellFormed(t: IntegerText) {
    All(t.lead, NumberWhite)
    && (t.sign == "" || t.sign == "+" || t.sign == "-")
    && |t.digits| > 0 && All(t.digits, Digit)
    && All(t.trail, NumberWhite)
  }

  function Text(t: IntegerText): string {
    t.lead + t.sign + t.digits + t.trail
  }

  /** The value of a run of decimal digits, most significant first. */
  function DigitsValue(ds: string): nat
    requires All(ds, Digit)
  {
    if ds == [] then 0
    else DigitsValue(ds[..|ds| - 1]) * 10 + (ds[|ds| - 1] as int - '0' as int)
  }

  function Value(t: IntegerText): int
    requires All(t.digits, Digit)
  {
    if t.sign == "-" then -(DigitsValue(t.digits) as int) else DigitsValue(t.digits)
  }

  /** Splits `s` into leading white space, sign, digits and trailing white space, if it has that shape. */
  function Scan(s: string): (r: Option<IntegerText>)
    ensures r.Some? ==> WellFormed(r.value) && Text(r.value) == s
  {
    var a := PrefixWhile(s, NumberWhite);
    assert s[..a] + s[a..] == s;
    ScanSign(s[..a], s[a..])
  }

  /** The rest of `Scan` once the leading white space `lead` is split off. */
  function ScanSign(lead: string, rest: string): (r: Option<IntegerText>)
    requires All(lead, NumberWhite)
    ensures r.Some? ==> WellFormed(r.value) && Text(r.value) == lead + rest
  {
    if rest != [] && (rest[0] == '+' || rest[0] == '-') then
      assert rest[..1] + rest[1..] == rest;
      assert lead + rest[..1] + rest[1..] == lead + rest;
      ScanDigits(lead, rest[..1], rest[1..])
    else
      assert lead + "" == lead;
      ScanDigits(lead, "", rest)
  }

  /** The rest of `Scan` once the white space and the sign are split off. */
  function ScanDigits(lead: string, sign: string, u: string): (r: Option<IntegerText>)
    requires All(lead, NumberWhite) && (sign == "" || sign == "+" || sign == "-")
    ensures r.Some? ==> WellFormed(r.value) && Text(r.value) == lead + sign + u
  {
    var d := PrefixWhile(u, Digit);
    if d > 0 && All(u[d..], NumberWhite) then
      assert u[..d] + u[d..] == u;
      assert lead + sign + u[..d] + u[d..] == lead + sign + u;
      Some(IntegerText(lead, sign, u[..d], u[d..]))
    else None
  }

  /**
   * `int.TryParse(s, out i)` under `NumberStyles.Integer`: succeeds exactly
   * for optional white space, an optional `+` or `-`, one or more digits and
   * optional white space, whose value fits in 32 bits.
   */
  function TryParseInt32(s: string): (r: Option<int>)
    ensures r.Some? ==> exists t :: WellFormed(t) && Text(t) == s && Value(t) == r.value
    ensures r.Some? ==> MinInt32 <= r.value <= MaxInt32
  {
    match Scan(s)
    case None => None
    case Some(t) => if MinInt32 <= Value(t) <= MaxInt32 then Some(Value(t)) else None
  }

  /** Every well-formed integer text is read back into its own parts. */
  lemma ScanComplete(t: IntegerText)
    requires WellFormed(t)
    ensures Scan(Text(t)) == Some(t)
  {
    var s := Text(t);
    var rest := t.sign + t.digits + t.trail;
    assert s == t.lead + rest;
    assert rest[0] == if t.sign == [] then t.digits[0] else t.sign[0];
    PrefixWhileOfConcat(t.lead, rest, NumberWhite);
    assert s[..|t.lead|] == t.lead && s[|t.lead|..] == rest;
    ScanSignComplete(t);
  }

  lemma ScanSignComplete(t: IntegerText)
    requires WellFormed(t)
    ensures ScanSign(t.lead, t.sign + t.digits + t.trail) == Some(t)
  {
    var rest := t.sign + t.digits + t.trail;
    if t.sign == [] {
      assert rest == t.digits + t.trail;
      assert rest[0] == t.digits[0];
    } else {
      assert rest[..1] == t.sign;
      assert rest[1..] == t.digits + t.trail;
    }
    ScanDigitsComplete(t);
  }

  lemma ScanDigitsComplete(t: IntegerText)
    requires WellFormed(t)
    ensures ScanDigits(t.lead, t.sign, t.digits + t.trail) == Some(t)
  {
    var u := t.digits + t.trail;
    assert t.trail == [] || !In(t.trail[0], Digit) by {
      assert t.trail != [] ==> In(t.trail[0], NumberWhite);
    }
    PrefixWhileOfConcat(t.digits, t.trail, Digit);
    assert u[..|t.digits|] == t.digits && u[|t.digits|..] == t.trail;
  }

  /** The converse of `TryParseInt32`'s contract: every well-formed text within range parses to its value. */
  lemma TryParseComplete(t: IntegerText)
    requires WellFormed(t)
    ensures TryParseInt32(Text(t)) == if MinInt32 <= Value(t) <= MaxInt32 then Some(Value(t)) else None
  {
    ScanComplete(t);
  }

  /** A blank string (in the sense of `String.Trim()`) never parses: a number needs a digit. */
  lemma WhiteSpaceNotParsable(s: string)
    requires All(s, WhiteSpace)
    ensures TryParseInt32(s) == None
  {
    if Scan(s).Some? {
      ScannedHasDigit(s);
      assert false;
    }
  }

  /** Text that `Scan` accepts holds a digit, which is not white space. */
  lemma ScannedHasDigit(s: string)
    requires Scan(s).Some?
    ensures !All(s, WhiteSpace)
  {
    var t := Scan(s).value;
    var i := |t.lead| + |t.sign|;
    assert s[i] == t.digits[0];
    assert In(t.digits[0], Digit);
    assert !In(s[i], WhiteSpace);
  }

  lemma ZeroParses()
    ensures TryParseInt32("0") == Some(0)
  {
    var t := IntegerText("", "", "0", "");
    assert Text(t) == "0";
    assert DigitsValue("0") == 0 by { assert "0"[..0] == ""; }
    TryParseComplete(t);
  }
}
