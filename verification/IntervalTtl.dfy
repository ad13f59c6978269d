/**
 The expiry that the engine reads off an interval name such as "7d"
 (src/qmtl/sdk/execution/local.py:130-141).
 */
module IntervalTtl {
  import opened Outcomes

  predicate IsDigit(c: char) {
    '0' <= c <= '9'
  }

  predicate IsSpace(c: char) {
    c == ' ' || 9 <= c as int <= 13
  }

  function StripLeft(s: string): string {
    if s != "" && IsSpace(s[0]) then StripLeft(s[1..]) else s
  }

  function StripRight(s: string): string {
    if s != "" && IsSpace(s[|s| - 1]) then StripRight(s[..|s| - 1]) else s
  }

  /** Digits, with at most one underscore between two of them. */
  function ParseDigits(s: string): Option<nat> {
    if s == "" || !IsDigit(s[|s| - 1]) then None
    else
      var front, digit := s[..|s| - 1], s[|s| - 1] as int - '0' as int;
      if front == "" then Some(digit)
      else
        var parsed := ParseDigits(if front[|front| - 1] == '_' then front[..|front| - 1] else front);
        if parsed.Some? then Some(10 * parsed.value + digit) else None
  }

  /** Python's `int(s)` on ASCII text: space around it, a sign, digits. */
  function ParseInt(s: string): Option<int> {
    var t := StripRight(StripLeft(s));
    if t != "" && (t[0] == '-' || t[0] == '+') then
      var parsed := ParseDigits(t[1..]);
      if parsed.None? then None else Some((if t[0] == '-' then -1 else 1) * parsed.value)
    else
      var parsed := ParseDigits(t);
      if parsed.None? then None else Some(parsed.value)
  }

  function UnitSeconds(unit: char): Option<int> {
    match unit
    case 'd' => Some(86400)
    case 'h' => Some(3600)
    case 'm' => Some(60)
    case _ => None
  }

  /** The number before the last character times the unit, if both can be read. */
  function InferTtl(interval: string): Option<int> {
    if interval == "" then None
    else
      var value, unit := ParseInt(interval[..|interval| - 1]), UnitSeconds(interval[|interval| - 1]);
      if value.Some? && unit.Some? then Some(value.value * unit.value) else None
  }

  // ------------------------------------------------------------- what it reads back

  function Decimal(n: nat): string {
    var last := [('0' as int + n % 10) as char];
    if n < 10 then last else Decimal(n / 10) + last
  }

  lemma {:induction false} DecimalParses(n: nat)
    ensures Decimal(n) != "" && forall c :: c in Decimal(n) ==> IsDigit(c)
    ensures ParseDigits(Decimal(n)) == Some(n)
  {
    if n >= 10 {
      DecimalParses(n / 10);
      var s, front := Decimal(n), Decimal(n / 10);
      assert s[..|s| - 1] == front;
      assert front[|front| - 1] in front;
    }
  }

  lemma NothingToStrip(s: string)
    requires s != "" && !IsSpace(s[0]) && !IsSpace(s[|s| - 1])
    ensures StripRight(StripLeft(s)) == s
  {
  }

  /** A sign in front of the number is read, */
  lemma SignedDecimal(n: nat, sign: char)
    requires sign == '-' || sign == '+'
    ensures ParseInt([sign] + Decimal(n)) == Some(if sign == '-' then 0 - n else n)
  {
    DecimalParses(n);
    var s := Decimal(n);
    var t := [sign] + s;
    assert s[|s| - 1] in s && t[|t| - 1] == s[|s| - 1];
    NothingToStrip(t);
    assert t[1..] == s;
  }

  /** and space around it is not. */
  lemma SpacedDecimal(n: nat, space: char)
    requires space == ' ' || 9 <= space as int <= 13
    ensures ParseInt([space] + Decimal(n) + [space]) == Some(n)
  {
    DecimalParses(n);
    var s := Decimal(n);
    assert s[0] in s && s[|s| - 1] in s;
    var wide := [space] + s + [space];
    assert wide[1..] == s + [space] && (s + [space])[..|s|] == s;
    assert StripLeft(wide) == s + [space];
    assert StripRight(s + [space]) == s;
  }

  /** Digits all through, except for single underscores between two of them. */
  ghost predicate DigitText(s: string) {
    && s != "" && '0' <= s[0] <= '9' && '0' <= s[|s| - 1] <= '9'
    && (forall i :: 0 <= i < |s| ==> '0' <= s[i] <= '9' || s[i] == '_')
    && (forall i :: 0 < i < |s| ==> s[i] != '_' || s[i - 1] != '_')
  }

  lemma DigitTextShrinks(s: string)
    requires |s| > 1 && IsDigit(s[|s| - 1])
    ensures var front := s[..|s| - 1];
            DigitText(s) <==> DigitText(if front[|front| - 1] == '_' then front[..|front| - 1] else front)
  {
    var front := s[..|s| - 1];
    var rest := if front[|front| - 1] == '_' then front[..|front| - 1] else front;
    if DigitText(s) {
      assert s[0] != '_' && (|s| > 2 ==> s[|s| - 2] != '_' || s[|s| - 3] != '_');
      assert forall i :: 0 <= i < |rest| ==> rest[i] == s[i];
    }
    if DigitText(rest) {
      assert forall i :: 0 <= i < |rest| ==> rest[i] == s[i];
    }
  }

  /** The decimal value of the digits in `s`. */
  ghost function Horner(s: string): nat {
    if s == "" then 0
    else
      var last := s[|s| - 1];
      if '0' <= last <= '9' then 10 * Horner(s[..|s| - 1]) + (last as int - '0' as int) else Horner(s[..|s| - 1])
  }

  lemma {:induction false} DigitsExact(s: string)
    ensures ParseDigits(s).Some? <==> DigitText(s)
    ensures ParseDigits(s).Some? ==> ParseDigits(s).value == Horner(s)
    decreases |s|
  {
    if |s| > 1 && IsDigit(s[|s| - 1]) {
      DigitTextShrinks(s);
      var front := s[..|s| - 1];
      DigitsExact(if front[|front| - 1] == '_' then front[..|front| - 1] else front);
    }
  }

  /** A count written in decimal with a unit behind it is read as that many days, hours or minutes. */
  lemma InferredFromDecimal(n: nat, unit: char)
    ensures InferTtl(Decimal(n) + [unit]) ==
            match unit
            case 'd' => Some(n * 24 * 60 * 60)
            case 'h' => Some(n * 60 * 60)
            case 'm' => Some(n * 60)
            case _ => None
  {
    DecimalParses(n);
    var s := Decimal(n);
    assert s[0] in s && s[|s| - 1] in s;
    assert StripRight(StripLeft(s)) == s;
    assert (s + [unit])[..|s|] == s;
  }
}
