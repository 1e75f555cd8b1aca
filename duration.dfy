/**
 * `parse_duration` and `format_duration` of the admin handlers.
 *
 * `parse_duration` walks the text one character at a time, collecting digits
 * in `current_num` and, on a unit letter (s, m, h, d in either case), adding
 * the collected number times the unit to `total_seconds`.  `ParseDuration`
 * is that loop; `Scan` is the same walk as a function over a prefix of the
 * text, and `Parsed` is the function the loop computes.  `FormatDuration` is
 * the inverse direction, and `ParseFormatRoundTrip` connects the two.
 */
module Duration {
  import opened Wrappers
  import opened Text

  const SecondsPerMinute: nat := 60
  const SecondsPerHour: nat := 3600
  const SecondsPerDay: nat := 86400

  /** The unit letters `parse_duration` understands, after `char.lower()`. */
  predicate IsUnit(c: char) {
    var l := Lower(c);
    l == 's' || l == 'm' || l == 'h' || l == 'd'
  }

  function UnitSeconds(c: char): (k: nat)
    requires IsUnit(c)
    ensures k > 0
  {
    match Lower(c)
    case 's' => 1
    case 'm' => SecondsPerMinute
    case 'h' => SecondsPerHour
    case _ => SecondsPerDay
  }

  lemma UnitIsNotDigit(c: char)
    requires IsUnit(c)
    ensures !IsDigit(c)
  {
  }

  // ---------------------------------------------------------------------------
  // The scan as a function
  // ---------------------------------------------------------------------------

  /** The loop's variables: `total_seconds`, `current_num` and `found_units`. */
  datatype ScanState = ScanState(total: nat, pending: Digits, found: bool)

  const Start := ScanState(0, "", false)

  /** One iteration of the loop body on character `c`. */
  function Step(st: ScanState, c: char): ScanState {
    if IsDigit(c) then
      st.(pending := st.pending + [c])
    else if st.pending == [] then
      st
    else if IsUnit(c) then
      ScanState(st.total + DecimalValue(st.pending) * UnitSeconds(c), "", true)
    else
      st.(pending := "")
  }

  /** The loop run from state `st` over all of `s`. */
  function ScanFrom(st: ScanState, s: string): ScanState {
    if s == [] then st else Step(ScanFrom(st, s[..|s| - 1]), s[|s| - 1])
  }

  function Scan(s: string): ScanState {
    ScanFrom(Start, s)
  }

  /** What `parse_duration` returns: `None` for empty text, for text with no unit, or for a zero total. */
  function Parsed(s: string): Option<nat> {
    if s == [] then None
    else
      var st := Scan(s);
      if st.found && st.total > 0 then Some(st.total) else None
  }

  // ---------------------------------------------------------------------------
  // The loop
  // ---------------------------------------------------------------------------

  /** `parse_duration(time_str)`. */
  method ParseDuration(timeStr: string) returns (r: Option<int>)
    ensures r == (match Parsed(timeStr) case None => None case Some(n) => Some(n as int))
    ensures r.Some? ==> r.value > 0
  {
    if timeStr == [] {
      return None;
    }
    var totalSeconds: nat := 0;
    var currentNum: Digits := "";
    var foundUnits := false;
    for i := 0 to |timeStr|
      invariant ScanState(totalSeconds, currentNum, foundUnits) == Scan(timeStr[..i])
    {
      assert timeStr[..i + 1][..i] == timeStr[..i];
      var c := timeStr[i];
      if IsDigit(c) {
        currentNum := currentNum + [c];
      } else {
        if currentNum == [] {
          continue;
        }
        var num := DecimalValue(currentNum);
        var unit := Lower(c);
        if unit == 's' {
          totalSeconds := totalSeconds + num;
          foundUnits := true;
        } else if unit == 'm' {
          totalSeconds := totalSeconds + num * 60;
          foundUnits := true;
        } else if unit == 'h' {
          totalSeconds := totalSeconds + num * 3600;
          foundUnits := true;
        } else if unit == 'd' {
          totalSeconds := totalSeconds + num * 86400;
          foundUnits := true;
        }
        currentNum := "";
      }
    }
    assert timeStr[..|timeStr|] == timeStr;
    if foundUnits {
      if totalSeconds > 0 {
        return Some(totalSeconds);
      }
      return None;
    }
    return None;
  }

  // ---------------------------------------------------------------------------
  // What the scan computes
  // ---------------------------------------------------------------------------

  /** The longest run of digits at the end of `s`. */
  function TrailingDigits(s: string): (r: Digits)
    ensures |r| <= |s|
  {
    if s == [] || !IsDigit(s[|s| - 1]) then "" else TrailingDigits(s[..|s| - 1]) + [s[|s| - 1]]
  }

  /** Some unit letter in `s` directly follows a digit. */
  ghost predicate UnitAfterDigit(s: string) {
    exists i :: 0 < i < |s| && IsDigit(s[i - 1]) && IsUnit(s[i])
  }

  /** After any prefix, `current_num` holds exactly the digits at its end. */
  lemma {:induction false} ScanPending(s: string)
    ensures Scan(s).pending == TrailingDigits(s)
  {
    if s != [] {
      ScanPending(s[..|s| - 1]);
    }
  }

  lemma UnitAfterDigitSnoc(p: string, c: char)
    ensures UnitAfterDigit(p + [c]) <==> UnitAfterDigit(p) || (|p| > 0 && IsDigit(p[|p| - 1]) && IsUnit(c))
  {
    var s := p + [c];
    if UnitAfterDigit(p) {
      var i :| 0 < i < |p| && IsDigit(p[i - 1]) && IsUnit(p[i]);
      assert s[i - 1] == p[i - 1] && s[i] == p[i];
    }
    if UnitAfterDigit(s) {
      var i :| 0 < i < |s| && IsDigit(s[i - 1]) && IsUnit(s[i]);
      if i < |p| {
        assert p[i - 1] == s[i - 1] && p[i] == s[i];
      }
    }
    if |p| > 0 && IsDigit(p[|p| - 1]) && IsUnit(c) {
      assert IsDigit(s[|s| - 2]) && IsUnit(s[|s| - 1]);
    }
  }

  /** `found_units` is set exactly when a unit letter has followed a digit. */
  lemma {:induction false} ScanFound(s: string)
    ensures Scan(s).found <==> UnitAfterDigit(s)
  {
    if s != [] {
      var p, c := s[..|s| - 1], s[|s| - 1];
      ScanFound(p);
      ScanPending(p);
      assert s == p + [c];
      UnitAfterDigitSnoc(p, c);
      if IsUnit(c) {
        UnitIsNotDigit(c);
      }
    }
  }

  /**
   * After any prefix, `current_num` holds exactly the digits at its end, and
   * `found_units` is set exactly when a unit letter has followed a digit.
   */
  lemma ScanShape(s: string)
    ensures Scan(s).pending == TrailingDigits(s)
    ensures Scan(s).found <==> UnitAfterDigit(s)
  {
    ScanPending(s);
    ScanFound(s);
  }

  /**
   * `parse_duration` gives `None` exactly for empty text, for text in which no
   * unit letter follows a digit (a bare number such as "90", or "5x"), and for
   * a zero total such as "0s"; otherwise a positive number of seconds.
   */
  lemma ParsedNoneCases(s: string)
    ensures Parsed(s).None? <==> s == [] || !UnitAfterDigit(s) || Scan(s).total == 0
    ensures Parsed(s).Some? ==> Parsed(s).value > 0
  {
    ScanShape(s);
  }

  /** A bare number never parses. */
  lemma BareNumberIsNone(s: string)
    requires AllDigits(s)
    ensures Parsed(s) == None
  {
    ScanShape(s);
    if UnitAfterDigit(s) {
      var i :| 0 < i < |s| && IsDigit(s[i - 1]) && IsUnit(s[i]);
      UnitIsNotDigit(s[i]);
    }
  }

  // ---------------------------------------------------------------------------
  // Texts made of <digits><unit> tokens
  // ---------------------------------------------------------------------------

  /** A unit letter, in either case. */
  type UnitChar = c: char | IsUnit(c) witness 's'

  datatype Token = Token(digits: Digits, unit: UnitChar)

  predicate ValidToken(t: Token) {
    t.digits != []
  }

  predicate ValidTokens(ts: seq<Token>) {
    forall t :: t in ts ==> ValidToken(t)
  }

  function TokenText(t: Token): string {
    t.digits + [t.unit]
  }

  function Texts(ts: seq<Token>): (r: seq<string>)
    ensures |r| == |ts|
  {
    if ts == [] then [] else [TokenText(ts[0])] + Texts(ts[1..])
  }

  /** The tokens written out one after the other, `sep` between neighbours. */
  function TokensText(ts: seq<Token>, sep: string): string {
    Join(Texts(ts), sep)
  }

  /** What the tokens stand for: each number times its unit, added up. */
  function TokensTotal(ts: seq<Token>): nat {
    if ts == [] then 0 else DecimalValue(ts[0].digits) * UnitSeconds(ts[0].unit) + TokensTotal(ts[1..])
  }

  lemma {:induction false} ScanFromAppend(st: ScanState, a: string, b: string)
    ensures ScanFrom(st, a + b) == ScanFrom(ScanFrom(st, a), b)
  {
    if b == [] {
      assert a + b == a;
    } else {
      var b', c := b[..|b| - 1], b[|b| - 1];
      assert (a + b)[..|a + b| - 1] == a + b';
      ScanFromAppend(st, a, b');
    }
  }

  /** Digits only extend `current_num`. */
  lemma {:induction false} ScanDigits(st: ScanState, ds: Digits)
    ensures ScanFrom(st, ds) == st.(pending := st.pending + ds)
  {
    if ds == [] {
      assert st.pending + ds == st.pending;
    } else {
      var p: Digits := ds[..|ds| - 1];
      ScanDigits(st, p);
      assert st.pending + p + [ds[|ds| - 1]] == st.pending + ds;
    }
  }

  /** With no pending digits, a digit-free separator is skipped entirely. */
  lemma {:induction false} ScanSkipsSeparator(st: ScanState, sep: string)
    requires st.pending == [] && NoDigits(sep)
    ensures ScanFrom(st, sep) == st
  {
    if sep != [] {
      ScanSkipsSeparator(st, sep[..|sep| - 1]);
    }
  }

  lemma ScanToken(st: ScanState, t: Token)
    requires st.pending == [] && ValidToken(t)
    ensures ScanFrom(st, TokenText(t)) == ScanState(st.total + DecimalValue(t.digits) * UnitSeconds(t.unit), "", true)
  {
    ScanDigits(st, t.digits);
    assert st.pending + t.digits == t.digits;
    UnitIsNotDigit(t.unit);
    assert TokenText(t)[..|TokenText(t)| - 1] == t.digits;
  }

  /** Scanning a run of tokens adds up their values and leaves nothing pending. */
  lemma {:induction false} ScanTokens(st: ScanState, ts: seq<Token>, sep: string)
    requires st.pending == [] && NoDigits(sep) && ValidTokens(ts)
    ensures ScanFrom(st, TokensText(ts, sep)) == ScanState(st.total + TokensTotal(ts), "", st.found || ts != [])
    decreases ts
  {
    if ts == [] {
    } else if |ts| == 1 {
      assert ValidToken(ts[0]);
      ScanToken(st, ts[0]);
      assert TokensText(ts, sep) == TokenText(ts[0]);
      assert TokensTotal(ts[1..]) == 0;
    } else {
      var head := TokenText(ts[0]);
      assert ValidToken(ts[0]);
      ScanToken(st, ts[0]);
      var st1 := ScanFrom(st, head);
      assert TokensText(ts, sep) == head + sep + TokensText(ts[1..], sep);
      ScanFromAppend(st, head + sep, TokensText(ts[1..], sep));
      ScanFromAppend(st, head, sep);
      ScanSkipsSeparator(st1, sep);
      ScanTokens(st1, ts[1..], sep);
    }
  }

  /**
   * A text of one or more `<digits><unit>` tokens, with any digit-free
   * separator between them (nothing, or a space), parses to the sum of the
   * tokens, units read case-insensitively; a zero sum gives `None`.
   */
  lemma ParseTokens(ts: seq<Token>, sep: string)
    requires ts != [] && NoDigits(sep) && ValidTokens(ts)
    ensures Parsed(TokensText(ts, sep)) == if TokensTotal(ts) > 0 then Some(TokensTotal(ts)) else None
  {
    ScanTokens(Start, ts, sep);
    assert TokensText(ts, sep) != [] by {
      assert Texts(ts)[0] == TokenText(ts[0]);
      JoinStartsWithFirst(Texts(ts), sep);
    }
  }

  lemma JoinStartsWithFirst(parts: seq<string>, sep: string)
    requires parts != []
    ensures |Join(parts, sep)| >= |parts[0]|
  {
  }

  /** Trailing digits with no unit after them add nothing. */
  lemma TrailingDigitsDropped(s: string, ds: Digits)
    requires ds != [] && Scan(s).pending == []
    ensures Parsed(s + ds) == if s != [] && Scan(s).found && Scan(s).total > 0 then Some(Scan(s).total) else None
  {
    ScanFromAppend(Start, s, ds);
    ScanDigits(Scan(s), ds);
  }

  lemma TokensTextOne(t: Token, sep: string)
    ensures TokensText([t], sep) == TokenText(t)
  {
  }

  lemma TokensTextTwo(t: Token, u: Token)
    ensures TokensText([t, u], "") == TokenText(t) + TokenText(u)
  {
    var p := Texts([t, u]);
    assert [t, u][1..] == [u];
    assert [u][1..] == [];
    assert Texts([u]) == [TokenText(u)];
    assert p == [TokenText(t), TokenText(u)];
    assert p[1..] == [TokenText(u)];
    assert Join(p, "") == p[0] + "" + Join(p[1..], "");
    assert TokenText(t) + "" + TokenText(u) == TokenText(t) + TokenText(u);
  }

  /** A single token parses to its number times its unit. */
  lemma ParseOneToken(t: Token)
    requires ValidToken(t) && DecimalValue(t.digits) > 0
    ensures Parsed(TokenText(t)) == Some(DecimalValue(t.digits) * UnitSeconds(t.unit))
  {
    ParseTokens([t], "");
    TokensTextOne(t, "");
    assert [t][1..] == [];
  }

  /** Text without upper-case letters is unchanged by `lower()`. */
  lemma LowerKeepsLowercase(s: string)
    requires forall i :: 0 <= i < |s| ==> !('A' <= s[i] <= 'Z')
    ensures LowerString(s) == s
  {
  }

  /** "30s" from the bot's usage text, after `lower()`. */
  lemma ParseThirtySeconds()
    ensures Parsed(LowerString("30s")) == Some(30)
  {
    LowerKeepsLowercase("30s");
    assert DecimalValue("30") == 30 by {
      assert "30"[..1] == "3";
      assert "3"[..0] == "";
    }
    ParseOneToken(Token("30", 's'));
    assert TokenText(Token("30", 's')) == "30s";
  }

  /** "5m" from the bot's usage text, after `lower()`. */
  lemma ParseFiveMinutes()
    ensures Parsed(LowerString("5m")) == Some(300)
  {
    LowerKeepsLowercase("5m");
    assert DecimalValue("5") == 5 by {
      assert "5"[..0] == "";
    }
    ParseOneToken(Token("5", 'm'));
    assert TokenText(Token("5", 'm')) == "5m";
  }

  /** "2h" from the bot's usage text, after `lower()`. */
  lemma ParseTwoHours()
    ensures Parsed(LowerString("2h")) == Some(7200)
  {
    LowerKeepsLowercase("2h");
    assert DecimalValue("2") == 2 by {
      assert "2"[..0] == "";
    }
    ParseOneToken(Token("2", 'h'));
    assert TokenText(Token("2", 'h')) == "2h";
  }

  /** A day and twelve hours, written with the given day and hour letters. */
  lemma DayAndHalf(d: UnitChar, h: UnitChar)
    requires UnitSeconds(d) == 86400 && UnitSeconds(h) == 3600
    ensures Parsed(['1', d, '1', '2', h]) == Some(129600)
  {
    var one, twelve := Token("1", d), Token("12", h);
    ParseTokens([one, twelve], "");
    TokensTextTwo(one, twelve);
    assert TokenText(one) + TokenText(twelve) == ['1', d, '1', '2', h];
    assert DecimalValue("12") == 12 by {
      assert "12"[..1] == "1";
      assert "1"[..0] == "";
    }
    assert DecimalValue("1") == 1 by {
      assert "1"[..0] == "";
    }
    assert [one, twelve][1..] == [twelve];
    assert [twelve][1..] == [];
    assert TokensTotal([twelve]) == 43200;
  }

  /** "1d12h" (from the bot's usage text) is a day and a half; units may be upper case. */
  lemma ParseDayAndHalf()
    ensures Parsed("1d12h") == Some(129600)
    ensures Parsed("1D12H") == Some(129600)
  {
    DayAndHalf('d', 'h');
    DayAndHalf('D', 'H');
  }

  /** "90" has no unit and "0s" adds up to nothing: both are `None`. */
  lemma ParseRejectsExamples()
    ensures Parsed("") == None
    ensures Parsed("90") == None
    ensures Parsed("0s") == None
  {
    BareNumberIsNone("90");
    var zero := Token("0", 's');
    ParseTokens([zero], "");
    TokensTextOne(zero, "");
    assert TokenText(zero) == "0s";
  }

  /** A number followed by an unknown unit letter is discarded: nothing is added and nothing is found. */
  lemma UnknownUnitDiscards(st: ScanState, ds: Digits, c: char)
    requires st.pending == [] && ds != [] && !IsDigit(c) && !IsUnit(c)
    ensures ScanFrom(st, ds + [c]) == st
  {
    ScanDigits(st, ds);
    assert st.pending + ds == ds;
    assert (ds + [c])[..|ds + [c]| - 1] == ds;
  }

  lemma UnknownUnitResets()
    ensures Scan("5x") == Start
  {
    assert !IsUnit('x') by {
      assert Lower('x') == 'x';
    }
    UnknownUnitDiscards(Start, "5", 'x');
    assert "5" + ['x'] == "5x";
  }

  /** So "5x" is `None`, not 0, and "5x3s" is 3. */
  lemma UnknownUnitExamples()
    ensures Parsed("5x") == None
    ensures Parsed("5x3s") == Some(3)
  {
    UnknownUnitResets();
    ScanFromAppend(Start, "5x", "3s");
    assert "5x" + "3s" == "5x3s";
    ScanToken(Start, Token("3", 's'));
    assert TokenText(Token("3", 's')) == "3s";
    assert DecimalValue("3") == 3 by {
      assert "3"[..0] == "";
    }
  }

  // ---------------------------------------------------------------------------
  // format_duration
  // ---------------------------------------------------------------------------

  datatype Breakdown = Breakdown(days: int, hours: nat, minutes: nat, seconds: nat)

  /** The days, hours, minutes and seconds `format_duration` computes (floor division by positive divisors). */
  function Components(n: int): Breakdown {
    Breakdown(n / SecondsPerDay, (n % SecondsPerDay) / SecondsPerHour, (n % SecondsPerHour) / SecondsPerMinute, n % SecondsPerMinute)
  }

  /** The part for one component: present only when the component is positive. */
  function Part(v: int, unit: UnitChar): seq<Token> {
    if v > 0 then [Token(NatToString(v), unit)] else []
  }

  /** The `parts` list: the non-zero components, largest unit first, and "0s" if none is. */
  function FormatTokens(n: int): seq<Token> {
    var b := Components(n);
    var parts := Part(b.days, 'd') + Part(b.hours, 'h') + Part(b.minutes, 'm');
    parts + (if b.seconds > 0 || parts == [] then [Token(NatToString(b.seconds), 's')] else [])
  }

  /**
   * `format_duration(seconds)`: "permanently" for `None`; otherwise the
   * space-separated parts, which for n >= 0 are at least one well-formed
   * token and together stand for exactly n seconds.
   */
  function FormatDuration(seconds: Option<int>): (r: string)
    ensures seconds.None? ==> r == "permanently"
    ensures seconds.Some? && seconds.value >= 0 ==>
      r == TokensText(FormatTokens(seconds.value), " ") &&
      FormatTokens(seconds.value) != [] && ValidTokens(FormatTokens(seconds.value)) &&
      TokensTotal(FormatTokens(seconds.value)) == seconds.value
  {
    match seconds
    case None => "permanently"
    case Some(n) =>
      var text := TokensText(FormatTokens(n), " ");
      if n < 0 then text else FormatTokensTotal(n); text
  }

  /** The hours' remainder: taking the remainder by a day first does not change the remainder by an hour. */
  lemma HourRemainder(n: nat)
    ensures (n % 86400) % 3600 == n % 3600
  {
    var q, rd := n / 86400, n % 86400;
    var h := rd / 3600;
    assert n == 3600 * (24 * q + h) + rd % 3600;
  }

  /** The minutes' remainder: taking the remainder by an hour first does not change the remainder by a minute. */
  lemma MinuteRemainder(n: nat)
    ensures (n % 3600) % 60 == n % 60
  {
    var q, rh := n / 3600, n % 3600;
    var m := rh / 60;
    assert n == 60 * (60 * q + m) + rh % 60;
  }

  /** For n >= 0 the components are in range and add back up to n. */
  lemma ComponentsDecompose(n: nat)
    ensures var b := Components(n);
      b.days >= 0 && b.hours < 24 && b.minutes < 60 && b.seconds < 60 &&
      b.days * SecondsPerDay + b.hours * SecondsPerHour + b.minutes * SecondsPerMinute + b.seconds == n
  {
    var b := Components(n);
    var rd, rh := n % 86400, n % 3600;
    HourRemainder(n);
    MinuteRemainder(n);
    assert n == b.days * 86400 + rd;
    assert rd == b.hours * 3600 + rh && b.hours < 24;
    assert rh == b.minutes * 60 + b.seconds && b.minutes < 60;
  }

  function UnitRank(c: char): nat {
    if c == 'd' then 3 else if c == 'h' then 2 else if c == 'm' then 1 else 0
  }

  /** Units strictly from larger to smaller. */
  predicate UnitsDescending(ts: seq<Token>) {
    forall i, j :: 0 <= i < j < |ts| ==> UnitRank(ts[i].unit) > UnitRank(ts[j].unit)
  }

  predicate RanksBelow(ts: seq<Token>, r: nat) {
    forall t :: t in ts ==> UnitRank(t.unit) < r
  }

  predicate AllNonZero(ts: seq<Token>) {
    forall t :: t in ts ==> DecimalValue(t.digits) > 0
  }

  lemma {:induction false} TokensTotalAppend(a: seq<Token>, b: seq<Token>)
    ensures TokensTotal(a + b) == TokensTotal(a) + TokensTotal(b)
  {
    if a != [] {
      assert (a + b)[1..] == a[1..] + b;
      TokensTotalAppend(a[1..], b);
    } else {
      assert a + b == b;
    }
  }

  lemma PartMeaning(v: int, unit: UnitChar)
    ensures ValidTokens(Part(v, unit)) && AllNonZero(Part(v, unit))
    ensures TokensTotal(Part(v, unit)) == if v > 0 then v * UnitSeconds(unit) else 0
  {
    if v > 0 {
      DecimalValueOfNatToString(v);
    }
  }

  lemma PrependPart(v: int, unit: UnitChar, rest: seq<Token>)
    requires UnitsDescending(rest) && RanksBelow(rest, UnitRank(unit))
    ensures UnitsDescending(Part(v, unit) + rest) && RanksBelow(Part(v, unit) + rest, UnitRank(unit) + 1)
  {
    if v <= 0 {
      assert Part(v, unit) + rest == rest;
    } else {
      var ts := Part(v, unit) + rest;
      forall i, j | 0 <= i < j < |ts| ensures UnitRank(ts[i].unit) > UnitRank(ts[j].unit) {
        assert ts[j] == rest[j - 1];
        if i > 0 {
          assert ts[i] == rest[i - 1];
        }
      }
    }
  }

  lemma TokensTotalOfFour(a: seq<Token>, b: seq<Token>, c: seq<Token>, d: seq<Token>)
    ensures TokensTotal(a + b + c + d) == TokensTotal(a) + TokensTotal(b) + TokensTotal(c) + TokensTotal(d)
  {
    TokensTotalAppend(a, b);
    TokensTotalAppend(a + b, c);
    TokensTotalAppend(a + b + c, d);
  }

  /** The parts of `format_duration` as four pieces, one per unit. */
  lemma FormatTokensPieces(n: nat)
    ensures var b := Components(n);
      FormatTokens(n) == Part(b.days, 'd') + Part(b.hours, 'h') + Part(b.minutes, 'm') +
        (if b.seconds > 0 || Part(b.days, 'd') + Part(b.hours, 'h') + Part(b.minutes, 'm') == [] then [Token(NatToString(b.seconds), 's')] else [])
  {
  }

  /** The seconds piece: "<s>s" when present, standing for `s` seconds. */
  lemma SecondsPiece(v: nat, present: bool)
    requires v > 0 ==> present
    ensures var ps := if present then [Token(NatToString(v), 's')] else [];
      ValidTokens(ps) && TokensTotal(ps) == v
  {
    DecimalValueOfNatToString(v);
  }

  /** Parts for any days, hours, minutes and seconds stand for the weighted sum. */
  lemma PartsTotal(d: nat, h: nat, m: nat, sec: nat, present: bool)
    requires sec > 0 ==> present
    ensures var parts := Part(d, 'd') + Part(h, 'h') + Part(m, 'm') + (if present then [Token(NatToString(sec), 's')] else []);
      ValidTokens(parts) && TokensTotal(parts) == d * 86400 + h * 3600 + m * 60 + sec
  {
    var pd, ph, pm := Part(d, 'd'), Part(h, 'h'), Part(m, 'm');
    var ps := if present then [Token(NatToString(sec), 's')] else [];
    PartMeaning(d, 'd');
    PartMeaning(h, 'h');
    PartMeaning(m, 'm');
    SecondsPiece(sec, present);
    TokensTotalOfFour(pd, ph, pm, ps);
  }

  /** For n >= 0 the parts stand for exactly n seconds, and there is at least one. */
  lemma FormatTokensTotal(n: nat)
    ensures FormatTokens(n) != [] && ValidTokens(FormatTokens(n))
    ensures TokensTotal(FormatTokens(n)) == n
  {
    var b := Components(n);
    var present := b.seconds > 0 || Part(b.days, 'd') + Part(b.hours, 'h') + Part(b.minutes, 'm') == [];
    FormatTokensPieces(n);
    ComponentsDecompose(n);
    PartsTotal(b.days, b.hours, b.minutes, b.seconds, present);
  }

  lemma FormatTokensOrdered(n: nat)
    ensures UnitsDescending(FormatTokens(n))
  {
    var b := Components(n);
    var pd, ph, pm := Part(b.days, 'd'), Part(b.hours, 'h'), Part(b.minutes, 'm');
    var ps := if b.seconds > 0 || pd + ph + pm == [] then [Token(NatToString(b.seconds), 's')] else [];
    FormatTokensPieces(n);
    assert pd + ph + pm + ps == pd + (ph + (pm + ps));
    PrependPart(b.minutes, 'm', ps);
    PrependPart(b.hours, 'h', pm + ps);
    PrependPart(b.days, 'd', ph + (pm + ps));
  }

  lemma FormatTokensOfZero()
    ensures FormatTokens(0) == [Token("0", 's')]
  {
    assert Components(0) == Breakdown(0, 0, 0, 0);
    assert NatToString(0) == "0";
  }

  lemma FormatTokensNonZero(n: nat)
    requires n > 0
    ensures AllNonZero(FormatTokens(n))
  {
    var b := Components(n);
    ComponentsDecompose(n);
    var pd, ph, pm := Part(b.days, 'd'), Part(b.hours, 'h'), Part(b.minutes, 'm');
    var ps := if b.seconds > 0 || pd + ph + pm == [] then [Token(NatToString(b.seconds), 's')] else [];
    FormatTokensPieces(n);
    PartMeaning(b.days, 'd');
    PartMeaning(b.hours, 'h');
    PartMeaning(b.minutes, 'm');
    DecimalValueOfNatToString(b.seconds);
    assert AllNonZero(ps);
  }

  /**
   * The parts come in the order d, h, m, s; for n > 0 each is non-zero, and
   * for n = 0 the only part is "0s".
   */
  lemma FormatTokensShape(n: nat)
    ensures UnitsDescending(FormatTokens(n))
    ensures n == 0 ==> FormatTokens(n) == [Token("0", 's')]
    ensures n > 0 ==> AllNonZero(FormatTokens(n))
  {
    FormatTokensOrdered(n);
    if n == 0 {
      FormatTokensOfZero();
    } else {
      FormatTokensNonZero(n);
    }
  }

  /** "0s" and "permanently" are the two fixed texts. */
  lemma FormatFixedTexts()
    ensures FormatDuration(None) == "permanently"
    ensures FormatDuration(Some(0)) == "0s"
  {
    FormatTokensShape(0);
    TokensTextOne(Token("0", 's'), " ");
    assert TokenText(Token("0", 's')) == "0s";
  }

  /** `parse_duration(format_duration(n)) == n` for every n > 0. */
  lemma ParseFormatRoundTrip(n: nat)
    requires n > 0
    ensures Parsed(FormatDuration(Some(n))) == Some(n)
  {
    FormatTokensTotal(n);
    ParseTokens(FormatTokens(n), " ");
  }
}
