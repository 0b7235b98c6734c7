/**
 * The scheduler's ISO 8601 duration parser (rotation.go), on Go's 64-bit nanosecond
 * durations. A duration string denotes a list of tokens; the parser is proved against
 * that grammar, with the wrap-around of 64-bit arithmetic kept.
 */
module Duration {
  import opened Common

  const MAX_INT64: int := 0x7fff_ffff_ffff_ffff
  const TWO_63: int := 0x8000_0000_0000_0000
  const TWO_64: int := 0x1_0000_0000_0000_0000

  const MINUTE: int := 60 * SECOND
  const HOUR: int := 60 * MINUTE
  const DAY: int := 24 * HOUR
  const WEEK: int := 7 * DAY

  /** Two's complement wrap-around of a 64-bit signed result. */
  function Wrap64(x: int): (r: int)
    ensures -TWO_63 <= r <= MAX_INT64
    ensures -TWO_63 <= x <= MAX_INT64 ==> r == x
  {
    (x + TWO_63) % TWO_64 - TWO_63
  }

  /** Wrapping early does not change a wrapped sum. */
  lemma WrapSum(a: int, b: int)
    ensures Wrap64(Wrap64(a) + Wrap64(b)) == Wrap64(a + b)
  {
    var i, j := -((a + TWO_63) / TWO_64), -((b + TWO_63) / TWO_64);
    assert Wrap64(a) == a + TWO_64 * i;
    assert Wrap64(b) == b + TWO_64 * j;
    assert Wrap64(a) + Wrap64(b) == a + b + TWO_64 * (i + j);
    WrapShift(a + b, i + j);
  }

  lemma WrapShift(x: int, k: int)
    ensures Wrap64(x + TWO_64 * k) == Wrap64(x)
  {
    var y := x + TWO_63;
    assert y + TWO_64 * k == TWO_64 * (y / TWO_64 + k) + y % TWO_64;
  }

  datatype DurationError = MissingP | UnexpectedChar | OutOfRange | BadUnit | NotPositive

  /** The grammar's tokens: the marker `T`, or digits followed by a unit letter. */
  datatype Token = TimeMark | Part(digits: string, unit: char)

  predicate IsDigit(c: char) { '0' <= c <= '9' }

  predicate AllDigits(s: string) { forall i | 0 <= i < |s| :: IsDigit(s[i]) }

  function DecValue(s: string): nat
    requires AllDigits(s)
  {
    if s == "" then 0 else DecValue(s[..|s| - 1]) * 10 + (s[|s| - 1] - '0') as int
  }

  /** Nanoseconds of `n` units on their side of the marker; None when the letter is not legal there. */
  function Span(n: nat, inTime: bool, unit: char): Option<nat> {
    if !inTime && unit == 'W' then Some(n * WEEK)
    else if !inTime && unit == 'D' then Some(n * DAY)
    else if inTime && unit == 'H' then Some(n * HOUR)
    else if inTime && unit == 'M' then Some(n * MINUTE)
    else if inTime && unit == 'S' then Some(n * SECOND)
    else None
  }

  /** Every number is a non-empty digit string that fits 64 bits, with a unit legal for its side. */
  predicate Legal(tokens: seq<Token>, inTime: bool) {
    tokens == [] ||
    match tokens[0]
    case TimeMark => Legal(tokens[1..], true)
    case Part(ds, u) =>
      ds != "" && AllDigits(ds) && DecValue(ds) <= MAX_INT64 && Span(DecValue(ds), inTime, u).Some? && Legal(tokens[1..], inTime)
  }

  function Print(tokens: seq<Token>): string {
    if tokens == [] then ""
    else (match tokens[0] case TimeMark => "T" case Part(ds, u) => ds + [u]) + Print(tokens[1..])
  }

  /** The exact weighted sum. */
  function Total(tokens: seq<Token>, inTime: bool): nat
    requires Legal(tokens, inTime)
  {
    if tokens == [] then 0
    else match tokens[0]
      case TimeMark => Total(tokens[1..], true)
      case Part(ds, u) => Span(DecValue(ds), inTime, u).value + Total(tokens[1..], inTime)
  }

  /** Length of the leading run of digits. */
  function DigitRun(s: string): (n: nat)
    ensures n <= |s| && AllDigits(s[..n]) && (n < |s| ==> !IsDigit(s[n]))
  {
    if s == "" || !IsDigit(s[0]) then 0 else 1 + DigitRun(s[1..])
  }

  /** The wrapped running total at the end of the text, judged positive or not. */
  function Judge(total: int): Result<int, DurationError> {
    if total > 0 then Ok(total) else Err(NotPositive)
  }

  /** What the parser makes of the text still to be read. */
  function ParseFrom(s: string, inTime: bool, total: int): (r: Result<int, DurationError>)
    ensures r.Ok? ==> 0 < r.value
    ensures r != Err(MissingP)
  {
    if s == "" then
      Judge(total)
    else if s[0] == 'T' then
      ParseFrom(s[1..], true, total)
    else
      var i := DigitRun(s);
      if i == 0 || i >= |s| then Err(UnexpectedChar)
      else if DecValue(s[..i]) > MAX_INT64 then Err(OutOfRange)
      else match Span(DecValue(s[..i]), inTime, s[i])
        case None => Err(BadUnit)
        case Some(span) => ParseFrom(s[i + 1..], inTime, Wrap64(total + Wrap64(span)))
  }

  function ParseDuration(s: string): Result<int, DurationError> {
    if s == "" || s[0] != 'P' then Err(MissingP) else ParseFrom(s[1..], false, 0)
  }

  /** The inner loop of the parser: the numeric prefix. */
  method CountDigits(s: string) returns (i: nat)
    ensures i == DigitRun(s)
  {
    i := 0;
    while i < |s| && IsDigit(s[i])
      invariant 0 <= i <= |s| && DigitRun(s) == i + DigitRun(s[i..])
    {
      assert s[i..][1..] == s[i + 1..];
      i := i + 1;
    }
  }

  /** ParseISO8601Duration. */
  method ParseIso8601Duration(input: string) returns (r: Result<int, DurationError>)
    ensures r == ParseDuration(input)
    ensures r == Err(MissingP) <==> input == "" || input[0] != 'P'
    ensures r.Ok? ==> 0 < r.value
  {
    if input == "" || input[0] != 'P' {
      return Err(MissingP);
    }
    var s := input[1..];
    var total := 0;
    var inTime := false;
    while |s| > 0
      invariant ParseFrom(s, inTime, total) == ParseDuration(input)
      decreases |s|
    {
      if s[0] == 'T' {
        inTime := true;
        s := s[1..];
        continue;
      }
      var i := CountDigits(s);
      if i == 0 || i >= |s| {
        return Err(UnexpectedChar);
      }
      if DecValue(s[..i]) > MAX_INT64 {
        return Err(OutOfRange);
      }
      var n := DecValue(s[..i]);
      var unit := s[i];
      match Span(n, inTime, unit) {
        case None => return Err(BadUnit);
        case Some(span) => total := Wrap64(total + Wrap64(span));
      }
      s := s[i + 1..];
    }
    if total <= 0 {
      return Err(NotPositive);
    }
    return Ok(total);
  }

  lemma {:induction false} DigitRunOfPart(ds: string, c: char, rest: string)
    requires AllDigits(ds) && !IsDigit(c)
    ensures DigitRun(ds + [c] + rest) == |ds|
  {
    var s := ds + [c] + rest;
    if ds != "" {
      assert s[1..] == ds[1..] + [c] + rest;
      DigitRunOfPart(ds[1..], c, rest);
    }
  }

  lemma ParsePart(ds: string, u: char, rest: string, inTime: bool, total: int)
    requires ds != "" && AllDigits(ds) && DecValue(ds) <= MAX_INT64 && Span(DecValue(ds), inTime, u).Some?
    ensures ParseFrom(ds + [u] + rest, inTime, Wrap64(total))
         == ParseFrom(rest, inTime, Wrap64(total + Span(DecValue(ds), inTime, u).value))
  {
    var s := ds + [u] + rest;
    DigitRunOfPart(ds, u, rest);
    assert s[..|ds|] == ds && s[|ds|] == u && s[|ds| + 1..] == rest && s[0] == ds[0];
    WrapSum(total, Span(DecValue(ds), inTime, u).value);
  }

  lemma ParseMark(rest: string, inTime: bool, total: int)
    ensures ParseFrom("T" + rest, inTime, total) == ParseFrom(rest, true, total)
  {
    var s := "T" + rest;
    assert s[1..] == rest;
  }

  lemma Regroup(a: string, b: string, c: string)
    ensures (a + b) + c == a + (b + c)
  {
  }

  lemma MarkBefore(tokens: seq<Token>, rest: string, inTime: bool, total: int, outcome: Result<int, DurationError>)
    requires tokens != [] && tokens[0].TimeMark? && ParseFrom(Print(tokens[1..]) + rest, true, total) == outcome
    ensures ParseFrom(Print(tokens) + rest, inTime, total) == outcome
  {
    Regroup("T", Print(tokens[1..]), rest);
    ParseMark(Print(tokens[1..]) + rest, inTime, total);
  }

  lemma PartBefore(tokens: seq<Token>, rest: string, inTime: bool, total: int, next: int, outcome: Result<int, DurationError>)
    requires Legal(tokens, inTime) && tokens != [] && tokens[0].Part?
    requires next == total + Span(DecValue(tokens[0].digits), inTime, tokens[0].unit).value
    requires ParseFrom(Print(tokens[1..]) + rest, inTime, Wrap64(next)) == outcome
    ensures ParseFrom(Print(tokens) + rest, inTime, Wrap64(total)) == outcome
  {
    var ds, u := tokens[0].digits, tokens[0].unit;
    Regroup(ds + [u], Print(tokens[1..]), rest);
    ParsePart(ds, u, Print(tokens[1..]) + rest, inTime, total);
  }

  /** A legal token list in front of a text is read off it, whatever the text. */
  lemma {:induction false} ParseOver(tokens: seq<Token>, inTime: bool, total: int, rest: string, side: bool, sum: int)
    requires Legal(tokens, inTime) && sum == total + Total(tokens, inTime) && side == (inTime || TimeMark in tokens)
    ensures ParseFrom(Print(tokens) + rest, inTime, Wrap64(total)) == ParseFrom(rest, side, Wrap64(sum))
  {
    if tokens == [] {
      assert Print(tokens) + rest == rest;
    } else if tokens[0] == TimeMark {
      ParseOver(tokens[1..], true, total, rest, side, sum);
      MarkBefore(tokens, rest, inTime, Wrap64(total), ParseFrom(rest, side, Wrap64(sum)));
    } else {
      var next := total + Span(DecValue(tokens[0].digits), inTime, tokens[0].unit).value;
      assert TimeMark in tokens <==> TimeMark in tokens[1..];
      ParseOver(tokens[1..], inTime, next, rest, side, sum);
      PartBefore(tokens, rest, inTime, total, next, ParseFrom(rest, side, Wrap64(sum)));
    }
  }

  /** Every legal token list is read back: the parser computes its wrapped sum. */
  lemma ParsePrinted(tokens: seq<Token>, inTime: bool, total: int, sum: int)
    requires Legal(tokens, inTime) && sum == total + Total(tokens, inTime)
    ensures ParseFrom(Print(tokens), inTime, Wrap64(total)) == Judge(Wrap64(sum))
  {
    ParseOver(tokens, inTime, total, "", inTime || TimeMark in tokens, sum);
    assert Print(tokens) + "" == Print(tokens);
  }

  /** A text that goes wrong behind a legal token list, at a number and its unit: a number too long first, then a wrong unit. */
  lemma RefusedNumber(tokens: seq<Token>, ds: string, u: char, rest: string)
    requires Legal(tokens, false) && ds != "" && AllDigits(ds) && !IsDigit(u)
    ensures var r := ParseDuration("P" + (Print(tokens) + (ds + [u] + rest)));
            && (DecValue(ds) > MAX_INT64 ==> r == Err(OutOfRange))
            && (DecValue(ds) <= MAX_INT64 && u !in (if TimeMark in tokens then "HMS" else "WD") ==> r == Err(BadUnit))
  {
    var s := ds + [u] + rest;
    var all := "P" + (Print(tokens) + s);
    assert all[1..] == Print(tokens) + s;
    ParseOver(tokens, false, 0, s, TimeMark in tokens, Total(tokens, false));
    DigitRunOfPart(ds, u, rest);
    assert s[0] == ds[0] && s[..|ds|] == ds && s[|ds|] == u;
    SpanLetters(DecValue(ds), TimeMark in tokens, u);
  }

  lemma SpanLetters(n: nat, inTime: bool, u: char)
    ensures Span(n, inTime, u).Some? <==> u in (if inTime then "HMS" else "WD")
  {
    assert "HMS"[0] == 'H' && "HMS"[1] == 'M' && "HMS"[2] == 'S' && "WD"[0] == 'W' && "WD"[1] == 'D';
  }

  /** A text that goes wrong behind a legal token list, where no number starts or none ends. */
  lemma RefusedCharacter(tokens: seq<Token>, rest: string)
    requires Legal(tokens, false) && rest != "" && rest[0] != 'T' && (!IsDigit(rest[0]) || AllDigits(rest))
    ensures ParseDuration("P" + (Print(tokens) + rest)) == Err(UnexpectedChar)
  {
    var all := "P" + (Print(tokens) + rest);
    assert all[1..] == Print(tokens) + rest;
    ParseOver(tokens, false, 0, rest, TimeMark in tokens, Total(tokens, false));
    assert DigitRun(rest) == 0 || DigitRun(rest) == |rest|;
  }

  /** Whatever the parser accepts is the print of a legal token list. */
  lemma {:induction false} ParsedIsPrinted(s: string, inTime: bool, total: int) returns (tokens: seq<Token>)
    requires ParseFrom(s, inTime, total).Ok?
    ensures Legal(tokens, inTime) && Print(tokens) == s
    decreases |s|
  {
    if s == "" {
      tokens := [];
    } else if s[0] == 'T' {
      var rest := ParsedIsPrinted(s[1..], true, total);
      tokens := [TimeMark] + rest;
      assert tokens[1..] == rest;
    } else {
      var i := DigitRun(s);
      var span := Span(DecValue(s[..i]), inTime, s[i]).value;
      var rest := ParsedIsPrinted(s[i + 1..], inTime, Wrap64(total + Wrap64(span)));
      tokens := [Part(s[..i], s[i])] + rest;
      assert tokens[1..] == rest;
      assert s == s[..i] + [s[i]] + s[i + 1..];
    }
  }

  predicate IsLetter(c: char) { c == 'T' || c == 'W' || c == 'D' || c == 'H' || c == 'M' || c == 'S' }

  ghost predicate AllWritable(s: string) { forall k | 0 <= k < |s| :: IsDigit(s[k]) || IsLetter(s[k]) }

  lemma WritableJoin(a: string, c: char, b: string)
    requires AllDigits(a) && IsLetter(c) && AllWritable(b)
    ensures AllWritable(a + [c] + b)
  {
  }

  /** Only digits, units and markers are accepted. */
  lemma {:induction false} AcceptedCharacters(s: string, inTime: bool, total: int)
    requires ParseFrom(s, inTime, total).Ok?
    ensures AllWritable(s)
    decreases |s|
  {
    if s == "" {
    } else if s[0] == 'T' {
      AcceptedCharacters(s[1..], true, total);
      WritableJoin("", 'T', s[1..]);
      assert s == "" + ['T'] + s[1..];
    } else {
      var i := DigitRun(s);
      var span := Span(DecValue(s[..i]), inTime, s[i]).value;
      AcceptedCharacters(s[i + 1..], inTime, Wrap64(total + Wrap64(span)));
      WritableJoin(s[..i], s[i], s[i + 1..]);
      assert s == s[..i] + [s[i]] + s[i + 1..];
    }
  }

  /**
   * The accepted language and its meaning: exactly 'P' followed by a legal token list whose
   * wrapped sum is positive, and the value is that wrapped sum.
   */
  lemma AcceptedForms(s: string)
    ensures ParseDuration(s).Ok? <==>
            exists tokens :: Legal(tokens, false) && s == "P" + Print(tokens) && Wrap64(Total(tokens, false)) > 0
    ensures forall tokens | Legal(tokens, false) && s == "P" + Print(tokens) ::
              ParseDuration(s) == Judge(Wrap64(Total(tokens, false)))
    ensures ParseDuration(s).Ok? ==>
              s[0] == 'P' && forall k | 0 < k < |s| :: '0' <= s[k] <= '9' || s[k] in "TWDHMS"
  {
    forall tokens | Legal(tokens, false) && s == "P" + Print(tokens)
      ensures ParseDuration(s) == Judge(Wrap64(Total(tokens, false)))
    {
      assert s[1..] == Print(tokens);
      ParsePrinted(tokens, false, 0, Total(tokens, false));
    }
    if ParseDuration(s).Ok? {
      var tokens := ParsedIsPrinted(s[1..], false, 0);
      AcceptedCharacters(s[1..], false, 0);
      assert forall k | 0 < k < |s| :: s[k] == s[1..][k - 1];
      assert s == "P" + Print(tokens);
      assert ParseDuration(s) == Ok(Wrap64(Total(tokens, false)));
    }
  }

  /** The numbers written with a unit on one side of the marker, added up. */
  function Amounts(tokens: seq<Token>, inTime: bool, side: bool, unit: char): nat
    requires Legal(tokens, inTime)
  {
    if tokens == [] then 0
    else match tokens[0]
      case TimeMark => Amounts(tokens[1..], true, side, unit)
      case Part(ds, u) =>
        (if inTime == side && u == unit then DecValue(ds) else 0) + Amounts(tokens[1..], inTime, side, unit)
  }

  /** Nanoseconds of so many weeks, days, hours, minutes and seconds. */
  function Weeks(w: nat, d: nat, h: nat, m: nat, s: nat): nat {
    1_000_000_000 * (604_800 * w + 86_400 * d + 3_600 * h + 60 * m + s)
  }

  function Share(n: nat, mine: bool): nat { if mine then n else 0 }

  lemma SpanWeighs(n: nat, inTime: bool, u: char)
    ensures Span(n, inTime, u).Some? <==> if inTime then u == 'H' || u == 'M' || u == 'S' else u == 'W' || u == 'D'
    ensures Span(n, inTime, u).Some? ==>
              Span(n, inTime, u).value
              == Weeks(Share(n, !inTime && u == 'W'), Share(n, !inTime && u == 'D'), Share(n, inTime && u == 'H'),
                       Share(n, inTime && u == 'M'), Share(n, inTime && u == 'S'))
  {
  }

  lemma WeeksAdd(w: nat, d: nat, h: nat, m: nat, s: nat, w': nat, d': nat, h': nat, m': nat, s': nat)
    ensures Weeks(w + w', d + d', h + h', m + m', s + s') == Weeks(w, d, h, m, s) + Weeks(w', d', h', m', s')
  {
  }

  function Weighed(tokens: seq<Token>, inTime: bool): nat
    requires Legal(tokens, inTime)
  {
    Weeks(Amounts(tokens, inTime, false, 'W'), Amounts(tokens, inTime, false, 'D'), Amounts(tokens, inTime, true, 'H'),
          Amounts(tokens, inTime, true, 'M'), Amounts(tokens, inTime, true, 'S'))
  }

  /** The sum in nanoseconds: 604800 seconds a week, 86400 a day, 3600 an hour and 60 a minute. */
  lemma {:induction false} TotalWeighs(tokens: seq<Token>, inTime: bool)
    requires Legal(tokens, inTime)
    ensures Total(tokens, inTime) == Weighed(tokens, inTime)
  {
    if tokens != [] {
      match tokens[0] {
        case TimeMark => TotalWeighs(tokens[1..], true);
        case Part(ds, u) =>
          var n, rest := DecValue(ds), tokens[1..];
          TotalWeighs(rest, inTime);
          SpanWeighs(n, inTime, u);
          WeeksAdd(Share(n, !inTime && u == 'W'), Share(n, !inTime && u == 'D'), Share(n, inTime && u == 'H'),
                   Share(n, inTime && u == 'M'), Share(n, inTime && u == 'S'),
                   Amounts(rest, inTime, false, 'W'), Amounts(rest, inTime, false, 'D'), Amounts(rest, inTime, true, 'H'),
                   Amounts(rest, inTime, true, 'M'), Amounts(rest, inTime, true, 'S'));
      }
    }
  }

  function Decimal(n: nat): string
    decreases n
  {
    if n < 10 then [('0' as int + n) as char] else Decimal(n / 10) + [('0' as int + n % 10) as char]
  }

  lemma {:induction false} DecimalReadsBack(n: nat)
    ensures Decimal(n) != "" && AllDigits(Decimal(n)) && DecValue(Decimal(n)) == n
    decreases n
  {
    var d := Decimal(n);
    if n >= 10 {
      DecimalReadsBack(n / 10);
      assert d[..|d| - 1] == Decimal(n / 10);
    } else {
      assert d[..|d| - 1] == "";
    }
  }

  /** A list of components as a caller would write it: numbers with units, and the marker. */
  datatype Component = Marker | Amount(n: nat, unit: char)

  predicate Writable(cs: seq<Component>, inTime: bool) {
    cs == [] ||
    match cs[0]
    case Marker => Writable(cs[1..], true)
    case Amount(n, u) => n <= MAX_INT64 && Span(n, inTime, u).Some? && Writable(cs[1..], inTime)
  }

  function Nanoseconds(cs: seq<Component>, inTime: bool): nat
    requires Writable(cs, inTime)
  {
    if cs == [] then 0
    else match cs[0]
      case Marker => Nanoseconds(cs[1..], true)
      case Amount(n, u) => Span(n, inTime, u).value + Nanoseconds(cs[1..], inTime)
  }

  function Tokens(cs: seq<Component>): seq<Token> {
    if cs == [] then []
    else [match cs[0] case Marker => TimeMark case Amount(n, u) => Part(Decimal(n), u)] + Tokens(cs[1..])
  }

  lemma {:induction false} TokensKeepTotal(cs: seq<Component>, inTime: bool)
    requires Writable(cs, inTime)
    ensures Legal(Tokens(cs), inTime) && Total(Tokens(cs), inTime) == Nanoseconds(cs, inTime)
  {
    if cs != [] {
      var ts := Tokens(cs);
      assert ts[1..] == Tokens(cs[1..]);
      match cs[0] {
        case Marker => TokensKeepTotal(cs[1..], true);
        case Amount(n, u) =>
          DecimalReadsBack(n);
          TokensKeepTotal(cs[1..], inTime);
      }
    }
  }

  /** Printing a component list in decimal and parsing it gives its sum, when that is positive and fits 64 bits. */
  lemma PrintedComponentsParse(cs: seq<Component>)
    requires Writable(cs, false)
    ensures ParseDuration("P" + Print(Tokens(cs))) == Ok(Nanoseconds(cs, false)) <==> 0 < Nanoseconds(cs, false) <= MAX_INT64
  {
    TokensKeepTotal(cs, false);
    ExactWhenInRange(Tokens(cs));
  }

  /** The returned value is the true sum exactly when the sum fits 64 bits. */
  lemma ExactWhenInRange(tokens: seq<Token>)
    requires Legal(tokens, false)
    ensures ParseDuration("P" + Print(tokens)) == Ok(Total(tokens, false)) <==> 0 < Total(tokens, false) <= MAX_INT64
  {
    AcceptedForms("P" + Print(tokens));
  }

  lemma DigitsOf213504()
    ensures DecValue("213504") == 213504
  {
    var digits := "213504";
    assert digits[..5] == "21350";
    assert digits[..5][..4] == "2135";
    assert "2135"[..3] == "213" && "213"[..2] == "21" && "21"[..1] == "2" && "2"[..0] == "";
    assert DecValue("2135") == 2135;
  }

  lemma DaysParse(ds: string)
    requires ds != "" && AllDigits(ds) && DecValue(ds) <= MAX_INT64
    ensures ParseDuration("P" + ds + "D") == Judge(Wrap64(DecValue(ds) * DAY))
  {
    ParsePart(ds, 'D', "", false, 0);
    assert ("P" + ds + "D")[1..] == ds + ['D'] + "";
  }

  lemma WrappedDays()
    ensures Judge(Wrap64(213504 * DAY)) == Ok(1526290448384)
  {
  }

  /** A duration of 213504 days is accepted and read as 25 minutes and a fraction. */
  lemma OverflowIsAccepted()
    ensures ParseDuration("P213504D") == Ok(1526290448384)
    ensures 25 * MINUTE < 1526290448384 < 26 * MINUTE
  {
    DigitsOf213504();
    DaysParse("213504");
    WrappedDays();
    assert "P" + "213504" + "D" == "P213504D";
  }
}
