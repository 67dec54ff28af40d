/** Go durations such as "1h30m" (`_parse_go_duration` in backend/app/collectors/flux.py):
    the regular expression as a scanner, and the sum of what it finds. */
module Duration {
  import opened Basics
  import opened Options
  import opened Reals
  import opened Rounding
  import Decimal = Token

  datatype Unit = Ns | Us | Micro | Ms | S | M | H

  function UnitText(u: Unit): (s: string)
    ensures 1 <= |s| <= 2
  {
    match u
    case Ns => ['n', 's']
    case Us => ['u', 's']
    case Micro => ['\U{b5}', 's']
    case Ms => ['m', 's']
    case S => ['s']
    case M => ['m']
    case H => ['h']
  }

  /** One match: the digits before and after the decimal point, and the unit. */
  datatype Token = Token(whole: string, frac: string, unit: Unit)

  predicate IsDigit(c: char) { '0' <= c <= '9' }

  predicate AllDigits(s: string) {
    forall i :: 0 <= i < |s| ==> IsDigit(s[i])
  }

  /** A number as `\d+(?:\.\d+)?` describes it; an empty `frac` means no decimal point. */
  predicate WellFormed(t: Token) {
    t.whole != "" && AllDigits(t.whole) && AllDigits(t.frac)
  }

  function NumberText(t: Token): string {
    t.whole + (if t.frac == "" then "" else "." + t.frac)
  }

  function Print(t: Token): string {
    NumberText(t) + UnitText(t.unit)
  }

  function PrintAll(ts: seq<Token>): string {
    if ts == [] then "" else Print(ts[0]) + PrintAll(ts[1..])
  }

  // ---------------- the scanner ----------------

  /** `\d+` takes as many digits as there are. */
  function DigitRun(s: string): (n: nat)
    ensures n <= |s| && AllDigits(s[..n])
    ensures n < |s| ==> !IsDigit(s[n])
  {
    if s == "" || !IsDigit(s[0]) then 0
    else
      var n := DigitRun(s[1..]);
      assert s[..n + 1] == [s[0]] + s[1..][..n];
      n + 1
  }

  predicate StartsWith(s: string, c: char) {
    s != "" && s[0] == c
  }

  predicate StartsWithTwo(s: string, c: char, d: char) {
    |s| >= 2 && s[0] == c && s[1] == d
  }

  /** The alternatives of the unit group, in their order. */
  function ReadUnit(s: string): (u: Option<Unit>)
    ensures u.Some? ==> UnitText(u.value) <= s
  {
    if StartsWithTwo(s, 'n', 's') then Some(Ns)
    else if StartsWithTwo(s, 'u', 's') then Some(Us)
    else if StartsWithTwo(s, '\U{b5}', 's') then Some(Micro)
    else if StartsWithTwo(s, 'm', 's') then Some(Ms)
    else if StartsWith(s, 's') then Some(S)
    else if StartsWith(s, 'm') then Some(M)
    else if StartsWith(s, 'h') then Some(H)
    else None
  }

  /** The number of fraction digits after position d, 0 where there is no fraction. */
  function FractionRun(s: string, d: nat): (f: nat)
    requires d <= |s|
    ensures f > 0 ==> d + 1 + f <= |s| && s[d] == '.' && AllDigits(s[d + 1..d + 1 + f])
  {
    if d < |s| && s[d] == '.' then
      var f := DigitRun(s[d + 1..]);
      assert s[d + 1..][..f] == s[d + 1..d + 1 + f];
      f
    else 0
  }

  /** The length of the number at the start of s, when it starts with d digits. */
  function NumberLength(s: string, d: nat): (n: nat)
    requires d <= |s|
    ensures d <= n <= |s|
  {
    var f := FractionRun(s, d);
    if f == 0 then d else d + 1 + f
  }

  /** The regular expression at the start of s. */
  function MatchAt(s: string): (t: Option<Token>)
    ensures t.Some? ==> WellFormed(t.value) && 0 < |Print(t.value)| <= |s|
  {
    var d := DigitRun(s);
    var n := NumberLength(s, d);
    var u := ReadUnit(s[n..]);
    if d == 0 || u.None? then None
    else Some(Token(s[..d], if n == d then "" else s[d + 1..n], u.value))
  }

  /** What is matched is the text there. */
  lemma MatchIsPrefix(s: string)
    requires MatchAt(s).Some?
    ensures Print(MatchAt(s).value) <= s
  {
    var t, d := MatchAt(s).value, DigitRun(s);
    var n := NumberLength(s, d);
    JoinedPrefix(s, n, UnitText(t.unit));
  }

  lemma JoinedPrefix(s: string, n: nat, u: string)
    requires n <= |s| && u <= s[n..]
    ensures s[..n] + u <= s
  {
  }

  /** `findall`: after a match the scan goes on behind it, otherwise one character further. */
  function FindAll(s: string): seq<Token>
    decreases |s|
  {
    if s == "" then []
    else
      match MatchAt(s)
      case None => FindAll(s[1..])
      case Some(t) => [t] + FindAll(s[|Print(t)|..])
  }

  /** The scanner does not have to backtrack: any other way to read a token at the start of s
      has the same number and another unit, and only where "ms" is also read as "m". */
  lemma NoBacktracking(s: string, t: Token)
    requires WellFormed(t) && Print(t) <= s
    ensures
      var r := MatchAt(s);
      && r.Some? && r.value.whole == t.whole && r.value.frac == t.frac
      && (r.value.unit == t.unit || (r.value.unit == Ms && t.unit == M))
  {
    var rest := s[|Print(t)|..];
    assert s == Print(t) + rest;
    MatchPrinted(t, rest);
  }

  // ---------------- scanning what was printed ----------------

  lemma {:induction false} RunOfDigits(a: string, b: string)
    requires AllDigits(a)
    requires b != "" ==> !IsDigit(b[0])
    ensures DigitRun(a + b) == |a|
  {
    if a == "" {
      assert a + b == b;
    } else {
      assert (a + b)[1..] == a[1..] + b;
      RunOfDigits(a[1..], b);
    }
  }

  lemma UnitStart(u: Unit, b: string)
    ensures var s := UnitText(u) + b; !IsDigit(s[0]) && s[0] != '.'
  {
  }

  /** "ms" wins over "m": a unit is read back unless it is "m" and an "s" follows. */
  lemma ReadPrintedUnit(u: Unit, b: string)
    ensures ReadUnit(UnitText(u) + b) == Some(if u == M && StartsWith(b, 's') then Ms else u)
  {
    var s := UnitText(u) + b;
    assert s[0] == UnitText(u)[0];
    assert |UnitText(u)| == 2 ==> s[1] == UnitText(u)[1];
    assert |UnitText(u)| == 1 && b != "" ==> s[1] == b[0];
  }

  lemma Assoc(a: string, b: string, c: string)
    ensures (a + b) + c == a + (b + c)
  {
  }

  /** The number of a printed token, with something after it that is no part of a number. */
  lemma ReadNumber(t: Token, tail: string)
    requires WellFormed(t)
    requires tail != "" && !IsDigit(tail[0]) && tail[0] != '.'
    ensures
      var s, d := NumberText(t) + tail, |t.whole|;
      var n := |NumberText(t)|;
      && DigitRun(s) == d && NumberLength(s, d) == n
      && s[..d] == t.whole && s[n..] == tail
      && (n > d ==> s[d + 1..n] == t.frac)
      && (n == d <==> t.frac == "")
  {
    if t.frac == "" {
      var s := NumberText(t) + tail;
      assert NumberText(t) == t.whole && s[|t.whole|] == tail[0];
      assert FractionRun(s, |t.whole|) == 0;
      RunOfDigits(t.whole, tail);
    } else {
      ReadFraction(t.whole, t.frac, tail);
    }
  }

  lemma ReadFraction(whole: string, frac: string, tail: string)
    requires AllDigits(whole) && AllDigits(frac) && frac != ""
    requires tail != "" && !IsDigit(tail[0])
    ensures
      var s, d := whole + ("." + frac) + tail, |whole|;
      var n := d + 1 + |frac|;
      && DigitRun(s) == d && NumberLength(s, d) == n
      && s[..d] == whole && s[n..] == tail && s[d + 1..n] == frac
  {
    FractionParts(whole, frac, tail);
    RunOfDigits(whole, ("." + frac) + tail);
    RunOfDigits(frac, tail);
  }

  lemma FractionParts(whole: string, frac: string, tail: string)
    ensures
      var s, d := whole + ("." + frac) + tail, |whole|;
      var n := d + 1 + |frac|;
      && s == whole + (("." + frac) + tail) && |s| == n + |tail|
      && s[d] == '.' && s[d + 1..] == frac + tail
      && s[..d] == whole && s[n..] == tail && s[d + 1..n] == frac
  {
    Assoc(whole, "." + frac, tail);
    assert (whole + ("." + frac) + tail)[|whole| + 1..] == frac + tail;
  }

  lemma MatchPrinted(t: Token, b: string)
    requires WellFormed(t)
    ensures MatchAt(Print(t) + b)
         == Some(if t.unit == M && StartsWith(b, 's') then t.(unit := Ms) else t)
  {
    var tail := UnitText(t.unit) + b;
    UnitStart(t.unit, b);
    ReadPrintedUnit(t.unit, b);
    ReadNumber(t, tail);
    Assoc(NumberText(t), UnitText(t.unit), b);
  }

  /** Where text may follow printed tokens without changing the last of them. */
  predicate Separable(ts: seq<Token>, b: string) {
    ts == [] || ts[|ts| - 1].unit != M || !StartsWith(b, 's')
  }

  ghost predicate AllWellFormed(ts: seq<Token>) {
    forall i :: 0 <= i < |ts| ==> WellFormed(ts[i])
  }

  /** Lexing: printed tokens are found again, in front of whatever the rest contains, exactly
      when the rest does not begin with an "s" that turns a final "m" into "ms". */
  lemma FindPrinted(ts: seq<Token>, b: string)
    requires AllWellFormed(ts)
    ensures FindAll(PrintAll(ts) + b) == ts + FindAll(b) <==> Separable(ts, b)
  {
    if Separable(ts, b) {
      FindSeparable(ts, b);
    } else {
      var n := |ts| - 1;
      SplitLast(ts);
      FindMerged(ts[..n], ts[n], b);
    }
  }

  /** A final "m" in front of an "s" is found as "ms". */
  lemma FindMerged(ts: seq<Token>, last: Token, b: string)
    requires AllWellFormed(ts) && WellFormed(last) && last.unit == M && StartsWith(b, 's')
    ensures
      var found := FindAll(PrintAll(ts + [last]) + b);
      |found| > |ts| && found[|ts|].unit == Ms
  {
    PrintSplit(ts, [last]);
    assert [last][1..] == [];
    assert PrintAll([last]) == Print(last);
    Assoc(PrintAll(ts), Print(last), b);
    FindSeparable(ts, Print(last) + b);
    MatchPrinted(last, b);
  }

  lemma {:induction false} PrintSplit(a: seq<Token>, b: seq<Token>)
    ensures PrintAll(a + b) == PrintAll(a) + PrintAll(b)
  {
    if a == [] {
      assert a + b == b;
    } else {
      PrintSplit(a[1..], b);
      assert (a + b)[1..] == a[1..] + b;
      Assoc(Print(a[0]), PrintAll(a[1..]), PrintAll(b));
    }
  }

  lemma {:induction false} FindSeparable(ts: seq<Token>, b: string)
    requires AllWellFormed(ts) && (Separable(ts, b) || (b != "" && IsDigit(b[0])))
    ensures FindAll(PrintAll(ts) + b) == ts + FindAll(b)
  {
    if ts == [] {
      assert PrintAll(ts) + b == b;
    } else {
      var rest := PrintAll(ts[1..]) + b;
      Assoc(Print(ts[0]), PrintAll(ts[1..]), b);
      FindFirst(ts[0], rest);
      FindSeparable(ts[1..], b);
      ConsAppend(ts, FindAll(b));
    }
  }

  lemma ConsAppend<X>(s: seq<X>, r: seq<X>)
    requires s != []
    ensures [s[0]] + (s[1..] + r) == s + r
  {
  }

  lemma FindFirst(t: Token, rest: string)
    requires WellFormed(t) && (t.unit != M || !StartsWith(rest, 's'))
    ensures FindAll(Print(t) + rest) == [t] + FindAll(rest)
  {
    MatchPrinted(t, rest);
    assert (Print(t) + rest)[|Print(t)|..] == rest;
  }

  // ---------------- the value ----------------

  function NatValue(s: string): nat
    requires AllDigits(s)
  {
    if s == "" then 0 else NatValue(s[..|s| - 1]) * 10 + (s[|s| - 1] - '0') as nat
  }

  /** The digits after a decimal point. */
  function FractionValue(s: string): real
    requires AllDigits(s)
  {
    if s == "" then 0.0 else ((s[0] - '0') as real + FractionValue(s[1..])) / 10.0
  }

  function InSeconds(x: real, u: Unit): real {
    match u
    case Ns => x * 0.000000001
    case Us => x * 0.000001
    case Micro => x * 0.000001
    case Ms => x * 0.001
    case S => x
    case M => x * 60.0
    case H => x * 3600.0
  }

  /** `float(value) * seconds`. */
  function Value(t: Token): real
    requires WellFormed(t)
  {
    InSeconds(NatValue(t.whole) as real + FractionValue(t.frac), t.unit)
  }

  function Values(ts: seq<Token>): seq<real>
    requires AllWellFormed(ts)
  {
    seq(|ts|, i requires 0 <= i < |ts| => Value(ts[i]))
  }

  function Total(xs: seq<real>): real {
    if xs == [] then 0.0 else Total(xs[..|xs| - 1]) + xs[|xs| - 1]
  }

  function Sum(ts: seq<Token>): real
    requires AllWellFormed(ts)
  {
    Total(Values(ts))
  }

  /** The sum of a list of durations, None if there are none. */
  function SumOrNone(ts: seq<Token>): Option<real>
    requires AllWellFormed(ts)
  {
    if ts == [] then None else Some(Sum(ts))
  }

  /** Addition of durations that may be missing. */
  function Plus(x: Option<real>, y: Option<real>): Option<real> {
    if x.None? then y else if y.None? then x else Some(x.value + y.value)
  }

  lemma {:induction false} FoundAreWellFormed(s: string)
    ensures AllWellFormed(FindAll(s))
    decreases |s|
  {
    if s != "" {
      match MatchAt(s)
      case None => FoundAreWellFormed(s[1..]);
      case Some(t) => FoundAreWellFormed(s[|Print(t)|..]);
    }
  }

  /** `_parse_go_duration`. */
  function ParseGoDuration(s: Option<string>): Option<real> {
    if s.None? || s.value == "" then None
    else
      var matches := FindAll(s.value);
      FoundAreWellFormed(s.value);
      if matches == [] then None else Some(Sum(matches))
  }

  lemma {:induction false} TotalSplit(a: seq<real>, b: seq<real>)
    ensures Total(a + b) == Total(a) + Total(b)
    decreases |b|
  {
    if b == [] {
      assert a + b == a;
    } else {
      var n := |b| - 1;
      assert (a + b)[..|a + b| - 1] == a + b[..n];
      TotalSplit(a, b[..n]);
    }
  }

  /** Printing a list of durations and parsing it gives exactly their sum. */
  lemma ParsePrinted(ts: seq<Token>)
    requires AllWellFormed(ts)
    ensures ParseGoDuration(Some(PrintAll(ts))) == SumOrNone(ts)
  {
    FindSeparable(ts, "");
    assert PrintAll(ts) + "" == PrintAll(ts);
    assert ts + FindAll("") == ts;
  }

  /** So parsing is additive over concatenation of well-formed durations. */
  lemma ParseIsAdditive(a: seq<Token>, b: seq<Token>)
    requires AllWellFormed(a) && AllWellFormed(b)
    ensures ParseGoDuration(Some(PrintAll(a) + PrintAll(b)))
         == Plus(ParseGoDuration(Some(PrintAll(a))), ParseGoDuration(Some(PrintAll(b))))
  {
    ParsePrinted(a);
    ParsePrinted(b);
    PrintSplit(a, b);
    SumsAdd(a, b);
    ParsePrinted(a + b);
  }

  lemma SumsAdd(a: seq<Token>, b: seq<Token>)
    requires AllWellFormed(a) && AllWellFormed(b)
    ensures AllWellFormed(a + b) && SumOrNone(a + b) == Plus(SumOrNone(a), SumOrNone(b))
  {
    if a == [] {
      assert a + b == b;
    } else if b == [] {
      assert a + b == a;
    } else {
      hide Total, Value;
      assert Values(a + b) == Values(a) + Values(b);
      TotalSplit(Values(a), Values(b));
    }
  }

  /** A whole number and a unit is read as that many units. */
  lemma ParseWhole(whole: string, u: Unit)
    requires whole != "" && AllDigits(whole)
    ensures ParseGoDuration(Some(whole + UnitText(u))) == Some(InSeconds(NatValue(whole) as real, u))
  {
    var t := Token(whole, "", u);
    assert NumberText(t) == whole;
    ParseOne(t);
  }

  /** Digits are read as the number they print. */
  lemma {:induction false} NatValueOfDigits(n: nat)
    ensures AllDigits(Decimal.Digits(n)) && NatValue(Decimal.Digits(n)) == n
  {
    var s := Decimal.Digits(n);
    if n < 10 {
      assert s[..0] == "";
    } else {
      NatValueOfDigits(n / 10);
      assert s[..|s| - 1] == Decimal.Digits(n / 10);
    }
  }

  /** So a whole number of each unit is worth what the unit is worth in seconds. */
  lemma UnitsInSeconds(n: nat)
    ensures
      var s := Decimal.Digits(n);
      && ParseGoDuration(Some(s + "h")) == Some(3600.0 * n as real)
      && ParseGoDuration(Some(s + "m")) == Some(60.0 * n as real)
      && ParseGoDuration(Some(s + "s")) == Some(n as real)
      && ParseGoDuration(Some(s + "ms")) == Some(n as real / 1000.0)
      && ParseGoDuration(Some(s + "us")) == Some(n as real / 1000000.0)
      && ParseGoDuration(Some(s + "\U{b5}s")) == Some(n as real / 1000000.0)
      && ParseGoDuration(Some(s + "ns")) == Some(n as real / 1000000000.0)
  {
    hide ParseGoDuration, NatValue, Decimal.Digits;
    var s := Decimal.Digits(n);
    NatValueOfDigits(n);
    ParseWhole(s, H);
    ParseWhole(s, M);
    ParseWhole(s, S);
    ParseWhole(s, Ms);
    ParseWhole(s, Us);
    ParseWhole(s, Micro);
    ParseWhole(s, Ns);
  }

  function Pow10(n: nat): nat {
    if n == 0 then 1 else 10 * Pow10(n - 1)
  }

  lemma {:induction false} FirstDigit(s: string)
    requires AllDigits(s) && s != ""
    ensures NatValue(s) == (s[0] - '0') as nat * Pow10(|s| - 1) + NatValue(s[1..])
  {
    var n := |s| - 1;
    if n == 0 {
      assert s[..0] == "" && s[1..] == "";
    } else {
      FirstDigit(s[..n]);
      assert s[..n][1..] == s[1..][..n - 1];
      TenTimes((s[0] - '0') as nat, Pow10(n - 1), NatValue(s[1..][..n - 1]));
    }
  }

  lemma TenTimes(d: nat, p: nat, rest: nat)
    ensures (d * p + rest) * 10 == d * (10 * p) + rest * 10
  {
  }

  function Scale(x: real, p: nat): real { x * p as real }

  lemma ScaleNothing()
    ensures Scale(0.0, 1) == 0.0
  {
  }

  /** The fraction is its digits behind the decimal point. */
  lemma {:induction false} FractionIsDigits(s: string)
    requires AllDigits(s)
    ensures Scale(FractionValue(s), Pow10(|s|)) == NatValue(s) as real
  {
    hide Scale;
    if s == "" {
      ScaleNothing();
    } else {
      FractionIsDigits(s[1..]);
      FirstDigit(s);
      ShiftPoint((s[0] - '0') as nat, FractionValue(s[1..]), Pow10(|s| - 1), NatValue(s[1..]));
    }
  }

  lemma ShiftPoint(d: nat, fraction: real, p: nat, rest: nat)
    requires Scale(fraction, p) == rest as real
    ensures Scale((d as real + fraction) / 10.0, 10 * p) == (d * p + rest) as real
  {
    ProductReal(d, p);
    assert (10 * p) as real == 10.0 * p as real;
    Distribute(d as real, fraction, p as real);
  }

  /** A number with a fraction, so many places shifted, is the whole number of all its digits. */
  lemma ParseDecimal(whole: string, frac: string, u: Unit)
    requires whole != "" && frac != "" && AllDigits(whole) && AllDigits(frac)
    ensures
      var x := ParseGoDuration(Some(whole + "." + frac + UnitText(u)));
      x.Some? && Scale(x.value, Pow10(|frac|)) == InSeconds(NatValue(whole + frac) as real, u)
  {
    hide ParseGoDuration, NatValue, Pow10, Scale, InSeconds, UnitText;
    var t := Token(whole, frac, u);
    PrintedDecimal(t);
    ParseOne(t);
    FractionIsDigits(frac);
    ManyDigits(whole, frac);
    ShiftUnits(NatValue(whole), FractionValue(frac), Pow10(|frac|), NatValue(frac), u);
  }

  lemma PrintedDecimal(t: Token)
    requires t.frac != ""
    ensures Print(t) == t.whole + "." + t.frac + UnitText(t.unit)
  {
    assert t.whole + ("." + t.frac) == t.whole + "." + t.frac;
  }

  lemma ParseOne(t: Token)
    requires WellFormed(t)
    ensures ParseGoDuration(Some(Print(t))) == Some(Value(t))
  {
    PrintOne(t);
    assert Values([t]) == [Value(t)];
    TotalOne(Value(t));
    ParsePrinted([t]);
  }

  lemma ShiftUnits(whole: nat, fraction: real, p: nat, digits: nat, u: Unit)
    requires Scale(fraction, p) == digits as real
    ensures Scale(InSeconds(whole as real + fraction, u), p) == InSeconds((whole * p + digits) as real, u)
  {
    ProductReal(whole, p);
    Distribute(whole as real, fraction, p as real);
    var x, y, q := whole as real + fraction, (whole * p + digits) as real, p as real;
    assert x * q == y;
  }

  lemma {:induction false} ManyDigits(a: string, b: string)
    requires AllDigits(a) && AllDigits(b)
    ensures AllDigits(a + b) && NatValue(a + b) == NatValue(a) * Pow10(|b|) + NatValue(b)
    decreases |b|
  {
    if b == "" {
      assert a + b == a;
    } else {
      var n := |b| - 1;
      ManyDigits(a, b[..n]);
      assert (a + b)[..|a + b| - 1] == a + b[..n];
      TenTimes(NatValue(a), Pow10(n), NatValue(b[..n]));
    }
  }

  lemma PrintOne(t: Token)
    ensures PrintAll([t]) == Print(t)
  {
    assert [t][1..] == [];
  }

  lemma TotalOne(x: real)
    ensures Total([x]) == x
  {
    assert [x][..0] == [];
  }
}
