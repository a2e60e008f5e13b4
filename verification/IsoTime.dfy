/** Points in time as ISO 8601 text with three digits of milliseconds. Times are nanoseconds since the
    epoch. The calendar (`gmtime_r` with `put_time`, `get_time` with `timegm`) is a parameter. */
module IsoTime {
  import opened Options
  import opened Integers
  import Decimal
  import Whitespace

  /** `write` gives date and time of a second without its fraction; `read` takes them from the front of a
      text, or fails. */
  datatype Calendar = Calendar(write: int -> string, read: string -> Option<int>)

  function WithSuffix(c: Calendar, seconds: int, suffix: string): string { c.write(seconds) + suffix }

  /** The seconds that fit 64 bits of nanoseconds. */
  predicate InRange(seconds: int) { -9_223_372_036 <= seconds <= 9_223_372_036 }

  /** Reading undoes writing, whatever fraction follows; dates hold no '.'. */
  ghost predicate IsCalendar(c: Calendar) {
    forall seconds: int, suffix: string | InRange(seconds) && suffix != "" && suffix[0] == '.' ::
      c.read(WithSuffix(c, seconds, suffix)) == Some(seconds) && '.' !in c.write(seconds)
  }

  // ---- arithmetic that rounds toward zero ----------------------------------------------------------

  function Quot(a: int, b: nat): int
    requires b > 0
  {
    if a >= 0 then a / b else -((-a) / b)
  }

  function Rem(a: int, b: nat): int
    requires b > 0
  {
    a - b * Quot(a, b)
  }

  function Seconds(t: i64): int { Quot(t, 1_000_000_000) }

  function Millis(t: i64): int { Rem(Quot(t, 1_000_000), 1000) }

  lemma {:induction false} MillisOf(t: i64)
    ensures -1000 < Millis(t) < 1000
    ensures t >= 0 ==> Millis(t) >= 0
    ensures t <= 0 ==> Millis(t) <= 0
    ensures Quot(t, 1_000_000) == 1000 * Seconds(t) + Millis(t)
    ensures InRange(Seconds(t))
  {
    var n: int := t;
    var a := if n >= 0 then n else -n;
    assert a / 1_000_000 / 1000 == a / 1_000_000_000;
  }

  // ---- writing ------------------------------------------------------------------------------------

  function PrintInt(n: int): string { if n < 0 then "-" + Decimal.Print(-n) else Decimal.Print(n) }

  /** Filled with zeros on the left, before any sign, up to three characters. */
  function Padded(text: string): string
    decreases 3 - |text|
  {
    if |text| >= 3 then text else Padded("0" + text)
  }

  function ToIso(c: Calendar, t: i64): string { c.write(Seconds(t)) + "." + Padded(PrintInt(Millis(t))) + "Z" }

  // ---- reading ------------------------------------------------------------------------------------

  /** The digits at the front of a text. */
  function DigitPrefix(s: string): (d: string)
    ensures Decimal.AllDigits(d)
  {
    if s != "" && Decimal.IsDigit(s[0]) then [s[0]] + DigitPrefix(s[1..]) else ""
  }

  /** The 32-bit integer at the front of a text; 0 when there is none or it does not fit. */
  function LeadingInt(s: string): int {
    var u := Whitespace.TrimLeft(s);
    var negative := u != "" && u[0] == '-';
    var digits := DigitPrefix(if u != "" && (u[0] == '-' || u[0] == '+') then u[1..] else u);
    var n: int := Decimal.Value(digits);
    var v := if negative then -n else n;
    if digits != "" && -0x8000_0000 <= v < 0x8000_0000 then v else 0
  }

  /** The text after the first '.', if there is one. */
  function AfterDot(s: string): Option<string> {
    if s == "" then None else if s[0] == '.' then Some(s[1..]) else AfterDot(s[1..])
  }

  /** The epoch when there is no date. */
  function FromIso(c: Calendar, s: string): i64 {
    match c.read(s)
    case None => 0
    case Some(seconds) =>
      var rest := AfterDot(s);
      var ms := if rest.None? then 0 else LeadingInt(rest.value);
      ToI64(seconds * 1_000_000_000 + ms * 1_000_000)
  }

  // ---- what is read back --------------------------------------------------------------------------

  /** Times before the epoch lose the milliseconds -9 to -1, whose sign comes after the filling zeros. */
  predicate LosesMillis(t: i64) { -10 < Millis(t) < 0 }

  function Reread(t: i64): i64 {
    MillisOf(t);
    Seconds(t) * 1_000_000_000 + if LosesMillis(t) then 0 else Millis(t) * 1_000_000
  }

  lemma {:induction false} DigitPrefixOf(d: string, rest: string)
    requires Decimal.AllDigits(d) && rest != "" && !Decimal.IsDigit(rest[0])
    ensures DigitPrefix(d + rest) == d
  {
    if d == "" {
      assert d + rest == rest;
    } else {
      assert (d + rest)[1..] == d[1..] + rest;
      DigitPrefixOf(d[1..], rest);
    }
  }

  lemma {:induction false} LeadingZero(d: string)
    requires Decimal.AllDigits(d)
    ensures Decimal.AllDigits("0" + d) && Decimal.Value("0" + d) == Decimal.Value(d)
  {
    if d == "" {
      assert "0" + d == "0" && "0"[..0] == "";
    } else {
      assert ("0" + d)[..|d|] == "0" + d[..|d| - 1];
      LeadingZero(d[..|d| - 1]);
    }
  }

  lemma {:induction false} PaddedDigits(d: string)
    requires Decimal.AllDigits(d) && d != ""
    ensures Decimal.AllDigits(Padded(d)) && Padded(d) != "" && Decimal.Value(Padded(d)) == Decimal.Value(d)
    decreases 3 - |d|
  {
    if |d| < 3 {
      LeadingZero(d);
      PaddedDigits("0" + d);
    }
  }

  lemma {:induction false} PrintLength(n: nat)
    requires n < 1000
    ensures |Decimal.Print(n)| == if n < 10 then 1 else if n < 100 then 2 else 3
  {
    if n >= 10 {
      PrintLength(n / 10);
    }
  }

  /** The padded milliseconds read back, but for those whose sign follows a zero. */
  lemma {:induction false} LeadingIntOfPadded(ms: int)
    requires -1000 < ms < 1000
    ensures LeadingInt(Padded(PrintInt(ms)) + "Z") == if -10 < ms < 0 then 0 else ms
  {
    if ms >= 0 {
      var d := Decimal.Print(ms);
      PaddedDigits(d);
      Decimal.ValueOfPrint(ms);
      var p := Padded(d);
      assert (p + "Z")[0] == p[0];
      DigitPrefixOf(p, "Z");
    } else {
      var d := Decimal.Print(-ms);
      PrintLength(-ms);
      Decimal.ValueOfPrint(-ms);
      if ms > -10 {
        assert Padded("-" + d) == "0" + ("-" + d);
        var s := "0" + ("-" + d) + "Z";
        assert s == "0" + ("-" + d + "Z");
        DigitPrefixOf("0", "-" + d + "Z");
        assert Decimal.Value("0") == 0 by { LeadingZero(""); assert "0" + "" == "0"; }
      } else {
        assert Padded("-" + d) == "-" + d;
        var s := "-" + d + "Z";
        assert s[1..] == d + "Z";
        DigitPrefixOf(d, "Z");
      }
    }
  }

  lemma {:induction false} AfterDotOf(a: string, b: string)
    requires '.' !in a
    ensures AfterDot(a + "." + b) == Some(b)
  {
    var s := a + "." + b;
    if a == "" {
      assert s[1..] == b;
    } else {
      assert s[1..] == a[1..] + "." + b;
      assert a[0] in a;
      AfterDotOf(a[1..], b);
    }
  }

  /** What is read back of a time that was written. */
  lemma {:induction false} FromIsoOfToIso(c: Calendar, t: i64)
    requires IsCalendar(c)
    ensures FromIso(c, ToIso(c, t)) == Reread(t)
  {
    hide Millis, Seconds, Padded, LeadingInt;
    var ms := Padded(PrintInt(Millis(t)));
    var suffix := "." + (ms + "Z");
    MillisOf(t);
    assert ToIso(c, t) == WithSuffix(c, Seconds(t), suffix) == c.write(Seconds(t)) + "." + (ms + "Z");
    assert c.read(WithSuffix(c, Seconds(t), suffix)) == Some(Seconds(t));
    AfterDotOf(c.write(Seconds(t)), ms + "Z");
    LeadingIntOfPadded(Millis(t));
  }

  /** Time is read back to the millisecond, rounded toward zero, except for a few times before the epoch. */
  lemma {:induction false} RereadDropsBelowMillis(t: i64)
    ensures Reread(t) == Quot(t, 1_000_000) * 1_000_000 <==> !LosesMillis(t)
    ensures t >= 0 ==> Reread(t) == t - t % 1_000_000
  {
    MillisOf(t);
  }

  lemma {:induction false} RereadTwice(t: i64)
    ensures Reread(Reread(t)) == Reread(t)
  {
    MillisOf(t);
    var r := Reread(t);
    var s, ms := Seconds(t), if LosesMillis(t) then 0 else Millis(t);
    assert r == s * 1_000_000_000 + ms * 1_000_000;
    assert Quot(r, 1_000_000) == s * 1000 + ms;
    assert Seconds(r) == s;
    assert Millis(r) == ms;
  }

  /** Five milliseconds before the epoch are read back as the epoch. */
  lemma {:induction false} FiveMillisAreLost(c: Calendar)
    requires IsCalendar(c)
    ensures FromIso(c, ToIso(c, -5_000_000)) == 0
  {
    FromIsoOfToIso(c, -5_000_000);
    assert Quot(-5_000_000, 1_000_000) == -5;
  }

  // ---- the text -----------------------------------------------------------------------------------

  lemma {:induction false} PaddedLength(d: string)
    requires |d| <= 3
    ensures |Padded(d)| == 3
    decreases 3 - |d|
  {
    if |d| < 3 { PaddedLength("0" + d); }
  }

  /** A time from the epoch on is written as its second, a dot, three digits of milliseconds and a Z. */
  lemma {:induction false} IsoText(c: Calendar, t: i64) returns (digits: string)
    requires t >= 0
    ensures |digits| == 3 && Decimal.AllDigits(digits) && Decimal.Value(digits) == t / 1_000_000 % 1000
    ensures ToIso(c, t) == c.write(t / 1_000_000_000) + "." + digits + "Z"
  {
    var ms := Millis(t);
    MillisOf(t);
    digits := Padded(PrintInt(ms));
    PrintLength(ms);
    PaddedLength(Decimal.Print(ms));
    PaddedDigits(Decimal.Print(ms));
    Decimal.ValueOfPrint(ms);
    assert t / 1_000_000 % 1000 == ms;
  }

  /** A text without a fraction is read to the second, a text without a date as the epoch. */
  lemma {:induction false} TextsWithoutFraction(c: Calendar, s: string, seconds: int)
    requires InRange(seconds) && '.' !in s
    ensures c.read(s) == Some(seconds) ==> FromIso(c, s) == seconds * 1_000_000_000
    ensures c.read(s) == None ==> FromIso(c, s) == 0
  {
    NoDot(s);
  }

  lemma {:induction false} NoDot(s: string)
    requires '.' !in s
    ensures AfterDot(s) == None
  {
    if s != "" {
      assert s[0] in s && forall c :: c in s[1..] ==> c in s;
      NoDot(s[1..]);
    }
  }
}
