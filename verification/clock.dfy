/** The elapsed-time clock of the live feed: a seconds counter that a
    one-second timer increments and renders as zero-padded HH:MM:SS. */
module ElapsedClock {

  datatype Option<T> = None | Some(value: T)

  /** The three fields shown by the clock. */
  datatype ClockFields = ClockFields(hours: nat, minutes: nat, seconds: nat)

  /** Hours, minutes and seconds by integer division and remainder. */
  function Decompose(n: nat): (f: ClockFields)
    ensures f.minutes < 60 && f.seconds < 60
    ensures f.hours * 3600 + f.minutes * 60 + f.seconds == n
  {
    ClockFields(n / 3600, (n % 3600) / 60, n % 60)
  }

  /** Any split of n with minutes and seconds below 60 is the one Decompose computes. */
  lemma DecomposeUnique(n: nat, f: ClockFields)
    requires f.minutes < 60 && f.seconds < 60
    requires f.hours * 3600 + f.minutes * 60 + f.seconds == n
    ensures f == Decompose(n)
  {
    var q := f.hours * 60 + f.minutes;
    assert n == q * 60 + f.seconds;
    assert n % 60 == f.seconds && n / 60 == q;
    assert f.minutes * 60 + f.seconds < 3600;
    assert n == f.hours * 3600 + (f.minutes * 60 + f.seconds);
    assert n / 3600 == f.hours && n % 3600 == f.minutes * 60 + f.seconds;
    assert (f.minutes * 60 + f.seconds) / 60 == f.minutes;
  }

  predicate IsDigit(c: char) {
    '0' <= c <= '9'
  }

  predicate AllDigits(s: string) {
    forall i :: 0 <= i < |s| ==> IsDigit(s[i])
  }

  function DigitChar(d: nat): (c: char)
    requires d < 10
    ensures IsDigit(c) && c as int - '0' as int == d
  {
    ('0' as int + d) as char
  }

  /** The decimal text of n, as Number.prototype.toString gives it for a
      non-negative integer: no sign, no leading zeros. */
  function Digits(n: nat): (r: string)
    ensures |r| >= 1 && AllDigits(r)
    ensures r[0] == '0' ==> n == 0
    ensures |r| == 1 <==> n < 10
    ensures n < 100 <==> |r| <= 2
  {
    if n < 10 then [DigitChar(n)] else Digits(n / 10) + [DigitChar(n % 10)]
  }

  /** The number a string of decimal digits denotes (the partner of Digits). */
  function Value(s: string): nat
    requires AllDigits(s)
  {
    if s == [] then 0 else Value(s[..|s| - 1]) * 10 + (s[|s| - 1] as int - '0' as int)
  }

  lemma {:induction false} ValueOfDigits(n: nat)
    ensures Value(Digits(n)) == n
  {
    if n >= 10 {
      var d := Digits(n / 10);
      ValueOfDigits(n / 10);
      assert (d + [DigitChar(n % 10)])[..|d|] == d;
    }
  }

  function Zeros(k: nat): (z: string)
    ensures |z| == k && forall i :: 0 <= i < k ==> z[i] == '0'
  {
    if k == 0 then [] else Zeros(k - 1) + ['0']
  }

  /** Leading zeros do not change the value of a digit string. */
  lemma {:induction false} ValueIgnoresLeadingZeros(k: nat, s: string)
    requires AllDigits(s)
    ensures AllDigits(Zeros(k) + s) && Value(Zeros(k) + s) == Value(s)
  {
    var z := Zeros(k);
    if s == [] {
      assert z + s == z;
      ZerosValue(k);
    } else {
      var init := s[..|s| - 1];
      ValueIgnoresLeadingZeros(k, init);
      assert (z + s)[..|z + s| - 1] == z + init;
    }
  }

  lemma {:induction false} ZerosValue(k: nat)
    ensures AllDigits(Zeros(k)) && Value(Zeros(k)) == 0
  {
    if k > 0 {
      ZerosValue(k - 1);
      assert Zeros(k)[..k - 1] == Zeros(k - 1);
    }
  }

  /** String.prototype.padStart(2, '0'): a string shorter than two
      characters is padded on the left with '0'; a longer one is kept. */
  function PadStart2(s: string): (r: string)
    ensures |r| == if |s| >= 2 then |s| else 2
    ensures r[|r| - |s|..] == s
    ensures forall i :: 0 <= i < |r| - |s| ==> r[i] == '0'
  {
    if |s| >= 2 then s else Zeros(2 - |s|) + s
  }

  /** One rendered clock field: the decimal text padded to two characters. */
  function Field(n: nat): (r: string)
    ensures AllDigits(r) && |r| >= 2
    ensures |r| == 2 <==> n < 100
  {
    PadStart2(Digits(n))
  }

  /** A field reads back as the number it renders. */
  lemma FieldValue(n: nat)
    ensures Value(Field(n)) == n
  {
    var d := Digits(n);
    ValueOfDigits(n);
    if |d| < 2 {
      ValueIgnoresLeadingZeros(2 - |d|, d);
    }
  }

  /** The three fields joined by ':': each field sits whole between the
      separators, so nothing is lost. */
  function Join(h: string, m: string, s: string): (t: string)
    ensures |t| == |h| + |m| + |s| + 2
    ensures t[..|h|] == h && t[|h|] == ':'
    ensures t[|h| + 1..|h| + 1 + |m|] == m && t[|h| + 1 + |m|] == ':'
    ensures t[|h| + 2 + |m|..] == s
  {
    var t := h + [':'] + m + [':'] + s;
    assert t[..|h|] == h;
    assert t[|h| + 1..|h| + 1 + |m|] == m;
    assert t[|h| + 2 + |m|..] == s;
    t
  }

  /** With two-character minute and second fields, the two separators sit
      at fixed distances from the end and the fields can be cut back out. */
  lemma JoinSplit(h: string, m: string, s: string)
    requires |m| == 2 && |s| == 2
    ensures var t := Join(h, m, s);
      |t| == |h| + 6 && t[|t| - 3] == ':' && t[|t| - 6] == ':' &&
      t[..|t| - 6] == h && t[|t| - 5..|t| - 3] == m && t[|t| - 2..] == s
  {
    var t := Join(h, m, s);
    assert t == h + [':'] + m + [':'] + s;
    assert t[..|h|] == h;
    assert t[|h| + 1..|h| + 3] == m;
    assert t[|h| + 4..] == s;
  }

  /** The text of the clock after n seconds: h + ":" + m + ":" + s. It is
      at least "HH:MM:SS" long, the separators sit at fixed places from the
      end, and it is exactly eight characters for the first hundred hours. */
  function FormatElapsed(n: nat): (t: string)
    ensures |t| >= 8 && t[|t| - 3] == ':' && t[|t| - 6] == ':'
    ensures n < 360000 <==> |t| == 8
  {
    var f := Decompose(n);
    var h, m, s := Field(f.hours), Field(f.minutes), Field(f.seconds);
    JoinSplit(h, m, s);
    assert n < 360000 <==> f.hours < 100;
    Join(h, m, s)
  }

  /** Reads back a clock text: at least two hour digits, then ":MM:SS". */
  function ParseElapsed(t: string): Option<nat> {
    if |t| < 8 || t[|t| - 3] != ':' || t[|t| - 6] != ':' then None
    else ParseFields(t[..|t| - 6], t[|t| - 5..|t| - 3], t[|t| - 2..])
  }

  /** Reads the three fields cut out of a clock text. */
  function ParseFields(hh: string, mm: string, ss: string): Option<nat> {
    if !AllDigits(hh) || !AllDigits(mm) || !AllDigits(ss) then None
    else if Value(mm) >= 60 || Value(ss) >= 60 then None
    else Some(Value(hh) * 3600 + Value(mm) * 60 + Value(ss))
  }

  /** Parsing undoes joining digit strings that denote a valid split of
      n: two-digit minutes and seconds below 60, hours of any length. */
  lemma ParseJoin(h: string, m: string, s: string, n: nat, f: ClockFields)
    requires |h| >= 2 && |m| == 2 && |s| == 2
    requires AllDigits(h) && AllDigits(m) && AllDigits(s)
    requires Value(h) == f.hours && Value(m) == f.minutes && Value(s) == f.seconds
    requires f.minutes < 60 && f.seconds < 60
    requires f.hours * 3600 + f.minutes * 60 + f.seconds == n
    ensures ParseElapsed(Join(h, m, s)) == Some(n)
  {
    SplitJoin(h, m, s);
    ReadFields(h, m, s, n, f);
  }

  /** The clock text built by Join is cut back into the same three fields. */
  lemma SplitJoin(h: string, m: string, s: string)
    requires |h| >= 2 && |m| == 2 && |s| == 2
    ensures ParseElapsed(Join(h, m, s)) == ParseFields(h, m, s)
  {
    JoinSplit(h, m, s);
  }

  lemma ReadFields(h: string, m: string, s: string, n: nat, f: ClockFields)
    requires AllDigits(h) && AllDigits(m) && AllDigits(s)
    requires Value(h) == f.hours && Value(m) == f.minutes && Value(s) == f.seconds
    requires f.minutes < 60 && f.seconds < 60
    requires f.hours * 3600 + f.minutes * 60 + f.seconds == n
    ensures ParseFields(h, m, s) == Some(n)
  {
  }

  /** The clock text determines the seconds counter it was rendered from. */
  lemma RoundTrip(n: nat)
    ensures ParseElapsed(FormatElapsed(n)) == Some(n)
  {
    FieldsRoundTrip(n, Decompose(n));
  }

  /** Rendering any valid split of n reads back as n. */
  lemma FieldsRoundTrip(n: nat, f: ClockFields)
    requires f.minutes < 60 && f.seconds < 60
    requires f.hours * 3600 + f.minutes * 60 + f.seconds == n
    ensures ParseElapsed(Join(Field(f.hours), Field(f.minutes), Field(f.seconds))) == Some(n)
  {
    FieldValue(f.hours);
    FieldValue(f.minutes);
    FieldValue(f.seconds);
    ParseJoin(Field(f.hours), Field(f.minutes), Field(f.seconds), n, f);
  }

  /** Distinct counter values never render the same text. */
  lemma FormatInjective(a: nat, b: nat)
    requires FormatElapsed(a) == FormatElapsed(b)
    ensures a == b
  {
    RoundTrip(a);
    RoundTrip(b);
  }

  /** The #feedTime element together with the counter its timer owns. */
  class FeedTime {
    var seconds: nat
    var text: string

    /** Before the first tick the element shows whatever the markup holds. */
    constructor (markupText: string)
      ensures seconds == 0 && text == markupText
    {
      seconds := 0;
      text := markupText;
    }

    /** One firing of the one-second interval. */
    method Tick()
      modifies this
      ensures seconds == old(seconds) + 1
      ensures text == FormatElapsed(seconds)
      ensures ParseElapsed(text) == Some(seconds)
    {
      seconds := seconds + 1;
      var f := Decompose(seconds);
      text := Join(Field(f.hours), Field(f.minutes), Field(f.seconds));
      RoundTrip(seconds);
    }
  }
}
