/** Python's naive `datetime`: its fields, its ordering, `date()`, and the
    `isoformat()` / `fromisoformat()` pair that result serialisation goes through. */
module DateTimes {
  import opened Wrappers
  import opened Text

  datatype DateTime = DateTime(year: int, month: int, day: int,
                               hour: int, minute: int, second: int, microsecond: int)

  datatype Date = Date(year: int, month: int, day: int)

  predicate IsLeap(y: int)
  {
    y % 4 == 0 && (y % 100 != 0 || y % 400 == 0)
  }

  function DaysInMonth(y: int, m: int): int
    requires 1 <= m <= 12
  {
    if m == 2 then (if IsLeap(y) then 29 else 28)
    else if m == 4 || m == 6 || m == 9 || m == 11 then 30
    else 31
  }

  /** The values `datetime` admits: years 1 to 9999 and real calendar days. */
  predicate Valid(t: DateTime)
  {
    && 1 <= t.year <= 9999
    && 1 <= t.month <= 12
    && 1 <= t.day <= DaysInMonth(t.year, t.month)
    && 0 <= t.hour < 24 && 0 <= t.minute < 60 && 0 <= t.second < 60
    && 0 <= t.microsecond < 1000000
  }

  /** A `datetime` object: it can only hold a valid date and time. */
  type Timestamp = t: DateTime | Valid(t) witness DateTime(1, 1, 1, 0, 0, 0, 0)

  function ToDate(t: DateTime): Date
  {
    Date(t.year, t.month, t.day)
  }

  /** Chronological order of timestamps (`<` on `datetime`). */
  predicate Before(a: DateTime, b: DateTime)
  {
    if a.year != b.year then a.year < b.year
    else if a.month != b.month then a.month < b.month
    else if a.day != b.day then a.day < b.day
    else if a.hour != b.hour then a.hour < b.hour
    else if a.minute != b.minute then a.minute < b.minute
    else if a.second != b.second then a.second < b.second
    else a.microsecond < b.microsecond
  }

  /** `<` on `datetime` is a strict total order: no timestamp precedes itself,
      two different ones are ordered one way, and the order chains. */
  lemma BeforeIsStrictTotal(a: DateTime, b: DateTime, c: DateTime)
    ensures !Before(a, a)
    ensures a != b ==> (Before(a, b) <==> !Before(b, a))
    ensures Before(a, b) && Before(b, c) ==> Before(a, c)
  {
  }

  /** Chronological order of dates (`<` on `date`). */
  predicate DateBefore(a: Date, b: Date)
  {
    if a.year != b.year then a.year < b.year
    else if a.month != b.month then a.month < b.month
    else a.day < b.day
  }

  /** `YYYY-MM-DDTHH:MM:SS`, the part of `isoformat()` that is always present. */
  function BaseFormat(t: DateTime): (s: string)
    requires Valid(t)
    ensures |s| == 19
  {
    Joined(FixedDigits(t.year, 4), '-', FixedDigits(t.month, 2), '-', FixedDigits(t.day, 2))
    + "T" + Joined(FixedDigits(t.hour, 2), ':', FixedDigits(t.minute, 2), ':', FixedDigits(t.second, 2))
  }

  /** Three fields with a separator between each two. */
  function Joined(a: string, x: char, b: string, y: char, c: string): string
  {
    a + [x] + b + [y] + c
  }

  /** Where the fields and separators of `Joined` sit. */
  lemma JoinedLayout(a: string, x: char, b: string, y: char, c: string)
    ensures var s, i, j := Joined(a, x, b, y, c), |a|, |a| + 1 + |b|;
      && |s| == j + 1 + |c|
      && s[i] == x && s[j] == y
      && s[..i] == a && s[i + 1..j] == b && s[j + 1..] == c
  {
    var s := Joined(a, x, b, y, c);
    assert s == (a + [x] + b) + ([y] + c);
    assert (a + [x] + b) == a + ([x] + b);
  }

  /** `datetime.isoformat()`: `YYYY-MM-DDTHH:MM:SS`, followed by `.ffffff`
      only when the microsecond is not zero. */
  function IsoFormat(t: DateTime): (s: string)
    requires Valid(t)
    ensures |s| == (if t.microsecond == 0 then 19 else 26)
  {
    if t.microsecond == 0 then BaseFormat(t) else BaseFormat(t) + "." + FixedDigits(t.microsecond, 6)
  }

  /** The digits at positions `[i, j)` of `s`, when they are all digits. */
  function Field(s: string, i: nat, j: nat): Option<nat>
    requires i <= j <= |s|
  {
    if AllDigits(s[i..j]) then Some(ParseDigits(s[i..j])) else None
  }

  /** `datetime.fromisoformat(s)` restricted to the two shapes `isoformat()`
      produces, `YYYY-MM-DDTHH:MM:SS` and `YYYY-MM-DDTHH:MM:SS.ffffff`. `None`
      stands for a refusal. Python also accepts other shapes (a date alone, a
      space for the `T`, no seconds, three-digit fractions, a UTC offset);
      this parser refuses them. */
  function FromIsoFormat(s: string): (r: Option<DateTime>)
    ensures r.Some? ==> Valid(r.value)
  {
    if !(|s| == 19 || (|s| == 26 && s[19] == '.')) then None
    else if s[4] != '-' || s[7] != '-' || s[10] != 'T' || s[13] != ':' || s[16] != ':' then None
    else
      var y, mo, d := Field(s, 0, 4), Field(s, 5, 7), Field(s, 8, 10);
      var h, mi, se := Field(s, 11, 13), Field(s, 14, 16), Field(s, 17, 19);
      var us := if |s| == 26 then Field(s, 20, 26) else Some(0);
      if y.None? || mo.None? || d.None? || h.None? || mi.None? || se.None? || us.None? then None
      else
        var t := DateTime(y.value, mo.value, d.value, h.value, mi.value, se.value, us.value);
        if Valid(t) then Some(t) else None
  }

  lemma FixedDigitsExact(n: nat, w: nat)
    requires n < Pow10(w)
    ensures ParseDigits(FixedDigits(n, w)) == n
  {
    FixedDigitsValue(n, w);
    ModUnique(n, Pow10(w), 0, n);
  }

  /** A field written with `FixedDigits` reads back as its value. */
  lemma FieldOf(s: string, i: nat, j: nat, n: nat, w: nat)
    requires i <= j <= |s| && n < Pow10(w) && s[i..j] == FixedDigits(n, w)
    ensures Field(s, i, j) == Some(n)
  {
    FixedDigitsExact(n, w);
  }

  /** Where each field of a timestamp sits in `BaseFormat`. */
  lemma BaseLayout(t: DateTime)
    requires Valid(t)
    ensures var b := BaseFormat(t);
      && b[4] == '-' && b[7] == '-' && b[10] == 'T' && b[13] == ':' && b[16] == ':'
      && b[0..4] == FixedDigits(t.year, 4) && b[5..7] == FixedDigits(t.month, 2)
      && b[8..10] == FixedDigits(t.day, 2) && b[11..13] == FixedDigits(t.hour, 2)
      && b[14..16] == FixedDigits(t.minute, 2) && b[17..19] == FixedDigits(t.second, 2)
  {
    var d := Joined(FixedDigits(t.year, 4), '-', FixedDigits(t.month, 2), '-', FixedDigits(t.day, 2));
    var h := Joined(FixedDigits(t.hour, 2), ':', FixedDigits(t.minute, 2), ':', FixedDigits(t.second, 2));
    JoinedLayout(FixedDigits(t.year, 4), '-', FixedDigits(t.month, 2), '-', FixedDigits(t.day, 2));
    JoinedLayout(FixedDigits(t.hour, 2), ':', FixedDigits(t.minute, 2), ':', FixedDigits(t.second, 2));
    var b := BaseFormat(t);
    assert b == d + "T" + h;
    assert b[..10] == d && b[11..] == h;
    assert b[0..4] == d[..4];
    assert b[5..7] == d[5..7];
    assert b[8..10] == d[8..];
    assert b[11..13] == h[..2];
    assert b[14..16] == h[3..5];
    assert b[17..19] == h[6..];
  }

  /** A string of the right shape whose fields read back as those of `t` parses to `t`. */
  lemma ParseFields(s: string, t: DateTime)
    requires Valid(t)
    requires |s| == 19 || (|s| == 26 && s[19] == '.')
    requires s[4] == '-' && s[7] == '-' && s[10] == 'T' && s[13] == ':' && s[16] == ':'
    requires Field(s, 0, 4) == Some(t.year) && Field(s, 5, 7) == Some(t.month)
    requires Field(s, 8, 10) == Some(t.day) && Field(s, 11, 13) == Some(t.hour)
    requires Field(s, 14, 16) == Some(t.minute) && Field(s, 17, 19) == Some(t.second)
    requires if |s| == 26 then Field(s, 20, 26) == Some(t.microsecond) else t.microsecond == 0
    ensures FromIsoFormat(s) == Some(t)
  {
  }

  /** Every field of `BaseFormat(t)` reads back as the field of `t`. */
  lemma BaseFields(t: DateTime)
    requires Valid(t)
    ensures var b := BaseFormat(t);
      && Field(b, 0, 4) == Some(t.year) && Field(b, 5, 7) == Some(t.month)
      && Field(b, 8, 10) == Some(t.day) && Field(b, 11, 13) == Some(t.hour)
      && Field(b, 14, 16) == Some(t.minute) && Field(b, 17, 19) == Some(t.second)
  {
    var b := BaseFormat(t);
    assert Pow10(2) == 100 && Pow10(4) == 10000;
    BaseLayout(t);
    FieldOf(b, 0, 4, t.year, 4);
    FieldOf(b, 5, 7, t.month, 2);
    FieldOf(b, 8, 10, t.day, 2);
    FieldOf(b, 11, 13, t.hour, 2);
    FieldOf(b, 14, 16, t.minute, 2);
    FieldOf(b, 17, 19, t.second, 2);
  }

  /** A field inside a prefix reads the same in the whole string. */
  lemma FieldInPrefix(b: string, s: string, i: nat, j: nat)
    requires i <= j <= |b| <= |s| && s[..|b|] == b
    ensures Field(s, i, j) == Field(b, i, j)
  {
    forall k | 0 <= k < j - i
      ensures s[i..j][k] == b[i..j][k]
    {
      assert s[i + k] == s[..|b|][i + k];
    }
    assert s[i..j] == b[i..j];
  }

  /** `isoformat(t)` has the separators `fromisoformat` expects, and each of
      its fields reads back as the field of `t`. */
  lemma IsoLayout(t: DateTime)
    requires Valid(t)
    ensures var s := IsoFormat(t);
      && (|s| == 19 || (|s| == 26 && s[19] == '.'))
      && s[4] == '-' && s[7] == '-' && s[10] == 'T' && s[13] == ':' && s[16] == ':'
      && Field(s, 0, 4) == Some(t.year) && Field(s, 5, 7) == Some(t.month)
      && Field(s, 8, 10) == Some(t.day) && Field(s, 11, 13) == Some(t.hour)
      && Field(s, 14, 16) == Some(t.minute) && Field(s, 17, 19) == Some(t.second)
      && if |s| == 26 then Field(s, 20, 26) == Some(t.microsecond) else t.microsecond == 0
  {
    var s, b := IsoFormat(t), BaseFormat(t);
    BaseLayout(t);
    BaseFields(t);
    if t.microsecond != 0 {
      var f := FixedDigits(t.microsecond, 6);
      assert s == b + "." + f;
      DotLayout(b, f);
      FieldInPrefix(b, s, 0, 4);
      FieldInPrefix(b, s, 5, 7);
      FieldInPrefix(b, s, 8, 10);
      FieldInPrefix(b, s, 11, 13);
      FieldInPrefix(b, s, 14, 16);
      FieldInPrefix(b, s, 17, 19);
      assert Pow10(6) == 1000000;
      FieldOf(s, 20, 26, t.microsecond, 6);
    }
  }

  /** Where the parts of `b + "." + f` sit. */
  lemma DotLayout(b: string, f: string)
    ensures var s := b + "." + f;
      s[..|b|] == b && s[|b|] == '.' && s[|b| + 1..|s|] == f
  {
  }

  /** `fromisoformat(isoformat(t)) == t` for every valid timestamp. */
  lemma IsoRoundTrip(t: DateTime)
    requires Valid(t)
    ensures FromIsoFormat(IsoFormat(t)) == Some(t)
  {
    IsoLayout(t);
    ParseFields(IsoFormat(t), t);
  }

  /** `isoformat` is injective on valid timestamps, so the text loses nothing. */
  lemma IsoFormatInjective(a: DateTime, b: DateTime)
    requires Valid(a) && Valid(b) && IsoFormat(a) == IsoFormat(b)
    ensures a == b
  {
    IsoRoundTrip(a);
    IsoRoundTrip(b);
  }
}
