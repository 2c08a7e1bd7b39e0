/**
  * Timestamps as text (src/recovery.rs): a millisecond count printed in the form of section 5.6 of
  * RFC 3339, read back by an independent reader, and compared as text.
  */
module Timestamp {
  import opened Wrappers
  import opened CivilDate
  import opened Decimal

  // ---------- padded numbers ----------

  function Zeros(n: nat): (s: string)
    ensures |s| == n && forall i | 0 <= i < n :: s[i] == '0'
  {
    seq(n, i => '0')
  }

  /** Decimal digits, filled with zeros on the left up to `width`. */
  function Padded(n: nat, width: nat): (s: string)
    ensures s != [] && forall i | 0 <= i < |s| :: IsDigit(s[i])
  {
    var digits := Digits(n);
    if |digits| < width then Zeros(width - |digits|) + digits else digits
  }

  function Pow10(n: nat): (r: nat)
    ensures r > 0
  {
    if n == 0 then 1 else 10 * Pow10(n - 1)
  }

  /** The last `width` digits. */
  function Fixed(n: nat, width: nat): (s: string)
    ensures |s| == width
  {
    if width == 0 then [] else Fixed(n / 10, width - 1) + [Digit(n % 10)]
  }

  lemma {:induction false} ValueOfZeros(k: nat, s: string)
    requires forall i | 0 <= i < |s| :: IsDigit(s[i])
    ensures Value(Zeros(k) + s) == Value(s)
    decreases |s|, k
  {
    var t := Zeros(k) + s;
    if s != [] {
      ValueOfZeros(k, s[..|s| - 1]);
      assert t[..|t| - 1] == Zeros(k) + s[..|s| - 1];
    } else if k > 0 {
      ValueOfZeros(k - 1, s);
      assert t[..k - 1] == Zeros(k - 1) + s;
    }
  }

  lemma ValueOfPadded(n: nat, width: nat)
    ensures Value(Padded(n, width)) == n
  {
    ValueOfDigits(n);
    if |Digits(n)| < width { ValueOfZeros(width - |Digits(n)|, Digits(n)); }
  }

  lemma {:induction false} ZerosAreFixed(width: nat)
    ensures Fixed(0, width) == Zeros(width)
  {
    if width > 0 { ZerosAreFixed(width - 1); }
  }

  /** A number that fits its width is printed with exactly that width. */
  lemma {:induction false} PaddedIsFixed(n: nat, width: nat)
    requires width > 0 && n < Pow10(width)
    ensures Padded(n, width) == Fixed(n, width)
    decreases width
  {
    if n < 10 {
      ZerosAreFixed(width - 1);
      assert Padded(n, width) == Zeros(width - 1) + [Digit(n)];
    } else {
      PaddedIsFixed(n / 10, width - 1);
      assert Padded(n, width) == Padded(n / 10, width - 1) + [Digit(n % 10)];
    }
  }

  // ---------- text order ----------

  /** `s` sorts before `t`. */
  predicate Less(s: string, t: string) {
    t != [] && (s == [] || s[0] < t[0] || (s[0] == t[0] && Less(s[1..], t[1..])))
  }

  lemma {:induction false} LessConcat(a: string, b: string, c: string, d: string)
    requires |a| == |b|
    ensures Less(a + c, b + d) <==> Less(a, b) || (a == b && Less(c, d))
    decreases |a|
  {
    if a == [] {
      assert a + c == c && b + d == d;
    } else {
      LessConcat(a[1..], b[1..], c, d);
      assert (a + c)[1..] == a[1..] + c && (b + d)[1..] == b[1..] + d;
      assert a == [a[0]] + a[1..] && b == [b[0]] + b[1..];
    }
  }

  lemma {:induction false} FixedOrder(m: nat, n: nat, width: nat)
    requires m < Pow10(width) && n < Pow10(width)
    ensures Less(Fixed(m, width), Fixed(n, width)) <==> m < n
    ensures Fixed(m, width) == Fixed(n, width) <==> m == n
    decreases width
  {
    if width > 0 {
      FixedOrder(m / 10, n / 10, width - 1);
      var a, b := Fixed(m / 10, width - 1), Fixed(n / 10, width - 1);
      var x, y := Digit(m % 10), Digit(n % 10);
      LessConcat(a, b, [x], [y]);
      assert Less([x], [y]) <==> x < y;
      assert (a + [x])[..width - 1] == a && (b + [y])[..width - 1] == b;
      assert (a + [x])[width - 1] == x && (b + [y])[width - 1] == y;
    }
  }

  // ---------- fields ----------

  /** A padded number and the character after it. */
  datatype Field = Field(value: nat, width: nat, end: char)

  function Text(fields: seq<Field>): string {
    if fields == [] then []
    else Padded(fields[0].value, fields[0].width) + [fields[0].end] + Text(fields[1..])
  }

  function Values(fields: seq<Field>): seq<nat> {
    seq(|fields|, i requires 0 <= i < |fields| => fields[i].value)
  }

  function Ends(fields: seq<Field>): string {
    seq(|fields|, i requires 0 <= i < |fields| => fields[i].end)
  }

  function DigitRun(t: string): (n: nat)
    ensures n <= |t| && forall i | 0 <= i < n :: IsDigit(t[i])
    ensures n < |t| ==> !IsDigit(t[n])
  {
    if t == [] || !IsDigit(t[0]) then 0 else 1 + DigitRun(t[1..])
  }

  /** Numbers of any width, each followed by the given character. */
  function Read(t: string, ends: string): Option<seq<nat>> {
    if ends == [] then (if t == [] then Some([]) else None)
    else
      var n := DigitRun(t);
      if n == 0 || n == |t| || t[n] != ends[0] then None
      else
        match Read(t[n + 1..], ends[1..])
        case None => None
        case Some(rest) => Some([Value(t[..n])] + rest)
  }

  lemma DigitRunIs(t: string, n: nat)
    requires n < |t| && !IsDigit(t[n]) && forall i | 0 <= i < n :: IsDigit(t[i])
    ensures DigitRun(t) == n
  {
    var k := DigitRun(t);
    assert !(k < n) && !(n < k);
  }

  lemma ReadCons(p: string, end: char, text: string, ends: string, rest: seq<nat>)
    requires p != [] && (forall i | 0 <= i < |p| :: IsDigit(p[i])) && !IsDigit(end)
    requires Read(text, ends) == Some(rest)
    ensures Read(p + [end] + text, [end] + ends) == Some([Value(p)] + rest)
  {
    var t, all := p + [end] + text, [end] + ends;
    assert t[..|p|] == p && t[|p|] == end && t[|p| + 1..] == text;
    assert all[0] == end && all[1..] == ends;
    DigitRunIs(t, |p|);
  }

  lemma FieldsCons(fields: seq<Field>)
    requires fields != []
    ensures Ends(fields) == [fields[0].end] + Ends(fields[1..])
    ensures Values(fields) == [fields[0].value] + Values(fields[1..])
  {
  }

  /** Reading the printed fields gives their values back. */
  lemma {:induction false} ReadText(fields: seq<Field>)
    requires forall i | 0 <= i < |fields| :: !IsDigit(fields[i].end)
    ensures Read(Text(fields), Ends(fields)) == Some(Values(fields))
    decreases |fields|
  {
    if fields == [] {
      assert Ends(fields) == [] && Values(fields) == [];
    } else {
      var f, rest := fields[0], fields[1..];
      ReadText(rest);
      ValueOfPadded(f.value, f.width);
      FieldsCons(fields);
      ReadCons(Padded(f.value, f.width), f.end, Text(rest), Ends(rest), Values(rest));
    }
  }

  /** Order of two number sequences of the same length, first difference first. */
  predicate Earlier(a: seq<nat>, b: seq<nat>)
    requires |a| == |b|
  {
    a != [] && (a[0] < b[0] || (a[0] == b[0] && Earlier(a[1..], b[1..])))
  }

  predicate SameLayout(fields: seq<Field>, others: seq<Field>) {
    && |fields| == |others|
    && forall i | 0 <= i < |fields| ::
         && fields[i].width == others[i].width > 0 && fields[i].end == others[i].end
         && fields[i].value < Pow10(fields[i].width) && others[i].value < Pow10(others[i].width)
  }

  lemma PaddedOrder(m: nat, n: nat, width: nat)
    requires width > 0 && m < Pow10(width) && n < Pow10(width)
    ensures |Padded(m, width)| == |Padded(n, width)|
    ensures Less(Padded(m, width), Padded(n, width)) <==> m < n
    ensures Padded(m, width) == Padded(n, width) <==> m == n
  {
    PaddedIsFixed(m, width);
    PaddedIsFixed(n, width);
    FixedOrder(m, n, width);
  }

  lemma OrderCons(a: string, b: string, end: char, r: string, q: string)
    requires |a| == |b|
    ensures Less(a + [end] + r, b + [end] + q) <==> Less(a, b) || (a == b && Less(r, q))
  {
    LessConcat(a + [end], b + [end], r, q);
    LessConcat(a, b, [end], [end]);
    assert (a + [end])[..|a|] == a && (b + [end])[..|a|] == b;
  }

  lemma EarlierCons(x: nat, y: nat, a: seq<nat>, b: seq<nat>)
    requires |a| == |b|
    ensures Earlier([x] + a, [y] + b) <==> x < y || (x == y && Earlier(a, b))
  {
    assert ([x] + a)[1..] == a && ([y] + b)[1..] == b;
  }

  /** Fields that fit their widths sort as text the way they sort as numbers. */
  lemma {:induction false} TextOrderIsFieldOrder(fields: seq<Field>, others: seq<Field>)
    requires SameLayout(fields, others)
    ensures Less(Text(fields), Text(others)) <==> Earlier(Values(fields), Values(others))
    decreases |fields|
  {
    if fields != [] {
      var f, g := fields[0], others[0];
      TextOrderIsFieldOrder(fields[1..], others[1..]);
      PaddedOrder(f.value, g.value, f.width);
      OrderCons(Padded(f.value, f.width), Padded(g.value, g.width), f.end, Text(fields[1..]), Text(others[1..]));
      FieldsCons(fields);
      FieldsCons(others);
      EarlierCons(f.value, g.value, Values(fields[1..]), Values(others[1..]));
    }
  }

  // ---------- timestamps ----------

  /** A date and a time of day. */
  datatype Moment = Moment(date: Date, hour: nat, minute: nat, second: nat, millisecond: nat) {
    predicate Valid() {
      ValidDate(date) && date.year >= 0 && hour < 24 && minute < 60 && second < 60 && millisecond < 1_000
    }

    /** Milliseconds since 1970-01-01 00:00:00. */
    function Millis(): int
      requires ValidDate(date)
    {
      (((DaysFromCivil(date) * 24 + hour) * 60 + minute) * 60 + second) * 1_000 + millisecond
    }

    /** With a year of at least `width` digits. */
    function Wide(width: nat): seq<Field>
      requires Valid()
    {
      [Field(date.year, width, '-'), Field(date.month, 2, '-'), Field(date.day, 2, 'T'),
       Field(hour, 2, ':'), Field(minute, 2, ':'), Field(second, 2, '.'), Field(millisecond, 3, 'Z')]
    }

    function Fields(): seq<Field>
      requires Valid()
    {
      Wide(4)
    }
  }

  /** The time of day of `millis`, on the given date. */
  function OnDate(date: Date, millis: nat): Moment {
    var inDay := millis / 1_000 % 86_400;
    Moment(date, inDay / 3_600, inDay % 3_600 / 60, inDay % 60, millis % 1_000)
  }

  function Day(millis: nat): nat {
    millis / 1_000 / 86_400
  }

  function MomentOf(millis: nat): Moment {
    OnDate(FromDays(Day(millis)), millis)
  }

  lemma AfterEpoch(days: nat)
    ensures FromDays(days).year >= 1970
  {
    var d := FromDays(days);
    FromDaysInverts(days);
    if d.year < 1970 { DaysFromCivilOrders(d, EPOCH); }
  }

  lemma TimeOfDay(millis: nat, days: int)
    requires days == Day(millis)
    ensures
      var inDay := millis / 1_000 % 86_400;
      && inDay / 3_600 < 24 && inDay % 3_600 / 60 < 60 && inDay % 60 < 60
      && (((days * 24 + inDay / 3_600) * 60 + inDay % 3_600 / 60) * 60 + inDay % 60) * 1_000 + millis % 1_000 == millis
  {
    var seconds := millis / 1_000;
    var inDay := seconds % 86_400;
    assert inDay == 3_600 * (inDay / 3_600) + inDay % 3_600;
    assert inDay % 3_600 == 60 * (inDay % 3_600 / 60) + inDay % 60;
  }

  lemma OnDateIsValid(date: Date, millis: nat)
    requires ValidDate(date) && date.year >= 0 && DaysFromCivil(date) == Day(millis)
    ensures OnDate(date, millis).Valid() && OnDate(date, millis).Millis() == millis
  {
    TimeOfDay(millis, DaysFromCivil(date));
  }

  lemma MomentIsValid(millis: nat)
    ensures MomentOf(millis).Valid() && MomentOf(millis).Millis() == millis
  {
    AfterEpoch(Day(millis));
    FromDaysInverts(Day(millis));
    OnDateIsValid(FromDays(Day(millis)), millis);
  }

  function FormatMillis(millis: nat): string {
    MomentIsValid(millis);
    Text(MomentOf(millis).Fields())
  }

  /** Hour, minute and second with two digits, milliseconds with three. */
  function TimeText(m: Moment): (t: string)
    ensures |t| == 13
  {
    Fixed(m.hour, 2) + (":" + (Fixed(m.minute, 2) + (":" + (Fixed(m.second, 2) + ("." + (Fixed(m.millisecond, 3) + "Z"))))))
  }

  /** The text after the year: month and day with two digits, then the time. */
  function FixedFields(m: Moment): (t: string)
    requires m.Valid()
    ensures |t| == 20
  {
    "-" + (Fixed(m.date.month, 2) + ("-" + (Fixed(m.date.day, 2) + ("T" + TimeText(m)))))
  }

  lemma FixedText(f: Field, rest: seq<Field>, text: string)
    requires f.width > 0 && f.value < Pow10(f.width) && Text(rest) == text
    ensures Text([f] + rest) == Fixed(f.value, f.width) + ([f.end] + text)
  {
    PaddedIsFixed(f.value, f.width);
    assert ([f] + rest)[1..] == rest;
  }

  function TimeFields(m: Moment): seq<Field> {
    [Field(m.hour, 2, ':')] + ([Field(m.minute, 2, ':')] + ([Field(m.second, 2, '.')] + ([Field(m.millisecond, 3, 'Z')] + [])))
  }

  lemma TimeIsFixed(m: Moment)
    requires m.Valid()
    ensures Text(TimeFields(m)) == TimeText(m)
  {
    assert Pow10(2) == 100 && Pow10(3) == 1_000;
    var milli := [Field(m.millisecond, 3, 'Z')] + [];
    FixedText(Field(m.millisecond, 3, 'Z'), [], "");
    var millis := Fixed(m.millisecond, 3) + ("Z" + "");
    assert "Z" + "" == "Z";
    FixedText(Field(m.second, 2, '.'), milli, millis);
    var second := [Field(m.second, 2, '.')] + milli;
    var seconds := Fixed(m.second, 2) + ("." + millis);
    FixedText(Field(m.minute, 2, ':'), second, seconds);
    FixedText(Field(m.hour, 2, ':'), [Field(m.minute, 2, ':')] + second, Fixed(m.minute, 2) + (":" + seconds));
  }

  lemma DateIsFixed(m: Moment, rest: seq<Field>)
    requires m.Valid() && Text(rest) == TimeText(m)
    ensures
      "-" + Text([Field(m.date.month, 2, '-')] + ([Field(m.date.day, 2, 'T')] + rest)) == FixedFields(m)
  {
    assert Pow10(2) == 100;
    FixedText(Field(m.date.day, 2, 'T'), rest, TimeText(m));
    FixedText(Field(m.date.month, 2, '-'), [Field(m.date.day, 2, 'T')] + rest, Fixed(m.date.day, 2) + ("T" + TimeText(m)));
  }

  lemma TextSplits(m: Moment)
    requires m.Valid()
    ensures Text(m.Fields()) == Padded(m.date.year, 4) + FixedFields(m)
  {
    var time := TimeFields(m);
    var rest := [Field(m.date.month, 2, '-')] + ([Field(m.date.day, 2, 'T')] + time);
    TimeIsFixed(m);
    DateIsFixed(m, time);
    assert m.Fields()[1..] == rest;
    assert Padded(m.date.year, 4) + "-" + Text(rest) == Padded(m.date.year, 4) + ("-" + Text(rest));
  }

  /** The layout of every timestamp: the year with at least four digits, then fields of fixed width;
      before the year 10000 the text has 24 characters. */
  lemma FormatLayout(millis: nat)
    ensures
      var m := MomentOf(millis);
      && m.Valid() && m.Millis() == millis
      && (m.date.year < 10_000 ==>
            FormatMillis(millis) == Fixed(m.date.year, 4) + FixedFields(m) && |FormatMillis(millis)| == 24)
      && (m.date.year >= 10_000 ==> FormatMillis(millis) == Digits(m.date.year) + FixedFields(m))
  {
    MomentIsValid(millis);
    var m := MomentOf(millis);
    TextSplits(m);
    assert Pow10(4) == 10_000;
    if m.date.year < 10_000 {
      PaddedIsFixed(m.date.year, 4);
    } else {
      FourDigits(m.date.year);
    }
  }

  /** An independent reader: numbers between fixed separators, and the calendar's day count. */
  function ParseMillis(t: string): Option<int> {
    match Read(t, "--T::.Z")
    case None => None
    case Some(v) =>
      if |v| != 7 then None
      else
        var m := Moment(Date(v[0], v[1], v[2]), v[3], v[4], v[5], v[6]);
        if m.Valid() then Some(m.Millis()) else None
  }

  lemma WideValues(m: Moment, width: nat)
    requires m.Valid()
    ensures
      Values(m.Wide(width)) ==
      [m.date.year, m.date.month, m.date.day, m.hour, m.minute, m.second, m.millisecond]
  {
  }

  lemma WideEnds(m: Moment, width: nat)
    requires m.Valid()
    ensures Ends(m.Wide(width)) == "--T::.Z"
  {
  }

  lemma ParseFields(m: Moment)
    requires m.Valid()
    ensures ParseMillis(Text(m.Fields())) == Some(m.Millis())
  {
    ReadText(m.Fields());
    WideEnds(m, 4);
    WideValues(m, 4);
  }

  /** A printed timestamp is read back as the same instant. */
  lemma FormatRoundTrips(millis: nat)
    ensures ParseMillis(FormatMillis(millis)) == Some(millis)
  {
    MomentIsValid(millis);
    ParseFields(MomentOf(millis));
  }

  // ---------- order ----------

  lemma EarlierOfSeven(a: seq<nat>, b: seq<nat>)
    requires |a| == 7 && |b| == 7
    ensures Earlier(a, b) <==>
      || a[0] < b[0]
      || (a[0] == b[0] && (a[1] < b[1]
      || (a[1] == b[1] && (a[2] < b[2]
      || (a[2] == b[2] && (a[3] < b[3]
      || (a[3] == b[3] && (a[4] < b[4]
      || (a[4] == b[4] && (a[5] < b[5]
      || (a[5] == b[5] && a[6] < b[6])))))))))))
  {
    EarlierFrom(a, b, 6);
    EarlierFrom(a, b, 5);
    EarlierFrom(a, b, 4);
    EarlierFrom(a, b, 3);
    EarlierFrom(a, b, 2);
    EarlierFrom(a, b, 1);
    assert a[7..] == [] && b[7..] == [];
  }

  lemma EarlierFrom(a: seq<nat>, b: seq<nat>, i: nat)
    requires i < |a| == |b|
    ensures Earlier(a[i..], b[i..]) <==> a[i] < b[i] || (a[i] == b[i] && Earlier(a[i + 1..], b[i + 1..]))
  {
    assert a[i..][1..] == a[i + 1..] && b[i..][1..] == b[i + 1..];
  }

  function TimeMillis(m: Moment): nat {
    ((m.hour * 60 + m.minute) * 60 + m.second) * 1_000 + m.millisecond
  }

  predicate EarlierTime(m: Moment, n: Moment) {
    || m.hour < n.hour
    || (m.hour == n.hour && (m.minute < n.minute
    || (m.minute == n.minute && (m.second < n.second
    || (m.second == n.second && m.millisecond < n.millisecond)))))
  }

  lemma TimeOrder(m: Moment, n: Moment)
    requires m.Valid() && n.Valid()
    ensures TimeMillis(m) < 86_400_000 && m.Millis() == 86_400_000 * DaysFromCivil(m.date) + TimeMillis(m)
    ensures EarlierTime(m, n) <==> TimeMillis(m) < TimeMillis(n)
  {
  }

  /** Moments sort by date, then by time, as their millisecond counts do. */
  lemma MomentOrder(m: Moment, n: Moment)
    requires m.Valid() && n.Valid()
    ensures m.Millis() < n.Millis() <==> Before(m.date, n.date) || (m.date == n.date && EarlierTime(m, n))
  {
    TimeOrder(m, n);
    TimeOrder(n, m);
    if Before(m.date, n.date) {
      DaysFromCivilOrders(m.date, n.date);
    } else if Before(n.date, m.date) {
      DaysFromCivilOrders(n.date, m.date);
    }
  }

  lemma FieldOrder(m: Moment, n: Moment, width: nat)
    requires m.Valid() && n.Valid()
    ensures Earlier(Values(m.Wide(width)), Values(n.Wide(width)))
      <==> Before(m.date, n.date) || (m.date == n.date && EarlierTime(m, n))
  {
    WideValues(m, width);
    WideValues(n, width);
    EarlierOfSeven(Values(m.Wide(width)), Values(n.Wide(width)));
  }

  lemma FieldsFit(m: Moment, n: Moment, width: nat)
    requires m.Valid() && n.Valid() && width > 0 && m.date.year < Pow10(width) && n.date.year < Pow10(width)
    ensures SameLayout(m.Wide(width), n.Wide(width))
  {
    assert Pow10(2) == 100;
    assert Pow10(3) == 1_000;
  }

  // ---------- how many digits ----------

  lemma DigitsSnoc(n: nat)
    requires n >= 10
    ensures |Digits(n)| == |Digits(n / 10)| + 1 && Digits(n)[..|Digits(n)| - 1] == Digits(n / 10)
  {
  }

  lemma {:induction false} DigitsBound(n: nat)
    ensures n < Pow10(|Digits(n)|)
  {
    if n >= 10 {
      DigitsBound(n / 10);
      DigitsSnoc(n);
    }
  }

  lemma FourDigits(n: nat)
    ensures n >= 1_000 ==> |Digits(n)| >= 4
    ensures n < 10_000 ==> |Digits(n)| <= 4
  {
    if n >= 10 { DigitsSnoc(n); }
    if n >= 100 { DigitsSnoc(n / 10); }
    if n >= 1_000 { DigitsSnoc(n / 100); }
    assert n / 10 / 10 == n / 100 && n / 100 / 10 == n / 1_000;
  }

  lemma {:induction false} MoreDigits(m: nat, n: nat)
    requires m <= n
    ensures |Digits(m)| <= |Digits(n)|
  {
    if m >= 10 {
      MoreDigits(m / 10, n / 10);
      DigitsSnoc(m);
      DigitsSnoc(n);
    }
  }

  lemma DigitsAreFixed(n: nat)
    ensures Digits(n) == Fixed(n, |Digits(n)|)
  {
    DigitsBound(n);
    PaddedIsFixed(n, |Digits(n)|);
  }

  /** The number without its last `k` digits. */
  function Lead(n: nat, k: nat): nat {
    if k == 0 then n else Lead(n / 10, k - 1)
  }

  lemma {:induction false} DigitsPrefix(n: nat, k: nat)
    requires k < |Digits(n)|
    ensures Digits(n)[..|Digits(n)| - k] == Digits(Lead(n, k))
    decreases k
  {
    if k > 0 {
      DigitsSnoc(n);
      DigitsPrefix(n / 10, k - 1);
      PrefixOfPrefix(Digits(n), |Digits(n)| - 1, |Digits(n)| - k);
    }
  }

  lemma PrefixOfPrefix(s: string, i: nat, j: nat)
    requires j <= i <= |s|
    ensures s[..i][..j] == s[..j]
  {
  }

  // ---------- text order and time order ----------

  /** The text after the year. */
  function AfterYear(m: Moment): (t: string)
    requires m.Valid()
    ensures t != [] && t[0] == '-'
  {
    ['-'] + Text(m.Fields()[1..])
  }

  lemma TextStarts(m: Moment, width: nat)
    requires m.Valid() && m.date.year >= 1_000 && (width == 4 || width == |Digits(m.date.year)|)
    ensures Text(m.Wide(width)) == Digits(m.date.year) + AfterYear(m)
  {
    FourDigits(m.date.year);
    assert Padded(m.date.year, width) == Digits(m.date.year);
    TextCons(m.Wide(width));
    assert m.Wide(width)[1..] == m.Fields()[1..];
  }

  lemma TextCons(fields: seq<Field>)
    requires fields != []
    ensures Text(fields) == Padded(fields[0].value, fields[0].width) + ([fields[0].end] + Text(fields[1..]))
  {
  }

  /** Years with the same number of digits. */
  lemma SameDigitsOrder(m: Moment, n: Moment)
    requires m.Valid() && n.Valid() && m.date.year >= 1_000 && n.date.year >= 1_000
    requires |Digits(m.date.year)| == |Digits(n.date.year)|
    ensures Less(Text(m.Fields()), Text(n.Fields())) <==> m.Millis() < n.Millis()
  {
    var width := |Digits(m.date.year)|;
    DigitsBound(m.date.year);
    DigitsBound(n.date.year);
    TextStarts(m, 4);
    TextStarts(m, width);
    TextStarts(n, 4);
    TextStarts(n, width);
    FieldsFit(m, n, width);
    TextOrderIsFieldOrder(m.Wide(width), n.Wide(width));
    FieldOrder(m, n, width);
    MomentOrder(m, n);
  }

  lemma DigitsOrder(y: nat, z: nat)
    requires |Digits(y)| == |Digits(z)|
    ensures Less(Digits(y), Digits(z)) <==> y < z
    ensures Digits(y) == Digits(z) <==> y == z
  {
    DigitsAreFixed(y);
    DigitsAreFixed(z);
    DigitsBound(y);
    DigitsBound(z);
    FixedOrder(y, z, |Digits(y)|);
  }

  /** A longer year sorts by its leading digits, and after a shorter one that equals them. */
  lemma MoreDigitsOrder(y: nat, z: nat, k: nat, s: string, t: string)
    requires |Digits(z)| == |Digits(y)| + k && k > 0 && s != [] && s[0] == '-'
    ensures Less(Digits(y) + s, Digits(z) + t) <==> y <= Lead(z, k)
    ensures Less(Digits(z) + t, Digits(y) + s) <==> Lead(z, k) < y
  {
    DigitsPrefix(z, k);
    DigitsOrder(y, Lead(z, k));
    DigitsOrder(Lead(z, k), y);
    LongerSorts(Digits(y), Digits(z), Digits(Lead(z, k)), s, t);
  }

  lemma LongerSorts(y: string, z: string, front: string, s: string, t: string)
    requires |y| < |z| && front == z[..|y|] && IsDigit(z[|y|]) && s != [] && s[0] == '-'
    ensures Less(y + s, z + t) <==> Less(y, front) || y == front
    ensures Less(z + t, y + s) <==> Less(front, y)
  {
    var back := z[|y|..] + t;
    assert z + t == front + back && back[0] == z[|y|];
    LessConcat(y, front, s, back);
    LessConcat(front, y, back, s);
  }

  function Year(millis: nat): nat {
    AfterEpoch(Day(millis));
    MomentOf(millis).date.year
  }

  /** The years have the same number of digits, or the earlier is at most the leading digits of the
      later. */
  predicate YearsSort(y: nat, z: nat) {
    var d, e := |Digits(y)|, |Digits(z)|;
    d == e || (d < e && y <= Lead(z, e - d))
  }

  lemma LongerYear(m: Moment, n: Moment, k: nat)
    requires m.Valid() && n.Valid() && 1_000 <= m.date.year && 1_000 <= n.date.year
    requires |Digits(n.date.year)| == |Digits(m.date.year)| + k && k > 0
    ensures Less(Text(m.Fields()), Text(n.Fields())) <==> m.date.year <= Lead(n.date.year, k)
    ensures Less(Text(n.Fields()), Text(m.Fields())) <==> Lead(n.date.year, k) < m.date.year
  {
    TextStarts(m, 4);
    TextStarts(n, 4);
    MoreDigitsOrder(m.date.year, n.date.year, k, AfterYear(m), AfterYear(n));
  }

  lemma MomentsExactly(m: Moment, n: Moment)
    requires m.Valid() && n.Valid() && 1_000 <= m.date.year <= n.date.year && m.Millis() < n.Millis()
    ensures Less(Text(m.Fields()), Text(n.Fields())) <==> YearsSort(m.date.year, n.date.year)
    ensures Less(Text(n.Fields()), Text(m.Fields())) <==> !YearsSort(m.date.year, n.date.year)
  {
    MoreDigits(m.date.year, n.date.year);
    if |Digits(m.date.year)| == |Digits(n.date.year)| {
      SameDigitsOrder(m, n);
      SameDigitsOrder(n, m);
    } else {
      LongerYearSorts(m, n);
    }
  }

  lemma LongerYearSorts(m: Moment, n: Moment)
    requires m.Valid() && n.Valid() && 1_000 <= m.date.year && 1_000 <= n.date.year
    requires |Digits(m.date.year)| < |Digits(n.date.year)|
    ensures Less(Text(m.Fields()), Text(n.Fields())) <==> YearsSort(m.date.year, n.date.year)
    ensures Less(Text(n.Fields()), Text(m.Fields())) <==> !YearsSort(m.date.year, n.date.year)
  {
    LongerYear(m, n, |Digits(n.date.year)| - |Digits(m.date.year)|);
  }

  lemma YearsInOrder(a: nat, b: nat)
    requires a <= b
    ensures 1_970 <= Year(a) <= Year(b)
  {
    AfterEpoch(Day(a));
    MomentIsValid(a);
    MomentIsValid(b);
    MomentOrder(MomentOf(b), MomentOf(a));
  }

  /** For every two instants: the earlier one sorts first as text if and only if their years have
      the same number of digits or the earlier year is at most the leading digits of the later one;
      otherwise it sorts last. */
  lemma FormatOrderExactly(a: nat, b: nat)
    requires a < b
    ensures Less(FormatMillis(a), FormatMillis(b)) <==> YearsSort(Year(a), Year(b))
    ensures Less(FormatMillis(b), FormatMillis(a)) <==> !YearsSort(Year(a), Year(b))
  {
    MomentIsValid(a);
    MomentIsValid(b);
    YearsInOrder(a, b);
    MomentsExactly(MomentOf(a), MomentOf(b));
  }

  // ---------- up to a bound ----------

  /** The first millisecond of the year 10000. */
  const YEAR_10000: nat := 253_402_300_800_000

  /** Midnight before the first of January. */
  function YearBegin(year: nat): (m: Moment)
    ensures m.Valid() && m.Millis() == (YearStart(year) - YearStart(1970)) * 86_400_000
  {
    Moment(Date(year, 1, 1), 0, 0, 0, 0)
  }

  lemma YearBelow(millis: nat, year: nat)
    ensures Year(millis) < year <==> millis < YearBegin(year).Millis()
  {
    MomentIsValid(millis);
    MomentOrder(MomentOf(millis), YearBegin(year));
  }

  lemma YearBegins()
    ensures (YearStart(10_000) - YearStart(1970)) * 86_400_000 == YEAR_10000
    ensures (YearStart(10_001) - YearStart(1970)) * 86_400_000 > YEAR_10000
  {
  }

  lemma FourDigitYears(millis: nat)
    ensures Year(millis) < 10_000 <==> millis < YEAR_10000
    ensures millis == YEAR_10000 ==> Year(millis) == 10_000
  {
    YearBegins();
    YearBelow(millis, 10_000);
    YearBelow(millis, 10_001);
  }

  /** Before the year 10000 timestamps sort as text exactly as they sort in time. */
  lemma FormatOrders(a: nat, b: nat)
    requires a < YEAR_10000 && b < YEAR_10000
    ensures Less(FormatMillis(a), FormatMillis(b)) <==> a < b
  {
    var first, last := if a <= b then a else b, if a <= b then b else a;
    YearsInOrder(first, last);
    FourDigitYears(first);
    FourDigitYears(last);
    FourDigits(Year(first));
    FourDigits(Year(last));
    if a == b {
      NotLess(FormatMillis(a));
    } else {
      FormatOrderExactly(first, last);
    }
  }

  lemma {:induction false} NotLess(s: string)
    ensures !Less(s, s)
    decreases |s|
  {
    if s != [] { NotLess(s[1..]); }
  }

  /** Text order is time order for all instants up to a bound if and only if the bound lies before
      the year 10000. */
  lemma FormatOrdersUpTo(bound: nat)
    ensures
      (forall a: nat, b: nat | a <= bound && b <= bound :: Less(FormatMillis(a), FormatMillis(b)) <==> a < b)
      <==> bound < YEAR_10000
  {
    if bound < YEAR_10000 {
      forall a: nat, b: nat | a <= bound && b <= bound
        ensures Less(FormatMillis(a), FormatMillis(b)) <==> a < b
      {
        FormatOrders(a, b);
      }
    } else {
      var a, b := YEAR_10000 - 1, YEAR_10000;
      FourDigitYears(a);
      FourDigitYears(b);
      TurnsAround(a, b);
    }
  }

  /** Timestamps of four-digit years sort after those of the year 10000. */
  lemma TurnsAround(a: nat, b: nat)
    requires a < b && Year(a) < 10_000 && Year(b) == 10_000
    ensures !Less(FormatMillis(a), FormatMillis(b))
  {
    var y, z := Year(a), Year(b);
    YearsInOrder(a, b);
    FormatOrderExactly(a, b);
    NotSorted(y, z);
  }

  lemma NotSorted(y: nat, z: nat)
    requires 1_970 <= y < 10_000 && z == 10_000
    ensures !YearsSort(y, z)
  {
    FourDigits(y);
    FourDigits(z / 10);
    DigitsSnoc(z);
  }

  // ---------- machine integers ----------

  const U64_MAX: nat := 0xFFFF_FFFF_FFFF_FFFF

  /** For every 64-bit millisecond count no step of the conversion leaves the signed 64-bit range. */
  lemma FormatFits(millis: nat)
    requires millis <= U64_MAX
    ensures I64(Day(millis)) && AllI64(Intermediates(Day(millis)))
  {
    IntermediatesFit(Day(millis));
  }
}
