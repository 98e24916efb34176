/**
 * The weekly time grid of scheduler.py: the working days and the fixed
 * sequence of teaching slots every day shares. Times are minutes since
 * midnight; `FormatTime` renders them the way `strftime("%H:%M")` does.
 */
module TimeGrid {
  import opened Common
  import opened Text

  /** Sunday to Thursday, as the application names them. */
  const Days: seq<string> := ["الأحد", "الاثنين", "الثلاثاء", "الأربعاء", "الخميس"]
  const NumDays: nat := 5
  /** "08:00" */
  const StartTime: nat := 8 * 60
  const SlotsPerDay: nat := 6
  const SlotMinutes: nat := 50
  const BreakMinutes: nat := 10
  const MinutesPerDay: nat := 24 * 60

  lemma DaysDistinct()
    ensures |Days| == NumDays
    ensures forall i, j :: 0 <= i < j < |Days| ==> Days[i] != Days[j]
  {
  }

  /** One teaching slot, as (start, end) minutes. */
  datatype Slot = Slot(start: int, end: int)

  /**
   * The loop of `_generate_time_slots`: `count` slots, the first starting at
   * `current`, each lasting `slotMinutes`, the next one starting `breakMinutes`
   * after the previous one ends.
   */
  function GenerateFrom(current: int, count: nat, slotMinutes: nat, breakMinutes: nat): (r: seq<Slot>)
    ensures |r| == count
    ensures forall i :: 0 <= i < count ==>
      r[i].start == current + i * (slotMinutes + breakMinutes) && r[i].end == r[i].start + slotMinutes
    decreases count
  {
    if count == 0 then []
    else
      var step := slotMinutes + breakMinutes;
      var rest := GenerateFrom(current + step, count - 1, slotMinutes, breakMinutes);
      var r := [Slot(current, current + slotMinutes)] + rest;
      assert forall i :: 1 <= i < count ==> r[i].start == current + i * step by {
        forall i | 1 <= i < count
          ensures r[i].start == current + i * step
        {
          assert r[i] == rest[i - 1];
          assert (i - 1) * step + step == i * step;
        }
      }
      r
  }

  /**
   * `get_time_slots()`: the canonical slot sequence, six slots from 08:00,
   * each fifty minutes long and starting an hour after the one before.
   */
  function TimeSlots(): (r: seq<Slot>)
    ensures |r| == SlotsPerDay && r[0].start == StartTime
    ensures forall i :: 0 <= i < |r| ==> r[i].end == r[i].start + SlotMinutes
    ensures forall i :: 0 < i < |r| ==> r[i].start == r[i - 1].end + BreakMinutes
  {
    GenerateFrom(StartTime, SlotsPerDay, SlotMinutes, BreakMinutes)
  }

  /** Slots are non-empty and each one ends before any later one starts. */
  ghost predicate Increasing(grid: seq<Slot>) {
    && (forall i :: 0 <= i < |grid| ==> grid[i].start < grid[i].end)
    && (forall i, j :: 0 <= i < j < |grid| ==> grid[i].end < grid[j].start)
  }

  /**
   * The canonical grid: six slots, slot `i` running from 08:00 plus an hour per
   * index for fifty minutes, so 08:00-08:50 through 13:00-13:50, increasing,
   * apart from each other and inside one day.
   */
  lemma TimeSlotsShape()
    ensures |TimeSlots()| == SlotsPerDay
    ensures forall i :: 0 <= i < SlotsPerDay ==>
      TimeSlots()[i] == Slot(StartTime + 60 * i, StartTime + 60 * i + SlotMinutes)
    ensures Increasing(TimeSlots())
    ensures forall i :: 0 <= i < SlotsPerDay ==> 0 <= TimeSlots()[i].start && TimeSlots()[i].end < MinutesPerDay
    ensures TimeSlots()[0] == Slot(480, 530) && TimeSlots()[SlotsPerDay - 1] == Slot(780, 830)
  {
  }

  /** The start of the first slot of a block and the end of its last slot. */
  function BlockStart(slot: nat): int
    requires slot < SlotsPerDay
  {
    TimeSlotsShape();
    TimeSlots()[slot].start
  }

  function BlockEnd(slot: nat, size: nat): int
    requires 1 <= size && slot + size <= SlotsPerDay
  {
    TimeSlotsShape();
    TimeSlots()[slot + size - 1].end
  }

  /** Where a block of `size` slots starting at `slot` begins and ends. */
  lemma BlockTimes(slot: nat, size: nat)
    requires 1 <= size && slot + size <= SlotsPerDay
    ensures BlockStart(slot) == StartTime + 60 * slot
    ensures BlockEnd(slot, size) == StartTime + 60 * (slot + size) - BreakMinutes
    ensures BlockStart(slot) < BlockEnd(slot, size)
  {
    TimeSlotsShape();
  }

  function DigitChar(n: nat): char
    requires n < 10
  {
    ('0' as int + n) as char
  }

  function TwoDigits(n: nat): string
    requires n < 100
  {
    [DigitChar(n / 10), DigitChar(n % 10)]
  }

  /** `strftime("%H:%M")`: zero-padded hours of the day and minutes. */
  function FormatTime(m: nat): (r: string)
    ensures |r| == 5 && r[2] == ':'
  {
    var t := m % MinutesPerDay;
    TwoDigits(t / 60) + ":" + TwoDigits(t % 60)
  }

  predicate IsDigit(c: char) {
    '0' <= c <= '9'
  }

  function DigitOf(c: char): nat
    requires IsDigit(c)
  {
    (c as int - '0' as int) as nat
  }

  /**
   * `datetime.strptime(text, "%H:%M")` on the zero-padded form the
   * application writes: two digits of hour below 24, a colon, two digits of
   * minute below 60. Any other text is refused, as the parse raises.
   */
  function ParseTime(text: string): (r: Option<nat>)
    ensures r.Some? ==> r.value < MinutesPerDay
  {
    if |text| == 5 && text[2] == ':' && IsDigit(text[0]) && IsDigit(text[1]) && IsDigit(text[3]) && IsDigit(text[4]) then
      var h := 10 * DigitOf(text[0]) + DigitOf(text[1]);
      var m := 10 * DigitOf(text[3]) + DigitOf(text[4]);
      if h < 24 && m < 60 then Some(60 * h + m) else None
    else None
  }

  /** `START_TIME` is 08:00, the start the grid is generated from. */
  lemma StartTimeParsed()
    ensures ParseTime("08:00") == Some(StartTime)
  {
  }

  lemma TwoDigitsOf(n: nat)
    requires n < 100
    ensures IsDigit(TwoDigits(n)[0]) && IsDigit(TwoDigits(n)[1])
    ensures 10 * DigitOf(TwoDigits(n)[0]) + DigitOf(TwoDigits(n)[1]) == n
  {
  }

  lemma DigitsBack(c0: char, c1: char)
    requires IsDigit(c0) && IsDigit(c1)
    ensures 10 * DigitOf(c0) + DigitOf(c1) < 100
    ensures TwoDigits(10 * DigitOf(c0) + DigitOf(c1)) == [c0, c1]
  {
    var n := 10 * DigitOf(c0) + DigitOf(c1);
    assert n / 10 == DigitOf(c0) && n % 10 == DigitOf(c1);
  }

  /** Formatting a time of day and parsing it back gives the same minute. */
  lemma ParseFormatTime(a: nat)
    requires a < MinutesPerDay
    ensures ParseTime(FormatTime(a)) == Some(a)
  {
    FormatTimeParts(a);
    TwoDigitsOf(a / 60);
    TwoDigitsOf(a % 60);
  }

  /** Every text the parse accepts is exactly how its minute is formatted. */
  lemma FormatParseTime(text: string)
    requires ParseTime(text).Some?
    ensures FormatTime(ParseTime(text).value) == text
  {
    var h := 10 * DigitOf(text[0]) + DigitOf(text[1]);
    var m := 10 * DigitOf(text[3]) + DigitOf(text[4]);
    var a := 60 * h + m;
    assert ParseTime(text) == Some(a);
    assert FormatTime(a) == TwoDigits(h) + (":" + TwoDigits(m)) by {
      assert a / 60 == h && a % 60 == m;
      FormatTimeParts(a);
    }
    assert TwoDigits(h) == [text[0], text[1]] by {
      DigitsBack(text[0], text[1]);
    }
    assert TwoDigits(m) == [text[3], text[4]] by {
      DigitsBack(text[3], text[4]);
    }
    assert text == [text[0], text[1]] + ([':'] + [text[3], text[4]]);
  }

  lemma LexLessStep(a: string, b: string)
    requires |a| > 0 && |b| > 0
    ensures LexLess(a, b) == (a[0] < b[0] || (a[0] == b[0] && LexLess(a[1..], b[1..])))
  {
  }

  /** Two-character strings compare like pairs of characters. */
  lemma LexLessPair(a: string, b: string, c: string, d: string)
    requires |a| == 2 && |b| == 2
    ensures LexLess(a + c, b + d) ==
      (a[0] < b[0] || (a[0] == b[0] && (a[1] < b[1] || (a[1] == b[1] && LexLess(c, d)))))
  {
    LexLessStep(a + c, b + d);
    assert (a + c)[1..] == a[1..] + c && (b + d)[1..] == b[1..] + d;
    LexLessStep(a[1..] + c, b[1..] + d);
    assert (a[1..] + c)[1..] == c && (b[1..] + d)[1..] == d;
  }

  /** Zero-padded numbers compare as strings exactly as they compare as numbers. */
  lemma TwoDigitsOrder(x: nat, y: nat, c: string, d: string)
    requires x < 100 && y < 100
    ensures LexLess(TwoDigits(x) + c, TwoDigits(y) + d) == (x < y || (x == y && LexLess(c, d)))
  {
    LexLessPair(TwoDigits(x), TwoDigits(y), c, d);
    assert x == 10 * (x / 10) + x % 10 && y == 10 * (y / 10) + y % 10;
  }

  /** Minutes of a day order like (hour, minute) pairs. */
  lemma ClockOrder(a: nat, b: nat)
    ensures a < b <==> a / 60 < b / 60 || (a / 60 == b / 60 && a % 60 < b % 60)
  {
    assert a == 60 * (a / 60) + a % 60 && b == 60 * (b / 60) + b % 60;
  }

  lemma FormatTimeParts(a: nat)
    requires a < MinutesPerDay
    ensures FormatTime(a) == TwoDigits(a / 60) + (":" + TwoDigits(a % 60))
    ensures a / 60 < 24
  {
    assert a % MinutesPerDay == a;
  }

  /**
   * Within a day, comparing two formatted times as strings (what the source's
   * `start_time < end_time` tests and its SQL filters do) agrees with
   * comparing the minutes.
   */
  lemma FormatTimeOrder(a: nat, b: nat)
    requires a < MinutesPerDay && b < MinutesPerDay
    ensures LexLess(FormatTime(a), FormatTime(b)) <==> a < b
  {
    var ha, ma := a / 60, a % 60;
    var hb, mb := b / 60, b % 60;
    var rest1, rest2 := ":" + TwoDigits(ma), ":" + TwoDigits(mb);
    FormatTimeParts(a);
    FormatTimeParts(b);
    TwoDigitsOrder(ha, hb, rest1, rest2);
    LexLessStep(rest1, rest2);
    assert rest1[1..] == TwoDigits(ma) + "" && rest2[1..] == TwoDigits(mb) + "";
    TwoDigitsOrder(ma, mb, "", "");
    assert !LexLess("", "");
    ClockOrder(a, b);
  }

  /** Distinct minutes of a day format to distinct strings. */
  lemma FormatTimeInjective(a: nat, b: nat)
    requires a < MinutesPerDay && b < MinutesPerDay
    requires FormatTime(a) == FormatTime(b)
    ensures a == b
  {
    LexLessIrreflexive(FormatTime(a));
    FormatTimeOrder(a, b);
    FormatTimeOrder(b, a);
  }
}
