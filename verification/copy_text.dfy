/**
 * The text `copyToClipboard` builds before handing it to the clipboard: the simple
 * one-line summary and the three-field spreadsheet row. Each format comes with a decoder
 * and a round-trip lemma stating what information the text carries.
 */
module CopyText {
  import opened Wrappers
  import opened Text
  import opened TimeOfDay
  import opened WorkStatus
  import Sessions

  /** The formats the hook branches on; `Detailed` is declared by the types but unhandled. */
  datatype CopyFormat = Simple | Spreadsheet | Detailed

  /** The marker the simple format prints for the end of a session in progress. */
  const InProgress: string := "進行中"

  /** What the clock text keeps of a record: minutes of the day of its start and end. */
  datatype Reading = Reading(startMinute: int, endMinute: Option<int>)

  /** What the spreadsheet row keeps: first start, last end, and the break total in minutes. */
  datatype Sheet = Sheet(firstStart: int, lastEnd: int, breakMinutes: int)

  function ReadingOf(r: Record): Reading {
    Reading(MinuteOfDay(r.start),
            match r.end case Some(e) => Some(MinuteOfDay(e)) case None => None)
  }

  function Readings(rs: seq<Record>): seq<Reading> {
    seq(|rs|, i requires 0 <= i < |rs| => ReadingOf(rs[i]))
  }

  // ---------------------------------------------------------------------------
  // Simple format: "<date>: HH:mm-HH:mm, HH:mm-進行中"
  // ---------------------------------------------------------------------------

  /** One record as `start-end`, the end being the in-progress marker while open. */
  function Entry(r: Record): string {
    FormatTime(r.start) + "-" + (match r.end case Some(e) => FormatTime(e) case None => InProgress)
  }

  function Entries(rs: seq<Record>): seq<string> {
    seq(|rs|, i requires 0 <= i < |rs| => Entry(rs[i]))
  }

  /** The simple text: the date header, a colon and a space, then the entries joined by ", ". */
  function SimpleText(date: string, rs: seq<Record>): (text: string)
    ensures |text| >= |date| + 2 && text[..|date| + 2] == date + ": "
    ensures rs == [] <==> text == date + ": "
  {
    EntriesJoined(rs);
    date + ": " + Join(Entries(rs), ", ")
  }

  /** Reads one entry back. */
  function ParseEntry(e: string): Option<Reading> {
    if |e| >= 6 && e[5] == '-' then
      match ParseClock(e[..5])
      case None => None
      case Some(st) =>
        if e[6..] == InProgress then Some(Reading(st, None))
        else match ParseClock(e[6..])
          case None => None
          case Some(en) => Some(Reading(st, Some(en)))
    else None
  }

  function ParseEntries(es: seq<string>): Option<seq<Reading>> {
    if |es| == 0 then Some([])
    else match (ParseEntry(es[0]), ParseEntries(es[1..]))
      case (Some(x), Some(xs)) => Some([x] + xs)
      case _ => None
  }

  /** Drops the single space the separator leaves in front of every entry but the first. */
  function DropSpace(s: string): string {
    if |s| > 0 && s[0] == ' ' then s[1..] else s
  }

  /** Cuts a non-empty body at its commas, dropping the space after each. */
  function Unjoin(s: string): seq<string>
    decreases |s|
  {
    var i := FirstIndex(s, ',');
    if i == |s| then [s] else [s[..i]] + Unjoin(DropSpace(s[i + 1..]))
  }

  /** Cuts the body of the simple text into entries. */
  function SplitEntries(body: string): seq<string> {
    if body == "" then [] else Unjoin(body)
  }

  /** Reads the simple text for `date` back into one reading per entry. */
  function DecodeSimple(date: string, text: string): Option<seq<Reading>> {
    var h := |date| + 2;
    if |text| >= h && text[..h] == date + ": " then ParseEntries(SplitEntries(text[h..]))
    else None
  }

  lemma EntryRoundTrip(r: Record)
    ensures |Entry(r)| >= 6 && ',' !in Entry(r)
    ensures ParseEntry(Entry(r)) == Some(ReadingOf(r))
  {
    var e := Entry(r);
    var st := FormatTime(r.start);
    ClockRoundTrip(r.start);
    ClockSeparatorFree(st);
    assert e[..5] == st;
    match r.end {
      case Some(t) =>
        ClockRoundTrip(t);
        ClockSeparatorFree(FormatTime(t));
        assert e[6..] == FormatTime(t);
      case None =>
        assert e[6..] == InProgress;
    }
  }

  /** Entries that each read back read back together, in order. */
  lemma {:induction false} ParseEach(es: seq<string>, xs: seq<Reading>)
    requires |es| == |xs|
    requires forall k :: 0 <= k < |es| ==> ParseEntry(es[k]) == Some(xs[k])
    ensures ParseEntries(es) == Some(xs)
  {
    if |es| > 0 {
      ParseEach(es[1..], xs[1..]);
      assert xs == [xs[0]] + xs[1..];
    }
  }

  lemma ParseAllEntries(rs: seq<Record>)
    ensures ParseEntries(Entries(rs)) == Some(Readings(rs))
  {
    forall k | 0 <= k < |rs| ensures ParseEntry(Entries(rs)[k]) == Some(Readings(rs)[k]) {
      EntryRoundTrip(rs[k]);
    }
    ParseEach(Entries(rs), Readings(rs));
  }

  /** A joined list is at least as long as its first element. */
  lemma JoinStartsWithFirst(xs: seq<string>, sep: string)
    requires |xs| >= 1
    ensures |Join(xs, sep)| >= |xs[0]|
  {
  }

  /** The joined entries are empty exactly when there are no records. */
  lemma EntriesJoined(rs: seq<Record>)
    ensures Join(Entries(rs), ", ") == "" <==> rs == []
  {
  }

  /** Cutting the joined body at its separators gives the entries back. */
  lemma {:induction false} UnjoinJoin(es: seq<string>)
    requires |es| >= 1
    requires forall k :: 0 <= k < |es| ==> ',' !in es[k]
    ensures Unjoin(Join(es, ", ")) == es
  {
    if |es| == 1 {
      assert FirstIndex(es[0], ',') == |es[0]|;
    } else {
      var rest := Join(es[1..], ", ");
      assert Join(es, ", ") == es[0] + [','] + (" " + rest);
      FirstIndexAfter(es[0], " " + rest, ',');
      assert (es[0] + [','] + (" " + rest))[..|es[0]|] == es[0];
      assert (es[0] + [','] + (" " + rest))[|es[0]| + 1..] == " " + rest;
      assert DropSpace(" " + rest) == rest;
      UnjoinJoin(es[1..]);
    }
  }

  lemma SplitJoinedEntries(es: seq<string>)
    requires |es| >= 1 && es[0] != ""
    requires forall k :: 0 <= k < |es| ==> ',' !in es[k]
    ensures SplitEntries(Join(es, ", ")) == es
  {
    JoinStartsWithFirst(es, ", ");
    UnjoinJoin(es);
  }

  /** The simple text names, in order, the start and end clock reading of every record. */
  lemma SimpleRoundTrip(date: string, rs: seq<Record>)
    ensures DecodeSimple(date, SimpleText(date, rs)) == Some(Readings(rs))
  {
    var text := SimpleText(date, rs);
    var es := Entries(rs);
    assert text == date + ": " + Join(es, ", ");
    assert text[|date| + 2..] == Join(es, ", ");
    if |rs| > 0 {
      forall k | 0 <= k < |es| ensures ',' !in es[k] {
        EntryRoundTrip(rs[k]);
      }
      SplitJoinedEntries(es);
    }
    ParseAllEntries(rs);
  }

  // ---------------------------------------------------------------------------
  // Spreadsheet format: "first start \t last end \t HH:mm of break"
  // ---------------------------------------------------------------------------

  /**
   * Whole minutes between a closed record's end and the next start. `Math.floor` of the
   * quotient is Dafny's `/`, since the divisor is positive.
   */
  function Gap(a: Record, b: Record): int {
    match a.end
    case Some(e) => (b.start - e) / MsPerMinute
    case None => 0
  }

  /** Sum of the gaps over consecutive pairs, the first of each pair closed. */
  function BreakMinutes(rs: seq<Record>): int {
    if |rs| < 2 then 0
    else BreakMinutes(rs[..|rs| - 1]) + Gap(rs[|rs| - 2], rs[|rs| - 1])
  }

  /** The break loop of the spreadsheet branch, index by index. */
  method TotalBreakMinutes(rs: seq<Record>) returns (total: int)
    ensures total == BreakMinutes(rs)
  {
    total := 0;
    if |rs| == 0 {
      return;
    }
    var i := 0;
    while i < |rs| - 1
      invariant 0 <= i <= |rs| - 1
      invariant total == BreakMinutes(rs[..i + 1])
    {
      var currentEnd := rs[i].end;
      var nextStart := rs[i + 1].start;
      if currentEnd.Some? {
        total := total + (nextStart - currentEnd.value) / MsPerMinute;
      }
      assert rs[..i + 2][..i + 1] == rs[..i + 1];
      i := i + 1;
    }
    assert rs[..|rs|] == rs;
  }

  /**
   * JavaScript's `%`: the remainder differs from the dividend by a multiple of the divisor
   * and takes the dividend's sign, which leaves exactly one candidate.
   */
  function JsRem(a: int, b: int): (r: int)
    requires b > 0
    ensures (a - r) % b == 0
    ensures a >= 0 ==> 0 <= r < b
    ensures a < 0 ==> -b < r <= 0
  {
    if a >= 0 then
      DivUnique(a - a % b, b, a / b, 0);
      a % b
    else
      assert -a == b * ((-a) / b) + (-a) % b;
      DivUnique(a + (-a) % b, b, -((-a) / b), 0);
      -((-a) % b)
  }

  /** The break total as `HH:mm`: floored hours and the remainder minutes, each padded to two. */
  function RenderBreak(total: int): string {
    PaddedInt(total / 60) + ":" + PaddedInt(JsRem(total, 60))
  }

  /**
   * Reads `h:m` back as the total it was rendered from. The hours are floored while the
   * remainder keeps the total's sign, so a negative remainder means the hours were rounded
   * down by one.
   */
  function ParseBreak(s: string): Option<int> {
    var i := FirstIndex(s, ':');
    if i == |s| then None
    else
      match (ParseInt(s[..i]), ParseInt(s[i + 1..]))
      case (Some(h), Some(m)) =>
        if 0 <= m < 60 then Some(h * 60 + m)
        else if -60 < m < 0 then Some((h + 1) * 60 + m)
        else None
      case _ => None
  }

  /** The end the spreadsheet row shows: the last record's end, or `now` while it is open. */
  function LastEnd(rs: seq<Record>, now: int): int
    requires |rs| > 0
  {
    match rs[|rs| - 1].end
    case Some(e) => e
    case None => now
  }

  /** The spreadsheet row; empty when there are no records. */
  function SpreadsheetText(rs: seq<Record>, now: int): (text: string)
    ensures rs == [] <==> text == ""
  {
    if |rs| == 0 then ""
    else FormatTime(rs[0].start) + "\t" + FormatTime(LastEnd(rs, now)) + "\t" + RenderBreak(BreakMinutes(rs))
  }

  /** Reads the spreadsheet row back into its three fields. */
  function DecodeSpreadsheet(text: string): Option<Sheet> {
    var fields := SplitOn(text, '\t');
    if |fields| == 3 then
      match (ParseClock(fields[0]), ParseClock(fields[1]), ParseBreak(fields[2]))
      case (Some(a), Some(b), Some(m)) => Some(Sheet(a, b, m))
      case _ => None
    else None
  }

  /** For a non-negative total the hours and minutes print without signs. */
  lemma RenderNonNegative(total: int)
    requires total >= 0
    ensures RenderBreak(total) == Padded(total / 60) + ":" + Padded(total % 60)
  {
  }

  /** Fields around a colon that the first field does not hold split back apart. */
  lemma SplitAtColon(hh: string, mm: string)
    requires ':' !in hh
    ensures var s := hh + ":" + mm;
      var i := FirstIndex(s, ':');
      i == |hh| && s[..i] == hh && s[i + 1..] == mm
  {
    var s := hh + ":" + mm;
    FirstIndexAfter(hh, mm, ':');
    assert s[..|hh|] == hh;
    assert s[|hh| + 1..] == mm;
  }

  /** Floored hours and the sign-keeping remainder add back up to the total. */
  lemma BreakSplit(total: int)
    ensures var h := total / 60;
      var m := JsRem(total, 60);
      total == if m < 0 then (h + 1) * 60 + m else h * 60 + m
  {
  }

  /**
   * Every break total reads back from its rendering, which holds no tab; below 100 hours a
   * non-negative total takes five characters.
   */
  lemma BreakRoundTrip(total: int)
    ensures '\t' !in RenderBreak(total)
    ensures ParseBreak(RenderBreak(total)) == Some(total)
    ensures 0 <= total < 100 * 60 ==> |RenderBreak(total)| == 5
  {
    BreakReadsBack(total);
    if 0 <= total < 100 * 60 {
      BreakWidth(total);
    }
  }

  /** The rendered fields read back as floored hours and the remainder, which sum to the total. */
  lemma BreakReadsBack(total: int)
    ensures '\t' !in RenderBreak(total)
    ensures ParseBreak(RenderBreak(total)) == Some(total)
  {
    var h := total / 60;
    var m := JsRem(total, 60);
    PaddedIntValue(h);
    PaddedIntValue(m);
    BreakSplit(total);
    FieldsReadBack(PaddedInt(h), PaddedInt(m), h, m, total);
  }

  /**
   * Hours and a remainder in `(-60, 60)` around a colon read back as the total they make,
   * and the text holds no tab when neither field does.
   */
  lemma FieldsReadBack(hh: string, mm: string, h: int, m: int, total: int)
    requires ':' !in hh && ParseInt(hh) == Some(h) && ParseInt(mm) == Some(m) && -60 < m < 60
    requires '\t' !in hh && '\t' !in mm
    requires total == if m < 0 then (h + 1) * 60 + m else h * 60 + m
    ensures '\t' !in hh + ":" + mm
    ensures ParseBreak(hh + ":" + mm) == Some(total)
  {
    SplitAtColon(hh, mm);
  }

  /** Below 100 hours a non-negative total renders as five characters `HH:mm`. */
  lemma BreakWidth(total: int)
    requires 0 <= total < 100 * 60
    ensures |RenderBreak(total)| == 5
  {
    RenderNonNegative(total);
    PaddedValue(total / 60);
    PaddedValue(total % 60);
  }

  /**
   * A negative total, which only records out of time order produce, renders with floored
   * hours but a truncated, negative remainder: five minutes early reads as `-1:-5`.
   */
  lemma NegativeBreakRendering()
    ensures RenderBreak(-5) == "-1:-5"
  {
  }

  /**
   * The spreadsheet row names the first start and the last end (or `now`) as clock
   * readings and carries the break total exactly.
   */
  lemma SpreadsheetRoundTrip(rs: seq<Record>, now: int)
    requires |rs| > 0
    ensures SplitOn(SpreadsheetText(rs, now), '\t') ==
              [FormatTime(rs[0].start), FormatTime(LastEnd(rs, now)), RenderBreak(BreakMinutes(rs))]
    ensures DecodeSpreadsheet(SpreadsheetText(rs, now)) ==
              Some(Sheet(MinuteOfDay(rs[0].start), MinuteOfDay(LastEnd(rs, now)), BreakMinutes(rs)))
  {
    var a := FormatTime(rs[0].start);
    var b := FormatTime(LastEnd(rs, now));
    var c := RenderBreak(BreakMinutes(rs));
    ClockRoundTrip(rs[0].start);
    ClockRoundTrip(LastEnd(rs, now));
    ClockSeparatorFree(a);
    ClockSeparatorFree(b);
    BreakRoundTrip(BreakMinutes(rs));
    assert SpreadsheetText(rs, now) == a + "\t" + b + "\t" + c;
    SplitThree(a, b, c);
  }

  /** Three tab-free fields joined by tabs split back into those fields. */
  lemma SplitThree(a: string, b: string, c: string)
    requires '\t' !in a && '\t' !in b && '\t' !in c
    ensures SplitOn(a + "\t" + b + "\t" + c, '\t') == [a, b, c]
  {
    assert a + "\t" + b + "\t" + c == a + ['\t'] + (b + ['\t'] + c);
    SplitFront(a, b + ['\t'] + c, '\t');
    SplitFront(b, c, '\t');
    SplitWhole(c, '\t');
  }

  /** Sessions that do not overlap leave no negative gap, so the break total is not negative. */
  lemma {:induction false} BreakNonNegative(rs: seq<Record>)
    requires Sessions.NoOverlap(rs)
    ensures BreakMinutes(rs) >= 0
  {
    if |rs| >= 2 {
      var front := rs[..|rs| - 1];
      assert Sessions.NoOverlap(front) by {
        assert forall i :: 0 <= i < |front| ==> front[i] == rs[i];
      }
      BreakNonNegative(front);
    }
  }

  /** Total length of the closed sessions in milliseconds. */
  function ClosedWork(rs: seq<Record>): int {
    if |rs| == 0 then 0
    else ClosedWork(rs[..|rs| - 1])
         + match rs[|rs| - 1].end case Some(e) => e - rs[|rs| - 1].start case None => 0
  }

  /**
   * With every record but the last closed, the break total is the time from the first
   * start to the last start, less the work of the sessions before the last, in minutes:
   * rounding each of the `|rs| - 1` gaps down loses under a minute per gap.
   */
  lemma {:induction false} BreakBounds(rs: seq<Record>)
    requires |rs| >= 1 && Sessions.OnlyLastOpen(rs)
    ensures var idle := rs[|rs| - 1].start - rs[0].start - ClosedWork(rs[..|rs| - 1]);
      MsPerMinute * BreakMinutes(rs) <= idle <= MsPerMinute * BreakMinutes(rs) + (MsPerMinute - 1) * (|rs| - 1)
  {
    var n := |rs|;
    if n >= 2 {
      var front := rs[..n - 1];
      assert Sessions.OnlyLastOpen(front);
      BreakBounds(front);
      assert front[..n - 2] == rs[..n - 2];
      assert front[0] == rs[0];
      assert front[n - 2] == rs[n - 2];
      var e := rs[n - 2].end.value;
      assert ClosedWork(front) == ClosedWork(rs[..n - 2]) + (e - rs[n - 2].start);
      var x := rs[n - 1].start - e;
      assert Gap(rs[n - 2], rs[n - 1]) == x / MsPerMinute;
      assert MsPerMinute * (x / MsPerMinute) <= x < MsPerMinute * (x / MsPerMinute) + MsPerMinute;
    }
  }

  /** `copyToClipboard(format)`'s text: a format it does not handle produces "". */
  function ClipboardText(format: CopyFormat, date: string, rs: seq<Record>, now: int): string {
    match format
    case Simple => SimpleText(date, rs)
    case Spreadsheet => SpreadsheetText(rs, now)
    case Detailed => ""
  }

  /**
   * The simple text decodes to the records' readings, the spreadsheet text to the first
   * start, the last end and the break total, and an unhandled format copies nothing.
   */
  lemma ClipboardContents(format: CopyFormat, date: string, rs: seq<Record>, now: int)
    ensures var text := ClipboardText(format, date, rs, now);
      && (format == Simple ==> DecodeSimple(date, text) == Some(Readings(rs)))
      && (format == Spreadsheet && rs != [] ==>
            DecodeSpreadsheet(text) ==
              Some(Sheet(MinuteOfDay(rs[0].start), MinuteOfDay(LastEnd(rs, now)), BreakMinutes(rs))))
      && (format == Spreadsheet && rs == [] ==> text == "")
      && (format == Detailed ==> text == "")
  {
    match format
    case Simple => SimpleRoundTrip(date, rs);
    case Spreadsheet => if rs != [] { SpreadsheetRoundTrip(rs, now); }
    case Detailed =>
  }

  /**
   * In every state reachable with a monotone clock the break total is not negative, so
   * its field prints as plain zero-padded hours and minutes.
   */
  lemma ReachableSpreadsheet(ps: seq<Sessions.Press>)
    requires Sessions.ClockMonotone(ps)
    ensures var rs := Sessions.Run(Initial, ps).records;
      && BreakMinutes(rs) >= 0
      && RenderBreak(BreakMinutes(rs)) == Padded(BreakMinutes(rs) / 60) + ":" + Padded(BreakMinutes(rs) % 60)
  {
    Sessions.ReachableShape(ps);
    var rs := Sessions.Run(Initial, ps).records;
    BreakNonNegative(rs);
    RenderNonNegative(BreakMinutes(rs));
  }
}
