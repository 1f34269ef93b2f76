/**
 * The work-session state of the `useWorkStatus` hook: the current status, today's
 * records, the validator for a start/end pair, and the `startWork` / `endWork`
 * transitions. The clock is a parameter `now` (integer milliseconds), so every
 * operation is a pure function from the old state to the new one.
 */
module WorkStatus {
  import opened Wrappers

  datatype Status = Free | Working

  /** One work session; `end == None` while it is still in progress. */
  datatype Record = Record(start: int, end: Option<int>)

  datatype State = State(status: Status, records: seq<Record>)

  /** Why the validator refuses a record. */
  datatype Reason = FutureStart | EndBeforeStart

  /**
   * The validator's outcome. `Accepted` carries the advisory the source only logs:
   * whether the session is longer than a day.
   */
  datatype Verdict = Rejected(reason: Reason) | Accepted(longSession: bool)

  const DayMs: int := 24 * 60 * 60 * 1000

  /** The state the hook starts from: free, no records. */
  const Initial: State := State(Free, [])

  /** True when the last record exists and has no end. */
  predicate LastOpen(rs: seq<Record>) {
    |rs| > 0 && rs[|rs| - 1].end.None?
  }

  /** `validateTimeRecord(start, end)`, with the clock reading `now`. */
  function ValidateTimeRecord(start: int, end: Option<int>, now: int): (v: Verdict)
    ensures v.Accepted? <==> start <= now && (end.None? || start <= end.value)
    ensures v == Rejected(FutureStart) <==> start > now
    ensures v.Accepted? ==> (v.longSession <==> end.Some? && end.value - start > DayMs)
  {
    if start > now then Rejected(FutureStart)
    else if end.Some? then
      if end.value < start then Rejected(EndBeforeStart)
      else Accepted(end.value - start > DayMs)
    else Accepted(false)
  }

  /**
   * `startWork()`: from `Free`, append an open record starting at `now` unless the
   * last record is still open; from `Working`, do nothing.
   */
  function StartWork(s: State, now: int): (r: State)
    ensures s.status == Working ==> r == s
    ensures s.status == Free && LastOpen(s.records) ==> r == s
    ensures s.status == Free && !LastOpen(s.records) ==>
              r.status == Working && r.records == s.records + [Record(now, None)]
  {
    if s.status == Free then
      if LastOpen(s.records) then s
      else if ValidateTimeRecord(now, None, now).Accepted? then
        State(Working, s.records + [Record(now, None)])
      else s
    else s
  }

  /**
   * `endWork()`: from `Working`, give the last record the end `now` when the validator
   * accepts it, and become `Free` in every case; from `Free`, do nothing.
   */
  function EndWork(s: State, now: int): (r: State)
    ensures s.status == Free ==> r == s
    ensures s.status == Working ==> r.status == Free && |r.records| == |s.records|
    ensures s.status == Working ==>
              forall i :: 0 <= i < |s.records| - 1 ==> r.records[i] == s.records[i]
    ensures s.status == Working && |s.records| > 0 ==>
              var last := s.records[|s.records| - 1];
              r.records[|s.records| - 1] ==
                if last.start <= now then Record(last.start, Some(now)) else last
  {
    if s.status == Working then
      var rs := s.records;
      if |rs| == 0 then State(Free, rs)
      else
        var last := rs[|rs| - 1];
        if ValidateTimeRecord(last.start, Some(now), now).Accepted? then
          State(Free, rs[..|rs| - 1] + [Record(last.start, Some(now))])
        else State(Free, rs)
    else s
  }

  /** A session longer than a day is accepted; the length only raises the advisory. */
  lemma LongSessionAccepted(start: int, end: int, now: int)
    requires start <= now && end - start > DayMs
    ensures ValidateTimeRecord(start, Some(end), now) == Accepted(true)
  {
  }

  /**
   * When the clock reads earlier than the open record's start, `endWork` still frees the
   * status but leaves the record open, and from then on `startWork` refuses to start.
   */
  lemma RejectedEndStrandsOpenRecord(s: State, now: int, later: int)
    requires s.status == Working && LastOpen(s.records)
    requires s.records[|s.records| - 1].start > now
    ensures EndWork(s, now) == State(Free, s.records)
    ensures StartWork(EndWork(s, now), later) == EndWork(s, now)
  {
  }
}
