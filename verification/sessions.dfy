/**
 * What runs of the hook keep true. Starting from the initial state and pressing start and
 * end in any order, only the last record can be open and `Working` has it open, whatever
 * the clock does. While the clock never goes backwards, moreover, the last record is open
 * exactly while the status is `Working` and the records are in chronological order.
 */
module Sessions {
  import opened WorkStatus

  datatype Action = Start | End

  /** One button press and the clock reading at that moment. */
  datatype Press = Press(action: Action, now: int)

  function Apply(s: State, p: Press): State {
    match p.action
    case Start => StartWork(s, p.now)
    case End => EndWork(s, p.now)
  }

  /** The state after the presses, in order. */
  function Run(s: State, ps: seq<Press>): State
    decreases |ps|
  {
    if |ps| == 0 then s else Run(Apply(s, ps[0]), ps[1..])
  }

  /** The clock readings never decrease along the presses. */
  predicate ClockMonotone(ps: seq<Press>) {
    forall i, j :: 0 <= i < j < |ps| ==> ps[i].now <= ps[j].now
  }

  /** Every record but the last is closed. */
  predicate OnlyLastOpen(rs: seq<Record>) {
    forall i :: 0 <= i < |rs| - 1 ==> rs[i].end.Some?
  }

  predicate StartsNonDecreasing(rs: seq<Record>) {
    forall i, j :: 0 <= i < j < |rs| ==> rs[i].start <= rs[j].start
  }

  /** Each closed record ends no later than the next one starts. */
  predicate NoOverlap(rs: seq<Record>) {
    forall i :: 0 <= i < |rs| - 1 ==> rs[i].end.Some? && rs[i].end.value <= rs[i + 1].start
  }

  /** Every timestamp lies at or before `clock`, and no record ends before it starts. */
  predicate NotAfter(rs: seq<Record>, clock: int) {
    forall i :: 0 <= i < |rs| ==>
      rs[i].start <= clock && (rs[i].end.Some? ==> rs[i].start <= rs[i].end.value <= clock)
  }

  /** The invariant of a state last touched at time `clock`. */
  predicate Consistent(s: State, clock: int) {
    && OnlyLastOpen(s.records)
    && (s.status == Working <==> LastOpen(s.records))
    && StartsNonDecreasing(s.records)
    && NoOverlap(s.records)
    && NotAfter(s.records, clock)
  }

  /** One press at a time not before `clock` keeps the invariant, now at the new time. */
  lemma StepConsistent(s: State, clock: int, p: Press)
    requires Consistent(s, clock) && clock <= p.now
    ensures Consistent(Apply(s, p), p.now)
  {
  }

  /** The invariant survives every run with a monotone clock. */
  lemma {:induction false} RunConsistent(s: State, clock: int, ps: seq<Press>)
    requires Consistent(s, clock)
    requires ClockMonotone(ps)
    requires forall i :: 0 <= i < |ps| ==> clock <= ps[i].now
    ensures Consistent(Run(s, ps), if |ps| == 0 then clock else ps[|ps| - 1].now)
    decreases |ps|
  {
    if |ps| > 0 {
      StepConsistent(s, clock, ps[0]);
      RunConsistent(Apply(s, ps[0]), ps[0].now, ps[1..]);
    }
  }

  /**
   * Every state reachable from the initial one with a monotone clock has only its last
   * record open, has it open exactly while working, and lists sessions in time order.
   */
  lemma ReachableShape(ps: seq<Press>)
    requires ClockMonotone(ps)
    ensures var r := Run(Initial, ps);
      && OnlyLastOpen(r.records)
      && (r.status == Working <==> LastOpen(r.records))
      && StartsNonDecreasing(r.records)
      && NoOverlap(r.records)
  {
    var clock := if |ps| == 0 then 0 else ps[0].now;
    RunConsistent(Initial, clock, ps);
  }

  /**
   * What holds whatever the clock does: only the last record can be open, and `Working`
   * has it open. A backward clock can still leave `Free` with an open record.
   */
  predicate Shaped(s: State) {
    OnlyLastOpen(s.records) && (s.status == Working ==> LastOpen(s.records))
  }

  /** Any press, at any clock reading, keeps the shape. */
  lemma StepShaped(s: State, p: Press)
    requires Shaped(s)
    ensures Shaped(Apply(s, p))
  {
  }

  /** Any run of presses keeps the shape. */
  lemma {:induction false} RunShaped(s: State, ps: seq<Press>)
    requires Shaped(s)
    ensures Shaped(Run(s, ps))
    decreases |ps|
  {
    if |ps| > 0 {
      StepShaped(s, ps[0]);
      RunShaped(Apply(s, ps[0]), ps[1..]);
    }
  }

  /**
   * Every state reachable from the initial one, with no assumption on the clock, has at
   * most its last record open, and has it open while working.
   */
  lemma AnyRunShape(ps: seq<Press>)
    ensures var r := Run(Initial, ps);
      && OnlyLastOpen(r.records)
      && (r.status == Working ==> LastOpen(r.records))
  {
    RunShaped(Initial, ps);
  }

  /**
   * A free state whose last record is still open, which an end rejected by a backward clock
   * leaves behind, is never left again: `startWork` refuses and `endWork` does nothing.
   */
  lemma {:induction false} StrandedForever(s: State, ps: seq<Press>)
    requires s.status == Free && LastOpen(s.records)
    ensures Run(s, ps) == s
    decreases |ps|
  {
    if |ps| > 0 {
      StrandedForever(Apply(s, ps[0]), ps[1..]);
    }
  }
}
