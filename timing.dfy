/** The arithmetic of one session-timer tick (server.js, the interval callback
    installed by `sessionStarted`): elapsed time always grows by the interval,
    and a Patient's remaining time is (re)initialised from the budget when it
    is falsy and then reduced by the interval. */
module Timing {
  import opened Records

  /** The two timing fields of a connection record. `None` is JavaScript's
      `null`, which `connect` stores as the initial remaining time. */
  datatype Clock = Clock(connectedTime: int, remainingTime: Option<int>)

  /** `!user.remainingTime`: null and 0 are falsy. */
  predicate Falsy(r: Option<int>) {
    r.None? || r.value == 0
  }

  /** One tick applied to one record. */
  function StepClock(role: string, c: Clock, budget: int): Clock {
    var elapsed := c.connectedTime + UpdateInterval;
    if role == PatientRole then
      var start := if Falsy(c.remainingTime) then budget else c.remainingTime.value;
      Clock(elapsed, Some(start - UpdateInterval))
    else
      Clock(elapsed, c.remainingTime)
  }

  /** The record after `n` ticks of the same interval. */
  function Run(role: string, c: Clock, budget: int, n: nat): Clock
    decreases n
  {
    if n == 0 then c else StepClock(role, Run(role, c, budget, n - 1), budget)
  }

  /** The remaining time has run out: the tick that produced it sends `sessionEnded`. */
  predicate Expired(c: Clock) {
    c.remainingTime.Some? && c.remainingTime.value <= 0
  }

  function LimitNotice(room: SocketId): Emit {
    Emit(FromServer(room), Notification(LimitExceededText))
  }

  function EndNotice(room: SocketId): Emit {
    Emit(FromServer(room), SessionEnded)
  }

  /** What one Patient's update sends to the two participants of the timer
      (`answering`, `calling`), given the remaining time just computed. */
  function Alerts(remaining: int, answering: SocketId, calling: SocketId): (r: seq<Emit>)
    ensures r != [] <==> remaining <= 10
    ensures remaining <= 10 ==> LimitNotice(answering) in r && LimitNotice(calling) in r
    ensures remaining <= 0 ==> EndNotice(answering) in r && EndNotice(calling) in r
    ensures 0 < remaining ==> forall e :: e in r ==> e.message != SessionEnded
  {
    (if remaining <= 10 then [LimitNotice(answering), LimitNotice(calling)] else [])
    + (if remaining <= 0
       then [LimitNotice(answering), LimitNotice(calling), EndNotice(answering), EndNotice(calling)]
       else [])
  }

  /** What updating one record sends: nothing unless the role is Patient. */
  function UserAlerts(role: string, after: Clock, answering: SocketId, calling: SocketId): seq<Emit> {
    if role == PatientRole && after.remainingTime.Some? then
      Alerts(after.remainingTime.value, answering, calling)
    else []
  }

  /** Every tick adds exactly one interval of elapsed time, whatever the role. */
  lemma {:induction false} ElapsedTime(role: string, c: Clock, budget: int, n: nat)
    ensures Run(role, c, budget, n).connectedTime == c.connectedTime + n * UpdateInterval
  {
    if n > 0 {
      ElapsedTime(role, c, budget, n - 1);
    }
  }

  /** Ticks never touch the remaining time of a record whose role is not Patient. */
  lemma {:induction false} OtherRolesKeepRemaining(role: string, c: Clock, budget: int, n: nat)
    requires role != PatientRole
    ensures Run(role, c, budget, n).remainingTime == c.remainingTime
  {
    if n > 0 {
      OtherRolesKeepRemaining(role, c, budget, n - 1);
    }
  }

  /** From a fresh record (remaining time null), a Patient's remaining time after
      `k` ticks is the budget minus `k` intervals, as long as it has not touched
      zero on the way. */
  lemma {:induction false} Countdown(connectedTime: int, budget: int, k: nat)
    requires 1 <= k && (k - 1) * UpdateInterval < budget
    ensures Run(PatientRole, Clock(connectedTime, None), budget, k).remainingTime
         == Some(budget - k * UpdateInterval)
  {
    if k > 1 {
      Countdown(connectedTime, budget, k - 1);
    }
  }

  /** A Patient with budget `budget` expires on tick `n` = ceil(budget / interval)
      and not before: no earlier tick sends `sessionEnded`. */
  lemma ExpiresOnTime(connectedTime: int, budget: int, n: nat)
    requires 1 <= n && (n - 1) * UpdateInterval < budget <= n * UpdateInterval
    ensures Expired(Run(PatientRole, Clock(connectedTime, None), budget, n))
    ensures forall k :: 1 <= k < n ==> !Expired(Run(PatientRole, Clock(connectedTime, None), budget, k))
  {
    Countdown(connectedTime, budget, n);
    forall k | 1 <= k < n
      ensures !Expired(Run(PatientRole, Clock(connectedTime, None), budget, k))
    {
      Countdown(connectedTime, budget, k);
    }
  }

  /** When the budget is a whole number of intervals the remaining time lands on
      exactly 0, which is falsy, so the next tick re-initialises it from the
      budget: the countdown starts over instead of staying expired. */
  lemma RestartsAfterExactZero(connectedTime: int, budget: int, n: nat)
    requires 1 <= n && budget == n * UpdateInterval
    ensures Run(PatientRole, Clock(connectedTime, None), budget, n).remainingTime == Some(0)
    ensures Run(PatientRole, Clock(connectedTime, None), budget, n + 1).remainingTime
         == Some(budget - UpdateInterval)
  {
    Countdown(connectedTime, budget, n);
  }

  /** When the budget is not a whole number of intervals the remaining time goes
      below zero and stays there: every tick from the `n`-th on is expired, so
      `sessionEnded` is sent again on each of them. */
  lemma {:induction false} KeepsEndingWhenOverdrawn(connectedTime: int, budget: int, n: nat, m: nat)
    requires 1 <= n && (n - 1) * UpdateInterval < budget < n * UpdateInterval
    requires n <= m
    ensures Run(PatientRole, Clock(connectedTime, None), budget, m).remainingTime
         == Some(budget - m * UpdateInterval)
    ensures Expired(Run(PatientRole, Clock(connectedTime, None), budget, m))
  {
    if m == n {
      Countdown(connectedTime, budget, n);
    } else {
      KeepsEndingWhenOverdrawn(connectedTime, budget, n, m - 1);
    }
  }
}
