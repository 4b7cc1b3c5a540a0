/**
  How the `parallel` setting becomes pool limits, and what that buys the pool.
*/
module Budget {
  import opened Common
  import opened PoolSpec
  import PoolRuns
  import Semaphore

  /** A setting as the caller wrote it: absent or null, `true`, an integer, or NaN and the infinities. */
  datatype Setting = Missing | True | Number(n: int) | NotFinite

  datatype Parallel = Scalar(setting: Setting) | Limits(total: Setting, record: Setting, grade: Setting, cpu: Setting)

  datatype Resolved = Resolved(total: int, record: Cap, grade: int, cpu: int)

  function PoolOf(s: Setting, auto: int): int {
    if s.Number? then Max(1, s.n) else auto
  }

  function CapOf(s: Setting): Cap {
    if s.Number? then AtMost(Max(1, s.n)) else Unlimited
  }

  function TailOf(s: Setting, fallback: int): int {
    if s.Number? then Max(0, s.n) else fallback
  }

  /** Every resolved budget has workers, lets at least one record through, and never blocks the CPU permit. */
  function Resolve(parallel: Parallel, auto: int): (b: Resolved)
    ensures b.record.AtMost? ==> b.record.n >= 1
    ensures auto >= 1 ==> b.total >= 1 && b.grade >= 0 && b.cpu >= 1
    ensures parallel.Limits? && parallel.grade.Missing? && b.record.AtMost? ==> b.grade == Min(b.record.n, b.total)
    ensures parallel.Limits? && parallel.grade == Number(0) ==> b.grade == 0
  {
    match parallel
    case Scalar(setting) =>
      var total := PoolOf(setting, auto);
      Resolved(total, Unlimited, total, total)
    case Limits(t, r, g, c) =>
      var total := PoolOf(t, auto);
      var record := CapOf(r);
      var graded := if record.AtMost? then Min(record.n, total) else total;
      Resolved(total, record, TailOf(g, graded), Max(1, TailOf(c, total)))
  }

  /** A number is used as it stands from its floor on; a limit that is not given falls back to the pool's size. */
  lemma SettingsAreHonoured(total: Setting, record: Setting, grade: Setting, cpu: Setting, auto: int)
    requires auto >= 1
    ensures var b := Resolve(Limits(total, record, grade, cpu), auto);
            && (if total.Number? && total.n >= 1 then b.total == total.n else if total.Number? then b.total == 1 else b.total == auto)
            && (if record.Number? && record.n >= 1 then b.record == AtMost(record.n)
                else if record.Number? then b.record == AtMost(1) else b.record == Unlimited)
            && (if grade.Number? && grade.n >= 0 then b.grade == grade.n
                else if grade.Number? then b.grade == 0
                else b.grade <= b.total && Within(b.grade, b.record) && (b.grade == b.total || b.record == AtMost(b.grade)))
            && (if cpu.Number? && cpu.n >= 1 then b.cpu == cpu.n else if cpu.Number? then b.cpu == 1 else b.cpu == b.total)
    ensures var b := Resolve(Scalar(total), auto);
            && b.record == Unlimited && b.grade == b.total == b.cpu
            && b.total == Resolve(Limits(total, record, grade, cpu), auto).total
  {}

  /** The number of workers the pool starts: at most the budget, at most one per item, and never none. */
  function WorkerCount(total: int, items: nat): (n: nat)
    ensures n >= 1
    ensures n <= Max(1, total) && n <= Max(1, items) && (n == Max(1, total) || n == Max(1, items))
  {
    var n := Min(Max(1, total), items);
    if n == 0 then 1 else n
  }

  function ConfigOf(b: Resolved, records: seq<bool>): Config
    requires b.grade >= 0
  {
    Config(records, b.record, b.grade, WorkerCount(b.total, |records|))
  }

  /** The grading permit: a tail cap of 0 means "never detach", and must not also serialize the graders. */
  function GradeLimit(b: Resolved): Cap {
    if b.grade > 0 then AtMost(b.grade) else Unlimited
  }

  function CpuLimit(b: Resolved): Cap {
    AtMost(Max(1, b.cpu))
  }

  /** Whatever the caller wrote, the resolved pool can always finish and neither permit can starve its callers. */
  lemma {:induction false} ResolvedBudgetNeverSticks(parallel: Parallel, auto: int, records: seq<bool>)
    requires auto >= 1
    ensures var b := Resolve(parallel, auto);
            && PoolRuns.CanFinish(ConfigOf(b, records))
            && GradeLimit(b) != AtMost(0) && CpuLimit(b) != AtMost(0)
  {
    PoolRuns.FinishesIffRecordsCanRun(ConfigOf(Resolve(parallel, auto), records));
  }

  /** From every state a run under a resolved budget can reach, some continuation finishes the pool. */
  lemma {:induction false} ResolvedPoolFinishesFrom(parallel: Parallel, auto: int, records: seq<bool>, s: State) returns (es: seq<PoolRuns.Event>)
    requires auto >= 1
    requires PoolRuns.Reachable(ConfigOf(Resolve(parallel, auto), records), s)
    ensures var c := ConfigOf(Resolve(parallel, auto), records);
            PoolRuns.Run(c, s, es).Some? && PoolRuns.Finished(PoolRuns.Run(c, s, es).value)
  {
    var c := ConfigOf(Resolve(parallel, auto), records);
    PoolRuns.Safety(c, s);
    es := PoolRuns.Finish(c, s);
  }
}
