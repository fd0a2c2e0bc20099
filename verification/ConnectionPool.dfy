/** The pool of database connections (src/mysql/ConnectionPool.cc): borrowers, a producer and a
    recycler around one mutex, as the steps each takes while holding it. Times are nanoseconds of
    one steady clock. */
module ConnectionPoolModel {
  import Runs

  const NANOS_PER_MILLI: nat := 1_000_000

  datatype Config = Config(minSize: int, maxSize: int, maxIdle: int)

  /** `id` is the connection's address and `refreshed` its start of idleness. */
  datatype Conn = Conn(id: nat, refreshed: nat)

  /** `created` counts the connections ever made; the source keeps no such counter. `asleep`: the
      producer waits on the condition variable. */
  datatype Pool = Pool(
    idle: seq<Conn>, borrowed: set<nat>, currentSize: int, created: nat, clock: nat, asleep: bool)

  function Live(p: Pool): nat {
    |p.idle| + |p.borrowed|
  }

  // ---------------------------------------------------------------- the operations

  /** addConnection followed by the caller's own increment: the counter moves by two. */
  function AddConnection(p: Pool, id: nat): Pool {
    p.(idle := p.idle + [Conn(id, p.clock)], currentSize := p.currentSize + 2, created := p.created + 1)
  }

  function Produce(cfg: Config, p: Pool, id: nat): Pool {
    if p.currentSize < cfg.maxSize then AddConnection(p, id) else p
  }

  /** getConnection's end, which notifies the condition variable. */
  function Borrow(p: Pool): Pool
    requires p.idle != []
  {
    p.(idle := p.idle[1..], borrowed := p.borrowed + {p.idle[0].id}, asleep := false)
  }

  /** The deleter of a borrowed pointer. */
  function GiveBack(p: Pool, id: nat): Pool {
    p.(idle := p.idle + [Conn(id, p.clock)], borrowed := p.borrowed - {id})
  }

  /** getAliveTime in milliseconds against the limit. */
  predicate Aged(c: Conn, now: nat, maxIdle: int) {
    now >= c.refreshed && (now - c.refreshed) / NANOS_PER_MILLI >= maxIdle
  }

  /** How many connections the recycler may destroy: `size() > minSize_` compares as unsigned, so
      a negative minimum allows none. */
  function Surplus(size: nat, minSize: int): nat {
    if 0 <= minSize < size then size - minSize else 0
  }

  /** The recycler's loop; the clock moves on by `delays` before each reading. */
  function Recycled(q: seq<Conn>, surplus: nat, clock: nat, delays: seq<nat>, maxIdle: int): (seq<Conn>, nat)
  {
    if q == [] || surplus == 0 then (q, clock)
    else
      var now := clock + if delays == [] then 0 else delays[0];
      if Aged(q[0], now, maxIdle)
      then Recycled(q[1..], surplus - 1, now, if delays == [] then [] else delays[1..], maxIdle)
      else (q, now)
  }

  function Recycle(cfg: Config, p: Pool, delays: seq<nat>): Pool {
    var (idle, now) := Recycled(p.idle, Surplus(|p.idle|, cfg.minSize), p.clock, delays, cfg.maxIdle);
    p.(idle := idle, clock := now, currentSize := p.currentSize - (|p.idle| - |idle|))
  }

  lemma {:induction false} RecycledIsSuffix(q: seq<Conn>, surplus: nat, clock: nat, delays: seq<nat>, maxIdle: int)
    ensures var (rest, last) := Recycled(q, surplus, clock, delays, maxIdle);
            && clock <= last
            && |q| - surplus <= |rest| <= |q|
            && rest == q[|q| - |rest|..]
  {
    if q != [] && surplus > 0 {
      var now := clock + if delays == [] then 0 else delays[0];
      if Aged(q[0], now, maxIdle) {
        var later := if delays == [] then [] else delays[1..];
        RecycledIsSuffix(q[1..], surplus - 1, now, later, maxIdle);
        var n := |Recycled(q[1..], surplus - 1, now, later, maxIdle).0|;
        assert q[1..][|q| - 1 - n..] == q[|q| - n..];
      }
    }
  }

  // ---------------------------------------------------------------- early break is a full scan

  /** Looks at every idle connection and destroys each aged one, as long as the surplus lasts. */
  function FullScan(q: seq<Conn>, surplus: nat, now: nat, maxIdle: int): seq<Conn> {
    if q == [] then []
    else if surplus > 0 && Aged(q[0], now, maxIdle) then FullScan(q[1..], surplus - 1, now, maxIdle)
    else [q[0]] + FullScan(q[1..], surplus, now, maxIdle)
  }

  predicate Sorted(q: seq<Conn>) {
    forall i, j :: 0 <= i < j < |q| ==> q[i].refreshed <= q[j].refreshed
  }

  lemma {:induction false} NothingAgedStays(q: seq<Conn>, surplus: nat, now: nat, maxIdle: int)
    requires surplus == 0 || forall i :: 0 <= i < |q| ==> !Aged(q[i], now, maxIdle)
    ensures FullScan(q, surplus, now, maxIdle) == q
  {
    if q != [] {
      NothingAgedStays(q[1..], surplus, now, maxIdle);
      assert [q[0]] + q[1..] == q;
    }
  }

  lemma QuotientGrows(x: nat, y: nat)
    requires x <= y
    ensures x / NANOS_PER_MILLI <= y / NANOS_PER_MILLI
  {
  }

  /** On a queue sorted by refresh time, stopping at the first connection that is not aged removes
      exactly what a scan of the whole queue, at the last clock reading, would remove. */
  lemma {:induction false} EarlyBreakIsFullScan(q: seq<Conn>, surplus: nat, clock: nat, delays: seq<nat>, maxIdle: int)
    requires Sorted(q) && forall i :: 0 <= i < |q| ==> q[i].refreshed <= clock
    ensures var (rest, last) := Recycled(q, surplus, clock, delays, maxIdle);
            rest == FullScan(q, surplus, last, maxIdle)
  {
    var (rest, last) := Recycled(q, surplus, clock, delays, maxIdle);
    if q == [] || surplus == 0 {
      NothingAgedStays(q, surplus, last, maxIdle);
    } else {
      var now := clock + if delays == [] then 0 else delays[0];
      var later := if delays == [] then [] else delays[1..];
      if Aged(q[0], now, maxIdle) {
        EarlyBreakIsFullScan(q[1..], surplus - 1, now, later, maxIdle);
        RecycledIsSuffix(q[1..], surplus - 1, now, later, maxIdle);
        StillAged(q[0], now, last, maxIdle);
      } else {
        forall i | 0 <= i < |q|
          ensures !Aged(q[i], now, maxIdle)
        {
          if i > 0 { YoungerIsNotAged(q[0], q[i], now, maxIdle); }
        }
        NothingAgedStays(q, surplus, now, maxIdle);
      }
    }
  }

  lemma StillAged(c: Conn, now: nat, later: nat, maxIdle: int)
    requires Aged(c, now, maxIdle) && now <= later
    ensures Aged(c, later, maxIdle)
  {
    QuotientGrows(now - c.refreshed, later - c.refreshed);
  }

  lemma YoungerIsNotAged(a: Conn, b: Conn, now: nat, maxIdle: int)
    requires a.refreshed <= b.refreshed <= now && !Aged(a, now, maxIdle)
    ensures !Aged(b, now, maxIdle)
  {
    QuotientGrows(now - b.refreshed, now - a.refreshed);
  }

  // ---------------------------------------------------------------- runs

  /** Sleep: the producer finds the queue not empty and waits. Wakeup: its wait ends without a
      notification. */
  datatype Step =
    | Tick(d: nat)
    | ProduceStep(id: nat)
    | Sleep
    | Wakeup
    | BorrowStep
    | ReturnStep(id: nat)
    | RecycleStep(delays: seq<nat>)

  /** `new` answers with an unused address. */
  predicate Enabled(p: Pool, step: Step) {
    match step
    case ProduceStep(id) => !p.asleep && p.idle == [] && id !in p.borrowed
    case Sleep => !p.asleep && p.idle != []
    case Wakeup => p.asleep
    case BorrowStep => p.idle != []
    case ReturnStep(id) => id in p.borrowed
    case _ => true
  }

  function Apply(cfg: Config, p: Pool, step: Step): Pool
    requires Enabled(p, step)
  {
    match step
    case Tick(d) => p.(clock := p.clock + d)
    case ProduceStep(id) => Produce(cfg, p, id)
    case Sleep => p.(asleep := true)
    case Wakeup => p.(asleep := false)
    case BorrowStep => Borrow(p)
    case ReturnStep(id) => GiveBack(p, id)
    case RecycleStep(delays) => Recycle(cfg, p, delays)
  }

  /** The constructor's fill, one connection per entry of `delays`. */
  function Fill(ids: seq<nat>, delays: seq<nat>): Pool
    requires |ids| == |delays|
  {
    if ids == [] then Pool([], {}, 0, 0, 0, false)
    else
      var n := |ids| - 1;
      var p := Fill(ids[..n], delays[..n]);
      AddConnection(p.(clock := p.clock + delays[n]), ids[n])
  }

  /** One connection per place of the minimum, all different. */
  ghost predicate Initial(cfg: Config, ids: seq<nat>, delays: seq<nat>) {
    && |ids| == |delays| == (if cfg.minSize > 0 then cfg.minSize else 0)
    && forall i, j :: 0 <= i < j < |ids| ==> ids[i] != ids[j]
  }

  predicate Next(cfg: Config, p: Pool, step: Step, p': Pool) {
    Enabled(p, step) && p' == Apply(cfg, p, step)
  }

  ghost predicate IsRun(cfg: Config, start: Pool, steps: seq<Step>, ps: seq<Pool>) {
    Runs.IsRun(start, (p, step, p') => Next(cfg, p, step, p'), steps, ps)
  }

  /** No more connections than the initial fill, or half the configured maximum, rounded up. */
  function Limit(cfg: Config): nat {
    var least := if cfg.minSize > 0 then cfg.minSize else 0;
    var most := if cfg.maxSize > 0 then (cfg.maxSize + 1) / 2 else 0;
    if least > most then least else most
  }

  ghost predicate Distinct(q: seq<Conn>) {
    forall i, j :: 0 <= i < j < |q| ==> q[i].id != q[j].id
  }

  ghost predicate Sound(cfg: Config, p: Pool) {
    && Distinct(p.idle)
    && (forall i :: 0 <= i < |p.idle| ==> p.idle[i].id !in p.borrowed)
    && Sorted(p.idle)
    && (forall i :: 0 <= i < |p.idle| ==> p.idle[i].refreshed <= p.clock)
    && p.currentSize == Live(p) + p.created
    && Live(p) <= p.created
    && Live(p) <= Limit(cfg)
  }

  /** The pool never falls below its minimum; with a negative minimum it never loses anything. */
  predicate Kept(cfg: Config, p: Pool) {
    Live(p) >= cfg.minSize && (cfg.minSize < 0 ==> Live(p) == p.created)
  }

  ghost predicate Inv(cfg: Config, p: Pool) {
    Sound(cfg, p) && Kept(cfg, p)
  }

  lemma StepKeeps(cfg: Config, p: Pool, step: Step)
    requires Inv(cfg, p) && Enabled(p, step)
    ensures Inv(cfg, Apply(cfg, p, step))
  {
    match step
    case RecycleStep(delays) => RecycleKeeps(cfg, p, delays);
    case ProduceStep(id) => AppendKeepsQueue(p.idle, Conn(id, p.clock));
    case ReturnStep(id) => ReturnKeeps(cfg, p, id);
    case BorrowStep => BorrowKeeps(cfg, p);
    case _ =>
  }

  lemma BorrowKeeps(cfg: Config, p: Pool)
    requires Inv(cfg, p) && p.idle != []
    ensures Inv(cfg, Borrow(p))
  {
  }

  lemma ReturnKeeps(cfg: Config, p: Pool, id: nat)
    requires Inv(cfg, p) && id in p.borrowed
    ensures Inv(cfg, GiveBack(p, id))
  {
    AppendKeepsQueue(p.idle, Conn(id, p.clock));
  }

  lemma AppendKeepsQueue(q: seq<Conn>, c: Conn)
    requires Sorted(q) && Distinct(q)
    requires forall i :: 0 <= i < |q| ==> q[i].id != c.id && q[i].refreshed <= c.refreshed
    ensures Sorted(q + [c]) && Distinct(q + [c])
  {
  }

  lemma RecycleKeeps(cfg: Config, p: Pool, delays: seq<nat>)
    requires Inv(cfg, p)
    ensures Inv(cfg, Recycle(cfg, p, delays))
  {
    RecycledIsSuffix(p.idle, Surplus(|p.idle|, cfg.minSize), p.clock, delays, cfg.maxIdle);
  }

  lemma {:induction false} FillIsGood(cfg: Config, ids: seq<nat>, delays: seq<nat>)
    requires |ids| == |delays| <= Limit(cfg)
    requires forall i, j :: 0 <= i < j < |ids| ==> ids[i] != ids[j]
    ensures var p := Fill(ids, delays);
            && Sound(cfg, p) && |p.idle| == |ids| == p.created && p.borrowed == {} && !p.asleep
            && forall i :: 0 <= i < |ids| ==> p.idle[i].id == ids[i]
  {
    if ids != [] {
      FillIsGood(cfg, ids[..|ids| - 1], delays[..|ids| - 1]);
    }
  }

  function Sum(delays: seq<nat>): nat {
    if delays == [] then 0 else Sum(delays[..|delays| - 1]) + delays[|delays| - 1]
  }

  /** Each connection of the fill is idle from the moment it was made. */
  lemma {:induction false} FillTimes(ids: seq<nat>, delays: seq<nat>)
    requires |ids| == |delays|
    ensures var p := Fill(ids, delays);
            && p.clock == Sum(delays) && |p.idle| == |ids|
            && forall i :: 0 <= i < |ids| ==> p.idle[i] == Conn(ids[i], Sum(delays[..i + 1]))
  {
    if ids != [] {
      var n := |ids| - 1;
      FillTimes(ids[..n], delays[..n]);
      forall i | 0 <= i < |ids|
        ensures Fill(ids, delays).idle[i] == Conn(ids[i], Sum(delays[..i + 1]))
      {
        if i < n {
          assert delays[..n][..i + 1] == delays[..i + 1];
        } else {
          assert delays[..i + 1] == delays;
        }
      }
    }
  }

  /** Under every interleaving of borrow, return, produce and recycle: a connection is idle or
      borrowed and never both, the counter is the live connections plus all ever created, the
      pool stays within Limit, and the idle queue is sorted by refresh time. */
  lemma RunKeeps(cfg: Config, ids: seq<nat>, delays: seq<nat>, steps: seq<Step>, ps: seq<Pool>, n: nat)
    requires Initial(cfg, ids, delays) && IsRun(cfg, Fill(ids, delays), steps, ps) && n < |ps|
    ensures Inv(cfg, ps[n])
  {
    FillIsGood(cfg, ids, delays);
    forall p, step, p' | Inv(cfg, p) && Next(cfg, p, step, p')
      ensures Inv(cfg, p')
    {
      StepKeeps(cfg, p, step);
    }
    Runs.Invariant(Fill(ids, delays), (p, step, p') => Next(cfg, p, step, p'), steps, ps, (p: Pool) => Inv(cfg, p), n);
  }

  /** In every reachable pool a recycling pass removes what a full scan limited by the minimum
      would, and the pool never exceeds the larger of the two configured sizes. */
  lemma RecyclerIsExact(cfg: Config, ids: seq<nat>, delays: seq<nat>, steps: seq<Step>, ps: seq<Pool>, n: nat, pauses: seq<nat>)
    requires Initial(cfg, ids, delays) && IsRun(cfg, Fill(ids, delays), steps, ps) && n < |ps|
    ensures var p, p' := ps[n], Recycle(cfg, ps[n], pauses);
            && p'.idle == FullScan(p.idle, Surplus(|p.idle|, cfg.minSize), p'.clock, cfg.maxIdle)
            && Live(p) <= if cfg.minSize > cfg.maxSize then (if cfg.minSize > 0 then cfg.minSize else 0)
                          else (if cfg.maxSize > 0 then cfg.maxSize else 0)
  {
    RunKeeps(cfg, ids, delays, steps, ps, n);
    EarlyBreakIsFullScan(ps[n].idle, Surplus(|ps[n].idle|, cfg.minSize), ps[n].clock, pauses, cfg.maxIdle);
  }

  // ---------------------------------------------------------------- who waits how long

  /** A connection is old enough exactly when it has been idle for the limit, in milliseconds. */
  lemma AgedIff(c: Conn, now: nat, maxIdle: nat)
    requires c.refreshed <= now
    ensures Aged(c, now, maxIdle) <==> now - c.refreshed >= maxIdle * 1_000_000
  {
  }

  /** A borrower gets the connection that has been idle longest, and no other is touched. */
  lemma BorrowsLongestIdle(cfg: Config, p: Pool)
    requires Inv(cfg, p) && p.idle != []
    ensures var c, p' := p.idle[0], Apply(cfg, p, BorrowStep);
            && p'.borrowed == p.borrowed + {c.id} && c.id !in p.borrowed && p.idle == [c] + p'.idle
            && forall i :: 0 <= i < |p.idle| ==> c.refreshed <= p.idle[i].refreshed
  {
  }

  /** Idleness starts when a connection is given back or made, and at no other time; what is given
      back joins the end of the queue. */
  lemma IdleSince(cfg: Config, p: Pool, step: Step)
    requires Enabled(p, step)
    ensures forall c :: c in Apply(cfg, p, step).idle ==>
              c in p.idle || (c.refreshed == p.clock && (step == ReturnStep(c.id) || step == ProduceStep(c.id)))
    ensures step.ReturnStep? ==>
              Apply(cfg, p, step).idle == p.idle + [Conn(step.id, p.clock)] && Apply(cfg, p, step).borrowed == p.borrowed - {step.id}
  {
    if step.RecycleStep? {
      RecycledIsSuffix(p.idle, Surplus(|p.idle|, cfg.minSize), p.clock, step.delays, cfg.maxIdle);
    }
  }

  /** A recycling pass takes connections from the front, all of them old enough, until it is down to
      the minimum or meets one that is not; a negative minimum stops it at once. */
  lemma {:induction false} RecycledIsMaximal(q: seq<Conn>, surplus: nat, clock: nat, delays: seq<nat>, maxIdle: int)
    requires surplus <= |q|
    ensures var (rest, last) := Recycled(q, surplus, clock, delays, maxIdle);
            && |q| - surplus <= |rest| <= |q| && clock <= last
            && (|rest| == |q| - surplus || (rest != [] && !Aged(rest[0], last, maxIdle)))
            && forall i :: 0 <= i < |q| - |rest| ==> Aged(q[i], last, maxIdle)
  {
    RecycledIsSuffix(q, surplus, clock, delays, maxIdle);
    if q != [] && surplus > 0 {
      var now := clock + if delays == [] then 0 else delays[0];
      if Aged(q[0], now, maxIdle) {
        var later := if delays == [] then [] else delays[1..];
        RecycledIsMaximal(q[1..], surplus - 1, now, later, maxIdle);
        var (rest, last) := Recycled(q[1..], surplus - 1, now, later, maxIdle);
        StillAged(q[0], now, last, maxIdle);
        forall i | 0 <= i < |q| - |rest|
          ensures Aged(q[i], last, maxIdle)
        {
          assert i > 0 ==> q[i] == q[1..][i - 1];
        }
      }
    }
  }

  lemma RecyclesDownToTheMinimum(cfg: Config, p: Pool, delays: seq<nat>)
    ensures var p' := Recycle(cfg, p, delays);
            && |p'.idle| <= |p.idle| && p'.idle == p.idle[|p.idle| - |p'.idle|..] && p'.borrowed == p.borrowed
            && (cfg.minSize < 0 ==> p'.idle == p.idle)
            && (cfg.minSize >= 0 ==>
                  |p'.idle| <= cfg.minSize || (p'.idle != [] && !Aged(p'.idle[0], p'.clock, cfg.maxIdle)))
            && (p'.idle != p.idle ==> |p'.idle| >= cfg.minSize)
            && forall i :: 0 <= i < |p.idle| - |p'.idle| ==> Aged(p.idle[i], p'.clock, cfg.maxIdle)
  {
    var surplus := Surplus(|p.idle|, cfg.minSize);
    RecycledIsSuffix(p.idle, surplus, p.clock, delays, cfg.maxIdle);
    RecycledIsMaximal(p.idle, surplus, p.clock, delays, cfg.maxIdle);
  }

  // ---------------------------------------------------------------- the double count

  /** The producer can make a connection exactly when it is awake over an empty queue and live plus
      ever created is below the maximum, not live alone: the counter moves by two per connection. */
  lemma ProducesIff(cfg: Config, p: Pool, id: nat)
    requires Inv(cfg, p) && id !in p.borrowed
    ensures (Enabled(p, ProduceStep(id)) && Live(Apply(cfg, p, ProduceStep(id))) > Live(p)) <==>
              !p.asleep && p.idle == [] && Live(p) + p.created < cfg.maxSize
  {
  }

  /** All connections are gone, and as many have been created as the maximum. */
  predicate Dead(cfg: Config, p: Pool) {
    Live(p) == 0 && p.created >= cfg.maxSize
  }

  /** No connection is ever made again: borrowers wait forever. */
  lemma DeadForever(cfg: Config, start: Pool, steps: seq<Step>, ps: seq<Pool>, m: nat, n: nat)
    requires IsRun(cfg, start, steps, ps) && m <= n < |ps|
    requires Inv(cfg, ps[m]) && Dead(cfg, ps[m])
    ensures Live(ps[n]) == 0
  {
    var dead := (p: Pool) => Inv(cfg, p) && Dead(cfg, p);
    forall p, step, p' | dead(p) && Next(cfg, p, step, p')
      ensures dead(p')
    {
      StepKeeps(cfg, p, step);
    }
    Runs.Later(start, (p, step, p') => Next(cfg, p, step, p'), steps, ps, dead, m, n);
  }

  lemma RecycleOne(c: Conn, clock: nat, maxIdle: int)
    requires Aged(c, clock, maxIdle)
    ensures Recycled([c], 1, clock, [], maxIdle) == ([], clock)
  {
    assert [c][1..] == [];
    assert Recycled([], 0, clock, [], maxIdle) == ([], clock);
  }

  lemma ExtendRun(cfg: Config, start: Pool, steps: seq<Step>, ps: seq<Pool>, step: Step) returns (steps': seq<Step>, ps': seq<Pool>)
    requires IsRun(cfg, start, steps, ps) && Enabled(ps[|ps| - 1], step)
    ensures IsRun(cfg, start, steps', ps') && ps'[|ps'| - 1] == Apply(cfg, ps[|ps| - 1], step)
  {
    steps', ps' := steps + [step], ps + [Apply(cfg, ps[|ps| - 1], step)];
    Runs.Extend(start, (p, step, p') => Next(cfg, p, step, p'), steps, ps, step, Apply(cfg, ps[|ps| - 1], step));
  }

  /** The idle time after which a connection is old enough to be recycled. */
  function LongEnough(cfg: Config): nat {
    if cfg.maxIdle > 0 then cfg.maxIdle * NANOS_PER_MILLI else 0
  }

  /** An empty pool without a minimum, after one connection was made, aged and recycled. */
  lemma MadeAndRecycled(cfg: Config, start: Pool, steps: seq<Step>, ps: seq<Pool>) returns (steps': seq<Step>, ps': seq<Pool>)
    requires cfg.minSize == 0 && IsRun(cfg, start, steps, ps)
    requires var p := ps[|ps| - 1]; p == Pool([], {}, p.created, p.created, p.clock, false) && p.created < cfg.maxSize
    ensures IsRun(cfg, start, steps', ps')
    ensures var p, p' := ps[|ps| - 1], ps'[|ps'| - 1];
            p' == Pool([], {}, p.created + 1, p.created + 1, p'.clock, false)
  {
    var p := ps[|ps| - 1];
    steps', ps' := ExtendRun(cfg, start, steps, ps, ProduceStep(1));
    steps', ps' := ExtendRun(cfg, start, steps', ps', Tick(LongEnough(cfg)));
    var c, now := Conn(1, p.clock), p.clock + LongEnough(cfg);
    assert ps'[|ps'| - 1] == Pool([c], {}, p.created + 2, p.created + 1, now, false);
    RecycleOne(c, now, cfg.maxIdle);
    steps', ps' := ExtendRun(cfg, start, steps', ps', RecycleStep([]));
  }

  /** A pool without a minimum can use its maximum up, one connection after the other. */
  lemma {:induction false} UsedUp(cfg: Config, n: nat) returns (steps: seq<Step>, ps: seq<Pool>)
    requires cfg.minSize == 0 && (n == 0 || n <= cfg.maxSize)
    ensures IsRun(cfg, Fill([], []), steps, ps)
    ensures var p := ps[|ps| - 1]; p == Pool([], {}, n, n, p.clock, false)
  {
    if n == 0 {
      steps, ps := [], [Fill([], [])];
    } else {
      steps, ps := UsedUp(cfg, n - 1);
      steps, ps := MadeAndRecycled(cfg, Fill([], []), steps, ps);
    }
  }

  ghost predicate CanDie(cfg: Config) {
    exists ids, delays, steps, ps ::
      Initial(cfg, ids, delays) && IsRun(cfg, Fill(ids, delays), steps, ps) && Dead(cfg, ps[|ps| - 1])
  }

  /** Which configurations allow the pool to die: those without a minimum, and those with a negative
      minimum and no room for a connection at all. A positive minimum is always kept. */
  lemma CanDieIff(cfg: Config)
    ensures CanDie(cfg) <==> cfg.minSize == 0 || (cfg.minSize < 0 && cfg.maxSize <= 0)
  {
    if CanDie(cfg) {
      var ids, delays, steps, ps :|
        Initial(cfg, ids, delays) && IsRun(cfg, Fill(ids, delays), steps, ps) && Dead(cfg, ps[|ps| - 1]);
      RunKeeps(cfg, ids, delays, steps, ps, |ps| - 1);
    }
    if cfg.minSize == 0 {
      var steps, ps := UsedUp(cfg, if cfg.maxSize > 0 then cfg.maxSize else 0);
      assert Initial(cfg, [], []) && IsRun(cfg, Fill([], []), steps, ps) && Dead(cfg, ps[|ps| - 1]);
    } else if cfg.minSize < 0 && cfg.maxSize <= 0 {
      var steps: seq<Step>, ps := [], [Fill([], [])];
      assert Initial(cfg, [], []) && IsRun(cfg, Fill([], []), steps, ps) && Dead(cfg, ps[|ps| - 1]);
    }
  }

  // ---------------------------------------------------------------- the missed wakeup

  /** The producer sleeps although the queue is empty. */
  predicate Missed(p: Pool) {
    p.asleep && p.idle == []
  }

  /** Only the recycler brings this about, which notifies nobody, and only without a minimum. */
  lemma MissedByRecycling(cfg: Config, p: Pool, step: Step)
    requires Inv(cfg, p) && Enabled(p, step) && !Missed(p) && Missed(Apply(cfg, p, step))
    ensures step.RecycleStep? && cfg.minSize == 0 && cfg.maxSize > 0
  {
    if step.RecycleStep? {
      RecycledIsSuffix(p.idle, Surplus(|p.idle|, cfg.minSize), p.clock, step.delays, cfg.maxIdle);
    }
  }

  /** And only a connection that is given back, or a wakeup nobody sent, ends it. */
  lemma MissedEndsIff(cfg: Config, p: Pool, step: Step)
    requires Inv(cfg, p) && Enabled(p, step) && Missed(p)
    ensures Missed(Apply(cfg, p, step)) <==> !step.Wakeup? && !step.ReturnStep?
  {
  }

  ghost predicate CanMiss(cfg: Config) {
    exists ids, delays, steps, ps ::
      Initial(cfg, ids, delays) && IsRun(cfg, Fill(ids, delays), steps, ps) && Missed(ps[|ps| - 1])
  }

  lemma NeverMissed(cfg: Config, ids: seq<nat>, delays: seq<nat>, steps: seq<Step>, ps: seq<Pool>, n: nat)
    requires Initial(cfg, ids, delays) && IsRun(cfg, Fill(ids, delays), steps, ps) && n < |ps|
    requires !(cfg.minSize == 0 && cfg.maxSize > 0)
    ensures !Missed(ps[n])
  {
    FillIsGood(cfg, ids, delays);
    var inv := (p: Pool) => Inv(cfg, p) && !Missed(p);
    forall p, step, p' | inv(p) && Next(cfg, p, step, p')
      ensures inv(p')
    {
      StepKeeps(cfg, p, step);
      if Missed(p') {
        MissedByRecycling(cfg, p, step);
      }
    }
    Runs.Invariant(Fill(ids, delays), (p, step, p') => Next(cfg, p, step, p'), steps, ps, inv, n);
  }

  /** One connection is enough: it is made, the producer goes to sleep over it, and the recycler
      takes it away. Nothing is live then, and the maximum is far from used up. */
  lemma SleepsOverEmptyQueue(cfg: Config) returns (steps: seq<Step>, ps: seq<Pool>)
    requires cfg.minSize == 0 && cfg.maxSize > 0
    ensures IsRun(cfg, Fill([], []), steps, ps)
    ensures var p := ps[|ps| - 1]; Missed(p) && Live(p) == 0 && p.created == 1
  {
    var start := Fill([], []);
    steps, ps := ExtendRun(cfg, start, [], [start], ProduceStep(1));
    steps, ps := ExtendRun(cfg, start, steps, ps, Sleep);
    steps, ps := ExtendRun(cfg, start, steps, ps, Tick(LongEnough(cfg)));
    var c, now := Conn(1, 0), LongEnough(cfg);
    assert ps[|ps| - 1] == Pool([c], {}, 2, 1, now, true);
    RecycleOne(c, now, cfg.maxIdle);
    steps, ps := ExtendRun(cfg, start, steps, ps, RecycleStep([]));
  }

  /** Which configurations let the producer sleep over an empty queue. */
  lemma CanMissIff(cfg: Config)
    ensures CanMiss(cfg) <==> cfg.minSize == 0 && cfg.maxSize > 0
  {
    if CanMiss(cfg) {
      var ids, delays, steps, ps :|
        Initial(cfg, ids, delays) && IsRun(cfg, Fill(ids, delays), steps, ps) && Missed(ps[|ps| - 1]);
      if !(cfg.minSize == 0 && cfg.maxSize > 0) {
        NeverMissed(cfg, ids, delays, steps, ps, |ps| - 1);
      }
    }
    if cfg.minSize == 0 && cfg.maxSize > 0 {
      var steps, ps := SleepsOverEmptyQueue(cfg);
      assert Initial(cfg, [], []) && IsRun(cfg, Fill([], []), steps, ps) && Missed(ps[|ps| - 1]);
    }
  }

  // ---------------------------------------------------------------- when borrowers wait forever

  /** A step of a system whose waits end only by notification. */
  predicate QuietNext(cfg: Config, p: Pool, step: Step, p': Pool) {
    Next(cfg, p, step, p') && !step.Wakeup?
  }

  ghost predicate IsQuietRun(cfg: Config, start: Pool, steps: seq<Step>, ps: seq<Pool>) {
    Runs.IsRun(start, (p, step, p') => QuietNext(cfg, p, step, p'), steps, ps)
  }

  lemma HopelessForever(cfg: Config, p: Pool, steps: seq<Step>, ps: seq<Pool>, n: nat)
    requires Inv(cfg, p) && Live(p) == 0 && (p.asleep || p.created >= cfg.maxSize)
    requires IsQuietRun(cfg, p, steps, ps) && n < |ps|
    ensures Live(ps[n]) == 0
  {
    var hopeless := (q: Pool) => Inv(cfg, q) && Live(q) == 0 && (q.asleep || q.created >= cfg.maxSize);
    forall q, step, q' | hopeless(q) && QuietNext(cfg, q, step, q')
      ensures hopeless(q')
    {
      StepKeeps(cfg, q, step);
    }
    Runs.Invariant(p, (q, step, q') => QuietNext(cfg, q, step, q'), steps, ps, hopeless, n);
  }

  ghost predicate Recovers(cfg: Config, p: Pool) {
    exists steps, ps :: IsQuietRun(cfg, p, steps, ps) && Live(ps[|ps| - 1]) > 0
  }

  /** A pool that has lost all connections gets one again exactly when its producer is awake and the
      maximum is not used up; otherwise its borrowers wait forever. */
  lemma RecoversIff(cfg: Config, p: Pool)
    requires Inv(cfg, p) && Live(p) == 0
    ensures Recovers(cfg, p) <==> !p.asleep && p.created < cfg.maxSize
  {
    if Recovers(cfg, p) {
      var steps, ps :| IsQuietRun(cfg, p, steps, ps) && Live(ps[|ps| - 1]) > 0;
      if p.asleep || p.created >= cfg.maxSize {
        HopelessForever(cfg, p, steps, ps, |ps| - 1);
      }
    }
    if !p.asleep && p.created < cfg.maxSize {
      var steps, ps := [ProduceStep(0)], [p, Apply(cfg, p, ProduceStep(0))];
      assert IsQuietRun(cfg, p, steps, ps) && Live(ps[|ps| - 1]) > 0;
    }
  }
}

/** The same pool as an object with the source's two loops. */
module ConnectionPoolObject {
  import opened ConnectionPoolModel

  class ConnectionPool {
    const cfg: Config
    var connectionQueue: seq<Conn>
    var borrowed: set<nat>
    var currentSize: int
    var clock: nat
    var asleep: bool  // the producer thread, in its wait
    ghost var created: nat

    ghost function View(): Pool
      reads this
    {
      Pool(connectionQueue, borrowed, currentSize, created, clock, asleep)
    }

    method AddConnection(id: nat)
      modifies this
      ensures View() == old(View()).(idle := old(View()).idle + [Conn(id, clock)],
                                     currentSize := old(currentSize) + 1, created := old(created) + 1)
    {
      connectionQueue := connectionQueue + [Conn(id, clock)];
      currentSize := currentSize + 1;
      created := created + 1;
    }

    /** The static object starts zeroed; the fill makes minSize connections. */
    constructor (cfg: Config, ids: seq<nat>, delays: seq<nat>)
      requires |ids| == |delays| == (if cfg.minSize > 0 then cfg.minSize else 0)
      ensures this.cfg == cfg && View() == Fill(ids, delays)
    {
      this.cfg := cfg;
      connectionQueue, borrowed, currentSize, clock, created, asleep := [], {}, 0, 0, 0, false;
      new;
      var i := 0;
      while i < cfg.minSize
        invariant 0 <= i <= |ids| && this.cfg == cfg
        invariant View() == Fill(ids[..i], delays[..i])
      {
        assert ids[..i + 1][..i] == ids[..i] && delays[..i + 1][..i] == delays[..i];
        clock := clock + delays[i];
        AddConnection(ids[i]);
        currentSize := currentSize + 1;
        i := i + 1;
      }
      assert ids[..i] == ids && delays[..i] == delays;
    }

    /** The producer with the mutex in hand: it waits over a queue that is not empty, and otherwise
        makes a connection if the counter allows. Its notification finds the producer awake. */
    method ProduceConnection(id: nat)
      requires !asleep
      modifies this
      ensures View() == if old(connectionQueue) != [] then old(View()).(asleep := true) else Produce(cfg, old(View()), id)
    {
      if |connectionQueue| > 0 {
        asleep := true;
        return;
      }
      if currentSize < cfg.maxSize {
        AddConnection(id);
        currentSize := currentSize + 1;
      }
    }

    /** The producer's wait ends without a notification. */
    method WakeSpuriously()
      modifies this`asleep
      ensures View() == old(View()).(asleep := false)
    {
      asleep := false;
    }

    /** One pass of the recycler: it stops at the first connection that is not aged. */
    method RecycleConnection(delays: seq<nat>)
      modifies this`connectionQueue, this`currentSize, this`clock
      ensures View() == Recycle(cfg, old(View()), delays)
    {
      ghost var target := Recycled(connectionQueue, Surplus(|connectionQueue|, cfg.minSize), clock, delays, cfg.maxIdle);
      var i, stop := 0, false;
      while !stop && 0 <= cfg.minSize < |connectionQueue|
        invariant i <= |delays|
        invariant currentSize == old(currentSize) - (old(|connectionQueue|) - |connectionQueue|)
        invariant target == if stop then (connectionQueue, clock)
          else Recycled(connectionQueue, Surplus(|connectionQueue|, cfg.minSize), clock, delays[i..], cfg.maxIdle)
        decreases !stop, |connectionQueue|
      {
        ghost var rest := delays[i..];
        if i < |delays| {
          clock := clock + delays[i];
          i := i + 1;
        }
        assert delays[i..] == if rest == [] then [] else rest[1..];
        if Aged(connectionQueue[0], clock, cfg.maxIdle) {
          connectionQueue := connectionQueue[1..];
          currentSize := currentSize - 1;
        } else {
          stop := true;
        }
      }
    }

    method GetConnection() returns (c: Conn)
      requires connectionQueue != []
      modifies this
      ensures c == old(connectionQueue)[0] && View() == Borrow(old(View()))
    {
      c := connectionQueue[0];
      borrowed := borrowed + {c.id};
      connectionQueue := connectionQueue[1..];
      asleep := false;
    }

    method ReturnConnection(id: nat)
      requires id in borrowed
      modifies this
      ensures View() == GiveBack(old(View()), id)
    {
      connectionQueue := connectionQueue + [Conn(id, clock)];
      borrowed := borrowed - {id};
    }
  }
}
