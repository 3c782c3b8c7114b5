/** Runs of the engine: any interleaving of edge events, snapshots and
    resets, applied one after another under the engine's lock, and the
    properties that hold of every such run. */
module Runs {
  import opened Telemetry

  /** One serialised call into the engine, with the clock readings it takes. */
  datatype Op =
    | Edge(event: LineEvent, wallNow: int)
    | Poll(now: int)
    | Reset(nowEpochSeconds: int)

  function Step(cfg: Config, s: Session, op: Op): (t: Session)
    ensures Inv(s) ==> Inv(t)
    ensures op.Reset? ==> t == NewSession(op.nowEpochSeconds)
    ensures !op.Reset? ==> t.totalRevolutions >= s.totalRevolutions
    ensures !op.Reset? ==> t.movingSeconds >= s.movingSeconds
    ensures !op.Reset? && cfg.bodyWeightKilograms >= 0.0 ==> t.kiloCalories >= s.kiloCalories
  {
    match op
    case Edge(ev, wallNow) => EdgeStep(s, ev, wallNow)
    case Poll(now) => SnapshotStep(cfg, s, now)
    case Reset(epoch) => NewSession(epoch)
  }

  /** The session after the calls in ops, in order. */
  function Exec(cfg: Config, s: Session, ops: seq<Op>): Session
    decreases |ops|
  {
    if ops == [] then s else Exec(cfg, Step(cfg, s, ops[0]), ops[1..])
  }

  lemma {:induction false} ExecAppend(cfg: Config, s: Session, ops: seq<Op>, op: Op)
    ensures Exec(cfg, s, ops + [op]) == Step(cfg, Exec(cfg, s, ops), op)
    decreases |ops|
  {
    if ops == [] {
      assert [op][1..] == [];
    } else {
      assert (ops + [op])[1..] == ops[1..] + [op];
      ExecAppend(cfg, Step(cfg, s, ops[0]), ops[1..], op);
    }
  }

  /** Every run from a session satisfying Inv ends in one satisfying Inv; in
      particular a recorded interval always exceeds the debounce threshold. */
  lemma {:induction false} ExecPreservesInv(cfg: Config, s: Session, ops: seq<Op>)
    requires Inv(s)
    ensures Inv(Exec(cfg, s, ops))
    decreases |ops|
  {
    if ops != [] {
      ExecPreservesInv(cfg, Step(cfg, s, ops[0]), ops[1..]);
    }
  }

  predicate NoReset(ops: seq<Op>) {
    forall i :: 0 <= i < |ops| ==> !ops[i].Reset?
  }

  /** Without a reset, the revolution count and the moving time never go
      down, and with a non-negative body weight neither do the calories. */
  lemma {:induction false} ExecWithoutResetMonotone(cfg: Config, s: Session, ops: seq<Op>)
    requires NoReset(ops)
    ensures Exec(cfg, s, ops).totalRevolutions >= s.totalRevolutions
    ensures Exec(cfg, s, ops).movingSeconds >= s.movingSeconds
    ensures cfg.bodyWeightKilograms >= 0.0 ==> Exec(cfg, s, ops).kiloCalories >= s.kiloCalories
    decreases |ops|
  {
    if ops != [] {
      assert !ops[0].Reset?;
      ExecWithoutResetMonotone(cfg, Step(cfg, s, ops[0]), ops[1..]);
    }
  }

  /** A reset discards the whole history: the session that follows depends
      only on the reset time. */
  lemma ResetDiscardsHistory(cfg: Config, s: Session, ops: seq<Op>, epoch: int)
    ensures Exec(cfg, s, ops + [Reset(epoch)]) == NewSession(epoch)
  {
    ExecAppend(cfg, s, ops, Reset(epoch));
  }

  /** Without a reset the session start time never changes. */
  lemma {:induction false} ExecWithoutResetKeepsStart(cfg: Config, s: Session, ops: seq<Op>)
    requires NoReset(ops)
    ensures Exec(cfg, s, ops).startTimeEpochSeconds == s.startTimeEpochSeconds
    decreases |ops|
  {
    if ops != [] {
      assert !ops[0].Reset?;
      ExecWithoutResetKeepsStart(cfg, Step(cfg, s, ops[0]), ops[1..]);
    }
  }

  // ------------------------------------------------------------- edge runs

  /** ops are falling edges, each more than the debounce threshold after the
      one before it, the first also after the session's last timestamp. */
  predicate SpacedFallingEdges(s: Session, ops: seq<Op>) {
    && (forall i :: 0 <= i < |ops| ==> ops[i].Edge? && ops[i].event.kind == FallingEdge)
    && (forall i :: 0 < i < |ops| ==>
          ops[i].event.timestamp - ops[i - 1].event.timestamp > DebounceThreshold)
    && (|ops| > 0 && s.lastTimestamp > 0 ==>
          ops[0].event.timestamp - s.lastTimestamp > DebounceThreshold)
  }

  /** Falling edges spaced more than the debounce threshold apart are each
      counted exactly once. */
  lemma {:induction false} SpacedEdgesAllCounted(cfg: Config, s: Session, ops: seq<Op>)
    requires SpacedFallingEdges(s, ops)
    ensures Exec(cfg, s, ops).totalRevolutions == s.totalRevolutions + |ops|
    decreases |ops|
  {
    if ops != [] {
      var t := Step(cfg, s, ops[0]);
      assert Accepted(s, ops[0].event);
      assert t.lastTimestamp == ops[0].event.timestamp;
      assert forall i :: 0 <= i < |ops[1..]| ==> ops[1..][i] == ops[i + 1];
      SpacedEdgesAllCounted(cfg, t, ops[1..]);
    }
  }

  /** An edge-only run counts at most one revolution per event. */
  lemma {:induction false} EdgesCountAtMostOnce(cfg: Config, s: Session, ops: seq<Op>)
    requires forall i :: 0 <= i < |ops| ==> ops[i].Edge?
    ensures s.totalRevolutions <= Exec(cfg, s, ops).totalRevolutions <= s.totalRevolutions + |ops|
    decreases |ops|
  {
    if ops != [] {
      assert ops[0].Edge?;
      EdgesCountAtMostOnce(cfg, Step(cfg, s, ops[0]), ops[1..]);
    }
  }

  /** After contact bounce the debounce window is measured from the bouncing
      edge, not from the last accepted pulse: the next falling edge counts
      exactly when it is more than the threshold after the bounce. */
  lemma DebounceWindowSlides(s: Session, bounce: LineEvent, w1: int, next: LineEvent, w2: int)
    requires s.lastTimestamp > 0 && bounce.timestamp > 0
    requires bounce.kind == FallingEdge && next.kind == FallingEdge
    requires bounce.timestamp - s.lastTimestamp <= DebounceThreshold
    ensures var t := EdgeStep(EdgeStep(s, bounce, w1), next, w2);
      t.totalRevolutions ==
        s.totalRevolutions + (if next.timestamp - bounce.timestamp > DebounceThreshold then 1 else 0)
    ensures var t := EdgeStep(EdgeStep(s, bounce, w1), next, w2);
      next.timestamp - bounce.timestamp > DebounceThreshold ==>
        t.lastInterval == next.timestamp - bounce.timestamp
  {
  }

  // ------------------------------------------------------------ poll runs

  predicate OnlyPolls(ops: seq<Op>) {
    forall i :: 0 <= i < |ops| ==> ops[i].Poll?
  }

  /** Snapshots alone change neither the pulse fields nor, therefore, the
      reported speed and distance: idle time does not decay the speed. */
  lemma {:induction false} PollsKeepPulseFields(cfg: Config, s: Session, ops: seq<Op>)
    requires OnlyPolls(ops)
    ensures SameOutsideSnapshotFields(s, Exec(cfg, s, ops))
    ensures SpeedKmh(cfg, Exec(cfg, s, ops)) == SpeedKmh(cfg, s)
    ensures DistanceKm(cfg, Exec(cfg, s, ops)) == DistanceKm(cfg, s)
    decreases |ops|
  {
    if ops != [] {
      assert ops[0].Poll?;
      PollsKeepPulseFields(cfg, Step(cfg, s, ops[0]), ops[1..]);
    }
  }

  /** Once the idle timeout has passed at every snapshot time, repeated
      snapshots accrue neither moving time nor calories. */
  lemma {:induction false} IdlePollsFreeze(cfg: Config, s: Session, ops: seq<Op>)
    requires OnlyPolls(ops)
    requires forall i :: 0 <= i < |ops| ==> !Moving(cfg, s, ops[i].now)
    ensures Exec(cfg, s, ops).movingSeconds == s.movingSeconds
    ensures Exec(cfg, s, ops).kiloCalories == s.kiloCalories
    decreases |ops|
  {
    if ops != [] {
      assert ops[0].Poll? && !Moving(cfg, s, ops[0].now);
      var t := Step(cfg, s, ops[0]);
      assert forall i :: 0 <= i < |ops[1..]| ==> ops[1..][i] == ops[i + 1];
      forall i | 0 <= i < |ops[1..]|
        ensures !Moving(cfg, t, ops[1..][i].now)
      {
        assert ops[1..][i] == ops[i + 1];
      }
      IdlePollsFreeze(cfg, t, ops[1..]);
    }
  }

  /** Two snapshots at the same instant accrue nothing on the second. */
  lemma RepeatedPollNoDoubleAccrual(cfg: Config, s: Session, now: int)
    ensures var once := SnapshotStep(cfg, s, now);
      var twice := SnapshotStep(cfg, once, now);
      twice == once
  {
  }

  /** The first snapshot of a session never accrues. */
  lemma FirstPollNeverAccrues(cfg: Config, epoch: int, now: int)
    ensures var t := SnapshotStep(cfg, NewSession(epoch), now);
      t.movingSeconds == 0.0 && t.kiloCalories == 0.0 && t.lastCalcWall == now
  {
  }
}
