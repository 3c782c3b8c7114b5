/** The session state of one riding session and the three operations that
    change it (edge ingestion, the snapshot integration step and reset),
    as functions from the old session to the new one. Monotonic and wall
    times are integer nanoseconds; zero stands for "unset". */
module Telemetry {
  import opened Metrics

  const Millisecond: int := 1_000_000
  /** Edges closer together than this (inclusive) are contact bounce. */
  const DebounceThreshold: int := 10 * Millisecond
  const NanosPerSecond: real := 1_000_000_000.0

  datatype EdgeType = RisingEdge | FallingEdge

  /** An edge reported by the sensor line, stamped on the monotonic clock. */
  datatype LineEvent = LineEvent(kind: EdgeType, timestamp: int)

  /** The part of the configuration the engine reads. */
  datatype Config = Config(
    circumferenceInMetres: real,
    bodyWeightKilograms: real,
    idleTimeoutSeconds: real)

  datatype Session = Session(
    totalRevolutions: nat,
    startTimeEpochSeconds: int,
    lastTimestamp: int,   // monotonic ns of the last falling edge seen, bounce included
    lastInterval: int,    // monotonic ns between the two latest accepted pulses
    lastPulseWall: int,   // wall ns of the last accepted pulse
    lastCalcWall: int,    // wall ns of the previous snapshot
    movingSeconds: real,
    kiloCalories: real)

  /** The figures a snapshot reports. */
  datatype Stats = Stats(
    speedKilometresPerHour: real,
    totalRevolutions: nat,
    distanceKilometres: real,
    startTimeEpochSeconds: int,
    movingMinutes: real,
    kiloCalories: real)

  /** What every reachable session satisfies: a recorded interval always
      exceeds the debounce threshold, a recorded timestamp, interval or pulse
      time implies that pulses were counted, and moving time is never negative. */
  predicate Inv(s: Session) {
    && (s.lastInterval == 0 || s.lastInterval > DebounceThreshold)
    && (s.lastTimestamp > 0 ==> s.totalRevolutions >= 1)
    && (s.lastPulseWall != 0 ==> s.totalRevolutions >= 1)
    && (s.lastInterval != 0 ==> s.totalRevolutions >= 2)
    && s.movingSeconds >= 0.0
  }

  /** Configuration values for which distance, speed and energy are
      meaningful: a real wheel, a real rider, a positive idle timeout. */
  predicate PhysicalConfig(cfg: Config) {
    cfg.circumferenceInMetres > 0.0 && cfg.bodyWeightKilograms > 0.0 && cfg.idleTimeoutSeconds > 0.0
  }

  /** A fresh session started at the given Unix time. */
  function NewSession(nowEpochSeconds: int): (s: Session)
    ensures Inv(s)
    ensures s.totalRevolutions == 0 && s.lastInterval == 0 && s.lastTimestamp == 0
    ensures s.movingSeconds == 0.0 && s.kiloCalories == 0.0
    ensures s.startTimeEpochSeconds == nowEpochSeconds
    ensures forall cfg, now :: !Moving(cfg, s, now)
    ensures forall now :: DtWall(s, now) == 0.0
  {
    Session(0, nowEpochSeconds, 0, 0, 0, 0, 0.0, 0.0)
  }

  // ---------------------------------------------------------------- edges

  /** The edge is a pulse that is counted: a falling edge that is either the
      first one or more than the debounce threshold after the previous one. */
  predicate Accepted(s: Session, ev: LineEvent) {
    ev.kind == FallingEdge &&
    (s.lastTimestamp <= 0 || ev.timestamp - s.lastTimestamp > DebounceThreshold)
  }

  /** Only the edge fields may differ. */
  predicate SameOutsideEdgeFields(s: Session, t: Session) {
    t.startTimeEpochSeconds == s.startTimeEpochSeconds &&
    t.lastCalcWall == s.lastCalcWall &&
    t.movingSeconds == s.movingSeconds &&
    t.kiloCalories == s.kiloCalories
  }

  /** The debounced edge counter: the session after one edge event, received
      when the wall clock reads wallNow. */
  function EdgeStep(s: Session, ev: LineEvent, wallNow: int): (t: Session)
    // not a falling edge: nothing changes
    ensures ev.kind != FallingEdge ==> t == s
    // first pulse: counted, no interval yet
    ensures ev.kind == FallingEdge && s.lastTimestamp <= 0 ==>
      && t.totalRevolutions == s.totalRevolutions + 1
      && t.lastInterval == s.lastInterval
      && t.lastTimestamp == ev.timestamp
      && t.lastPulseWall == wallNow
    // contact bounce: only the debounce reference slides forward
    ensures (ev.kind == FallingEdge && s.lastTimestamp > 0 &&
             ev.timestamp - s.lastTimestamp <= DebounceThreshold) ==>
      t == s.(lastTimestamp := ev.timestamp)
    // real revolution: the interval is recorded and the pulse counted
    ensures (ev.kind == FallingEdge && s.lastTimestamp > 0 &&
             ev.timestamp - s.lastTimestamp > DebounceThreshold) ==>
      && t.lastInterval == ev.timestamp - s.lastTimestamp
      && t.totalRevolutions == s.totalRevolutions + 1
      && t.lastTimestamp == ev.timestamp
      && t.lastPulseWall == wallNow
    ensures SameOutsideEdgeFields(s, t)
    ensures t.totalRevolutions == s.totalRevolutions + (if Accepted(s, ev) then 1 else 0)
    ensures Inv(s) ==> Inv(t)
  {
    if ev.kind != FallingEdge then s
    else if s.lastTimestamp > 0 && ev.timestamp - s.lastTimestamp <= DebounceThreshold then
      s.(lastTimestamp := ev.timestamp)
    else
      var counted :=
        if s.lastTimestamp > 0 then
          s.(lastInterval := ev.timestamp - s.lastTimestamp,
             totalRevolutions := s.totalRevolutions + 1)
        else
          s.(totalRevolutions := s.totalRevolutions + 1);
      counted.(lastTimestamp := ev.timestamp, lastPulseWall := wallNow)
  }

  // ------------------------------------------------------------ snapshot

  /** Wall seconds since the previous snapshot; zero when there was none. */
  function DtWall(s: Session, now: int): (dt: real)
    ensures s.lastCalcWall == 0 ==> dt == 0.0
    ensures s.lastCalcWall != 0 ==> dt * NanosPerSecond == (now - s.lastCalcWall) as real
    ensures dt > 0.0 <==> s.lastCalcWall != 0 && now > s.lastCalcWall
  {
    if s.lastCalcWall == 0 then 0.0 else (now - s.lastCalcWall) as real / NanosPerSecond
  }

  /** The rider counts as moving when a pulse has been recorded and fewer
      than the idle-timeout seconds have passed since it. */
  predicate Moving(cfg: Config, s: Session, now: int) {
    s.lastPulseWall != 0 &&
    (now - s.lastPulseWall) as real / NanosPerSecond < cfg.idleTimeoutSeconds
  }

  /** Distance covered: revolutions times circumference, in km. */
  function DistanceKm(cfg: Config, s: Session): (km: real)
    ensures cfg.circumferenceInMetres >= 0.0 ==> km >= 0.0
    ensures s.totalRevolutions == 0 ==> km == 0.0
  {
    s.totalRevolutions as real * cfg.circumferenceInMetres / 1000.0
  }

  /** Speed implied by the latest inter-pulse interval, in km/h; zero until
      an interval has been recorded. */
  function SpeedKmh(cfg: Config, s: Session): (v: real)
    ensures s.lastInterval <= 0 ==> v == 0.0
    ensures s.lastInterval > 0 ==>
      v * s.lastInterval as real == cfg.circumferenceInMetres * 3.6e9
    ensures cfg.circumferenceInMetres >= 0.0 ==> v >= 0.0
  {
    if s.lastInterval > 0 then
      cfg.circumferenceInMetres * 3.6e9 / s.lastInterval as real
    else 0.0
  }

  /** Energy rate in kcal per minute at a given MET value. */
  function KcalPerMinute(cfg: Config, met: real): (rate: real)
    ensures cfg.bodyWeightKilograms >= 0.0 && met >= 0.0 ==> rate >= 0.0
    ensures cfg.bodyWeightKilograms > 0.0 && met > 0.0 ==> rate > 0.0
  {
    (met * 3.5 * cfg.bodyWeightKilograms) / 200.0
  }

  /** An accepted pulse adds one circumference to the distance; any other
      edge leaves it as it was. */
  lemma DistanceAfterEdge(cfg: Config, s: Session, ev: LineEvent, wallNow: int)
    ensures DistanceKm(cfg, EdgeStep(s, ev, wallNow)) ==
      DistanceKm(cfg, s) + (if Accepted(s, ev) then cfg.circumferenceInMetres / 1000.0 else 0.0)
  {
  }

  /** For a non-negative body weight, a faster rider burns energy at least
      as fast. */
  lemma KcalPerMinuteMonotone(cfg: Config, slower: real, faster: real)
    requires cfg.bodyWeightKilograms >= 0.0
    requires slower <= faster
    ensures KcalPerMinute(cfg, MetFromSpeed(slower)) <= KcalPerMinute(cfg, MetFromSpeed(faster))
  {
    MetMonotone(slower, faster);
  }

  /** With a non-negative body weight the energy rate is never negative. */
  lemma KcalPerMinuteNonNegative(cfg: Config, speed: real)
    requires cfg.bodyWeightKilograms >= 0.0
    ensures KcalPerMinute(cfg, MetFromSpeed(speed)) >= 0.0
  {
  }

  /** Only the snapshot fields may differ. */
  predicate SameOutsideSnapshotFields(s: Session, t: Session) {
    t.totalRevolutions == s.totalRevolutions &&
    t.startTimeEpochSeconds == s.startTimeEpochSeconds &&
    t.lastTimestamp == s.lastTimestamp &&
    t.lastInterval == s.lastInterval &&
    t.lastPulseWall == s.lastPulseWall
  }

  /** The session after a snapshot taken when the wall clock reads now: the
      snapshot time is recorded and, while moving, the elapsed time and the
      energy for it are added to the accumulators. */
  function SnapshotStep(cfg: Config, s: Session, now: int): (t: Session)
    ensures t.lastCalcWall == now
    ensures SameOutsideSnapshotFields(s, t)
    ensures t.movingSeconds != s.movingSeconds <==> Moving(cfg, s, now) && DtWall(s, now) > 0.0
    ensures t.kiloCalories != s.kiloCalories ==> Moving(cfg, s, now) && DtWall(s, now) > 0.0
    ensures Moving(cfg, s, now) && DtWall(s, now) > 0.0 ==>
      t.movingSeconds == s.movingSeconds + DtWall(s, now)
    ensures s.lastCalcWall == 0 ==>
      t.movingSeconds == s.movingSeconds && t.kiloCalories == s.kiloCalories
    ensures t.movingSeconds >= s.movingSeconds
    ensures cfg.bodyWeightKilograms >= 0.0 ==> t.kiloCalories >= s.kiloCalories
    ensures Inv(s) ==> Inv(t)
  {
    var dtWall := DtWall(s, now);
    var stamped := s.(lastCalcWall := now);
    if Moving(cfg, s, now) && dtWall > 0.0 then
      var rate := KcalPerMinute(cfg, MetFromSpeed(SpeedKmh(cfg, s)));
      stamped.(kiloCalories := s.kiloCalories + rate * (dtWall / 60.0),
               movingSeconds := s.movingSeconds + dtWall)
    else
      stamped
  }

  /** The figures a snapshot reports, rounded as displayed, computed from the
      session after the integration step. */
  function SnapshotStats(cfg: Config, s: Session, now: int): (st: Stats)
    ensures var t := SnapshotStep(cfg, s, now);
      && st.totalRevolutions == t.totalRevolutions
      && st.startTimeEpochSeconds == t.startTimeEpochSeconds
      && st.distanceKilometres == Round(DistanceKm(cfg, t), 3)
      && st.speedKilometresPerHour == Round(SpeedKmh(cfg, t), 2)
      && st.movingMinutes == Round(t.movingSeconds / 60.0, 2)
      && st.kiloCalories == Round(t.kiloCalories, 1)
    // the step does not touch what count, start, distance and speed are made of
    ensures st.totalRevolutions == s.totalRevolutions
    ensures st.startTimeEpochSeconds == s.startTimeEpochSeconds
    ensures st.distanceKilometres == Round(DistanceKm(cfg, s), 3)
    ensures st.speedKilometresPerHour == Round(SpeedKmh(cfg, s), 2)
  {
    var t := SnapshotStep(cfg, s, now);
    assert DistanceKm(cfg, t) == DistanceKm(cfg, s);
    assert SpeedKmh(cfg, t) == SpeedKmh(cfg, s);
    Stats(
      Round(SpeedKmh(cfg, t), 2),
      t.totalRevolutions,
      Round(DistanceKm(cfg, t), 3),
      t.startTimeEpochSeconds,
      Round(t.movingSeconds / 60.0, 2),
      Round(t.kiloCalories, 1))
  }

  /** Each reported figure is its exact value rounded to the displayed
      decimals, halves away from zero: 3 for distance, 2 for speed and
      moving minutes, 1 for calories. */
  lemma SnapshotStatsDecimals(cfg: Config, s: Session, now: int)
    ensures var st := SnapshotStats(cfg, s, now);
      && RoundedTo(DistanceKm(cfg, s), st.distanceKilometres, 1000.0)
      && RoundedTo(SpeedKmh(cfg, s), st.speedKilometresPerHour, 100.0)
    ensures var st := SnapshotStats(cfg, s, now);
      var t := SnapshotStep(cfg, s, now);
      && RoundedTo(t.movingSeconds / 60.0, st.movingMinutes, 100.0)
      && RoundedTo(t.kiloCalories, st.kiloCalories, 10.0)
  {
    assert Pow10(1) == 10.0 && Pow10(2) == 100.0 && Pow10(3) == 1000.0;
  }
}
