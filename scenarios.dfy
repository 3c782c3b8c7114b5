/** Worked examples with the engine's default configuration. */
module Scenarios {
  import opened Telemetry

  /** The configuration the service starts with: wheel circumference
      1.41 m, body weight 85 kg, idle timeout 2 s. */
  function DefaultConfig(): (cfg: Config)
    ensures PhysicalConfig(cfg)
  {
    Config(1.41, 85.0, 2.0)
  }

  const HalfSecond: int := 500 * Millisecond
  const Minute: int := 60_000 * Millisecond

  /** Two pulses half a second apart give an interval of 500 ms and a
      speed of 1.41 * 3.6e9 / 5e8 = 10.152 km/h, reported as 10.15. */
  lemma TwoPulsesHalfSecondApart(epoch: int, t0: int, w1: int, w2: int, now: int)
    requires t0 > 0
    ensures var s := EdgeStep(EdgeStep(NewSession(epoch), LineEvent(FallingEdge, t0), w1),
                              LineEvent(FallingEdge, t0 + HalfSecond), w2);
      && s.totalRevolutions == 2
      && s.lastInterval == HalfSecond
      && SpeedKmh(DefaultConfig(), s) == 10.152
      && SnapshotStats(DefaultConfig(), s, now).speedKilometresPerHour == 10.15
  {
  }

  /** A rider at under 10 km/h (MET 3.5) who keeps moving for one minute
      between two snapshots burns 3.5 * 3.5 * 85 / 200 = 5.20625 kcal,
      reported as 5.2, with 1.00 moving minutes. */
  lemma OneMinuteOfSlowRiding(epoch: int, firstPoll: int, ts: int, pulseWall: int)
    requires firstPoll > 0 && ts > 0
    requires firstPoll + Minute - 1_000 * Millisecond <= pulseWall <= firstPoll + Minute
    ensures var s := EdgeStep(SnapshotStep(DefaultConfig(), NewSession(epoch), firstPoll),
                              LineEvent(FallingEdge, ts), pulseWall);
      var t := SnapshotStep(DefaultConfig(), s, firstPoll + Minute);
      var st := SnapshotStats(DefaultConfig(), s, firstPoll + Minute);
      && t.movingSeconds == 60.0
      && t.kiloCalories == 5.20625
      && st.kiloCalories == 5.2
      && st.movingMinutes == 1.0
  {
  }

  /** The debounce window slides with every bouncing edge: an edge 12 ms
      after an accepted pulse is still rejected when a bounce came 7 ms
      before it. */
  lemma BounceExtendsQuietPeriod(s: Session, w1: int, w2: int)
    requires s.lastTimestamp == 100 * Millisecond
    ensures var t := EdgeStep(EdgeStep(s, LineEvent(FallingEdge, 105 * Millisecond), w1),
                              LineEvent(FallingEdge, 112 * Millisecond), w2);
      && t.totalRevolutions == s.totalRevolutions
      && t.lastTimestamp == 112 * Millisecond
      && t.lastInterval == s.lastInterval
  {
  }
}
