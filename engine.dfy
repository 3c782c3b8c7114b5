/** The engine object: the configuration and the live session, whose fields
    the edge handler, the snapshot and the reset update in place. Each method
    runs as one atomic step (the source serialises them with a lock), and the
    clock readings it would take are passed in. */
module Engine {
  import opened Metrics
  import opened Telemetry

  class App {
    const config: Config

    var totalRevolutions: nat
    var startTimeEpochSeconds: int
    var lastTimestamp: int
    var lastInterval: int
    var lastPulseWall: int
    var lastCalcWall: int
    var movingSeconds: real
    var kiloCalories: real

    /** The session the fields hold. */
    function State(): Session
      reads this
    {
      Session(totalRevolutions, startTimeEpochSeconds, lastTimestamp, lastInterval,
              lastPulseWall, lastCalcWall, movingSeconds, kiloCalories)
    }

    predicate Valid()
      reads this
    {
      Inv(State())
    }

    /** A new engine with a fresh session started at nowEpochSeconds. */
    constructor (cfg: Config, nowEpochSeconds: int)
      ensures Valid()
      ensures config == cfg
      ensures State() == NewSession(nowEpochSeconds)
    {
      config := cfg;
      totalRevolutions := 0;
      startTimeEpochSeconds := nowEpochSeconds;
      lastTimestamp := 0;
      lastInterval := 0;
      lastPulseWall := 0;
      lastCalcWall := 0;
      movingSeconds := 0.0;
      kiloCalories := 0.0;
    }

    /** Edge handler: debounce the event and count accepted pulses. */
    method OnEdge(event: LineEvent, wallNow: int)
      requires Valid()
      modifies this
      ensures Valid()
      ensures State() == EdgeStep(old(State()), event, wallNow)
    {
      if event.kind != FallingEdge {
        return;
      }
      var eventTimestamp := event.timestamp;
      if lastTimestamp > 0 {
        var dt := eventTimestamp - lastTimestamp;
        if dt <= DebounceThreshold {
          lastTimestamp := eventTimestamp;
          return;
        }
        lastInterval := dt;
        totalRevolutions := totalRevolutions + 1;
      } else {
        // first ever pulse
        totalRevolutions := totalRevolutions + 1;
      }
      lastTimestamp := eventTimestamp;
      lastPulseWall := wallNow;
    }

    /** Snapshot: integrate the wall time since the previous call into the
        accumulators while moving, and report the rounded figures. */
    method Snapshot(now: int) returns (stats: Stats)
      requires Valid()
      modifies this
      ensures Valid()
      ensures State() == SnapshotStep(config, old(State()), now)
      ensures stats == SnapshotStats(config, old(State()), now)
    {
      ghost var s0 := State();
      var dtWall := 0.0;
      if lastCalcWall != 0 {
        dtWall := (now - lastCalcWall) as real / NanosPerSecond;
      }
      assert dtWall == DtWall(s0, now);
      lastCalcWall := now;

      var distanceKm := totalRevolutions as real * config.circumferenceInMetres / 1000.0;

      var speedKmh := 0.0;
      if lastInterval > 0 {
        speedKmh := config.circumferenceInMetres * 3.6e9 / lastInterval as real;
      }
      assert speedKmh == SpeedKmh(config, s0);
      assert distanceKm == DistanceKm(config, s0);

      var moving := false;
      if lastPulseWall != 0 {
        if (now - lastPulseWall) as real / NanosPerSecond < config.idleTimeoutSeconds {
          moving := true;
        }
      }
      assert moving == Moving(config, s0, now);

      if moving && dtWall > 0.0 {
        var met := MetFromSpeed(speedKmh);
        var kcalPerMin := (met * 3.5 * config.bodyWeightKilograms) / 200.0;
        kiloCalories := kiloCalories + kcalPerMin * (dtWall / 60.0);
        movingSeconds := movingSeconds + dtWall;
      }
      assert State() == SnapshotStep(config, s0, now);

      stats := Stats(
        Round(speedKmh, 2),
        totalRevolutions,
        Round(distanceKm, 3),
        startTimeEpochSeconds,
        Round(movingSeconds / 60.0, 2),
        Round(kiloCalories, 1));
    }

    /** Reset: replace the session wholesale with a fresh one; the
        configuration stays. */
    method Reset(nowEpochSeconds: int)
      requires Valid()
      modifies this
      ensures Valid()
      ensures State() == NewSession(nowEpochSeconds)
    {
      totalRevolutions := 0;
      startTimeEpochSeconds := nowEpochSeconds;
      lastTimestamp := 0;
      lastInterval := 0;
      lastPulseWall := 0;
      lastCalcWall := 0;
      movingSeconds := 0.0;
      kiloCalories := 0.0;
    }
  }
}
