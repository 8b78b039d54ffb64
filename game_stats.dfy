/** The statistics of one alien-invasion session. */
module GameStatistics {
  import opened AlienSettings

  /** The fields of a `GameStats` object, as a value. */
  datatype Stats = Stats(shipsLeft: int, score: int, level: int,
                         gameActive: bool, gamePaused: bool, highestScore: int)

  /** What `reset_stats` does to the statistics. */
  function Reset(s: Stats, shipLimit: int): Stats {
    s.(shipsLeft := shipLimit, score := 0, level := 1)
  }

  /** A reset gives back all the ships and starts at score 0 on level 1; the
      highest score and the active and paused flags survive it. */
  lemma ResetFields(s: Stats, shipLimit: int)
    ensures var r := Reset(s, shipLimit);
      r.shipsLeft == shipLimit && r.score == 0 && r.level == 1 &&
      r.highestScore == s.highestScore && r.gameActive == s.gameActive && r.gamePaused == s.gamePaused
  {
  }

  /** Resetting twice is resetting once. */
  lemma ResetIdempotent(s: Stats, shipLimit: int)
    ensures Reset(Reset(s, shipLimit), shipLimit) == Reset(s, shipLimit)
  {
  }

  class GameStats {
    const aiSettings: Settings
    var shipsLeft: int
    var score: int
    var level: int
    var gameActive: bool
    var gamePaused: bool
    var highestScore: int

    function Snapshot(): Stats
      reads this
    {
      Stats(shipsLeft, score, level, gameActive, gamePaused, highestScore)
    }

    /** `GameStats(ai_settings)`: reset, inactive, not paused, and no highest
        score yet. */
    constructor (aiSettings: Settings)
      ensures this.aiSettings == aiSettings
      ensures Snapshot() == Stats(aiSettings.shipLimit, 0, 1, false, false, 0)
    {
      this.aiSettings := aiSettings;
      new;
      ResetStats();
      gameActive := false;
      gamePaused := false;
      highestScore := 0;
    }

    /** `reset_stats()`. */
    method ResetStats()
      modifies this
      ensures Snapshot() == Reset(old(Snapshot()), aiSettings.shipLimit)
    {
      shipsLeft := aiSettings.shipLimit;
      score := 0;
      level := 1;
    }
  }
}
