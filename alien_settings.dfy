/** The integer settings of alien invasion: the static ones are constants,
    the fleet direction and the alien points change during a game. */
module AlienSettings {

  /** Python's `int(a / b)` on integers: the quotient truncated toward zero
      (Dafny's `/` is Euclidean, which differs for a negative dividend). */
  function TruncDiv(a: int, b: int): (q: int)
    requires b != 0
    ensures Abs(q) * Abs(b) <= Abs(a) < Abs(q) * Abs(b) + Abs(b)
    ensures q == 0 || ((q > 0) <==> ((a > 0) == (b > 0)))
  {
    var t := Abs(a) / Abs(b);
    DivBounds(Abs(a), Abs(b));
    if (a >= 0) == (b > 0) then t else -t
  }

  /** Euclidean division of naturals brackets the dividend. */
  lemma DivBounds(a: nat, b: nat)
    requires b > 0
    ensures a / b >= 0 && (a / b) * b <= a < (a / b) * b + b
  {
    assert a == (a / b) * b + a % b;
  }

  function Abs(a: int): (r: nat)
    ensures r == a || r == -a
  {
    if a < 0 then -a else a
  }

  /** `int(alien_points * score_scale)` with `score_scale == 1.5`. */
  function ScaledPoints(points: int): (r: int)
    ensures points >= 0 ==> points <= r && 2 * r <= 3 * points < 2 * r + 2
  {
    TruncDiv(3 * points, 2)
  }

  class Settings {
    const screenWidth: int
    const screenHeight: int
    const shipLimit: int
    const bulletMaxNum: int
    const fleetDropSpeed: int
    /** 1 is right, -1 left. */
    var fleetDirection: int
    var alienPoints: int

    /** `Settings()`: the static settings, then the dynamic ones. */
    constructor ()
      ensures screenWidth == 900 && screenHeight == 600
      ensures shipLimit == 3 && bulletMaxNum == 3 && fleetDropSpeed == 10
      ensures fleetDirection == 1 && alienPoints == 50
    {
      screenWidth := 900;
      screenHeight := 600;
      shipLimit := 3;
      bulletMaxNum := 3;
      fleetDropSpeed := 10;
      new;
      InitializeDynamicSettings();
    }

    /** `initialize_dynamic_settings()`: the fleet moves right again and an
        alien is worth 50 points. */
    method InitializeDynamicSettings()
      modifies this
      ensures fleetDirection == 1 && alienPoints == 50
    {
      fleetDirection := 1;
      alienPoints := 50;
    }

    /** `increase_speed()`, its integer part: the alien points grow by half,
        truncated. */
    method IncreaseSpeed()
      modifies this
      ensures alienPoints == ScaledPoints(old(alienPoints)) && fleetDirection == old(fleetDirection)
    {
      alienPoints := TruncDiv(alienPoints * 3, 2);
    }
  }

  /** From the starting 50 points, the first level-ups give 75, 112 and 168. */
  lemma PointsProgression()
    ensures ScaledPoints(50) == 75 && ScaledPoints(75) == 112 && ScaledPoints(112) == 168
  {
  }
}
