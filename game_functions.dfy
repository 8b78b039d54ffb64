/** The integer logic of alien invasion's game functions: the fleet layout,
    the key handlers, firing, scoring, levelling up, the fleet's change of
    direction and the loss of a ship.  Sprite groups are sequences of the
    integer rect positions of their members; the collision test itself is
    an input. */
module GameFunctions {
  import opened AlienSettings
  import opened GameStatistics

  /** The top-left corner of a sprite's rect. */
  datatype Pos = Pos(x: int, y: int)

  /** A sprite group: aliens or bullets. */
  class Group {
    var sprites: seq<Pos>

    constructor ()
      ensures sprites == []
    {
      sprites := [];
    }
  }

  /** The ship's four movement flags. */
  datatype Flags = Flags(right: bool, left: bool, up: bool, down: bool)

  /** The ship: its birthplace (the bottom centre of the screen, taken from
      the screen's and the image's rects), its decimal centre and its four
      movement flags. */
  class Ship {
    const birthCenterx: int
    const birthCentery: int
    var centerx: real
    var centery: real
    var movingRight: bool
    var movingLeft: bool
    var movingUp: bool
    var movingDown: bool

    function Moving(): Flags
      reads this
    {
      Flags(movingRight, movingLeft, movingUp, movingDown)
    }

    /** A new ship stands still at its birthplace. */
    constructor (birthCenterx: int, birthCentery: int)
      ensures this.birthCenterx == birthCenterx && this.birthCentery == birthCentery
      ensures centerx == birthCenterx as real && centery == birthCentery as real
      ensures Moving() == Flags(false, false, false, false)
    {
      this.birthCenterx, this.birthCentery := birthCenterx, birthCentery;
      centerx, centery := birthCenterx as real, birthCentery as real;
      movingRight, movingLeft, movingUp, movingDown := false, false, false, false;
    }

    /** `center_ship()`: back to the birthplace; the flags stay. */
    method CenterShip()
      modifies this
      ensures centerx == birthCenterx as real && centery == birthCentery as real
      ensures Moving() == old(Moving())
    {
      centerx, centery := birthCenterx as real, birthCentery as real;
    }
  }

  /** The methods the class `Ship` defines.  `reset_ship` is not one of
      them. */
  const ShipMethods: set<string> := {"__init__", "blitme", "update", "center_ship"}

  /** How a call returns: normally, or with the AttributeError of a missing
      method. */
  datatype Outcome = Returned | AttributeError(attribute: string)

  /** Calling `ship.<name>()`: an undefined method raises AttributeError. */
  function CallShipMethod(name: string): Outcome {
    if name in ShipMethods then Returned else AttributeError(name)
  }

  /** `ship.reset_ship()` raises, and `ship.center_ship()` does not. */
  lemma ResetShipMissing()
    ensures CallShipMethod("reset_ship") == AttributeError("reset_ship")
    ensures CallShipMethod("center_ship") == Returned
  {
    assert "reset_ship" != "__init__" && "reset_ship" != "blitme" && "reset_ship" != "update" && "reset_ship" != "center_ship";
  }

  /** The keys the handlers look at; every other key is `Other`. */
  datatype Key = Q | Return | Right | Left | Up | Down | Space | P | Other

  predicate IsArrow(k: Key) {
    k == Right || k == Left || k == Up || k == Down
  }

  /** The flag an arrow key drives. */
  function FlagOf(f: Flags, k: Key): bool
    requires IsArrow(k)
  {
    match k
    case Right => f.right
    case Left => f.left
    case Up => f.up
    case Down => f.down
  }

  /** A flag set by an arrow key when it goes down, as the key-down handler does. */
  function Press(f: Flags, k: Key): Flags {
    match k
    case Right => f.(right := true)
    case Left => f.(left := true)
    case Up => f.(up := true)
    case Down => f.(down := true)
    case _ => f
  }

  /** A flag cleared by an arrow key when it comes up, as the key-up handler does. */
  function Release(f: Flags, k: Key): Flags {
    match k
    case Right => f.(right := false)
    case Left => f.(left := false)
    case Up => f.(up := false)
    case Down => f.(down := false)
    case _ => f
  }

  /** An arrow key raises, or lowers, its own flag and no other; any other
      key leaves the flags alone; releasing after pressing is releasing. */
  lemma PressAndRelease(f: Flags, k: Key)
    ensures IsArrow(k) ==> FlagOf(Press(f, k), k) && !FlagOf(Release(f, k), k)
    ensures IsArrow(k) ==> forall k' :: IsArrow(k') && k' != k ==>
      FlagOf(Press(f, k), k') == FlagOf(f, k') && FlagOf(Release(f, k), k') == FlagOf(f, k')
    ensures !IsArrow(k) ==> Press(f, k) == f && Release(f, k) == f
    ensures Release(Press(f, k), k) == Release(f, k)
  {
  }

  /** The bullets after a shot: a new one only while fewer than `cap` fly. */
  function Fire(bullets: seq<Pos>, cap: int, b: Pos): seq<Pos> {
    if |bullets| < cap then bullets + [b] else bullets
  }

  /** A shot adds exactly one bullet, at the end, when and only when the cap
      is not reached, so a group within the cap stays within it. */
  lemma FireWithinCap(bullets: seq<Pos>, cap: int, b: Pos)
    ensures |bullets| < cap <==> Fire(bullets, cap, b) == bullets + [b]
    ensures |bullets| >= cap <==> Fire(bullets, cap, b) == bullets
    ensures |bullets| <= cap ==> |Fire(bullets, cap, b)| <= cap
  {
  }

  // ---------------------------------------------------------------------
  // Fleet layout

  /** The sizes of the alien and ship rects (from their images). */
  datatype Sizes = Sizes(alienWidth: int, alienHeight: int, shipHeight: int)

  /** `get_num_aliens_x`: room for a margin of one alien width each side,
      two widths per alien. */
  function NumAliensX(screenWidth: int, alienWidth: int): int
    requires alienWidth != 0
  {
    TruncDiv(screenWidth - 2 * alienWidth, 2 * alienWidth)
  }

  /** `get_num_rows`: room below three alien heights and the ship, two
      heights per row. */
  function NumRows(screenHeight: int, alienHeight: int, shipHeight: int): int
    requires alienHeight != 0
  {
    TruncDiv(screenHeight - 3 * alienHeight - shipHeight, 2 * alienHeight)
  }

  /** For a positive divisor, truncation is the floor on a non-negative
      dividend and gives at most 0 on a negative one. */
  lemma TruncDivPositive(a: int, b: int)
    requires b > 0
    ensures a >= 0 ==> 0 <= TruncDiv(a, b) && TruncDiv(a, b) * b <= a < TruncDiv(a, b) * b + b
    ensures a < 0 ==> TruncDiv(a, b) <= 0
  {
  }

  /** With a positive alien width, `n` aliens of the row take `2 * w * n`
      pixels, which fits in the screen less two widths, and one alien more
      would not; on a screen narrower than two aliens the count is at most 0. */
  lemma NumAliensXFits(screenWidth: int, w: int)
    requires w > 0
    ensures var n := NumAliensX(screenWidth, w);
      (screenWidth >= 2 * w ==> 0 <= n && 2 * w * n <= screenWidth - 2 * w < 2 * w * (n + 1)) &&
      (screenWidth < 2 * w ==> n <= 0)
  {
    var n := NumAliensX(screenWidth, w);
    TruncDivPositive(screenWidth - 2 * w, 2 * w);
    assert 2 * w * n == n * (2 * w) && 2 * w * (n + 1) == n * (2 * w) + 2 * w;
  }

  /** With a positive alien height, `r` rows take `2 * h * r` pixels, which
      fits above three heights and the ship, and one row more would not. */
  lemma NumRowsFit(screenHeight: int, h: int, shipHeight: int)
    requires h > 0
    ensures var r := NumRows(screenHeight, h, shipHeight);
      var room := screenHeight - 3 * h - shipHeight;
      (room >= 0 ==> 0 <= r && 2 * h * r <= room < 2 * h * (r + 1)) &&
      (room < 0 ==> r <= 0)
  {
    var r := NumRows(screenHeight, h, shipHeight);
    TruncDivPositive(screenHeight - 3 * h - shipHeight, 2 * h);
    assert 2 * h * r == r * (2 * h) && 2 * h * (r + 1) == r * (2 * h) + 2 * h;
  }

  /** Where `create_alien` puts alien `id` of row `row`. */
  function AlienAt(id: int, row: int, s: Sizes): Pos {
    Pos(s.alienWidth + 2 * s.alienWidth * id, s.alienHeight + 2 * s.alienHeight * row)
  }

  /** Row `row` of the fleet, left to right. */
  function FleetRow(row: int, cols: int, s: Sizes): (r: seq<Pos>)
    ensures |r| == if cols <= 0 then 0 else cols
    ensures forall i :: 0 <= i < |r| ==> r[i] == AlienAt(i, row, s)
  {
    if cols <= 0 then [] else seq(cols, i => AlienAt(i, row, s))
  }

  /** The aliens `create_fleet` adds, in the order it adds them: row by
      row, each left to right (`range` of a negative count is empty). */
  function Fleet(rows: int, cols: int, s: Sizes): seq<Pos>
    decreases rows
  {
    if rows <= 0 then [] else Fleet(rows - 1, cols, s) + FleetRow(rows - 1, cols, s)
  }

  function Count(n: int): nat {
    if n < 0 then 0 else n
  }

  /** The fleet holds rows times columns aliens. */
  lemma {:induction false} FleetSize(rows: int, cols: int, s: Sizes)
    ensures |Fleet(rows, cols, s)| == Count(rows) * Count(cols)
    decreases rows
  {
    if rows > 0 {
      FleetSize(rows - 1, cols, s);
      assert Count(rows) * Count(cols) == Count(rows - 1) * Count(cols) + Count(cols);
    }
  }

  /** The fleet is exactly the aliens of rows 0..rows-1, columns 0..cols-1. */
  lemma {:induction false} FleetMembers(rows: int, cols: int, s: Sizes)
    ensures forall p :: p in Fleet(rows, cols, s) <==>
      exists r, i :: 0 <= r < rows && 0 <= i < cols && p == AlienAt(i, r, s)
    decreases rows
  {
    if rows > 0 {
      FleetMembers(rows - 1, cols, s);
      var row := FleetRow(rows - 1, cols, s);
      forall p | p in row ensures exists r, i :: 0 <= r < rows && 0 <= i < cols && p == AlienAt(i, r, s) {
        var i :| 0 <= i < |row| && row[i] == p;
        assert p == AlienAt(i, rows - 1, s);
      }
      forall r, i | 0 <= r < rows && 0 <= i < cols ensures AlienAt(i, r, s) in Fleet(rows, cols, s) {
        if r == rows - 1 {
          assert row[i] == AlienAt(i, r, s);
        }
      }
    }
  }

  lemma PositiveProduct(a: int, b: int)
    requires a > 0 && b > 0
    ensures a * b > 0
  {
    assert a * b == (a - 1) * b + b;
    assert (a - 1) * b >= 0;
  }

  lemma ProductNonzero(a: int, b: int)
    requires a != 0 && b != 0
    ensures a * b != 0
  {
    if a > 0 && b > 0 {
      PositiveProduct(a, b);
    } else if a > 0 {
      PositiveProduct(a, -b);
      assert a * b == -(a * (-b));
    } else if b > 0 {
      PositiveProduct(-a, b);
      assert a * b == -((-a) * b);
    } else {
      PositiveProduct(-a, -b);
      assert a * b == (-a) * (-b);
    }
  }

  /** With nonzero sizes, distinct places in the fleet hold distinct positions. */
  lemma AlienAtInjective(i: int, r: int, j: int, q: int, s: Sizes)
    requires s.alienWidth != 0 && s.alienHeight != 0
    ensures AlienAt(i, r, s) == AlienAt(j, q, s) <==> i == j && r == q
  {
    if i != j {
      ProductNonzero(2 * s.alienWidth, i - j);
      assert 2 * s.alienWidth * i - 2 * s.alienWidth * j == 2 * s.alienWidth * (i - j);
    }
    if r != q {
      ProductNonzero(2 * s.alienHeight, r - q);
      assert 2 * s.alienHeight * r - 2 * s.alienHeight * q == 2 * s.alienHeight * (r - q);
    }
  }

  /** No two aliens of a fleet share a position. */
  lemma {:induction false} FleetDistinct(rows: int, cols: int, s: Sizes)
    requires s.alienWidth != 0 && s.alienHeight != 0
    ensures forall a, b :: 0 <= a < b < |Fleet(rows, cols, s)| ==> Fleet(rows, cols, s)[a] != Fleet(rows, cols, s)[b]
    decreases rows
  {
    if rows > 0 {
      var before := Fleet(rows - 1, cols, s);
      var row := FleetRow(rows - 1, cols, s);
      var f := Fleet(rows, cols, s);
      FleetDistinct(rows - 1, cols, s);
      FleetMembers(rows - 1, cols, s);
      assert f == before + row;
      forall a, b | 0 <= a < b < |f| ensures f[a] != f[b] {
        if b >= |before| {
          assert f[b] == AlienAt(b - |before|, rows - 1, s);
          if a >= |before| {
            assert f[a] == AlienAt(a - |before|, rows - 1, s);
            AlienAtInjective(a - |before|, rows - 1, b - |before|, rows - 1, s);
          } else {
            assert f[a] in before;
            var r, i :| 0 <= r < rows - 1 && 0 <= i < cols && f[a] == AlienAt(i, r, s);
            AlienAtInjective(i, r, b - |before|, rows - 1, s);
          }
        }
      }
    }
  }

  lemma MulBelow(i: int, n: int, w: int)
    requires 0 <= i < n && w > 0
    ensures w * i + w <= w * n
  {
    assert w * n - w * i == w * (n - i);
    assert w * (n - i) == w * (n - i - 1) + w;
    assert w * (n - i - 1) >= 0;
  }

  /** With positive sizes, every alien of the fleet `create_fleet` builds
      lies in the screen, a width from its left edge and more than two
      widths from its right, a height from the top and more than three
      heights and the ship's height from the bottom. */
  lemma FleetOnScreen(screenWidth: int, screenHeight: int, s: Sizes)
    requires s.alienWidth > 0 && s.alienHeight > 0
    ensures forall p :: p in Fleet(NumRows(screenHeight, s.alienHeight, s.shipHeight), NumAliensX(screenWidth, s.alienWidth), s) ==>
      s.alienWidth <= p.x && p.x + s.alienWidth <= screenWidth - 2 * s.alienWidth &&
      s.alienHeight <= p.y && p.y + s.alienHeight <= screenHeight - 3 * s.alienHeight - s.shipHeight
  {
    var w, h := s.alienWidth, s.alienHeight;
    var rows := NumRows(screenHeight, h, s.shipHeight);
    var cols := NumAliensX(screenWidth, w);
    FleetMembers(rows, cols, s);
    NumAliensXFits(screenWidth, w);
    NumRowsFit(screenHeight, h, s.shipHeight);
    forall p | p in Fleet(rows, cols, s)
      ensures w <= p.x && p.x + w <= screenWidth - 2 * w
      ensures h <= p.y && p.y + h <= screenHeight - 3 * h - s.shipHeight
    {
      var r, i :| 0 <= r < rows && 0 <= i < cols && p == AlienAt(i, r, s);
      MulBelow(i, cols, 2 * w);
      MulBelow(r, rows, 2 * h);
      assert 2 * w * i >= 0 && 2 * h * r >= 0;
    }
  }

  /** `create_alien`: one alien more, at its place in the fleet. */
  method CreateAlien(aliens: Group, s: Sizes, alienId: int, rowId: int)
    modifies aliens
    ensures aliens.sprites == old(aliens.sprites) + [AlienAt(alienId, rowId, s)]
  {
    aliens.sprites := aliens.sprites + [AlienAt(alienId, rowId, s)];
  }

  /** `create_fleet`: the fleet's aliens are added to the group. */
  method CreateFleet(settings: Settings, aliens: Group, s: Sizes)
    requires s.alienWidth != 0 && s.alienHeight != 0
    modifies aliens
    ensures aliens.sprites == old(aliens.sprites) +
      Fleet(NumRows(settings.screenHeight, s.alienHeight, s.shipHeight), NumAliensX(settings.screenWidth, s.alienWidth), s)
  {
    var numAliensX := NumAliensX(settings.screenWidth, s.alienWidth);
    var numRows := NumRows(settings.screenHeight, s.alienHeight, s.shipHeight);
    ghost var start := aliens.sprites;
    var rowId := 0;
    while rowId < numRows
      invariant 0 <= rowId <= Count(numRows)
      invariant aliens.sprites == start + Fleet(rowId, numAliensX, s)
    {
      ghost var row := FleetRow(rowId, numAliensX, s);
      var alienId := 0;
      while alienId < numAliensX
        invariant 0 <= alienId <= Count(numAliensX)
        invariant aliens.sprites == start + Fleet(rowId, numAliensX, s) + row[..alienId]
      {
        CreateAlien(aliens, s, alienId, rowId);
        assert row[..alienId + 1] == row[..alienId] + [AlienAt(alienId, rowId, s)];
        alienId := alienId + 1;
      }
      assert row[..alienId] == row;
      rowId := rowId + 1;
    }
  }

  // ---------------------------------------------------------------------
  // Shots, score and the fleet's motion

  /** `fire_bullet`: the new bullet, made at the ship, is passed in. */
  method FireBullet(settings: Settings, bullets: Group, shot: Pos)
    modifies bullets
    ensures bullets.sprites == Fire(old(bullets.sprites), settings.bulletMaxNum, shot)
  {
    if |bullets.sprites| < settings.bulletMaxNum {
      bullets.sprites := bullets.sprites + [shot];
    }
  }

  function Max(a: int, b: int): int {
    if a < b then b else a
  }

  /** `check_highest_score`: the highest score becomes the larger of itself
      and the score; nothing else changes. */
  method CheckHighestScore(stats: GameStats)
    modifies stats
    ensures stats.Snapshot() == old(stats.Snapshot()).(highestScore := Max(old(stats.highestScore), stats.score))
  {
    if stats.highestScore < stats.score {
      stats.highestScore := stats.score;
    }
  }

  /** The total of a sequence. */
  function Sum(s: seq<int>): int {
    if s == [] then 0 else Sum(s[..|s| - 1]) + s[|s| - 1]
  }

  /** Every bullet in the collision dict hit at least one alien, so a frame
      with collisions destroys at least as many aliens as bullets. */
  lemma {:induction false} SumAtLeastLength(hits: seq<int>)
    requires forall k :: 0 <= k < |hits| ==> hits[k] >= 1
    ensures Sum(hits) >= |hits|
  {
    if hits != [] {
      SumAtLeastLength(hits[..|hits| - 1]);
    }
  }

  /** The scoring loop of `check_bullet_alien_collisions`: each bullet's hit
      list earns `alien_points` per alien. */
  method AddScore(settings: Settings, stats: GameStats, hits: seq<int>)
    modifies stats
    ensures stats.Snapshot() == old(stats.Snapshot()).(score := old(stats.score) + settings.alienPoints * Sum(hits))
  {
    var points := settings.alienPoints;
    for k := 0 to |hits|
      invariant stats.Snapshot() == old(stats.Snapshot()).(score := old(stats.score) + points * Sum(hits[..k]))
    {
      assert hits[..k + 1][..k] == hits[..k];
      assert points * Sum(hits[..k + 1]) == points * Sum(hits[..k]) + points * hits[k];
      stats.score := stats.score + points * hits[k];
    }
    assert hits[..|hits|] == hits;
  }

  /** The level-up test as `check_bullet_alien_collisions` writes it.  Its
      loop `for aliens in collisions.values()` rebinds `aliens`, so after a
      frame with collisions `len(aliens) == 0` looks at the last bullet's
      hit list rather than at the alien group. */
  function LevelUpAsWritten(hits: seq<int>, aliensLeft: seq<Pos>): bool {
    if |hits| > 0 then hits[|hits| - 1] == 0 else |aliensLeft| == 0
  }

  /** In the frame where bullets destroy the last aliens the written test
      never fires: a hit list is never empty, so the fleet is left empty and
      the level stays. */
  lemma LastAliensShotNoLevelUp(hits: seq<int>)
    requires |hits| > 0 && forall k :: 0 <= k < |hits| ==> hits[k] >= 1
    ensures !LevelUpAsWritten(hits, [])
  {
  }

  /** The concrete case: one bullet destroys the one remaining alien. */
  lemma OneBulletLastAlien()
    ensures !LevelUpAsWritten([1], []) && LevelUp([])
  {
  }

  /** The intended level-up test: the alien group is now empty. */
  function LevelUp(aliensLeft: seq<Pos>): bool {
    aliensLeft == []
  }

  /** `check_bullet_alien_collisions`, with the intended level-up test.
      `pygame.sprite.groupcollide` is an input: `hits` holds the number of
      aliens each colliding bullet hit, and `aliensLeft` and `bulletsLeft`
      are the groups once it has removed them. */
  method CheckBulletAlienCollisions(settings: Settings, stats: GameStats, aliens: Group, bullets: Group,
                                    s: Sizes, hits: seq<int>, aliensLeft: seq<Pos>, bulletsLeft: seq<Pos>)
    requires aliens != bullets
    requires s.alienWidth != 0 && s.alienHeight != 0
    requires forall k :: 0 <= k < |hits| ==> hits[k] >= 1
    modifies settings, stats, aliens, bullets
    ensures stats.score == old(stats.score) + old(settings.alienPoints) * Sum(hits)
    ensures stats.highestScore == if |hits| > 0 then Max(old(stats.highestScore), stats.score) else old(stats.highestScore)
    ensures stats.level == old(stats.level) + if aliensLeft == [] then 1 else 0
    ensures stats.shipsLeft == old(stats.shipsLeft) && stats.gameActive == old(stats.gameActive)
    ensures stats.gamePaused == old(stats.gamePaused)
    ensures settings.fleetDirection == old(settings.fleetDirection)
    ensures aliensLeft == [] ==>
      bullets.sprites == [] && settings.alienPoints == ScaledPoints(old(settings.alienPoints)) &&
      aliens.sprites == Fleet(NumRows(settings.screenHeight, s.alienHeight, s.shipHeight), NumAliensX(settings.screenWidth, s.alienWidth), s)
    ensures aliensLeft != [] ==>
      bullets.sprites == bulletsLeft && settings.alienPoints == old(settings.alienPoints) && aliens.sprites == aliensLeft
  {
    aliens.sprites := aliensLeft;
    bullets.sprites := bulletsLeft;
    if |hits| > 0 {
      AddScore(settings, stats, hits);
      CheckHighestScore(stats);
    }
    if LevelUp(aliens.sprites) {
      bullets.sprites := [];
      settings.IncreaseSpeed();
      stats.level := stats.level + 1;
      CreateFleet(settings, aliens, s);
    }
  }

  /** The group with every alien `d` pixels lower. */
  function Dropped(aliens: seq<Pos>, d: int): seq<Pos> {
    seq(|aliens|, k requires 0 <= k < |aliens| => aliens[k].(y := aliens[k].y + d))
  }

  /** Dropping keeps the aliens, their order and their columns, lowers each
      by `d`, and two drops add up. */
  lemma DroppedShape(aliens: seq<Pos>, a: int, b: int)
    ensures |Dropped(aliens, a)| == |aliens|
    ensures forall k :: 0 <= k < |aliens| ==>
      Dropped(aliens, a)[k].x == aliens[k].x && Dropped(aliens, a)[k].y == aliens[k].y + a
    ensures Dropped(Dropped(aliens, a), b) == Dropped(aliens, a + b)
  {
  }

  /** `fleet_direction *= -1`. */
  function Flipped(direction: int): int {
    direction * -1
  }

  /** Two flips restore the direction; a flip turns right (1) into left (-1)
      and back. */
  lemma FlipTwice(direction: int)
    ensures Flipped(Flipped(direction)) == direction
    ensures Flipped(1) == -1 && Flipped(-1) == 1
  {
  }

  /** `change_fleet_direction`: every alien drops by `fleet_drop_speed`, then
      the direction flips. */
  method ChangeFleetDirection(settings: Settings, aliens: Group)
    modifies settings, aliens
    ensures aliens.sprites == Dropped(old(aliens.sprites), settings.fleetDropSpeed)
    ensures settings.fleetDirection == Flipped(old(settings.fleetDirection))
    ensures settings.alienPoints == old(settings.alienPoints)
  {
    ghost var start := aliens.sprites;
    var d := settings.fleetDropSpeed;
    var k := 0;
    while k < |aliens.sprites|
      invariant |aliens.sprites| == |start| && 0 <= k <= |start|
      invariant forall m :: 0 <= m < k ==> aliens.sprites[m] == start[m].(y := start[m].y + d)
      invariant forall m :: k <= m < |start| ==> aliens.sprites[m] == start[m]
      invariant unchanged(settings)
    {
      var alien := aliens.sprites[k];
      aliens.sprites := aliens.sprites[k := alien.(y := alien.y + d)];
      k := k + 1;
    }
    settings.fleetDirection := settings.fleetDirection * -1;
  }

  // ---------------------------------------------------------------------
  // Starting over and losing a ship

  /** `start_new_game` as written: the groups are emptied and a fresh fleet
      is built, and then `ship.reset_ship()` raises AttributeError, since
      `Ship` has no such method. */
  method StartNewGameAsWritten(settings: Settings, aliens: Group, bullets: Group, s: Sizes) returns (r: Outcome)
    requires aliens != bullets
    requires s.alienWidth != 0 && s.alienHeight != 0
    modifies aliens, bullets
    ensures bullets.sprites == []
    ensures aliens.sprites == Fleet(NumRows(settings.screenHeight, s.alienHeight, s.shipHeight), NumAliensX(settings.screenWidth, s.alienWidth), s)
    ensures r == AttributeError("reset_ship")
  {
    aliens.sprites := [];
    bullets.sprites := [];
    CreateFleet(settings, aliens, s);
    ResetShipMissing();
    r := CallShipMethod("reset_ship");
  }

  /** `start_new_game` as intended ("center the ship"): the groups are
      emptied, a fresh fleet is built and the ship goes back to its
      birthplace with `center_ship()`. */
  method StartNewGame(settings: Settings, ship: Ship, aliens: Group, bullets: Group, s: Sizes)
    requires aliens != bullets
    requires s.alienWidth != 0 && s.alienHeight != 0
    modifies ship, aliens, bullets
    ensures bullets.sprites == []
    ensures aliens.sprites == Fleet(NumRows(settings.screenHeight, s.alienHeight, s.shipHeight), NumAliensX(settings.screenWidth, s.alienWidth), s)
    ensures ship.centerx == ship.birthCenterx as real && ship.centery == ship.birthCentery as real
    ensures ship.Moving() == old(ship.Moving())
  {
    aliens.sprites := [];
    bullets.sprites := [];
    CreateFleet(settings, aliens, s);
    ship.CenterShip();
  }

  /** `restart_game`: statistics reset and the game active, dynamic
      settings back to their start, and a new game. */
  method RestartGame(settings: Settings, stats: GameStats, ship: Ship, aliens: Group, bullets: Group, s: Sizes)
    requires aliens != bullets
    requires s.alienWidth != 0 && s.alienHeight != 0
    modifies settings, stats, ship, aliens, bullets
    ensures stats.Snapshot() == Reset(old(stats.Snapshot()), stats.aiSettings.shipLimit).(gameActive := true)
    ensures settings.fleetDirection == 1 && settings.alienPoints == 50
    ensures bullets.sprites == []
    ensures aliens.sprites == Fleet(NumRows(settings.screenHeight, s.alienHeight, s.shipHeight), NumAliensX(settings.screenWidth, s.alienWidth), s)
    ensures ship.centerx == ship.birthCenterx as real && ship.centery == ship.birthCentery as real
    ensures ship.Moving() == old(ship.Moving())
  {
    stats.ResetStats();
    stats.gameActive := true;
    settings.InitializeDynamicSettings();
    StartNewGame(settings, ship, aliens, bullets, s);
  }

  /** `ship_hit`: one ship fewer; with ships left a new game starts,
      otherwise the game stops. */
  method ShipHit(settings: Settings, stats: GameStats, ship: Ship, aliens: Group, bullets: Group, s: Sizes)
    requires aliens != bullets
    requires s.alienWidth != 0 && s.alienHeight != 0
    modifies stats, ship, aliens, bullets
    ensures stats.Snapshot() == old(stats.Snapshot()).(shipsLeft := old(stats.shipsLeft) - 1,
      gameActive := if old(stats.shipsLeft) - 1 > 0 then old(stats.gameActive) else false)
    ensures stats.shipsLeft > 0 ==>
      bullets.sprites == [] &&
      aliens.sprites == Fleet(NumRows(settings.screenHeight, s.alienHeight, s.shipHeight), NumAliensX(settings.screenWidth, s.alienWidth), s) &&
      ship.centerx == ship.birthCenterx as real && ship.centery == ship.birthCentery as real
    ensures stats.shipsLeft <= 0 ==>
      aliens.sprites == old(aliens.sprites) && bullets.sprites == old(bullets.sprites) && unchanged(ship)
    ensures ship.Moving() == old(ship.Moving())
  {
    stats.shipsLeft := stats.shipsLeft - 1;
    if stats.shipsLeft > 0 {
      StartNewGame(settings, ship, aliens, bullets, s);
    } else {
      stats.gameActive := false;
    }
  }

  // ---------------------------------------------------------------------
  // Key events

  /** `check_keydown_event`.  `q` quits (`sys.exit`, reported as `quit`
      with nothing changed).  While the game is active, RETURN toggles the
      pause, and only when not paused do the arrows set their flags and
      SPACE fire; while it is inactive, `p` restarts it. */
  method CheckKeydownEvent(key: Key, settings: Settings, stats: GameStats, ship: Ship,
                           aliens: Group, bullets: Group, s: Sizes, shot: Pos) returns (quit: bool)
    requires aliens != bullets
    requires s.alienWidth != 0 && s.alienHeight != 0
    modifies settings, stats, ship, aliens, bullets
    ensures quit <==> key == Q
    ensures key == Q ==> unchanged(settings, stats, ship, aliens, bullets)
    ensures key != Q && old(stats.gameActive) ==>
      unchanged(settings, aliens) &&
      ship.centerx == old(ship.centerx) && ship.centery == old(ship.centery) &&
      stats.Snapshot() == old(stats.Snapshot()).(gamePaused := if key == Return then !old(stats.gamePaused) else old(stats.gamePaused)) &&
      ship.Moving() == (if key != Return && !old(stats.gamePaused) then Press(old(ship.Moving()), key) else old(ship.Moving())) &&
      bullets.sprites == (if key == Space && !old(stats.gamePaused) then Fire(old(bullets.sprites), settings.bulletMaxNum, shot) else old(bullets.sprites))
    ensures key != Q && !old(stats.gameActive) && key != P ==> unchanged(settings, stats, ship, aliens, bullets)
    ensures key == P && !old(stats.gameActive) ==>
      ship.Moving() == old(ship.Moving()) &&
      ship.centerx == ship.birthCenterx as real && ship.centery == ship.birthCentery as real &&
      stats.Snapshot() == Reset(old(stats.Snapshot()), stats.aiSettings.shipLimit).(gameActive := true) &&
      settings.fleetDirection == 1 && settings.alienPoints == 50 && bullets.sprites == [] &&
      aliens.sprites == Fleet(NumRows(settings.screenHeight, s.alienHeight, s.shipHeight), NumAliensX(settings.screenWidth, s.alienWidth), s)
  {
    if key == Q {
      return true;
    }
    quit := false;
    if stats.gameActive {
      if key == Return {
        stats.gamePaused := !stats.gamePaused;
      } else if !stats.gamePaused {
        if key == Right {
          ship.movingRight := true;
        } else if key == Left {
          ship.movingLeft := true;
        } else if key == Up {
          ship.movingUp := true;
        } else if key == Down {
          ship.movingDown := true;
        } else if key == Space {
          FireBullet(settings, bullets, shot);
        }
      }
    } else if key == P {
      RestartGame(settings, stats, ship, aliens, bullets, s);
    }
  }

  /** `check_keyup_event`: while the game is active an arrow's release
      clears its flag, paused or not; otherwise nothing happens. */
  method CheckKeyupEvent(key: Key, stats: GameStats, ship: Ship)
    modifies ship
    ensures ship.Moving() == if stats.gameActive then Release(old(ship.Moving()), key) else old(ship.Moving())
  {
    if stats.gameActive {
      if key == Right {
        ship.movingRight := false;
      } else if key == Left {
        ship.movingLeft := false;
      } else if key == Up {
        ship.movingUp := false;
      } else if key == Down {
        ship.movingDown := false;
      }
    }
  }
}
