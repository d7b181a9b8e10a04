/**
  The game's entities and their per-tick behaviour.

  Every entity carries a position, a per-tick direction and a size; its
  bounding rectangle is the position and the size. The field size, which the
  game keeps in static properties, is passed explicitly, and so is every value
  the game draws from a random generator. Notifications the entities raise
  are returned as flags.
*/
module Objects {
  import opened Geometry

  /** The playing field, `Game.Width` by `Game.Height`. */
  datatype Field = Field(width: int, height: int)

  /** Position, direction and size: the state every entity shares. */
  datatype Body = Body(pos: Point, dir: Point, size: Size) {

    function Rect(): Rectangle {
      Rectangle(pos.x, pos.y, size.width, size.height)
    }
  }

  // ---------------------------------------------------------------------------
  // Collision test
  // ---------------------------------------------------------------------------

  /**
    The object a collision is tested against. Only asteroids are told apart,
    because a collision with an asteroid whose power is spent goes unreported.
  */
  datatype Target = AsteroidTarget(asteroid: Asteroid) | ObjectTarget(body: Body) {

    function Rect(): Rectangle {
      match this
      case AsteroidTarget(a) => a.body.Rect()
      case ObjectTarget(b) => b.Rect()
    }

    predicate IsSpentAsteroid() {
      AsteroidTarget? && asteroid.power == 0
    }
  }

  /** Whether the rectangles overlap, and whether the collision event was raised. */
  datatype CollisionResult = CollisionResult(hit: bool, reported: bool)

  /** `self.Collision(o)`: the overlap test, plus the collision notification. */
  function Collision(self: Body, o: Target): (r: CollisionResult)
    ensures r.hit <==> IntersectsWith(self.Rect(), o.Rect())
    ensures r.reported <==> r.hit && !o.IsSpentAsteroid()
  {
    var hit := IntersectsWith(o.Rect(), self.Rect());
    CollisionResult(hit, hit && !o.IsSpentAsteroid())
  }

  /** Collision between two entities does not depend on which one asks. */
  lemma CollisionSymmetric(a: Body, b: Body)
    ensures Collision(a, ObjectTarget(b)).hit == Collision(b, ObjectTarget(a)).hit
  {
    IntersectsSymmetric(a.Rect(), b.Rect());
  }

  /**
    For entities with a positive size, a collision is exactly a pixel both of
    them cover.
  */
  lemma CollisionIsSharedPixel(self: Body, o: Target)
    requires self.Rect().HasArea() && o.Rect().HasArea()
    ensures Collision(self, o).hit <==>
      exists px, py :: self.Rect().Covers(px, py) && o.Rect().Covers(px, py)
  {
    IntersectsIffSharedPixel(self.Rect(), o.Rect());
  }

  // ---------------------------------------------------------------------------
  // Edge bounce, shared by asteroids and aid kits
  // ---------------------------------------------------------------------------

  /**
    The direction component after moving to coordinate `p`: negated when `p`
    is below zero, and negated (again) when `p` is beyond `limit`.
  */
  function Reflect(p: int, d: int, limit: int): int {
    var d1 := if p < 0 then -d else d;
    if p > limit then -d1 else d1
  }

  /** One step of edge-bouncing motion: move by the direction, then reflect. */
  function Bounce(b: Body, field: Field): (r: Body)
    ensures r.pos == Point(b.pos.x + b.dir.x, b.pos.y + b.dir.y)
    ensures r.size == b.size
    ensures field.width >= 0 ==>
      r.dir.x == if r.pos.x < 0 || r.pos.x > field.width then -b.dir.x else b.dir.x
    ensures field.height >= 0 ==>
      r.dir.y == if r.pos.y < 0 || r.pos.y > field.height then -b.dir.y else b.dir.y
  {
    var x, y := b.pos.x + b.dir.x, b.pos.y + b.dir.y;
    Body(Point(x, y), Point(Reflect(x, b.dir.x, field.width), Reflect(y, b.dir.y, field.height)), b.size)
  }

  function Abs(n: int): int { if n < 0 then -n else n }

  /**
    Coordinate `p` moving by `d` along an axis of length `limit` is in its
    band: at most one step outside [0, limit], and, when outside, heading back.
  */
  predicate InBand(p: int, d: int, limit: int) {
    && -Abs(d) <= p <= limit + Abs(d)
    && (p < 0 ==> d > 0)
    && (p > limit ==> d < 0)
  }

  predicate BodyInBand(b: Body, field: Field) {
    InBand(b.pos.x, b.dir.x, field.width) && InBand(b.pos.y, b.dir.y, field.height)
  }

  /** `n` bounce steps in a row. */
  function BounceTimes(b: Body, field: Field, n: nat): Body
    decreases n
  {
    if n == 0 then b else BounceTimes(Bounce(b, field), field, n - 1)
  }

  /**
    Bouncing motion oscillates: a body that starts in its band stays in it,
    with the same speed, however many steps it takes.
  */
  lemma {:induction false} BounceStaysInBand(b: Body, field: Field, n: nat)
    requires field.width >= 0 && field.height >= 0
    requires BodyInBand(b, field)
    ensures BodyInBand(BounceTimes(b, field, n), field)
    ensures Abs(BounceTimes(b, field, n).dir.x) == Abs(b.dir.x)
    ensures Abs(BounceTimes(b, field, n).dir.y) == Abs(b.dir.y)
    decreases n
  {
    if n > 0 {
      var b' := Bounce(b, field);
      assert BodyInBand(b', field);
      BounceStaysInBand(b', field, n - 1);
    }
  }

  // ---------------------------------------------------------------------------
  // Asteroid
  // ---------------------------------------------------------------------------

  /** The C# `ushort` type of the explosion counter. */
  type UShort = c: int | 0 <= c < 0x1_0000

  /** `c++` on a `ushort`: wraps from 65535 to 0. */
  function Increment(c: UShort): (r: UShort)
    ensures c < 0xFFFF ==> r == c + 1
    ensures c == 0xFFFF ==> r == 0
  {
    (c + 1) % 0x1_0000
  }

  /**
    An asteroid: its body, the damage it carries (`Power`), the explosion
    frame counter (`blowCounter`, 0 while intact) and the terminal
    "blown up" flag (`isBlow`).
  */
  datatype Asteroid = Asteroid(body: Body, power: int, blowCounter: UShort, isBlow: bool) {

    /** Intact and moving. */
    predicate Alive() { !isBlow && blowCounter == 0 }

    /** Showing one of the three explosion frames. */
    predicate Exploding() { !isBlow && 1 <= blowCounter <= 3 }
  }

  /** A new asteroid; `power` is the generator's draw from 1 to 10. */
  function NewAsteroid(pos: Point, dir: Point, size: Size, power: int): (a: Asteroid)
    requires 1 <= power <= 10
    ensures a.Alive() && a.body == Body(pos, dir, size)
    ensures 1 <= a.power <= 10 && a.power == power
  {
    Asteroid(Body(pos, dir, size), power, 0, false)
  }

  /** An asteroid after one update, and whether it raised its "blown up" event. */
  datatype AsteroidStep = AsteroidStep(asteroid: Asteroid, blew: bool)

  /** The last explosion frame is over: the asteroid is blown and says so. */
  function Blow(a: Asteroid): (r: AsteroidStep)
    ensures r.asteroid.isBlow && r.blew
    ensures r.asteroid.body == a.body && r.asteroid.power == a.power
    ensures r.asteroid.blowCounter == a.blowCounter
  {
    AsteroidStep(a.(isBlow := true), true)
  }

  /** `Asteroid.Update`: move while intact, otherwise advance the explosion. */
  function UpdateAsteroid(a: Asteroid, field: Field): (r: AsteroidStep)
    ensures a.isBlow ==> r == AsteroidStep(a, false)
    ensures a.Alive() ==> r == AsteroidStep(a.(body := Bounce(a.body, field)), false)
    ensures !a.Alive() ==> r.asteroid.body == a.body
    ensures r.asteroid.power == a.power
    ensures r.blew <==> a.Exploding() && a.blowCounter == 3
    ensures r.blew <==> !a.isBlow && r.asteroid.isBlow
    ensures !a.isBlow && a.blowCounter != 0 && a.blowCounter != 3 ==>
      r.asteroid.blowCounter == Increment(a.blowCounter)
  {
    if a.isBlow then AsteroidStep(a, false)
    else if a.blowCounter == 0 then AsteroidStep(a.(body := Bounce(a.body, field)), false)
    else if a.blowCounter == 3 then Blow(a)
    else AsteroidStep(a.(blowCounter := Increment(a.blowCounter)), false)
  }

  /** `StartBlow`: the asteroid was hit; start (or push on) its explosion and spend its power. */
  function StartBlow(a: Asteroid): (r: Asteroid)
    ensures r.power == 0
    ensures r.blowCounter == Increment(a.blowCounter) && r.blowCounter != a.blowCounter
    ensures r.body == a.body && r.isBlow == a.isBlow
  {
    a.(blowCounter := Increment(a.blowCounter), power := 0)
  }

  // ---------------------------------------------------------------------------
  // Aid kit
  // ---------------------------------------------------------------------------

  /** A healing pickup carrying `power` energy. */
  datatype AidKit = AidKit(body: Body, power: int)

  function NewAidKit(pos: Point, dir: Point, size: Size): (k: AidKit)
    ensures k.body == Body(pos, dir, size) && k.power == 20
  {
    AidKit(Body(pos, dir, size), 20)
  }

  function UpdateAidKit(k: AidKit, field: Field): (r: AidKit)
    ensures r.power == k.power
    ensures r.body.pos == Point(k.body.pos.x + k.body.dir.x, k.body.pos.y + k.body.dir.y)
  {
    k.(body := Bounce(k.body, field))
  }

  /** An aid kit moves exactly like an intact asteroid with the same body. */
  lemma AidKitMovesLikeAsteroid(k: AidKit, a: Asteroid, field: Field)
    requires a.Alive() && a.body == k.body
    ensures UpdateAidKit(k, field).body == UpdateAsteroid(a, field).asteroid.body
    ensures !UpdateAsteroid(a, field).asteroid.isBlow
  {
  }

  // ---------------------------------------------------------------------------
  // Ship
  // ---------------------------------------------------------------------------

  const FullEnergy := 100

  /** The player's ship and its energy. */
  datatype Ship = Ship(body: Body, energy: int)

  function NewShip(pos: Point, dir: Point, size: Size): (s: Ship)
    ensures s.body == Body(pos, dir, size) && s.energy == FullEnergy
  {
    Ship(Body(pos, dir, size), FullEnergy)
  }

  /** A ship after an energy operation, and whether the energy-change event was raised. */
  datatype ShipStep = ShipStep(ship: Ship, notified: bool)

  /** `EnergyLow(n)`: lose `n` energy, with no lower bound. */
  function EnergyLow(s: Ship, n: int): (r: ShipStep)
    ensures r.ship.body == s.body
    ensures r.ship.energy == s.energy - n
    ensures r.notified <==> n != 0
  {
    if n != 0 then ShipStep(s.(energy := s.energy - n), true) else ShipStep(s, false)
  }

  /** `EnergyHigh(n)`: gain `n` energy, capped at full energy. */
  function EnergyHigh(s: Ship, n: int): (r: ShipStep)
    ensures r.ship.body == s.body
    ensures n == 0 ==> r.ship == s
    ensures n != 0 ==> r.ship.energy <= FullEnergy
    ensures n != 0 ==> r.ship.energy == if s.energy + n > FullEnergy then FullEnergy else s.energy + n
    ensures r.notified <==> n != 0
  {
    if n != 0 then
      ShipStep(s.(energy := if s.energy + n > FullEnergy then FullEnergy else s.energy + n), true)
    else
      ShipStep(s, false)
  }

  /** Healing undoes damage as long as the ship was not above full energy. */
  lemma EnergyHighUndoesEnergyLow(s: Ship, n: int)
    requires s.energy <= FullEnergy
    ensures EnergyHigh(EnergyLow(s, n).ship, n).ship == s
  {
  }

  /** Damage can take the energy below zero: nothing clamps it. */
  lemma EnergyLowCanGoNegative(s: Ship, n: int)
    requires s.energy < n
    ensures EnergyLow(s, n).ship.energy < 0
  {
  }

  /** Damage or healing applied to the ship. */
  datatype EnergyChange = Damage(amount: int) | Heal(amount: int)

  function ApplyAll(s: Ship, changes: seq<EnergyChange>): Ship
    decreases |changes|
  {
    if |changes| == 0 then s
    else
      var step := match changes[0]
        case Damage(n) => EnergyLow(s, n)
        case Heal(n) => EnergyHigh(s, n);
      ApplyAll(step.ship, changes[1..])
  }

  /**
    Energy never rises above full: a ship at or below full energy stays so
    under any sequence of non-negative damages and heals.
  */
  lemma {:induction false} EnergyNeverAboveFull(s: Ship, changes: seq<EnergyChange>)
    requires s.energy <= FullEnergy
    requires forall i :: 0 <= i < |changes| ==> changes[i].amount >= 0
    ensures ApplyAll(s, changes).energy <= FullEnergy
    ensures ApplyAll(s, changes).body == s.body
    decreases |changes|
  {
    if |changes| > 0 {
      var step := match changes[0]
        case Damage(n) => EnergyLow(s, n)
        case Heal(n) => EnergyHigh(s, n);
      EnergyNeverAboveFull(step.ship, changes[1..]);
    }
  }

  /** The ship's own update does nothing: it only moves on key presses. */
  function UpdateShip(s: Ship): (r: Ship)
    ensures r == s
  {
    s
  }

  /** `Up`: move up by the vertical speed, unless already at or above the top edge. */
  function Up(s: Ship): (r: Ship)
    ensures r.energy == s.energy && r.body.dir == s.body.dir && r.body.size == s.body.size
    ensures r.body.pos.x == s.body.pos.x
    ensures s.body.pos.y > 0 ==> r.body.pos.y == s.body.pos.y - s.body.dir.y
    ensures s.body.pos.y <= 0 ==> r == s
  {
    if s.body.pos.y > 0 then s.(body := s.body.(pos := s.body.pos.(y := s.body.pos.y - s.body.dir.y))) else s
  }

  /** `Down`: move down by the vertical speed, unless already at or below the bottom edge. */
  function Down(s: Ship, field: Field): (r: Ship)
    ensures r.energy == s.energy && r.body.dir == s.body.dir && r.body.size == s.body.size
    ensures r.body.pos.x == s.body.pos.x
    ensures s.body.pos.y < field.height ==> r.body.pos.y == s.body.pos.y + s.body.dir.y
    ensures s.body.pos.y >= field.height ==> r == s
  {
    if s.body.pos.y < field.height then s.(body := s.body.(pos := s.body.pos.(y := s.body.pos.y + s.body.dir.y))) else s
  }

  datatype Steer = SteerUp | SteerDown

  function SteerAll(s: Ship, field: Field, keys: seq<Steer>): Ship
    decreases |keys|
  {
    if |keys| == 0 then s
    else
      var s' := if keys[0] == SteerUp then Up(s) else Down(s, field);
      SteerAll(s', field, keys[1..])
  }

  /**
    The movement guards are not a clamp, but they keep the ship within one
    step of the field: a ship strictly inside (-dy, height + dy) stays there
    under any sequence of Up and Down presses.
  */
  lemma {:induction false} ShipStaysNearField(s: Ship, field: Field, keys: seq<Steer>)
    requires s.body.dir.y > 0
    requires -s.body.dir.y < s.body.pos.y < field.height + s.body.dir.y
    ensures var r := SteerAll(s, field, keys);
      -s.body.dir.y < r.body.pos.y < field.height + s.body.dir.y &&
      r.body.pos.x == s.body.pos.x && r.body.dir == s.body.dir && r.energy == s.energy
    decreases |keys|
  {
    if |keys| > 0 {
      var s' := if keys[0] == SteerUp then Up(s) else Down(s, field);
      ShipStaysNearField(s', field, keys[1..]);
    }
  }

  // ---------------------------------------------------------------------------
  // Background objects and the bullet
  // ---------------------------------------------------------------------------

  /** The decorative objects: they scroll and never collide. */
  datatype Scenery = Star(body: Body) | StarDust(body: Body) | Ufo(body: Body)

  /**
    Star and star-dust motion: scroll left by the horizontal speed; once off
    the left edge, re-enter one object-width beyond the right edge.
  */
  function Scroll(b: Body, field: Field): (r: Body)
    ensures r.dir == b.dir && r.size == b.size && r.pos.y == b.pos.y
    ensures b.pos.x - b.dir.x >= 0 ==> r.pos.x == b.pos.x - b.dir.x
    ensures b.pos.x - b.dir.x < 0 ==> r.pos.x == field.width + b.size.width
    ensures field.width >= 0 && b.size.width >= 0 ==> r.pos.x >= 0
  {
    var x := b.pos.x - b.dir.x;
    if x < 0 then b.(pos := Point(field.width + b.size.width, b.pos.y))
    else b.(pos := Point(x, b.pos.y))
  }

  /** `n` scroll steps in a row. */
  function ScrollTimes(b: Body, field: Field, n: nat): Body
    decreases n
  {
    if n == 0 then b else ScrollTimes(Scroll(b, field), field, n - 1)
  }

  /**
    A leftward-scrolling object stays on the strip [0, width + its width] at
    its own height, however many steps it takes.
  */
  lemma {:induction false} ScrollStaysOnStrip(b: Body, field: Field, n: nat)
    requires field.width >= 0 && b.size.width >= 0 && b.dir.x >= 0
    requires 0 <= b.pos.x <= field.width + b.size.width
    ensures var r := ScrollTimes(b, field, n);
      && 0 <= r.pos.x <= field.width + b.size.width
      && r.pos.y == b.pos.y && r.dir == b.dir && r.size == b.size
    decreases n
  {
    if n > 0 {
      ScrollStaysOnStrip(Scroll(b, field), field, n - 1);
    }
  }

  /**
    UFO motion: the position moves by minus the direction (the UFO is given
    a negative speed, so it drifts right); once beyond the right edge it
    restarts at the left edge at height `resetY`, the generator's draw.
  */
  function Drift(b: Body, field: Field, resetY: int): (r: Body)
    ensures r.dir == b.dir && r.size == b.size
    ensures b.pos.x - b.dir.x <= field.width ==> r.pos == Point(b.pos.x - b.dir.x, b.pos.y)
    ensures b.pos.x - b.dir.x > field.width ==> r.pos == Point(0, resetY)
    ensures field.width >= 0 ==> r.pos.x <= field.width
  {
    var x := b.pos.x - b.dir.x;
    if x > field.width then b.(pos := Point(0, resetY)) else b.(pos := Point(x, b.pos.y))
  }

  /** `Update` of a background object; `resetY` is used only by a UFO that restarts. */
  function UpdateScenery(o: Scenery, field: Field, resetY: int): (r: Scenery)
    ensures r.Star? == o.Star? && r.StarDust? == o.StarDust? && r.Ufo? == o.Ufo?
    ensures r.body.dir == o.body.dir && r.body.size == o.body.size
    ensures !o.Ufo? ==> r.body.pos.y == o.body.pos.y
    ensures !o.Ufo? && field.width >= 0 && o.body.size.width >= 0 ==> r.body.pos.x >= 0
    ensures o.Ufo? && field.width >= 0 ==> r.body.pos.x <= field.width
  {
    match o
    case Star(b) => Star(Scroll(b, field))
    case StarDust(b) => StarDust(Scroll(b, field))
    case Ufo(b) => Ufo(Drift(b, field, resetY))
  }

  /** The bullet's fixed speed, in pixels per tick. */
  const BulletSpeed := 6

  datatype Bullet = Bullet(body: Body)

  /**
    `Bullet.Update`: move right by the fixed speed (its direction is not
    used); past the right edge, restart at the left edge at height `resetY`.
  */
  function UpdateBullet(b: Bullet, field: Field, resetY: int): (r: Bullet)
    ensures r.body.dir == b.body.dir && r.body.size == b.body.size
    ensures b.body.pos.x + BulletSpeed <= field.width ==>
      r.body.pos == Point(b.body.pos.x + BulletSpeed, b.body.pos.y)
    ensures b.body.pos.x + BulletSpeed > field.width ==> r.body.pos == Point(0, resetY)
    ensures field.width >= 0 ==> r.body.pos.x <= field.width
  {
    var x := b.body.pos.x + BulletSpeed;
    if x > field.width then b.(body := b.body.(pos := Point(0, resetY)))
    else b.(body := b.body.(pos := Point(x, b.body.pos.y)))
  }

  /** `n` bullet updates in a row, each restart at height `resetY`. */
  function BulletTimes(b: Bullet, field: Field, resetY: int, n: nat): Bullet
    decreases n
  {
    if n == 0 then b else BulletTimes(UpdateBullet(b, field, resetY), field, resetY, n - 1)
  }

  /**
    A bullet that starts on the field stays between the left and right edges,
    keeping its direction and size, however many ticks it flies.
  */
  lemma {:induction false} BulletStaysOnField(b: Bullet, field: Field, resetY: int, n: nat)
    requires 0 <= b.body.pos.x <= field.width
    ensures var r := BulletTimes(b, field, resetY, n);
      && 0 <= r.body.pos.x <= field.width
      && r.body.dir == b.body.dir && r.body.size == b.body.size
    decreases n
  {
    if n > 0 {
      BulletStaysOnField(UpdateBullet(b, field, resetY), field, resetY, n - 1);
    }
  }

  /** The bullet's direction has no effect on where it goes. */
  lemma BulletIgnoresDirection(b: Bullet, dir: Point, field: Field, resetY: int)
    ensures UpdateBullet(b.(body := b.body.(dir := dir)), field, resetY).body.pos ==
            UpdateBullet(b, field, resetY).body.pos
  {
  }
}
