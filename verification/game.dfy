/**
  The game's orchestration: field-size validation, the initial population,
  key handling and the per-tick update that walks the asteroid slots and
  resolves bullet and ship collisions.

  The game's static state becomes a `World` value, each operation returns a
  new world, and the notifications raised during a tick are returned as a
  list of events in the order they are raised.
*/
module Game {
  import opened Options
  import opened Geometry
  import opened Objects

  /** The largest client width or height the game accepts. */
  const MaxFieldSize := 1000

  const AsteroidCount := 8
  const SceneryCount := 30

  datatype ConfigError = WidthTooLarge | HeightTooLarge

  /**
    Everything the game owns: the field, the background objects, the fixed
    array of asteroid slots (a slot is empty once its asteroid has blown up),
    the bullet if there is one, and the ship.
  */
  datatype World = World(
    field: Field,
    scenery: seq<Scenery>,
    asteroids: seq<Option<Asteroid>>,
    bullet: Option<Bullet>,
    ship: Ship)

  // ---------------------------------------------------------------------------
  // Invariant
  // ---------------------------------------------------------------------------

  /**
    A live asteroid has not blown up, carries at most 10 power, and has spent
    its power once its explosion has started.
  */
  predicate AsteroidOk(a: Asteroid) {
    && !a.isBlow
    && 0 <= a.power <= 10
    && (a.blowCounter != 0 ==> a.power == 0)
  }

  /** A UFO first, then 19 star-dust motes and 10 stars, the one at index i moving i pixels per tick. */
  predicate SceneryLayout(objs: seq<Scenery>) {
    && |objs| == SceneryCount
    && objs[0].Ufo?
    && (forall i :: 1 <= i < 20 ==> objs[i].StarDust? && objs[i].body.dir == Point(i, 0))
    && (forall i :: 20 <= i < SceneryCount ==> objs[i].Star? && objs[i].body.dir == Point(i, 0))
  }

  predicate Valid(w: World) {
    && SceneryLayout(w.scenery)
    && |w.asteroids| == AsteroidCount
    && (forall i :: 0 <= i < |w.asteroids| && w.asteroids[i].Some? ==> AsteroidOk(w.asteroids[i].value))
    && w.ship.energy <= FullEnergy
  }

  // ---------------------------------------------------------------------------
  // Initial population
  // ---------------------------------------------------------------------------

  /**
    The random values the initial population uses: the UFO's height, each
    asteroid's radius, height and power, and the heights of the star-dust
    motes and of the stars.
  */
  datatype LoadDraws = LoadDraws(
    ufoY: int,
    radii: seq<int>,
    asteroidYs: seq<int>,
    powers: seq<int>,
    dustYs: seq<int>,
    starYs: seq<int>)

  /**
    A height the generator can draw for a field `height` pixels tall: from 0
    up to but excluding the height, and 0 itself when the field has no height.
  */
  predicate HeightDraw(y: int, height: int) {
    if height <= 0 then y == 0 else 0 <= y < height
  }

  /**
    One draw per object, as the generators produce them for a field `height`
    pixels tall: every height a `HeightDraw`, radii from 5 to 49 and powers
    from 1 to 10.
  */
  predicate LoadDrawsFit(d: LoadDraws, height: int) {
    && |d.radii| == AsteroidCount && |d.asteroidYs| == AsteroidCount && |d.powers| == AsteroidCount
    && |d.dustYs| == 19 && |d.starYs| == 10
    && HeightDraw(d.ufoY, height)
    && (forall i :: 0 <= i < AsteroidCount ==> 5 <= d.radii[i] <= 49)
    && (forall i :: 0 <= i < AsteroidCount ==> HeightDraw(d.asteroidYs[i], height))
    && (forall i :: 0 <= i < AsteroidCount ==> 1 <= d.powers[i] <= 10)
    && (forall i :: 0 <= i < 19 ==> HeightDraw(d.dustYs[i], height))
    && (forall i :: 0 <= i < 10 ==> HeightDraw(d.starYs[i], height))
  }

  /** C# integer division, which rounds toward zero. */
  function DivideTowardZero(a: int, b: int): (q: int)
    requires b > 0
    ensures 0 <= a ==> 0 <= q && q * b <= a < q * b + b
    ensures a < 0 ==> q <= 0 && q * b - b < a <= q * b
  {
    if a >= 0 then a / b else -((-a) / b)
  }

  /** An asteroid of radius `r`: size r by r, falling r pixels and drifting left r/5 pixels per tick. */
  function SpawnAsteroid(r: int, y: int, power: int): (a: Asteroid)
    requires 5 <= r <= 49 && 1 <= power <= 10
    ensures a.Alive() && a.power == power
    ensures a.body.pos == Point(600, y) && a.body.size == Size(r, r)
    ensures a.body.dir == Point(-(r / 5), r) && -9 <= a.body.dir.x <= -1
  {
    NewAsteroid(Point(600, y), Point(DivideTowardZero(-r, 5), r), Size(r, r), power)
  }

  const StartShip := NewShip(Point(10, 400), Point(5, 5), Size(36, 26))

  /** `Load`: the initial population of the game. */
  function Load(field: Field, d: LoadDraws): (w: World)
    requires LoadDrawsFit(d, field.height)
    ensures Valid(w) && w.field == field
    ensures forall i :: 0 <= i < |w.asteroids| ==>
      && w.asteroids[i].Some?
      && w.asteroids[i].value.Alive()
      && 1 <= w.asteroids[i].value.power <= 10
      && w.asteroids[i].value.body.pos.x == 600
    ensures forall i :: 0 <= i < AsteroidCount ==>
      w.asteroids[i] == Some(SpawnAsteroid(d.radii[i], d.asteroidYs[i], d.powers[i]))
    ensures w.scenery[0] == Ufo(Body(Point(600, d.ufoY), Point(-8, 0), Size(40, 40)))
    ensures forall i :: 1 <= i < 20 ==> w.scenery[i].body == Body(Point(600, d.dustYs[i - 1]), Point(i, 0), Size(3, 3))
    ensures forall i :: 20 <= i < SceneryCount ==> w.scenery[i].body == Body(Point(600, d.starYs[i - 20]), Point(i, 0), Size(15, 15))
    ensures w.bullet.None?
    ensures w.ship.body == Body(Point(10, 400), Point(5, 5), Size(36, 26)) && w.ship.energy == 100
  {
    var ufo := Ufo(Body(Point(600, d.ufoY), Point(-8, 0), Size(40, 40)));
    var dust := seq(19, k requires 0 <= k < 19 => StarDust(Body(Point(600, d.dustYs[k]), Point(k + 1, 0), Size(3, 3))));
    var stars := seq(10, k requires 0 <= k < 10 => Star(Body(Point(600, d.starYs[k]), Point(k + 20, 0), Size(15, 15))));
    var asteroids := seq(AsteroidCount, k requires 0 <= k < AsteroidCount =>
      Some(SpawnAsteroid(d.radii[k], d.asteroidYs[k], d.powers[k])));
    World(field, [ufo] + dust + stars, asteroids, None, StartShip)
  }

  /**
    `Init`: reject a client area wider or taller than 1000 pixels, width
    first, before anything is set up; otherwise the field is the client area
    and the game is loaded.
  */
  function Init(clientWidth: int, clientHeight: int, d: LoadDraws): (r: Result<World, ConfigError>)
    requires LoadDrawsFit(d, clientHeight)
    ensures r == Err(WidthTooLarge) <==> clientWidth > MaxFieldSize
    ensures r == Err(HeightTooLarge) <==> clientWidth <= MaxFieldSize && clientHeight > MaxFieldSize
    ensures r.Ok? <==> clientWidth <= MaxFieldSize && clientHeight <= MaxFieldSize
    ensures r.Ok? ==> r.value.field == Field(clientWidth, clientHeight) && Valid(r.value)
  {
    if clientWidth > MaxFieldSize then Err(WidthTooLarge)
    else if clientHeight > MaxFieldSize then Err(HeightTooLarge)
    else Ok(Load(Field(clientWidth, clientHeight), d))
  }

  // ---------------------------------------------------------------------------
  // Keys
  // ---------------------------------------------------------------------------

  datatype Key = ControlKey | UpKey | DownKey | OtherKey

  /** A new bullet at the ship's muzzle, 35 pixels right of and 13 below its corner. */
  function Fire(s: Ship): (b: Bullet)
    ensures b.body.pos == Point(s.body.pos.x + 35, s.body.pos.y + 13)
    ensures b.body.dir == Point(4, 0) && b.body.size == Size(4, 1)
  {
    Bullet(Body(Point(s.body.pos.x + 35, s.body.pos.y + 13), Point(4, 0), Size(4, 1)))
  }

  /** For a ship of the starting size, the muzzle lies inside the ship's own rectangle. */
  lemma FiredBulletOverlapsShip(s: Ship)
    requires s.body.size == Size(36, 26)
    ensures Collision(s.body, ObjectTarget(Fire(s).body)).hit
  {
  }

  /** `Form_KeyDown`: Control fires (replacing any bullet), Up and Down move the ship. */
  function KeyDown(w: World, key: Key): (r: World)
    ensures key == ControlKey ==> r == w.(bullet := Some(Fire(w.ship)))
    ensures key == UpKey ==> r == w.(ship := Up(w.ship))
    ensures key == DownKey ==> r == w.(ship := Down(w.ship, w.field))
    ensures key == OtherKey ==> r == w
    ensures r.asteroids == w.asteroids && r.ship.energy == w.ship.energy
    ensures Valid(w) ==> Valid(r)
  {
    match key
    case ControlKey => w.(bullet := Some(Fire(w.ship)))
    case UpKey => w.(ship := Up(w.ship))
    case DownKey => w.(ship := Down(w.ship, w.field))
    case OtherKey => w
  }

  // ---------------------------------------------------------------------------
  // One tick
  // ---------------------------------------------------------------------------

  datatype Collider = BulletCollider | ShipCollider

  /** The notifications a tick raises. */
  datatype Event =
    | ObjectCollision(collider: Collider, slot: nat)  // the bullet or the ship reported hitting the asteroid in `slot`
    | AsteroidBlown(slot: nat)                  // the asteroid in `slot` finished exploding
    | ShipEnergyChanged(delta: int)
    | ShipDied

  /** The event is about asteroid slot `i`, or about no slot at all. */
  predicate Concerns(e: Event, i: nat) {
    match e
    case ObjectCollision(_, s) => s == i
    case AsteroidBlown(s) => s == i
    case _ => true
  }

  /** The event is about a slot below `k`, or about no slot at all. */
  predicate ConcernsBelow(e: Event, k: nat) {
    match e
    case ObjectCollision(_, s) => s < k
    case AsteroidBlown(s) => s < k
    case _ => true
  }

  /** The asteroid after its own update in this tick. */
  function Moved(a: Asteroid, field: Field): Asteroid {
    UpdateAsteroid(a, field).asteroid
  }

  /** The slot's asteroid was hit by the bullet this tick. */
  predicate Struck(before: Option<Asteroid>, after: Option<Asteroid>, field: Field) {
    before.Some? && after == Some(StartBlow(Moved(before.value, field)))
  }

  /**
    The bullet's rectangle overlaps the asteroid of `slot` after that
    asteroid's own update, and the update did not blow it up.
  */
  predicate InBulletPath(slot: Option<Asteroid>, bullet: Option<Bullet>, field: Field) {
    && slot.Some?
    && !Moved(slot.value, field).isBlow
    && bullet.Some?
    && Collision(bullet.value.body, AsteroidTarget(Moved(slot.value, field))).hit
  }

  /** The slot's asteroid survived, escaped the bullet and overlaps the ship. */
  predicate Rammed(before: Option<Asteroid>, after: Option<Asteroid>, ship: Body, field: Field) {
    && before.Some?
    && after == Some(Moved(before.value, field))
    && Collision(ship, AsteroidTarget(after.value)).hit
  }

  /**
    The only ways a slot changes in a tick: an empty slot stays empty; a live
    slot is emptied exactly when its asteroid's update blows it up; otherwise
    it holds the updated asteroid, hit by the bullet or not.
  */
  predicate SlotEvolved(before: Option<Asteroid>, after: Option<Asteroid>, field: Field) {
    && (before.None? ==> after.None?)
    && (before.Some? ==> (after.None? <==> Moved(before.value, field).isBlow))
    && (after.Some? ==>
         && before.Some?
         && (after.value == Moved(before.value, field) || after.value == StartBlow(Moved(before.value, field))))
  }

  /** The state the asteroid loop carries from one slot to the next. */
  datatype Sweep = Sweep(slot: Option<Asteroid>, bullet: Option<Bullet>, ship: Ship, events: seq<Event>)

  /**
    One iteration of the asteroid loop, for slot `i`: update the asteroid;
    empty the slot if it blew up; else, if the bullet hits it, drop the
    bullet and start the asteroid's explosion; else, if it overlaps the ship,
    take `damage` from the ship and report the ship's death when its energy
    is gone.
  */
  function StepSlot(i: nat, slot: Option<Asteroid>, bullet: Option<Bullet>, ship: Ship, field: Field, damage: int): (r: Sweep)
    requires 1 <= damage <= 9
    ensures SlotEvolved(slot, r.slot, field)
    ensures Struck(slot, r.slot, field) <==> bullet.Some? && r.bullet.None?
    ensures Struck(slot, r.slot, field) <==> InBulletPath(slot, bullet, field)
    ensures r.bullet.Some? ==> r.bullet == bullet
    ensures r.ship.body == ship.body
    ensures r.ship.energy == ship.energy - if Rammed(slot, r.slot, ship.body, field) then damage else 0
    ensures ShipDied in r.events <==> Rammed(slot, r.slot, ship.body, field) && r.ship.energy <= 0
    ensures ShipEnergyChanged(-damage) in r.events <==> Rammed(slot, r.slot, ship.body, field)
    ensures forall e :: e in r.events && e.ShipEnergyChanged? ==> e == ShipEnergyChanged(-damage)
    ensures AsteroidBlown(i) in r.events <==> slot.Some? && !slot.value.isBlow && r.slot.None?
    ensures forall e :: e in r.events ==> Concerns(e, i)
    ensures ObjectCollision(BulletCollider, i) in r.events <==>
      Struck(slot, r.slot, field) && Moved(slot.value, field).power != 0
    ensures ObjectCollision(ShipCollider, i) in r.events <==>
      Rammed(slot, r.slot, ship.body, field) && Moved(slot.value, field).power != 0
  {
    match slot
    case None => Sweep(None, bullet, ship, [])
    case Some(a0) =>
      var step := UpdateAsteroid(a0, field);
      var a := step.asteroid;
      if a.isBlow then
        Sweep(None, bullet, ship, if step.blew then [AsteroidBlown(i)] else [])
      else if bullet.Some? && Collision(bullet.value.body, AsteroidTarget(a)).hit then
        var hit := Collision(bullet.value.body, AsteroidTarget(a));
        Sweep(Some(StartBlow(a)), None, ship, if hit.reported then [ObjectCollision(BulletCollider, i)] else [])
      else
        RamSlot(i, a, bullet, ship, damage)
  }

  /**
    The ship check of slot `i`, for its updated asteroid `a` that survived
    and escaped the bullet: on an overlap the ship takes `damage` and its
    death is reported when its energy is gone; the slot and bullet stay.
  */
  function RamSlot(i: nat, a: Asteroid, bullet: Option<Bullet>, ship: Ship, damage: int): (r: Sweep)
    requires 1 <= damage <= 9
    ensures r.slot == Some(a) && r.bullet == bullet && r.ship.body == ship.body
    ensures var ram := Collision(ship.body, AsteroidTarget(a)).hit;
      r.ship.energy == ship.energy - if ram && !a.isBlow then damage else 0
    ensures ShipDied in r.events <==> Collision(ship.body, AsteroidTarget(a)).hit && r.ship.energy <= 0
    ensures ObjectCollision(ShipCollider, i) in r.events <==> Collision(ship.body, AsteroidTarget(a)).hit && a.power != 0
    ensures ShipEnergyChanged(-damage) in r.events <==> Collision(ship.body, AsteroidTarget(a)).hit && !a.isBlow
    ensures forall e :: e in r.events ==> e == ObjectCollision(ShipCollider, i) || e == ShipEnergyChanged(-damage) || e.ShipDied?
  {
    var ram := Collision(ship.body, AsteroidTarget(a));
    if !ram.hit then Sweep(Some(a), bullet, ship, [])
    else
      var low := if !a.isBlow then EnergyLow(ship, damage) else ShipStep(ship, false);
      var reported := if ram.reported then [ObjectCollision(ShipCollider, i)] else [];
      var changed := if low.notified then [ShipEnergyChanged(-damage)] else [];
      var died := if low.ship.energy <= 0 then [ShipDied] else [];
      Sweep(Some(a), bullet, low.ship, reported + changed + died)
  }

  /** How many slots of the prefix `after` were hit by the bullet. */
  function StruckCount(before: seq<Option<Asteroid>>, after: seq<Option<Asteroid>>, field: Field): nat
    requires |after| <= |before|
    decreases |after|
  {
    if |after| == 0 then 0
    else
      var k := |after| - 1;
      StruckCount(before, after[..k], field) + if Struck(before[k], after[k], field) then 1 else 0
  }

  /** No slot of the prefix `after` was hit exactly when the count of hit slots is zero. */
  lemma {:induction false} StruckCountZero(before: seq<Option<Asteroid>>, after: seq<Option<Asteroid>>, field: Field)
    requires |after| <= |before|
    ensures StruckCount(before, after, field) == 0 <==>
      forall j :: 0 <= j < |after| ==> !Struck(before[j], after[j], field)
    decreases |after|
  {
    if |after| > 0 {
      StruckCountZero(before, after[..|after| - 1], field);
    }
  }

  /** How many slots of the prefix `after` overlapped the ship. */
  function RamCount(before: seq<Option<Asteroid>>, after: seq<Option<Asteroid>>, ship: Body, field: Field): nat
    requires |after| <= |before|
    decreases |after|
  {
    if |after| == 0 then 0
    else
      var k := |after| - 1;
      RamCount(before, after[..k], ship, field) + if Rammed(before[k], after[k], ship, field) then 1 else 0
  }

  /** The energy the ship lost to the slots of the prefix `after`: between 1 and 9 per overlap. */
  function DamageTaken(before: seq<Option<Asteroid>>, after: seq<Option<Asteroid>>, ship: Body, field: Field, damages: seq<int>): (total: int)
    requires |after| <= |before| && |damages| == |before|
    requires forall i :: 0 <= i < |damages| ==> 1 <= damages[i] <= 9
    ensures RamCount(before, after, ship, field) <= total <= 9 * RamCount(before, after, ship, field)
    decreases |after|
  {
    if |after| == 0 then 0
    else
      var k := |after| - 1;
      DamageTaken(before, after[..k], ship, field, damages) + if Rammed(before[k], after[k], ship, field) then damages[k] else 0
  }

  /**
    The energy changes the overlaps of the prefix `after` can report: minus
    the damage drawn for each slot whose asteroid overlapped the ship, and
    nothing else.
  */
  function RamDeltas(before: seq<Option<Asteroid>>, after: seq<Option<Asteroid>>, ship: Body, field: Field, damages: seq<int>): set<int>
    requires |after| <= |before| && |damages| == |before|
  {
    set i | 0 <= i < |after| && Rammed(before[i], after[i], ship, field) :: -damages[i]
  }

  /** The random damages a tick's asteroid loop uses, one per slot, each from 1 to 9. */
  predicate DamagesFit(damages: seq<int>, slots: seq<Option<Asteroid>>) {
    && |damages| == |slots|
    && forall i :: 0 <= i < |damages| ==> 1 <= damages[i] <= 9
  }

  /**
    The bullet's part of the loop over the first |slots'| slots: it is hit at
    most once, disappears exactly when it is, and hits the first slot whose
    updated asteroid is live and lies in its path.
  */
  predicate BulletSwept(field: Field, slots: seq<Option<Asteroid>>, bullet: Option<Bullet>,
                        slots': seq<Option<Asteroid>>, bullet': Option<Bullet>)
    requires |slots'| <= |slots|
  {
    && StruckCount(slots, slots', field) == (if bullet.Some? && bullet'.None? then 1 else 0)
    && (bullet'.Some? ==> bullet' == bullet)
    && forall i :: 0 <= i < |slots'| ==>
         (Struck(slots[i], slots'[i], field) <==>
            && (forall j :: 0 <= j < i ==> !Struck(slots[j], slots'[j], field))
            && InBulletPath(slots[i], bullet, field))
  }

  /**
    The ship's part of the loop over the first |slots'| slots: it stays put,
    loses one damage per overlapping asteroid, each energy change it reports
    is the damage of an overlapping slot, and its death is reported after an
    overlap that leaves it without energy, and only then.
  */
  predicate ShipSwept(field: Field, slots: seq<Option<Asteroid>>, ship: Ship, damages: seq<int>,
                      slots': seq<Option<Asteroid>>, ship': Ship, events: seq<Event>)
    requires |slots'| <= |slots| && DamagesFit(damages, slots)
  {
    && ship'.body == ship.body
    && ship'.energy == ship.energy - DamageTaken(slots, slots', ship.body, field, damages)
    && (ShipDied in events ==> ship'.energy <= 0 && RamCount(slots, slots', ship.body, field) > 0)
    && (ship'.energy <= 0 && RamCount(slots, slots', ship.body, field) > 0 ==> ShipDied in events)
    && (forall e :: e in events && e.ShipEnergyChanged? ==>
          RamCount(slots, slots', ship.body, field) > 0 && -9 <= e.delta <= -1)
    && (forall i :: 0 <= i < |slots'| && Rammed(slots[i], slots'[i], ship.body, field) ==>
          ShipEnergyChanged(-damages[i]) in events)
    && (forall e :: e in events && e.ShipEnergyChanged? ==> e.delta in RamDeltas(slots, slots', ship.body, field, damages))
  }

  /**
    The slot events of the loop over the first |slots'| slots: each names a
    slot already visited; a slot is reported blown exactly when it was
    emptied, and as hit by the bullet or the ship exactly when that happened
    to an asteroid still carrying power.
  */
  predicate SlotEventsSwept(field: Field, slots: seq<Option<Asteroid>>, ship: Body,
                            slots': seq<Option<Asteroid>>, events: seq<Event>)
    requires |slots'| <= |slots|
  {
    && (forall e :: e in events ==> ConcernsBelow(e, |slots'|))
    && (forall i :: 0 <= i < |slots'| ==>
         (AsteroidBlown(i) in events <==> slots[i].Some? && !slots[i].value.isBlow && slots'[i].None?))
    && (forall i :: 0 <= i < |slots'| ==>
         (ObjectCollision(BulletCollider, i) in events <==>
            Struck(slots[i], slots'[i], field) && Moved(slots[i].value, field).power != 0))
    && (forall i :: 0 <= i < |slots'| ==>
         (ObjectCollision(ShipCollider, i) in events <==>
            Rammed(slots[i], slots'[i], ship, field) && Moved(slots[i].value, field).power != 0))
  }

  /** Visiting slot k keeps the bullet's part of the loop invariant. */
  lemma {:induction false} StepKeepsBulletSwept(field: Field, slots: seq<Option<Asteroid>>, bullet: Option<Bullet>,
                                                slots': seq<Option<Asteroid>>, bullet': Option<Bullet>,
                                                slot: Option<Asteroid>, bullet'': Option<Bullet>)
    requires |slots'| < |slots|
    requires BulletSwept(field, slots, bullet, slots', bullet')
    requires Struck(slots[|slots'|], slot, field) <==> bullet'.Some? && bullet''.None?
    requires Struck(slots[|slots'|], slot, field) <==> InBulletPath(slots[|slots'|], bullet', field)
    requires bullet''.Some? ==> bullet'' == bullet'
    ensures BulletSwept(field, slots, bullet, slots' + [slot], bullet'')
  {
    var k := |slots'|;
    var next := slots' + [slot];
    assert next[..k] == slots';
    StruckCountZero(slots, slots', field);
    forall i | 0 <= i <= k
      ensures (Struck(slots[i], next[i], field) <==>
                 && (forall j :: 0 <= j < i ==> !Struck(slots[j], next[j], field))
                 && InBulletPath(slots[i], bullet, field))
    {
      assert forall j :: 0 <= j < i ==> next[j] == slots'[j];
    }
  }


  /** Visiting slot k keeps the ship's part of the loop invariant. */
  lemma {:induction false} StepKeepsShipSwept(field: Field, slots: seq<Option<Asteroid>>, ship: Ship, damages: seq<int>,
                                              slots': seq<Option<Asteroid>>, bullet': Option<Bullet>, ship': Ship, events: seq<Event>)
    requires |slots'| < |slots| && DamagesFit(damages, slots)
    requires ShipSwept(field, slots, ship, damages, slots', ship', events)
    ensures var k := |slots'|;
      var step := StepSlot(k, slots[k], bullet', ship', field, damages[k]);
      ShipSwept(field, slots, ship, damages, slots' + [step.slot], step.ship, events + step.events)
  {
    var k := |slots'|;
    var step := StepSlot(k, slots[k], bullet', ship', field, damages[k]);
    var next := slots' + [step.slot];
    assert next[..k] == slots';
  }

  /** Visiting slot k keeps the slot events' part of the loop invariant. */
  lemma {:induction false} StepKeepsSlotEventsSwept(field: Field, slots: seq<Option<Asteroid>>, ship: Ship,
                                                    slots': seq<Option<Asteroid>>, bullet': Option<Bullet>, ship': Ship,
                                                    events: seq<Event>, damage: int)
    requires |slots'| < |slots| && 1 <= damage <= 9 && ship'.body == ship.body
    requires SlotEventsSwept(field, slots, ship.body, slots', events)
    ensures var k := |slots'|;
      var step := StepSlot(k, slots[k], bullet', ship', field, damage);
      SlotEventsSwept(field, slots, ship.body, slots' + [step.slot], events + step.events)
  {
    var k := |slots'|;
    var step := StepSlot(k, slots[k], bullet', ship', field, damage);
    assert forall e :: e in step.events ==> Concerns(e, k);
  }

  /**
    The loop invariant of `UpdateAsteroids` after visiting the first |slots'|
    slots: each visited slot evolved as one tick allows, and the bullet's,
    the ship's and the slot events' parts hold.
  */
  predicate Swept(field: Field, slots: seq<Option<Asteroid>>, bullet: Option<Bullet>, ship: Ship, damages: seq<int>,
                  slots': seq<Option<Asteroid>>, bullet': Option<Bullet>, ship': Ship, events: seq<Event>)
    requires DamagesFit(damages, slots)
  {
    && |slots'| <= |slots|
    && (forall i :: 0 <= i < |slots'| ==> SlotEvolved(slots[i], slots'[i], field))
    && BulletSwept(field, slots, bullet, slots', bullet')
    && ShipSwept(field, slots, ship, damages, slots', ship', events)
    && SlotEventsSwept(field, slots, ship.body, slots', events)
  }

  /** Visiting slot k keeps the whole loop invariant. */
  lemma StepKeepsSwept(field: Field, slots: seq<Option<Asteroid>>, bullet: Option<Bullet>, ship: Ship, damages: seq<int>,
                       slots': seq<Option<Asteroid>>, bullet': Option<Bullet>, ship': Ship, events: seq<Event>)
    requires DamagesFit(damages, slots) && |slots'| < |slots|
    requires Swept(field, slots, bullet, ship, damages, slots', bullet', ship', events)
    ensures var k := |slots'|;
      var step := StepSlot(k, slots[k], bullet', ship', field, damages[k]);
      Swept(field, slots, bullet, ship, damages, slots' + [step.slot], step.bullet, step.ship, events + step.events)
  {
    var k := |slots'|;
    var step := StepSlot(k, slots[k], bullet', ship', field, damages[k]);
    StepKeepsBulletSwept(field, slots, bullet, slots', bullet', step.slot, step.bullet);
    StepKeepsShipSwept(field, slots, ship, damages, slots', bullet', ship', events);
    StepKeepsSlotEventsSwept(field, slots, ship, slots', bullet', ship', events, damages[k]);
  }

  /**
    The asteroid loop of `Update`. The array keeps its length and slots only
    ever become empty; the bullet hits the first live asteroid in its path,
    if any, and disappears exactly then; the ship only loses energy, one
    damage per overlapping asteroid, reported as an energy change; its death
    is reported after an overlap that leaves it without energy; every event
    names a slot that produced it.
  */
  method UpdateAsteroids(field: Field, slots: seq<Option<Asteroid>>, bullet: Option<Bullet>, ship: Ship, damages: seq<int>)
    returns (slots': seq<Option<Asteroid>>, bullet': Option<Bullet>, ship': Ship, events: seq<Event>)
    requires DamagesFit(damages, slots)
    ensures |slots'| == |slots|
    ensures forall i :: 0 <= i < |slots| ==> SlotEvolved(slots[i], slots'[i], field)
    ensures StruckCount(slots, slots', field) == if bullet.Some? && bullet'.None? then 1 else 0
    ensures bullet'.Some? ==> bullet' == bullet
    ensures forall i :: 0 <= i < |slots| ==>
      (Struck(slots[i], slots'[i], field) <==>
         && (forall j :: 0 <= j < i ==> !Struck(slots[j], slots'[j], field))
         && InBulletPath(slots[i], bullet, field))
    ensures ship'.body == ship.body
    ensures ship'.energy == ship.energy - DamageTaken(slots, slots', ship.body, field, damages)
    ensures ShipDied in events ==> ship'.energy <= 0 && RamCount(slots, slots', ship.body, field) > 0
    ensures ship'.energy <= 0 && RamCount(slots, slots', ship.body, field) > 0 ==> ShipDied in events
    ensures forall e :: e in events && e.ShipEnergyChanged? ==>
      RamCount(slots, slots', ship.body, field) > 0 && -9 <= e.delta <= -1
    ensures forall i :: 0 <= i < |slots| && Rammed(slots[i], slots'[i], ship.body, field) ==>
      ShipEnergyChanged(-damages[i]) in events
    ensures forall e :: e in events && e.ShipEnergyChanged? ==> e.delta in RamDeltas(slots, slots', ship.body, field, damages)
    ensures forall e :: e in events ==> ConcernsBelow(e, |slots|)
    ensures forall i :: 0 <= i < |slots| ==>
      (AsteroidBlown(i) in events <==> slots[i].Some? && !slots[i].value.isBlow && slots'[i].None?)
    ensures forall i :: 0 <= i < |slots| ==>
      (ObjectCollision(BulletCollider, i) in events <==>
         Struck(slots[i], slots'[i], field) && Moved(slots[i].value, field).power != 0)
    ensures forall i :: 0 <= i < |slots| ==>
      (ObjectCollision(ShipCollider, i) in events <==>
         Rammed(slots[i], slots'[i], ship.body, field) && Moved(slots[i].value, field).power != 0)
  {
    slots', bullet', ship', events := [], bullet, ship, [];
    for k := 0 to |slots|
      invariant |slots'| == k
      invariant Swept(field, slots, bullet, ship, damages, slots', bullet', ship', events)
    {
      var step := StepSlot(k, slots[k], bullet', ship', field, damages[k]);
      StepKeepsSwept(field, slots, bullet, ship, damages, slots', bullet', ship', events);
      slots', bullet', ship', events := slots' + [step.slot], step.bullet, step.ship, events + step.events;
    }
  }

  /**
    The random values a tick uses: a restart height for each background
    object (only a UFO that leaves the field uses its own), the bullet's
    restart height, and one damage per asteroid slot.
  */
  datatype TickDraws = TickDraws(resetYs: seq<int>, bulletResetY: int, damages: seq<int>)

  predicate TickDrawsFit(w: World, d: TickDraws) {
    && |d.resetYs| == |w.scenery|
    && (forall i :: 0 <= i < |d.resetYs| ==> HeightDraw(d.resetYs[i], w.field.height))
    && HeightDraw(d.bulletResetY, w.field.height)
    && DamagesFit(d.damages, w.asteroids)
  }

  /** The bullet after its own update, before the asteroid loop. */
  function MovedBullet(w: World, resetY: int): Option<Bullet> {
    match w.bullet
    case None => None
    case Some(b) => Some(UpdateBullet(b, w.field, resetY))
  }

  /**
    `Update`: one tick. The background objects move, then the bullet, then
    the asteroid loop runs. It keeps the world's invariant.
  */
  method Update(w: World, d: TickDraws) returns (w': World, events: seq<Event>)
    requires TickDrawsFit(w, d)
    ensures w'.field == w.field
    ensures |w'.scenery| == |w.scenery|
    ensures forall i :: 0 <= i < |w.scenery| ==> w'.scenery[i] == UpdateScenery(w.scenery[i], w.field, d.resetYs[i])
    ensures |w'.asteroids| == |w.asteroids|
    ensures forall i :: 0 <= i < |w.asteroids| ==> SlotEvolved(w.asteroids[i], w'.asteroids[i], w.field)
    ensures StruckCount(w.asteroids, w'.asteroids, w.field) <= 1
    ensures forall i :: 0 <= i < |w.asteroids| ==>
      (Struck(w.asteroids[i], w'.asteroids[i], w.field) <==>
         && (forall j :: 0 <= j < i ==> !Struck(w.asteroids[j], w'.asteroids[j], w.field))
         && InBulletPath(w.asteroids[i], MovedBullet(w, d.bulletResetY), w.field))
    ensures w'.bullet == if StruckCount(w.asteroids, w'.asteroids, w.field) == 1 then None else MovedBullet(w, d.bulletResetY)
    ensures w'.ship.body == w.ship.body
    ensures w'.ship.energy == w.ship.energy - DamageTaken(w.asteroids, w'.asteroids, w.ship.body, w.field, d.damages)
    ensures w.ship.energy - 9 * |w.asteroids| <= w'.ship.energy <= w.ship.energy
    ensures ShipDied in events ==> w'.ship.energy <= 0 && RamCount(w.asteroids, w'.asteroids, w.ship.body, w.field) > 0
    ensures w'.ship.energy <= 0 && RamCount(w.asteroids, w'.asteroids, w.ship.body, w.field) > 0 ==> ShipDied in events
    ensures forall e :: e in events && e.ShipEnergyChanged? ==>
      RamCount(w.asteroids, w'.asteroids, w.ship.body, w.field) > 0 && -9 <= e.delta <= -1
    ensures forall i :: 0 <= i < |w.asteroids| && Rammed(w.asteroids[i], w'.asteroids[i], w.ship.body, w.field) ==>
      ShipEnergyChanged(-d.damages[i]) in events
    ensures forall e :: e in events && e.ShipEnergyChanged? ==>
      e.delta in RamDeltas(w.asteroids, w'.asteroids, w.ship.body, w.field, d.damages)
    ensures forall i :: 0 <= i < |w.asteroids| ==>
      (AsteroidBlown(i) in events <==>
         w.asteroids[i].Some? && !w.asteroids[i].value.isBlow && w'.asteroids[i].None?)
    ensures forall i :: 0 <= i < |w.asteroids| ==>
      (ObjectCollision(BulletCollider, i) in events <==>
         Struck(w.asteroids[i], w'.asteroids[i], w.field) && Moved(w.asteroids[i].value, w.field).power != 0)
    ensures forall i :: 0 <= i < |w.asteroids| ==>
      (ObjectCollision(ShipCollider, i) in events <==>
         Rammed(w.asteroids[i], w'.asteroids[i], w.ship.body, w.field) && Moved(w.asteroids[i].value, w.field).power != 0)
    ensures forall e :: e in events ==> ConcernsBelow(e, |w.asteroids|)
    ensures Valid(w) ==> Valid(w')
  {
    var scenery := seq(|w.scenery|, i requires 0 <= i < |w.scenery| => UpdateScenery(w.scenery[i], w.field, d.resetYs[i]));
    var bullet := MovedBullet(w, d.bulletResetY);
    var slots, bullet', ship', evs := UpdateAsteroids(w.field, w.asteroids, bullet, w.ship, d.damages);
    RamCountBounded(w.asteroids, slots, w.ship.body, w.field);
    w' := World(w.field, scenery, slots, bullet', ship');
    events := evs;
    if Valid(w) {
      forall i | 0 <= i < |slots| && slots[i].Some?
        ensures AsteroidOk(slots[i].value)
      {
        assert SlotEvolved(w.asteroids[i], slots[i], w.field);
        assert AsteroidOk(w.asteroids[i].value);
      }
    }
  }

  /** At most one overlap per slot. */
  lemma {:induction false} RamCountBounded(before: seq<Option<Asteroid>>, after: seq<Option<Asteroid>>, ship: Body, field: Field)
    requires |after| <= |before|
    ensures RamCount(before, after, ship, field) <= |after|
    decreases |after|
  {
    if |after| > 0 {
      RamCountBounded(before, after[..|after| - 1], ship, field);
    }
  }
}
