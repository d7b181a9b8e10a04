/**
  The asteroid's explosion over many ticks: the three-frame countdown after a
  hit, the "blown up" event raised at most once, and the counter overrun that
  a second hit in the last frame causes.
*/
module Explosion {
  import opened Objects

  /** An asteroid after several steps, and how many "blown up" events it raised. */
  datatype AsteroidRun = AsteroidRun(asteroid: Asteroid, blowEvents: nat)

  /** `n` calls of `Update` in a row. */
  function UpdateTimes(a: Asteroid, field: Field, n: nat): AsteroidRun
    decreases n
  {
    if n == 0 then AsteroidRun(a, 0)
    else
      var step := UpdateAsteroid(a, field);
      var rest := UpdateTimes(step.asteroid, field, n - 1);
      AsteroidRun(rest.asteroid, rest.blowEvents + if step.blew then 1 else 0)
  }

  /** Once blown, an asteroid's update changes nothing and raises nothing. */
  lemma {:induction false} BlownIsFinal(a: Asteroid, field: Field, n: nat)
    requires a.isBlow
    ensures UpdateTimes(a, field, n) == AsteroidRun(a, 0)
    decreases n
  {
    if n > 0 {
      BlownIsFinal(a, field, n - 1);
    }
  }

  /**
    A hit on an intact asteroid starts a countdown of exactly three updates:
    after the third it is blown, before it is not; it does not move meanwhile;
    and the "blown up" event is raised exactly once, on the third update.
  */
  lemma ExplosionTakesThreeUpdates(a: Asteroid, field: Field, n: nat)
    requires a.Alive()
    ensures var r := UpdateTimes(StartBlow(a), field, n);
      && (r.asteroid.isBlow <==> n >= 3)
      && r.asteroid.body == a.body
      && r.asteroid.power == 0
      && r.blowEvents == if n >= 3 then 1 else 0
  {
    var s := StartBlow(a);
    var s1 := UpdateAsteroid(s, field).asteroid;
    var s2 := UpdateAsteroid(s1, field).asteroid;
    var s3 := UpdateAsteroid(s2, field).asteroid;
    assert s1.blowCounter == 2 && s2.blowCounter == 3 && s3.isBlow;
    if n >= 3 {
      BlownIsFinal(s3, field, n - 3);
      assert UpdateTimes(s2, field, n - 2).asteroid == s3;
    }
  }

  /**
    A counter outside the three explosion frames never reaches the blowing
    frame by updates alone: from 0 the asteroid keeps moving, and from 4 on
    the counter climbs to 65535, wraps to 0 and the asteroid moves again.
  */
  lemma {:induction false} NoCountdownNeverBlows(a: Asteroid, field: Field, n: nat)
    requires !a.isBlow && !a.Exploding()
    ensures !UpdateTimes(a, field, n).asteroid.isBlow
    ensures UpdateTimes(a, field, n).blowEvents == 0
    ensures UpdateTimes(a, field, n).asteroid.power == a.power
    decreases n
  {
    if n > 0 {
      var next := UpdateAsteroid(a, field).asteroid;
      assert !next.isBlow && !next.Exploding();
      NoCountdownNeverBlows(next, field, n - 1);
    }
  }

  /**
    The counter overrun: a second hit while the last explosion frame shows
    pushes the counter from 3 to 4, and the asteroid then never blows up.
  */
  lemma HitInLastFrameNeverBlows(a: Asteroid, field: Field, n: nat)
    requires a.Exploding() && a.blowCounter == 3
    ensures StartBlow(a).blowCounter == 4
    ensures !UpdateTimes(StartBlow(a), field, n).asteroid.isBlow
    ensures UpdateTimes(StartBlow(a), field, n).blowEvents == 0
  {
    NoCountdownNeverBlows(StartBlow(a), field, n);
  }

  /**
    After the overrun the counter wraps: 65532 updates after a hit in the
    last frame, the asteroid is intact again, moving, and carries no power.
  */
  lemma OverrunWrapsToAlive(a: Asteroid, field: Field)
    requires a.Exploding() && a.blowCounter == 3
    ensures UpdateTimes(StartBlow(a), field, 0xFFFC).asteroid.Alive()
    ensures UpdateTimes(StartBlow(a), field, 0xFFFC).asteroid.power == 0
  {
    CountUpToWrap(StartBlow(a), field, 0xFFFC);
  }

  lemma {:induction false} CountUpToWrap(a: Asteroid, field: Field, n: nat)
    requires !a.isBlow && 4 <= a.blowCounter && a.blowCounter + n == 0x1_0000
    ensures UpdateTimes(a, field, n).asteroid == a.(blowCounter := 0)
    decreases n
  {
    if n > 1 {
      CountUpToWrap(UpdateAsteroid(a, field).asteroid, field, n - 1);
    }
  }

  /** What happens to an asteroid in one step: a tick of its own, or a hit. */
  datatype Action = Tick | Hit

  function Replay(a: Asteroid, field: Field, script: seq<Action>): AsteroidRun
    decreases |script|
  {
    if |script| == 0 then AsteroidRun(a, 0)
    else if script[0] == Hit then Replay(StartBlow(a), field, script[1..])
    else
      var step := UpdateAsteroid(a, field);
      var rest := Replay(step.asteroid, field, script[1..]);
      AsteroidRun(rest.asteroid, rest.blowEvents + if step.blew then 1 else 0)
  }

  /**
    Whatever the interleaving of ticks and hits, the "blown up" event is
    raised once exactly when the asteroid goes from intact to blown, and
    never otherwise.
  */
  lemma {:induction false} BlowEventExactlyOnce(a: Asteroid, field: Field, script: seq<Action>)
    ensures var r := Replay(a, field, script);
      r.blowEvents == if !a.isBlow && r.asteroid.isBlow then 1 else 0
    ensures a.isBlow ==> Replay(a, field, script).asteroid.isBlow
    decreases |script|
  {
    if |script| > 0 {
      if script[0] == Hit {
        BlowEventExactlyOnce(StartBlow(a), field, script[1..]);
      } else {
        BlowEventExactlyOnce(UpdateAsteroid(a, field).asteroid, field, script[1..]);
      }
    }
  }
}
