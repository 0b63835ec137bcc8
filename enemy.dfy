/** The hit-point target of the application (app/Enemie.py): a circle with
    hit points that a thrown spear reaches when the distance between centres
    is at most the target radius plus half the spear's length. */
module HitPointEnemy {
  import opened Geometry
  import opened AppSettings
  import SpearLifecycle

  /** Hit points left after a hit of the given damage: the difference,
      clamped so that it never goes below zero. */
  function HpAfterHit(hp: int, damage: int): (r: int)
    ensures r >= 0
    ensures r == 0 <==> hp - damage <= 0
    ensures r != 0 ==> r == hp - damage
  {
    if hp - damage <= 0 then 0 else hp - damage
  }

  /** Length-based reach: target radius plus half the spear's length. */
  function Reach(radius: int, spearLength: real): real
  {
    radius as real + spearLength / 2.0
  }

  /** The part of a target that a hit changes. */
  datatype Foe = Foe(hp: int, killed: bool, color: Color)

  /** A hit of the given damage on a live target: the hit points drop,
      clamped at 0, and a target left with none dies and turns grey. */
  function Struck(f: Foe, damage: int): (r: Foe)
    ensures r.hp >= 0 && (damage >= 0 && f.hp >= 0 ==> r.hp <= f.hp)
    ensures r.killed <==> f.killed || r.hp == 0
    ensures r.color == (if r.hp == 0 then Grey else f.color)
  {
    var hp := HpAfterHit(f.hp, damage);
    if hp == 0 then Foe(0, true, Grey) else f.(hp := hp)
  }

  /** The distance test of `check_collision` for a spear in state s. The
      position and radius of a target never change. */
  predicate Reaches(e: Enemie, s: SpearLifecycle.SpearState)
    ensures Reaches(e, s) ==> Abs(e.x as real - s.x) <= Reach(e.radius, s.length)
    ensures Reaches(e, s) ==> Abs(e.y as real - s.y) <= Reach(e.radius, s.length)
  {
    ReachBoundsAxes(e.x as real - s.x, e.y as real - s.y, Reach(e.radius, s.length));
    WithinReach(e.x as real - s.x, e.y as real - s.y, Reach(e.radius, s.length))
  }

  class Enemie {
    const x: int
    const y: int
    const radius: int
    var hp: int
    var killed: bool
    var color: Color

    /** `killed` holds exactly when no hit points are left. */
    ghost predicate Valid()
      reads this
    {
      hp >= 0 && (killed <==> hp == 0)
    }

    function State(): Foe
      reads this
    {
      Foe(hp, killed, color)
    }

    constructor (x0: int, y0: int, hp0: int)
      ensures x == x0 && y == y0 && hp == hp0 && radius == DUMMY_RADIUS
      ensures !killed && color == Crimson
      ensures hp0 > 0 ==> Valid()
    {
      x, y, hp := x0, y0, hp0;
      radius := DUMMY_RADIUS;
      color := Crimson;
      killed := false;
    }

    /** The guard of `check_collision`: a live target and a thrown spear that
        is not yet destroyed. */
    predicate CanBeHitBy(spear: SpearLifecycle.Spear)
      reads this, spear
    {
      !killed && spear.thrown && !spear.destroyed
    }

    predicate InReach(spear: SpearLifecycle.Spear)
      reads spear
    {
      Reaches(this, spear.State())
    }

    /** A hit takes the spear's charge value off the hit points (clamped at
        0), kills the target when none are left, and destroys the spear,
        whether or not the target died. Otherwise nothing changes. */
    method CheckCollision(spear: SpearLifecycle.Spear) returns (hit: bool)
      modifies this`hp, this`killed, this`color, spear`destroyed
      ensures hit <==> old(CanBeHitBy(spear)) && InReach(spear)
      ensures !hit ==> unchanged(this) && unchanged(spear)
      ensures hit ==> && hp == HpAfterHit(old(hp), spear.chargeValue)
                      && killed == (hp == 0)
                      && color == (if killed then Grey else old(color))
                      && spear.destroyed
      ensures hit ==> State() == Struck(old(State()), spear.chargeValue)
      ensures old(Valid()) ==> Valid()
      ensures old(killed) ==> killed && hp == old(hp)
    {
      if !killed && spear.thrown && !spear.destroyed {
        if WithinReach(x as real - spear.x, y as real - spear.y, radius as real + spear.length / 2.0) {
          hp := hp - spear.chargeValue;
          spear.Destroy();
          if hp <= 0 {
            hp := 0;
            killed := true;
            color := Grey;
          }
          return true;
        }
      }
      return false;
    }
  }

  /** The two worked cases of the damage rule: 30 hit points take 40 damage
      and die; 80 hit points take 40 and keep 40. */
  lemma DamageScenarios()
    ensures HpAfterHit(30, 40) == 0
    ensures HpAfterHit(80, 40) == 40
  {
  }
}
