/** The target of the root prototype (Enemie.py): a circle that a thrown
    spear hits once. The reach is the target radius plus half the spear's
    length; a hit marks the target, recolours it and destroys the spear. */
module OneShotEnemy {
  import opened Geometry
  import RootSettings
  import SpearLifecycle

  class Enemie {
    const x: real
    const y: real
    const radius: int
    var hit: bool
    var color: Color

    constructor (x0: real, y0: real)
      ensures x == x0 && y == y0 && radius == RootSettings.DUMMY_RADIUS
      ensures !hit && color == Crimson
    {
      x, y := x0, y0;
      radius := RootSettings.DUMMY_RADIUS;
      color := Crimson;
      hit := false;
    }

    /** The guard of `check_collision`: not hit yet, and a thrown spear that
        is not yet destroyed. */
    predicate CanBeHitBy(spear: SpearLifecycle.Spear)
      reads this, spear
    {
      !hit && spear.thrown && !spear.destroyed
    }

    /** Distance between centres at most radius + length / 2. */
    predicate InReach(spear: SpearLifecycle.Spear)
      reads spear
    {
      WithinReach(x - spear.x, y - spear.y, radius as real + spear.length / 2.0)
    }

    /** Reports a hit exactly when the guard passes and the spear is within
        reach; a hit marks the target, destroys the spear and turns the target
        blue. Otherwise nothing changes. */
    method CheckCollision(spear: SpearLifecycle.Spear) returns (r: bool)
      modifies this`hit, this`color, spear`destroyed
      ensures r <==> old(CanBeHitBy(spear)) && InReach(spear)
      ensures r ==> hit && color == Blue && spear.destroyed
      ensures !r ==> unchanged(this) && unchanged(spear)
    {
      if !hit && spear.thrown && !spear.destroyed {
        var dx := x - spear.x;
        var dy := y - spear.y;
        if WithinReach(dx, dy, radius as real + spear.length / 2.0) {
          hit := true;
          spear.Destroy();
          color := Blue;
          return true;
        }
      }
      return false;
    }
  }

  /** A hit target is spent: a second call on it reports no hit and changes
      nothing, whatever spear it is given. */
  method SecondCallMisses(e: Enemie, first: SpearLifecycle.Spear, second: SpearLifecycle.Spear)
    returns (r1: bool, r2: bool)
    modifies e`hit, e`color, first`destroyed, second`destroyed
    ensures r1 ==> !r2
    ensures r1 ==> e.hit && first.destroyed
  {
    r1 := e.CheckCollision(first);
    r2 := e.CheckCollision(second);
  }
}
