/** The component-based spear of test_4.py: a spear carries a list of
    components, and hitting a target runs each component's effect in order.
    A multiplying component adds copies of the spear to the arena's list of
    flying spears; an elemental component damages the target. */
module ComponentSpear {
  import opened Geometry

  const SCREEN_WIDTH: int := 800
  const SCREEN_HEIGHT: int := 600
  /** Pixels the player's spear moves per pressed arrow key. */
  const STEP: int := 5

  datatype Component =
    | Multiplying(multiplier: int)
    | Elemental(elementColor: Color, damage: int)

  /** What the player's spear is given at start-up. */
  const LOADOUT: seq<Component> := [Multiplying(3), Elemental(Red, 1)]

  /** Spears one component adds on a hit: `range(multiplier - 1)` is empty
      when the multiplier is below 2. */
  function Spawn(c: Component): (n: nat)
    ensures c.Multiplying? && c.multiplier >= 1 ==> n == c.multiplier - 1
    ensures c.Elemental? || c.multiplier <= 1 ==> n == 0
  {
    if c.Multiplying? && c.multiplier > 1 then c.multiplier - 1 else 0
  }

  /** Damage one component deals on a hit. */
  function Dealt(c: Component): (d: int)
    ensures c.Multiplying? ==> d == 0
    ensures c.Elemental? ==> d == c.damage
  {
    if c.Elemental? then c.damage else 0
  }

  /** Spears a whole component list adds on a hit, components taken in order. */
  function Spawned(cs: seq<Component>): (n: nat)
    ensures (forall k :: 0 <= k < |cs| ==> cs[k].Multiplying? && cs[k].multiplier >= 2) ==> n >= |cs|
  {
    if cs == [] then 0 else Spawned(cs[..|cs| - 1]) + Spawn(cs[|cs| - 1])
  }

  /** Damage a whole component list deals on a hit, components taken in order. */
  function Damage(cs: seq<Component>): (d: int)
    ensures (forall k :: 0 <= k < |cs| ==> Dealt(cs[k]) >= 0) ==> d >= 0
  {
    if cs == [] then 0 else Damage(cs[..|cs| - 1]) + Dealt(cs[|cs| - 1])
  }

  /** The effects of a list split in two add up: a hit with `a + b` spawns and
      damages as a hit with `a` followed by a hit with `b`. */
  lemma {:induction false} EffectsAdd(a: seq<Component>, b: seq<Component>)
    ensures Spawned(a + b) == Spawned(a) + Spawned(b)
    ensures Damage(a + b) == Damage(a) + Damage(b)
    decreases |b|
  {
    if b == [] {
      assert a + b == a;
    } else {
      var n := |b| - 1;
      assert (a + b)[..|a + b| - 1] == a + b[..n];
      EffectsAdd(a, b[..n]);
    }
  }

  /** Only multiplying components spawn and only elemental ones damage. */
  lemma {:induction false} EffectsOfKind(cs: seq<Component>)
    ensures (forall k :: 0 <= k < |cs| ==> cs[k].Elemental?) ==> Spawned(cs) == 0
    ensures (forall k :: 0 <= k < |cs| ==> cs[k].Multiplying?) ==> Damage(cs) == 0
  {
    if cs != [] {
      EffectsOfKind(cs[..|cs| - 1]);
    }
  }

  /** The start-up loadout spawns two copies and deals one damage per hit. */
  lemma LoadoutEffects()
    ensures Spawned(LOADOUT) == 2 && Damage(LOADOUT) == 1
  {
    assert LOADOUT[..1] == [Multiplying(3)];
    assert LOADOUT[..1][..0] == [];
  }

  class Enemy {
    const x: int
    const y: int
    var hp: int

    constructor (x0: int, y0: int)
      ensures x == x0 && y == y0 && hp == 3
    {
      x, y, hp := x0, y0, 3;
    }

    /** `take_damage`: no clamp, so hp can drop below zero. */
    method TakeDamage(damage: int)
      modifies this`hp
      ensures hp == old(hp) - damage
    {
      hp := hp - damage;
    }
  }

  class Spear {
    var x: int
    var y: int
    var components: seq<Component>

    constructor (x0: int, y0: int)
      ensures x == x0 && y == y0 && components == []
    {
      x, y, components := x0, y0, [];
    }

    /** `add_component` appends exactly one component at the end. */
    method AddComponent(c: Component)
      modifies this`components
      ensures components == old(components) + [c]
    {
      components := components + [c];
    }

    /** `update` asks every component for an `update` that neither component
        kind has: the first component raises, so the call fails exactly when
        the list is not empty, and it changes nothing. */
    method Update() returns (fails: bool)
      ensures fails <==> components != []
    {
      fails := components != [];
    }

    /** `on_hit`: every component acts in insertion order. The target loses
        the summed elemental damage, the arena keeps its spears and gains,
        at the end, one fresh copy of this spear (same position, own copy of
        the component list) per spawn a multiplying component grants. */
    method OnHit(target: Enemy, arena: Arena)
      modifies target`hp, arena`spears
      ensures target.hp == old(target.hp) - Damage(components)
      ensures |arena.spears| == |old(arena.spears)| + Spawned(components)
      ensures arena.spears[..|old(arena.spears)|] == old(arena.spears)
      ensures forall i :: |old(arena.spears)| <= i < |arena.spears| ==>
        fresh(arena.spears[i]) && arena.spears[i].Copies(this)
      ensures Distinct(arena.spears[|old(arena.spears)|..])
    {
      ghost var n0 := |arena.spears|;
      var i := 0;
      while i < |components|
        invariant 0 <= i <= |components|
        invariant target.hp == old(target.hp) - Damage(components[..i])
        invariant |arena.spears| == n0 + Spawned(components[..i])
        invariant arena.spears[..n0] == old(arena.spears)
        invariant forall k :: n0 <= k < |arena.spears| ==>
          fresh(arena.spears[k]) && arena.spears[k].Copies(this)
        invariant Distinct(arena.spears[n0..])
      {
        assert components[..i + 1][..i] == components[..i];
        if components[i].Multiplying? {
          Multiply(components[i].multiplier, this, arena);
        } else {
          target.TakeDamage(components[i].damage);
        }
        i := i + 1;
      }
      assert components[..i] == components;
    }

    /** Same position and component list as `other`. */
    predicate Copies(other: Spear)
      reads this, other
    {
      x == other.x && y == other.y && components == other.components
    }
  }

  /** `MultiplyingSpear.on_hit`: appends `multiplier - 1` fresh spears (none
      when that is not positive) at the hitting spear's position, each with
      its own copy of the component list; the spears already in the list
      stay where they are. */
  method Multiply(multiplier: int, spear: Spear, arena: Arena)
    modifies arena`spears
    ensures |arena.spears| == |old(arena.spears)| + Spawn(Multiplying(multiplier))
    ensures arena.spears[..|old(arena.spears)|] == old(arena.spears)
    ensures forall i :: |old(arena.spears)| <= i < |arena.spears| ==>
      fresh(arena.spears[i]) && arena.spears[i].Copies(spear)
    ensures Distinct(arena.spears[|old(arena.spears)|..])
  {
    ghost var n0 := |arena.spears|;
    var k := 0;
    while k < multiplier - 1
      invariant 0 <= k && (k == 0 || k <= multiplier - 1)
      invariant |arena.spears| == n0 + k
      invariant arena.spears[..n0] == old(arena.spears)
      invariant forall i :: n0 <= i < |arena.spears| ==>
        fresh(arena.spears[i]) && arena.spears[i].Copies(spear)
      invariant Distinct(arena.spears[n0..])
    {
      var s := new Spear(spear.x, spear.y);
      s.components := spear.components;
      arena.spears := arena.spears + [s];
      k := k + 1;
    }
  }

  /** Arrow keys held this frame. */
  datatype Keys = Keys(left: bool, right: bool, up: bool, down: bool)

  /** The module-level state of the script: the player's spear and the list
      of flying spears. */
  class Arena {
    const player: Spear
    var spears: seq<Spear>

    /** No flying spear carries a component. */
    ghost predicate Plain()
      reads this, spears
    {
      forall i :: 0 <= i < |spears| ==> spears[i].components == []
    }

    /** No flying spears; the player's spear at the bottom centre with the
        start-up loadout. */
    constructor ()
      ensures spears == [] && Plain()
      ensures player.x == SCREEN_WIDTH / 2 && player.y == SCREEN_HEIGHT - 50
      ensures player.components == LOADOUT
      ensures fresh(player)
    {
      var p := new Spear(SCREEN_WIDTH / 2, SCREEN_HEIGHT - 50);
      p.AddComponent(Multiplying(3));
      p.AddComponent(Elemental(Red, 1));
      player := p;
      spears := [];
    }

    /** Each held arrow key moves the player's spear by five pixels; opposite
        keys cancel. */
    method Steer(keys: Keys)
      modifies player`x, player`y
      ensures player.x == old(player.x) + (if keys.right then STEP else 0) - (if keys.left then STEP else 0)
      ensures player.y == old(player.y) + (if keys.down then STEP else 0) - (if keys.up then STEP else 0)
    {
      if keys.left {
        player.x := player.x - STEP;
      }
      if keys.right {
        player.x := player.x + STEP;
      }
      if keys.up {
        player.y := player.y - STEP;
      }
      if keys.down {
        player.y := player.y + STEP;
      }
    }

    /** The space key: a fresh component-less spear joins the list at the
        player's position, then every flying spear is updated. Updating
        fails exactly when some flying spear carries a component, so a plain
        arena stays plain and never fails. */
    method Fire() returns (fails: bool)
      modifies this`spears
      ensures |spears| == |old(spears)| + 1 && spears[..|old(spears)|] == old(spears)
      ensures fresh(spears[|spears| - 1])
      ensures spears[|spears| - 1].x == player.x && spears[|spears| - 1].y == player.y
      ensures spears[|spears| - 1].components == []
      ensures fails <==> exists i :: 0 <= i < |spears| && spears[i].components != []
      ensures old(Plain()) ==> Plain() && !fails
    {
      var s := new Spear(player.x, player.y);
      spears := spears + [s];
      var i := 0;
      while i < |spears|
        invariant spears == old(spears) + [s]
        invariant s.x == player.x && s.y == player.y && s.components == []
        invariant 0 <= i <= |spears|
        invariant forall k :: 0 <= k < i ==> spears[k].components == []
      {
        fails := spears[i].Update();
        if fails {
          return;
        }
        i := i + 1;
      }
      fails := false;
    }
  }

  /** A component-less spear's hit changes nothing: the target keeps its hp
      and the arena its spears. */
  method PlainHit(spear: Spear, target: Enemy, arena: Arena)
    requires spear.components == []
    modifies target`hp, arena`spears
    ensures target.hp == old(target.hp) && arena.spears == old(arena.spears)
  {
    spear.OnHit(target, arena);
  }
}
