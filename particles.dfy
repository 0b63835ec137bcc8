/** The particle pool of test_1.py: a fixed number of slots held in parallel
    arrays (position, velocity, colour, alive flag, lifetime). `emit` revives
    the first dead slot; `update` moves, ages and fades the live slots and
    kills those whose lifetime ran out. The random draws are inputs. */
module ParticlePool {
  import opened Geometry

  datatype Vec2 = Vec2(x: real, y: real)
  datatype Rgba = Rgba(r: real, g: real, b: real, a: real)

  /** The colour of a freshly emitted particle. */
  const EMBER: Rgba := Rgba(1.0, 0.5, 0.0, 1.0)

  /** `velocity + (np.random.rand(2) - 0.5) * 0.02` for the draw r. */
  function Jitter(v: Vec2, r: Vec2): (w: Vec2)
    requires 0.0 <= r.x < 1.0 && 0.0 <= r.y < 1.0
    ensures -0.01 <= w.x - v.x < 0.01 && -0.01 <= w.y - v.y < 0.01
  {
    Vec2(v.x + (r.x - 0.5) * 0.02, v.y + (r.y - 0.5) * 0.02)
  }

  /** An Euler step of one particle. */
  function Step(p: Vec2, v: Vec2, dt: real): (r: Vec2)
    ensures r.x - p.x == v.x * dt && r.y - p.y == v.y * dt
    ensures v == Vec2(0.0, 0.0) || dt == 0.0 ==> r == p
  {
    Vec2(p.x + v.x * dt, p.y + v.y * dt)
  }

  /** The lowest index whose flag is false, if any. */
  function FirstDead(alive: seq<bool>): (r: Option<nat>)
    ensures r.Some? ==> r.value < |alive| && !alive[r.value]
    ensures r.Some? ==> forall k :: 0 <= k < r.value ==> alive[k]
    ensures r.None? ==> forall k :: 0 <= k < |alive| ==> alive[k]
  {
    if alive == [] then None
    else if !alive[0] then Some(0)
    else match FirstDead(alive[1..])
      case None => None
      case Some(i) => Some(i + 1)
  }

  /** Clearing flags never raises the count. */
  lemma {:induction false} CountTrueShrinks(after: seq<bool>, before: seq<bool>)
    requires |after| == |before|
    requires forall k :: 0 <= k < |after| && after[k] ==> before[k]
    ensures CountTrue(after) <= CountTrue(before)
  {
    if after != [] {
      var n := |after| - 1;
      CountTrueShrinks(after[..n], before[..n]);
    }
  }

  class ParticleSystem {
    const maxParticles: nat
    const particles: array<Vec2>
    const velocities: array<Vec2>
    const colors: array<Rgba>
    const alive: array<bool>
    const lifetimes: array<real>

    /** Every array has one entry per slot, the two vector arrays are
        separate, and a slot is alive exactly when its lifetime is
        positive. */
    ghost predicate Valid()
      reads this, alive, lifetimes
    {
      && particles.Length == maxParticles && velocities.Length == maxParticles
      && colors.Length == maxParticles && alive.Length == maxParticles
      && lifetimes.Length == maxParticles
      && particles != velocities
      && forall i :: 0 <= i < maxParticles ==> (alive[i] <==> lifetimes[i] > 0.0)
    }

    function LiveCount(): nat
      reads this, alive
    {
      CountTrue(alive[..])
    }

    /** Zero positions and velocities, white colours, every slot dead with
        lifetime 0. */
    constructor (n: nat)
      ensures Valid() && maxParticles == n
      ensures forall i :: 0 <= i < n ==>
        && particles[i] == Vec2(0.0, 0.0) && velocities[i] == Vec2(0.0, 0.0)
        && colors[i] == Rgba(1.0, 1.0, 1.0, 1.0) && !alive[i] && lifetimes[i] == 0.0
      ensures LiveCount() == 0
      ensures fresh(particles) && fresh(velocities) && fresh(colors) && fresh(alive) && fresh(lifetimes)
    {
      maxParticles := n;
      particles := new Vec2[n](_ => Vec2(0.0, 0.0));
      velocities := new Vec2[n](_ => Vec2(0.0, 0.0));
      colors := new Rgba[n](_ => Rgba(1.0, 1.0, 1.0, 1.0));
      alive := new bool[n](_ => false);
      lifetimes := new real[n](_ => 0.0);
      new;
      CountTrueNone(alive[..]);
    }

    /** `emit`: the first dead slot, if any, takes the position, the jittered
        velocity, the ember colour, the drawn lifetime and comes alive; no
        other slot changes, and a full pool does not change at all. */
    method Emit(position: Vec2, velocity: Vec2, r: Vec2, life: real)
      requires Valid()
      requires 0.0 <= r.x < 1.0 && 0.0 <= r.y < 1.0 && 0.5 <= life <= 1.5
      modifies particles, velocities, colors, alive, lifetimes
      ensures Valid()
      ensures FirstDead(old(alive[..])).None? ==>
        && particles[..] == old(particles[..]) && velocities[..] == old(velocities[..])
        && colors[..] == old(colors[..]) && alive[..] == old(alive[..]) && lifetimes[..] == old(lifetimes[..])
      ensures FirstDead(old(alive[..])).Some? ==>
        var k := FirstDead(old(alive[..])).value;
        && particles[..] == old(particles[..])[k := position]
        && velocities[..] == old(velocities[..])[k := Jitter(velocity, r)]
        && colors[..] == old(colors[..])[k := EMBER]
        && alive[..] == old(alive[..])[k := true]
        && lifetimes[..] == old(lifetimes[..])[k := life]
      ensures LiveCount() == old(LiveCount()) + (if FirstDead(old(alive[..])).Some? then 1 else 0)
      ensures LiveCount() <= maxParticles
    {
      ghost var first := FirstDead(alive[..]);
      var i := 0;
      while i < maxParticles
        invariant 0 <= i <= maxParticles
        invariant forall k :: 0 <= k < i ==> alive[k]
        invariant alive[..] == old(alive[..]) && lifetimes[..] == old(lifetimes[..])
        invariant particles[..] == old(particles[..]) && velocities[..] == old(velocities[..])
        invariant colors[..] == old(colors[..])
      {
        if !alive[i] {
          particles[i] := position;
          velocities[i] := Jitter(velocity, r);
          colors[i] := EMBER;
          alive[i] := true;
          lifetimes[i] := life;
          assert first == Some(i) by {
            FirstDeadAt(old(alive[..]), i);
          }
          CountTrueSet(old(alive[..]), i, true);
          assert alive[..] == old(alive[..])[i := true];
          return;
        }
        i := i + 1;
      }
      assert first.None?;
    }

    /** `update`: each live slot moves by its velocity times dt, loses dt of
        lifetime and takes that lifetime as its alpha; then every slot whose
        lifetime is not positive is dead. Dead slots keep position,
        lifetime and colour, velocities never change, and no slot comes
        alive. */
    method Update(dt: real)
      requires Valid()
      modifies particles, colors, alive, lifetimes
      ensures Valid()
      ensures velocities[..] == old(velocities[..])
      ensures forall i :: 0 <= i < maxParticles && old(alive[i]) ==>
        && particles[i] == Step(old(particles[i]), velocities[i], dt)
        && lifetimes[i] == old(lifetimes[i]) - dt
        && colors[i] == old(colors[i]).(a := lifetimes[i])
      ensures forall i :: 0 <= i < maxParticles && !old(alive[i]) ==>
        particles[i] == old(particles[i]) && lifetimes[i] == old(lifetimes[i]) && colors[i] == old(colors[i])
      ensures forall i :: 0 <= i < maxParticles ==> (alive[i] <==> old(alive[i]) && lifetimes[i] > 0.0)
      ensures LiveCount() <= old(LiveCount())
    {
      forall i | 0 <= i < maxParticles && alive[i] {
        particles[i] := Step(particles[i], velocities[i], dt);
      }
      forall i | 0 <= i < maxParticles && alive[i] {
        lifetimes[i] := lifetimes[i] - dt;
      }
      forall i | 0 <= i < maxParticles && alive[i] {
        colors[i] := colors[i].(a := lifetimes[i]);
      }
      forall i | 0 <= i < maxParticles && lifetimes[i] <= 0.0 {
        alive[i] := false;
      }
      CountTrueShrinks(alive[..], old(alive[..]));
    }
  }

  /** An index with a false flag and only true flags before it is the one
      FirstDead finds. */
  lemma {:induction false} FirstDeadAt(alive: seq<bool>, i: nat)
    requires i < |alive| && !alive[i]
    requires forall k :: 0 <= k < i ==> alive[k]
    ensures FirstDead(alive) == Some(i)
  {
    if i > 0 {
      FirstDeadAt(alive[1..], i - 1);
    }
  }
}
