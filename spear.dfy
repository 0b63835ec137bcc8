/** The spear of the application (Spear.py): a projectile that charges while
    the mouse button is held, is thrown with an impulse, slows down by a fixed
    factor per tick until it settles at its charged speed, and is destroyed
    when it hits. Time enters as the clock reading `now`; the aim angle
    enters as its direction (cos, sin). */
module SpearLifecycle {
  import opened Geometry
  import opened AppSettings
  import Avatar

  datatype Velocity = Velocity(vx: real, vy: real)

  // ---------------------------------------------------------------------
  // Charging: what elapsed charge time e turns into.

  /** Speed after charging for e seconds: proportional to e, clamped to
      [1, SPEAR_MAX_SPEED]. */
  function ChargedSpeed(e: real): (speed: real)
    ensures 1.0 <= speed <= SPEAR_MAX_SPEED
    ensures e >= CHARGE_TIME ==> speed == SPEAR_MAX_SPEED
    ensures e <= CHARGE_TIME / SPEAR_MAX_SPEED ==> speed == 1.0
  {
    Min(SPEAR_MAX_SPEED, Max(1.0, SPEAR_MAX_SPEED * (e / CHARGE_TIME)))
  }

  /** The spear stretches with the charge and is never clamped. */
  function ChargedLength(e: real): (length: real)
    ensures e >= 0.0 ==> length >= SPEAR_HEIGHT
    ensures e >= CHARGE_TIME ==> length >= 4.0 * SPEAR_HEIGHT
  {
    SPEAR_HEIGHT + SPEAR_HEIGHT * 3.0 * (e / CHARGE_TIME)
  }

  /** Damage the spear will deal: the truncated percentage of the charge
      time, capped at CHARGE_VALUE_MAX. */
  function ChargeValue(e: real): (v: int)
    ensures v <= CHARGE_VALUE_MAX
    ensures e >= 0.0 ==> 0 <= v
    ensures e >= CHARGE_TIME ==> v == CHARGE_VALUE_MAX
    ensures 0.0 <= e < CHARGE_TIME ==> v as real <= 100.0 * e / CHARGE_TIME < v as real + 1.0
  {
    MinInt(CHARGE_VALUE_MAX, Trunc(100.0 * (e / CHARGE_TIME)))
  }

  /** Holding the charge longer never lowers speed, length or damage. */
  lemma ChargeMonotone(e1: real, e2: real)
    requires e1 <= e2
    ensures ChargedSpeed(e1) <= ChargedSpeed(e2)
    ensures ChargedLength(e1) <= ChargedLength(e2)
    ensures ChargeValue(e1) <= ChargeValue(e2)
  {
    TruncMonotone(100.0 * (e1 / CHARGE_TIME), 100.0 * (e2 / CHARGE_TIME));
  }

  // ---------------------------------------------------------------------
  // Flight: the velocity rule applied once per tick.

  /** Velocity given by `throw`: the impulse speed along the aim. */
  function ThrowVelocity(h: Heading, speed: real): (r: Velocity)
    ensures r.vx * h.s + r.vy * h.c == 0.0
    ensures r.vx * h.c - r.vy * h.s == speed * SPEAR_IMPULSE
  {
    var m := speed * SPEAR_IMPULSE;
    assert (h.c * m) * h.c + (h.s * m) * h.s == (h.c * h.c + h.s * h.s) * m;
    Velocity(h.c * (speed * SPEAR_IMPULSE), -h.s * (speed * SPEAR_IMPULSE))
  }

  /** The steady velocity the spear snaps to (screen y points down). */
  function Steady(h: Heading, speed: real): Velocity
  {
    Velocity(h.c * speed, -h.s * speed)
  }

  function MaxAbs(v: Velocity): real { Max(Abs(v.vx), Abs(v.vy)) }

  /** A component is still faster than the charged speed. */
  predicate Decaying(v: Velocity, speed: real)
  {
    Abs(v.vx) > speed || Abs(v.vy) > speed
  }

  /** One tick of the velocity rule of `update`: scale by 0.9 while decaying,
      otherwise snap to the steady velocity. */
  function NextVelocity(v: Velocity, speed: real, h: Heading): (r: Velocity)
    ensures speed >= 0.0 && Decaying(v, speed) ==> MaxAbs(r) < MaxAbs(v)
    ensures speed >= 0.0 && !Decaying(v, speed) ==> !Decaying(r, speed)
  {
    DecayShrinks(v, speed);
    SteadySettled(h, speed);
    if Decaying(v, speed) then Velocity(v.vx * 0.9, v.vy * 0.9) else Steady(h, speed)
  }

  /** Scaling by 0.9 lowers the larger component of a velocity that is still
      decaying towards a non-negative speed. */
  lemma DecayShrinks(v: Velocity, speed: real)
    ensures speed >= 0.0 && Decaying(v, speed) ==> MaxAbs(Velocity(v.vx * 0.9, v.vy * 0.9)) < MaxAbs(v)
  {
    assert Abs(v.vx * 0.9) == 0.9 * Abs(v.vx);
    assert Abs(v.vy * 0.9) == 0.9 * Abs(v.vy);
  }

  /** The steady velocity has no component faster than its speed. */
  lemma SteadySettled(h: Heading, speed: real)
    ensures speed >= 0.0 ==> !Decaying(Steady(h, speed), speed)
  {
    if speed >= 0.0 {
      HeadingBounds(h);
      AbsScaleBound(h.c, speed);
      AbsScaleBound(-h.s, speed);
    }
  }

  /** The velocity after n ticks of flight. */
  function VelocityAfter(v: Velocity, speed: real, h: Heading, n: nat): Velocity
    decreases n
  {
    if n == 0 then v else VelocityAfter(NextVelocity(v, speed, h), speed, h, n - 1)
  }

  /** The thrown spear's speed is the charged speed times the impulse. */
  lemma ThrowMagnitude(h: Heading, speed: real)
    ensures var v := ThrowVelocity(h, speed);
      v.vx * v.vx + v.vy * v.vy == (speed * SPEAR_IMPULSE) * (speed * SPEAR_IMPULSE)
  {
    ScaledHeadingLength(h, speed * SPEAR_IMPULSE);
  }

  /** The steady velocity has magnitude `speed` and is a fixed point of the
      velocity rule. */
  lemma SteadyIsFixedPoint(h: Heading, speed: real)
    requires speed >= 0.0
    ensures var v := Steady(h, speed); v.vx * v.vx + v.vy * v.vy == speed * speed
    ensures NextVelocity(Steady(h, speed), speed, h) == Steady(h, speed)
  {
    ScaledHeadingLength(h, speed);
    HeadingBounds(h);
    AbsScaleBound(h.c, speed);
    AbsScaleBound(-h.s, speed);
  }

  lemma AbsScaleBound(c: real, k: real)
    requires -1.0 <= c <= 1.0 && k >= 0.0
    ensures Abs(c * k) <= k
  {
    if c >= 0.0 {
      assert c * k <= 1.0 * k;
    } else {
      assert -(c * k) == (-c) * k <= 1.0 * k;
    }
  }

  lemma {:induction false} SteadyPersists(h: Heading, speed: real, n: nat)
    requires speed >= 0.0
    ensures VelocityAfter(Steady(h, speed), speed, h, n) == Steady(h, speed)
  {
    if n > 0 {
      SteadyIsFixedPoint(h, speed);
      SteadyPersists(h, speed, n - 1);
    }
  }

  function Pow09(n: nat): (p: real)
    ensures p > 0.0
  {
    if n == 0 then 1.0 else 0.9 * Pow09(n - 1)
  }

  /** 0.9^n * (1 + n/9) <= 1, so 0.9^n falls below any positive bound. */
  lemma {:induction false} PowBound(n: nat)
    ensures Pow09(n) * (1.0 + n as real / 9.0) <= 1.0
  {
    if n > 0 {
      PowBound(n - 1);
      var p := Pow09(n - 1);
      var x := (n - 1) as real / 9.0;
      var a := p * (1.0 + x);
      assert a <= 1.0;
      assert p * x >= 0.0;
      assert n as real / 9.0 == x + 1.0 / 9.0;
      assert Pow09(n) == 0.9 * p;
      assert 0.9 * p * (1.0 + x + 1.0 / 9.0) == 0.9 * a + 0.1 * p;
    }
  }

  lemma MaxAbsScale(v: Velocity)
    ensures MaxAbs(Velocity(v.vx * 0.9, v.vy * 0.9)) == 0.9 * MaxAbs(v)
  {
  }

  /** If 0.9^n times the largest component is within the speed, the spear
      flies at its steady velocity from tick n + 1 on. */
  lemma {:induction false} ReachesSteady(v: Velocity, speed: real, h: Heading, n: nat)
    requires speed >= 0.0
    requires Pow09(n) * MaxAbs(v) <= speed
    ensures VelocityAfter(v, speed, h, n + 1) == Steady(h, speed)
    decreases n
  {
    var w := NextVelocity(v, speed, h);
    if Decaying(v, speed) {
      DecayStep(v, speed, n);
      ReachesSteady(w, speed, h, n - 1);
    } else {
      SteadyPersists(h, speed, n);
    }
  }

  /** A decaying tick keeps the bound of ReachesSteady with one tick less. */
  lemma DecayStep(v: Velocity, speed: real, n: nat)
    requires speed >= 0.0 && Decaying(v, speed)
    requires Pow09(n) * MaxAbs(v) <= speed
    ensures n > 0 && Pow09(n - 1) * MaxAbs(Velocity(v.vx * 0.9, v.vy * 0.9)) <= speed
  {
    assert MaxAbs(v) > speed;
    assert n > 0;
    MaxAbsScale(v);
    var p := Pow09(n - 1);
    assert Pow09(n) == 0.9 * p;
    assert p * (0.9 * MaxAbs(v)) == (0.9 * p) * MaxAbs(v);
  }

  /** Number of ticks after which the decay phase is certainly over. */
  function DecayBound(v: Velocity, speed: real): nat
    requires speed > 0.0
  {
    var q := 9.0 * MaxAbs(v) / speed;
    assert q >= 0.0;
    q.Floor + 1
  }

  /** DecayBound(v, speed) exceeds 9 * MaxAbs(v) / speed. */
  lemma BoundExceedsRatio(v: Velocity, speed: real)
    requires speed > 0.0
    ensures (1.0 + DecayBound(v, speed) as real / 9.0) * speed > MaxAbs(v)
  {
    var n := DecayBound(v, speed);
    var m := MaxAbs(v);
    var k := 1.0 + n as real / 9.0;
    var r := m / speed;
    assert r * speed == m;
    var q := 9.0 * m / speed;
    assert n == q.Floor + 1;
    assert q == 9.0 * r;
    assert n as real > 9.0 * r;
    assert k - r > 0.0;
    PositiveProduct(k - r, speed);
    assert k * speed - r * speed == (k - r) * speed;
    assert k * speed > m;
  }

  lemma PositiveProduct(a: real, b: real)
    requires a > 0.0 && b > 0.0
    ensures a * b > 0.0
  {
  }

  /** p * m <= speed whenever m < k * speed and p * k <= 1. */
  lemma ScaledBelow(p: real, k: real, m: real, speed: real)
    requires p > 0.0 && speed > 0.0 && k * speed > m && p * k <= 1.0
    ensures p * m <= speed
  {
    assert p * m <= p * (k * speed);
    assert p * (k * speed) == (p * k) * speed;
    assert speed - (p * k) * speed == (1.0 - p * k) * speed >= 0.0;
  }

  /** With a positive charged speed (Spear.Valid keeps it at least 1) the
      decay phase ends after finitely many ticks: from DecayBound + 1 ticks on
      the spear flies at its steady velocity. */
  lemma DecayEnds(v: Velocity, speed: real, h: Heading)
    requires speed > 0.0
    ensures VelocityAfter(v, speed, h, DecayBound(v, speed) + 1) == Steady(h, speed)
  {
    var n := DecayBound(v, speed);
    PowBound(n);
    BoundExceedsRatio(v, speed);
    ScaledBelow(Pow09(n), 1.0 + n as real / 9.0, MaxAbs(v), speed);
    ReachesSteady(v, speed, h, n);
  }

  // ---------------------------------------------------------------------
  // One tick of a spear, on values.

  /** Every field of a spear. */
  datatype SpearState = SpearState(
    x: real, y: real, heading: Heading, speed: real, vx: real, vy: real, thrown: bool,
    chargeStart: Option<real>, length: real, chargeValue: int, destroyed: bool)

  /** `throw`: the impulse velocity along the aim. */
  function Launch(s: SpearState): (r: SpearState)
    ensures r.thrown && Velocity(r.vx, r.vy) == ThrowVelocity(s.heading, s.speed)
    ensures r.(vx := s.vx, vy := s.vy, thrown := s.thrown) == s
  {
    var v := ThrowVelocity(s.heading, s.speed);
    s.(vx := v.vx, vy := v.vy, thrown := true)
  }

  /** `charge`: with a running clock, speed, length and damage follow the
      elapsed time, and a full charge throws. */
  function Charged(s: SpearState, now: real): (r: SpearState)
    ensures r.x == s.x && r.y == s.y && r.heading == s.heading && r.chargeStart == s.chargeStart && r.destroyed == s.destroyed
    ensures s.chargeStart.None? || s.chargeStart.value == 0.0 ==> r == s
    ensures s.chargeStart.Some? && s.chargeStart.value != 0.0 ==>
      var e := now - s.chargeStart.value;
      && r.speed == ChargedSpeed(e) && r.chargeValue == ChargeValue(e)
      && (r.thrown <==> s.thrown || e >= CHARGE_TIME)
  {
    if s.chargeStart.None? || s.chargeStart.value == 0.0 then s
    else
      var e := now - s.chargeStart.value;
      var c := s.(speed := ChargedSpeed(e), length := ChargedLength(e), chargeValue := ChargeValue(e));
      if e >= CHARGE_TIME then Launch(c) else c
  }

  /** `update`: a thrown, intact spear takes the velocity rule and an Euler
      step; any other spear stays as it is. */
  function Flown(s: SpearState): (r: SpearState)
    ensures !(s.thrown && !s.destroyed) ==> r == s
    ensures r.(x := s.x, y := s.y, vx := s.vx, vy := s.vy) == s
    ensures s.thrown && !s.destroyed ==> r.x - s.x == r.vx && r.y - s.y == r.vy
  {
    if s.thrown && !s.destroyed then
      var v := NextVelocity(Velocity(s.vx, s.vy), s.speed, s.heading);
      s.(vx := v.vx, vy := v.vy, x := s.x + v.vx, y := s.y + v.vy)
    else s
  }

  /** The spear's share of one tick of the encounter loop: a spear not yet
      thrown turns to `aim` and charges, then every spear flies. Once thrown,
      a spear keeps its aim, charge and damage; `destroyed` and the clock are
      never touched. Without a running clock an unthrown spear only turns;
      with one, speed, length and damage follow the elapsed time and the
      spear is thrown exactly at full charge. A spear that is still unthrown
      stays put; one thrown this tick leaves with the impulse velocity and
      takes its first flight step at once; an intact flying spear takes one
      step of the velocity rule; a destroyed one stays as it is. */
  function Tick(s: SpearState, now: real, aim: Heading): (r: SpearState)
    ensures r.destroyed == s.destroyed && r.chargeStart == s.chargeStart
    ensures s.thrown ==>
      && r.thrown && r.heading == s.heading && r.speed == s.speed
      && r.length == s.length && r.chargeValue == s.chargeValue
    ensures !s.thrown ==> r.heading == aim
    ensures s.speed >= 1.0 ==> r.speed >= 1.0
    ensures !s.thrown && (s.chargeStart.None? || s.chargeStart.value == 0.0) ==> r == s.(heading := aim)
    ensures !s.thrown && s.chargeStart.Some? && s.chargeStart.value != 0.0 ==>
      var e := now - s.chargeStart.value;
      && r.speed == ChargedSpeed(e) && r.length == ChargedLength(e) && r.chargeValue == ChargeValue(e)
      && (r.thrown <==> e >= CHARGE_TIME)
    ensures !r.thrown ==> r.x == s.x && r.y == s.y && r.vx == s.vx && r.vy == s.vy
    ensures !s.thrown && r.thrown && !s.destroyed ==>
      && Velocity(r.vx, r.vy) == NextVelocity(ThrowVelocity(aim, r.speed), r.speed, aim)
      && r.x == s.x + r.vx && r.y == s.y + r.vy
    ensures s.thrown && !s.destroyed ==>
      && Velocity(r.vx, r.vy) == NextVelocity(Velocity(s.vx, s.vy), s.speed, s.heading)
      && r.x == s.x + r.vx && r.y == s.y + r.vy
    ensures s.thrown && s.destroyed ==> r == s
  {
    Flown(if s.thrown then s else Charged(s.(heading := aim), now))
  }

  /** n ticks of flight. */
  function FlownFor(s: SpearState, n: nat): SpearState
    decreases n
  {
    if n == 0 then s else FlownFor(Flown(s), n - 1)
  }

  /** n ticks of flight move the velocity by n steps of the velocity rule
      and change nothing but velocity and position. */
  lemma {:induction false} FlightFollowsRule(s: SpearState, n: nat)
    requires s.thrown && !s.destroyed
    ensures var t := FlownFor(s, n);
      && Velocity(t.vx, t.vy) == VelocityAfter(Velocity(s.vx, s.vy), s.speed, s.heading, n)
      && t.(x := s.x, y := s.y, vx := s.vx, vy := s.vy) == s
    decreases n
  {
    if n > 0 {
      FlightFollowsRule(Flown(s), n - 1);
    }
  }

  /** A thrown, intact spear with a positive speed flies at its steady
      velocity after DecayBound + 1 ticks. */
  lemma SpearSettles(s: SpearState)
    requires s.thrown && !s.destroyed && s.speed > 0.0
    ensures var v := Velocity(s.vx, s.vy); var t := FlownFor(s, DecayBound(v, s.speed) + 1);
      Velocity(t.vx, t.vy) == Steady(s.heading, s.speed)
  {
    var v := Velocity(s.vx, s.vy);
    FlightFollowsRule(s, DecayBound(v, s.speed) + 1);
    DecayEnds(v, s.speed, s.heading);
  }

  // ---------------------------------------------------------------------
  // The spear object.

  class Spear {
    var x: real
    var y: real
    var heading: Heading
    var speed: real
    var vx: real
    var vy: real
    var thrown: bool
    var chargeStart: Option<real>
    var length: real
    var chargeValue: int
    var destroyed: bool

    /** The charged speed never drops below 1. */
    ghost predicate Valid()
      reads this
    {
      speed >= 1.0
    }

    /** `if self.charge_start_time:` — a start time is set and is not 0.0
        (Python treats 0.0 as false). */
    predicate ClockRunning()
      reads this
    {
      chargeStart.Some? && chargeStart.value != 0.0
    }

    /** All fields, as a value. */
    function State(): SpearState
      reads this
    {
      SpearState(x, y, heading, speed, vx, vy, thrown, chargeStart, length, chargeValue, destroyed)
    }

    /** A new spear sits 30 pixels right of and above the avatar, aims along
        `aim` and has not started charging. */
    constructor (character: Avatar.Character, aim: Heading)
      ensures Valid()
      ensures x == character.x + 30.0 && y == character.y - 30.0 && heading == aim
      ensures speed == 10.0 && vx == 0.0 && vy == 0.0 && length == SPEAR_HEIGHT
      ensures !thrown && !destroyed && chargeStart == None && chargeValue == 0
    {
      x := character.x + 30.0;
      y := character.y - 30.0;
      heading := aim;
      speed := 10.0;
      vx, vy := 0.0, 0.0;
      thrown := false;
      chargeStart := None;
      length := SPEAR_HEIGHT;
      chargeValue := 0;
      destroyed := false;
    }

    method StartCharging(now: real)
      modifies this`chargeStart
      ensures chargeStart == Some(now)
    {
      chargeStart := Some(now);
    }

    /** `follow_cursor`: the aim is recomputed from the cursor. */
    method Aim(aim: Heading)
      modifies this`heading
      ensures heading == aim
      ensures State() == old(State()).(heading := aim)
    {
      heading := aim;
    }

    /** Recomputes speed, length and damage from the elapsed time and throws
        at full charge; without a running clock nothing changes. */
    method Charge(now: real)
      requires Valid()
      modifies this`speed, this`length, this`chargeValue, this`vx, this`vy, this`thrown
      ensures Valid()
      ensures State() == Charged(old(State()), now)
      ensures !old(ClockRunning()) ==> unchanged(this)
      ensures old(ClockRunning()) ==>
        var e := now - chargeStart.value;
        && speed == ChargedSpeed(e) && length == ChargedLength(e) && chargeValue == ChargeValue(e)
        && (e >= CHARGE_TIME ==> thrown && Velocity(vx, vy) == ThrowVelocity(heading, speed))
        && (e < CHARGE_TIME ==> thrown == old(thrown) && vx == old(vx) && vy == old(vy))
    {
      if ClockRunning() {
        var e := now - chargeStart.value;
        speed := Min(SPEAR_MAX_SPEED, Max(1.0, SPEAR_MAX_SPEED * (e / CHARGE_TIME)));
        length := SPEAR_HEIGHT + SPEAR_HEIGHT * 3.0 * (e / CHARGE_TIME);
        chargeValue := MinInt(CHARGE_VALUE_MAX, Trunc(100.0 * (e / CHARGE_TIME)));
        if e >= CHARGE_TIME {
          Throw();
        }
      }
    }

    /** Launches along the aim with the impulse speed; speed is kept. */
    method Throw()
      modifies this`vx, this`vy, this`thrown
      ensures thrown && Velocity(vx, vy) == ThrowVelocity(heading, speed)
      ensures State() == Launch(old(State()))
    {
      var initialSpeed := speed * SPEAR_IMPULSE;
      vx := heading.c * initialSpeed;
      vy := -heading.s * initialSpeed;
      thrown := true;
    }

    /** One tick of flight: the velocity rule, then an Euler step of the
        position. Does nothing unless thrown and not destroyed. */
    method Update()
      modifies this`vx, this`vy, this`x, this`y
      ensures old(thrown && !destroyed) ==>
        && Velocity(vx, vy) == NextVelocity(old(Velocity(vx, vy)), speed, heading)
        && x == old(x) + vx && y == old(y) + vy
      ensures !old(thrown && !destroyed) ==> unchanged(this)
      ensures State() == Flown(old(State()))
    {
      if thrown && !destroyed {
        if Abs(vx) > speed || Abs(vy) > speed {
          var deceleration := 0.1;
          vx := vx * (1.0 - deceleration);
          vy := vy * (1.0 - deceleration);
          assert Velocity(vx, vy) == Velocity(old(vx) * 0.9, old(vy) * 0.9);
        } else {
          vx := heading.c * speed;
          vy := -heading.s * speed;
          assert Velocity(vx, vy) == Steady(heading, speed);
        }
        x := x + vx;
        y := y + vy;
      }
    }

    /** Marks the spear destroyed; from then on Update leaves it in place. */
    method Destroy()
      modifies this`destroyed
      ensures destroyed
    {
      destroyed := true;
    }
  }

  /** The full-charge scenario: a spear held for the whole charge time has
      speed 60 and damage 100, throws itself at 60 * 4.5 = 270 pixels per
      tick, and settles at 60 pixels per tick after finitely many ticks. */
  lemma FullChargeFlight(e: real, h: Heading)
    requires e >= CHARGE_TIME
    ensures ChargedSpeed(e) == 60.0 && ChargeValue(e) == 100
    ensures var v := ThrowVelocity(h, 60.0); v.vx * v.vx + v.vy * v.vy == 270.0 * 270.0
    ensures var v := ThrowVelocity(h, 60.0);
      VelocityAfter(v, 60.0, h, DecayBound(v, 60.0) + 1) == Steady(h, 60.0)
  {
    ThrowMagnitude(h, 60.0);
    DecayEnds(ThrowVelocity(h, 60.0), 60.0, h);
  }
}
