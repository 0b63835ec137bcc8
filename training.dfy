/** The single-spear training range of test_3.py: one avatar in the middle of
    the screen, a wave of one-shot dummies and at most one spear, created on
    a left-button press, thrown on release or at full charge, and dropped when
    it hits a dummy or leaves the screen. Constants come from the root
    settings.py; clock readings, the aim and the random spawn points are
    inputs. */
module TrainingRange {
  import opened Geometry
  import opened RootSettings
  import SpearLifecycle
  import RootAvatar
  import AppSettings

  // ---------------------------------------------------------------------
  // Charging and throwing.

  /** `throw` launches at four times the charged speed. */
  const THROW_FACTOR: real := 4.0

  /** Speed after charging for e seconds: proportional to e and capped at
      SPEAR_MAX_SPEED, with no lower clamp. */
  function ChargedSpeed(e: real): (speed: real)
    ensures speed <= SPEAR_MAX_SPEED
    ensures e >= CHARGE_TIME ==> speed == SPEAR_MAX_SPEED
    ensures 0.0 <= e <= CHARGE_TIME ==> speed * CHARGE_TIME == SPEAR_MAX_SPEED * e
    ensures e > 0.0 ==> speed > 0.0
    ensures e <= 0.0 ==> speed <= 0.0
  {
    Min(SPEAR_MAX_SPEED, SPEAR_MAX_SPEED * (e / CHARGE_TIME))
  }

  /** Holding longer never lowers the speed. */
  lemma ChargedSpeedMonotone(e1: real, e2: real)
    requires e1 <= e2
    ensures ChargedSpeed(e1) <= ChargedSpeed(e2)
  {
    assert e1 / CHARGE_TIME <= e2 / CHARGE_TIME;
  }

  /** Velocity given by `throw`: four times the speed along the aim. */
  function ThrowVelocity(h: Heading, speed: real): (v: SpearLifecycle.Velocity)
    ensures v.vx * v.vx + v.vy * v.vy == (THROW_FACTOR * speed) * (THROW_FACTOR * speed)
  {
    ScaledHeadingLength(h, speed * THROW_FACTOR);
    SpearLifecycle.Velocity(h.c * (speed * THROW_FACTOR), -h.s * (speed * THROW_FACTOR))
  }

  /** A full charge gives the capped speed 50 and damage 100. */
  lemma FullCharge(e: real)
    requires e >= CHARGE_TIME
    ensures ChargedSpeed(e) == 50.0 && SpearLifecycle.ChargeValue(e) == 100
  {
    assert CHARGE_TIME == AppSettings.CHARGE_TIME;
  }

  /** A fully charged spear, launched at 200 pixels per tick (the
      magnitude ThrowVelocity states), reaches its steady speed of 50 after
      finitely many ticks of the shared velocity rule. */
  lemma FullChargeFlight(h: Heading)
    ensures var v := ThrowVelocity(h, 50.0);
      SpearLifecycle.VelocityAfter(v, 50.0, h, SpearLifecycle.DecayBound(v, 50.0) + 1)
        == SpearLifecycle.Steady(h, 50.0)
  {
    SpearLifecycle.DecayEnds(ThrowVelocity(h, 50.0), 50.0, h);
  }

  /** A spear thrown before any charge keeps its initial speed 0: it leaves
      with velocity (0, 0) and the velocity rule keeps it there, so it never
      moves again. */
  lemma {:induction false} StandingThrow(h: Heading, n: nat)
    ensures ThrowVelocity(h, 0.0) == SpearLifecycle.Velocity(0.0, 0.0)
    ensures SpearLifecycle.VelocityAfter(ThrowVelocity(h, 0.0), 0.0, h, n) == SpearLifecycle.Velocity(0.0, 0.0)
  {
    assert SpearLifecycle.Steady(h, 0.0) == SpearLifecycle.Velocity(0.0, 0.0);
    SpearLifecycle.SteadyPersists(h, 0.0, n);
  }

  /** `throw` on a spear in state s: four times its speed along its aim. */
  function Launch(s: SpearLifecycle.SpearState): (r: SpearLifecycle.SpearState)
    ensures r.thrown && SpearLifecycle.Velocity(r.vx, r.vy) == ThrowVelocity(s.heading, s.speed)
    ensures r.(vx := s.vx, vy := s.vy, thrown := s.thrown) == s
  {
    var v := ThrowVelocity(s.heading, s.speed);
    s.(vx := v.vx, vy := v.vy, thrown := true)
  }

  /** `charge`: with a running clock, speed, length and damage follow the
      elapsed time, and a full charge throws. */
  function Charged(s: SpearLifecycle.SpearState, now: real): (r: SpearLifecycle.SpearState)
    ensures r.x == s.x && r.y == s.y && r.heading == s.heading && r.chargeStart == s.chargeStart && r.destroyed == s.destroyed
    ensures s.chargeStart.None? || s.chargeStart.value == 0.0 ==> r == s
    ensures s.chargeStart.Some? && s.chargeStart.value != 0.0 ==>
      var e := now - s.chargeStart.value;
      && r.speed == ChargedSpeed(e) && r.chargeValue == SpearLifecycle.ChargeValue(e)
      && (r.thrown <==> s.thrown || e >= CHARGE_TIME)
  {
    if s.chargeStart.None? || s.chargeStart.value == 0.0 then s
    else
      var e := now - s.chargeStart.value;
      var c := s.(speed := ChargedSpeed(e), length := SpearLifecycle.ChargedLength(e),
                  chargeValue := SpearLifecycle.ChargeValue(e));
      if e >= CHARGE_TIME then Launch(c) else c
  }

  /** The spear's share of one frame of the range: a spear not yet thrown
      turns to `aim` and charges, then it flies one tick under the shared
      velocity rule. Once thrown, a spear keeps its aim, charge and damage;
      `destroyed` and the clock are never touched. Without a running clock
      an unthrown spear only turns; with one, speed, length and damage
      follow the elapsed time and the spear is thrown exactly at full
      charge. A spear still unthrown stays put; one thrown this frame leaves
      at four times its speed and takes its first flight step at once; an
      intact flying spear takes one step of the velocity rule. */
  function Tick(s: SpearLifecycle.SpearState, now: real, aim: Heading): (r: SpearLifecycle.SpearState)
    ensures r.destroyed == s.destroyed && r.chargeStart == s.chargeStart
    ensures s.thrown ==>
      && r.thrown && r.heading == s.heading && r.speed == s.speed
      && r.length == s.length && r.chargeValue == s.chargeValue
    ensures !s.thrown ==> r.heading == aim
    ensures !s.thrown && (s.chargeStart.None? || s.chargeStart.value == 0.0) ==> r == s.(heading := aim)
    ensures !s.thrown && s.chargeStart.Some? && s.chargeStart.value != 0.0 ==>
      var e := now - s.chargeStart.value;
      && r.speed == ChargedSpeed(e) && r.length == SpearLifecycle.ChargedLength(e)
      && r.chargeValue == SpearLifecycle.ChargeValue(e)
      && (r.thrown <==> e >= CHARGE_TIME)
    ensures !r.thrown ==> r.x == s.x && r.y == s.y && r.vx == s.vx && r.vy == s.vy
    ensures !s.thrown && r.thrown && !s.destroyed ==>
      && SpearLifecycle.Velocity(r.vx, r.vy) == SpearLifecycle.NextVelocity(ThrowVelocity(aim, r.speed), r.speed, aim)
      && r.x == s.x + r.vx && r.y == s.y + r.vy
    ensures s.thrown && !s.destroyed ==>
      && SpearLifecycle.Velocity(r.vx, r.vy) == SpearLifecycle.NextVelocity(SpearLifecycle.Velocity(s.vx, s.vy), s.speed, s.heading)
      && r.x == s.x + r.vx && r.y == s.y + r.vy
    ensures s.thrown && s.destroyed ==> r == s
  {
    SpearLifecycle.Flown(if s.thrown then s else Charged(s.(heading := aim), now))
  }

  // ---------------------------------------------------------------------
  // The spear of test_3.py.

  class Spear {
    var x: real
    var y: real
    var heading: Heading
    var speed: real
    var vx: real
    var vy: real
    var thrown: bool
    var chargeStart: Option<real>
    var length: real
    var chargeValue: int
    var destroyed: bool

    /** A new spear sits 30 pixels right of and above the avatar, at angle 0,
        with speed 0. */
    constructor (character: RootAvatar.Character)
      ensures x == character.x + 30.0 && y == character.y - 30.0 && heading == Dir(1.0, 0.0)
      ensures speed == 0.0 && vx == 0.0 && vy == 0.0 && length == SPEAR_HEIGHT
      ensures !thrown && !destroyed && chargeStart == None && chargeValue == 0
    {
      x := character.x + 30.0;
      y := character.y - 30.0;
      heading := Dir(1.0, 0.0);
      speed := 0.0;
      vx, vy := 0.0, 0.0;
      thrown := false;
      chargeStart := None;
      length := SPEAR_HEIGHT;
      chargeValue := 0;
      destroyed := false;
    }

    /** `if self.charge_start_time:` — a start time that is not 0.0. */
    predicate ClockRunning()
      reads this
    {
      chargeStart.Some? && chargeStart.value != 0.0
    }

    /** The spear's fields as one value. */
    function State(): SpearLifecycle.SpearState
      reads this
    {
      SpearLifecycle.SpearState(x, y, heading, speed, vx, vy, thrown, chargeStart, length, chargeValue, destroyed)
    }

    /** Thrown and outside [0, W] x [0, H]. */
    predicate Lost()
      reads this
    {
      thrown && (y > SCREEN_HEIGHT as real || x > SCREEN_WIDTH as real || y < 0.0 || x < 0.0)
    }

    method StartCharging(now: real)
      modifies this`chargeStart
      ensures chargeStart == Some(now)
    {
      chargeStart := Some(now);
    }

    /** `follow_cursor`: the aim is recomputed from the cursor. */
    method Aim(aim: Heading)
      modifies this`heading
      ensures heading == aim
      ensures State() == old(State()).(heading := aim)
    {
      heading := aim;
    }

    /** Recomputes speed, length and damage from the elapsed time and throws
        at full charge; without a running clock nothing changes. */
    method Charge(now: real)
      modifies this`speed, this`length, this`chargeValue, this`vx, this`vy, this`thrown
      ensures !old(ClockRunning()) ==> unchanged(this)
      ensures old(ClockRunning()) ==>
        var e := now - chargeStart.value;
        && speed == ChargedSpeed(e) && length == SpearLifecycle.ChargedLength(e)
        && chargeValue == SpearLifecycle.ChargeValue(e)
        && (e >= CHARGE_TIME ==> thrown && SpearLifecycle.Velocity(vx, vy) == ThrowVelocity(heading, speed))
        && (e < CHARGE_TIME ==> thrown == old(thrown) && vx == old(vx) && vy == old(vy))
      ensures State() == Charged(old(State()), now)
    {
      if ClockRunning() {
        var e := now - chargeStart.value;
        speed := Min(SPEAR_MAX_SPEED, SPEAR_MAX_SPEED * (e / CHARGE_TIME));
        length := SPEAR_HEIGHT + SPEAR_HEIGHT * 3.0 * (e / CHARGE_TIME);
        chargeValue := MinInt(CHARGE_VALUE_MAX, Trunc(100.0 * (e / CHARGE_TIME)));
        if e >= CHARGE_TIME {
          Throw();
        }
      }
    }

    /** Launches along the aim at four times the speed; speed is kept. */
    method Throw()
      modifies this`vx, this`vy, this`thrown
      ensures thrown && SpearLifecycle.Velocity(vx, vy) == ThrowVelocity(heading, speed)
      ensures State() == Launch(old(State()))
    {
      var initialSpeed := speed * 4.0;
      vx := heading.c * initialSpeed;
      vy := -heading.s * initialSpeed;
      thrown := true;
    }

    /** One tick of flight under the same velocity rule as the application's
        spear, then an Euler step. Does nothing unless thrown and intact. */
    method Update()
      modifies this`vx, this`vy, this`x, this`y
      ensures old(thrown && !destroyed) ==>
        && SpearLifecycle.Velocity(vx, vy) == SpearLifecycle.NextVelocity(old(SpearLifecycle.Velocity(vx, vy)), speed, heading)
        && x == old(x) + vx && y == old(y) + vy
      ensures !old(thrown && !destroyed) ==> unchanged(this)
      ensures State() == SpearLifecycle.Flown(old(State()))
    {
      if thrown && !destroyed {
        if Abs(vx) > speed || Abs(vy) > speed {
          var deceleration := 0.1;
          vx := vx * (1.0 - deceleration);
          vy := vy * (1.0 - deceleration);
          assert SpearLifecycle.Velocity(vx, vy) == SpearLifecycle.Velocity(old(vx) * 0.9, old(vy) * 0.9);
        } else {
          vx := heading.c * speed;
          vy := -heading.s * speed;
          assert SpearLifecycle.Velocity(vx, vy) == SpearLifecycle.Steady(heading, speed);
        }
        x := x + vx;
        y := y + vy;
      }
    }

    method Destroy()
      modifies this`destroyed
      ensures destroyed
    {
      destroyed := true;
    }
  }

  // ---------------------------------------------------------------------
  // The dummies.

  /** A one-shot target whose reach grows with the spear's speed. */
  /** The distance test of a dummy's `check_collision` for a spear in state
      s: reach is the spear's speed plus the dummy's radius. */
  predicate Reaches(d: Dummy, s: SpearLifecycle.SpearState)
    ensures Reaches(d, s) ==> Abs(d.x as real - s.x) <= s.speed + d.radius as real
    ensures Reaches(d, s) ==> Abs(d.y as real - s.y) <= s.speed + d.radius as real
  {
    ReachBoundsAxes(d.x as real - s.x, d.y as real - s.y, s.speed + d.radius as real);
    WithinReach(d.x as real - s.x, d.y as real - s.y, s.speed + d.radius as real)
  }

  class Dummy {
    const x: int
    const y: int
    const radius: int
    var color: Color
    var hit: bool

    constructor (x0: int, y0: int)
      ensures x == x0 && y == y0 && radius == DUMMY_RADIUS && color == Crimson && !hit
    {
      x, y := x0, y0;
      radius := DUMMY_RADIUS;
      color := Crimson;
      hit := false;
    }

    predicate CanBeHitBy(spear: Spear)
      reads this, spear
    {
      !hit && spear.thrown && !spear.destroyed
    }

    /** Distance between centres at most the spear's speed plus the radius. */
    predicate InReach(spear: Spear)
      reads spear
    {
      Reaches(this, spear.State())
    }

    /** Reports a hit exactly when the guard passes and the spear is within
        reach; a hit marks the dummy, turns it blue and destroys the spear.
        Otherwise nothing changes. */
    method CheckCollision(spear: Spear) returns (r: bool)
      modifies this`hit, this`color, spear`destroyed
      ensures r <==> old(CanBeHitBy(spear)) && InReach(spear)
      ensures r ==> hit && color == Blue && spear.destroyed
      ensures !r ==> unchanged(this) && unchanged(spear)
    {
      if !hit && spear.thrown && !spear.destroyed {
        var dx := x as real - spear.x;
        var dy := y as real - spear.y;
        if WithinReach(dx, dy, spear.speed + radius as real) {
          hit := true;
          color := Blue;
          spear.Destroy();
          return true;
        }
      }
      return false;
    }
  }

  /** One `(random.randint(50, W - 50), random.randint(50, H - 50))` draw. */
  datatype Spot = Spot(x: int, y: int)

  predicate ValidSpots(spots: seq<Spot>)
  {
    && |spots| == NUM_DUMMIES
    && forall k :: 0 <= k < |spots| ==>
      && SPAWN_MARGIN <= spots[k].x <= SCREEN_WIDTH - SPAWN_MARGIN
      && SPAWN_MARGIN <= spots[k].y <= SCREEN_HEIGHT - SPAWN_MARGIN
  }

  /** The `hit` flags of a list of dummies, in order. */
  function HitFlags(ds: seq<Dummy>): (r: seq<bool>)
    reads ds
    ensures |r| == |ds|
    ensures forall k :: 0 <= k < |ds| ==> r[k] == ds[k].hit
  {
    seq(|ds|, k requires 0 <= k < |ds| reads ds => ds[k].hit)
  }

  /** One fresh, unhit dummy per spot, in order. */
  method CreateDummies(spots: seq<Spot>) returns (ds: seq<Dummy>)
    requires ValidSpots(spots)
    ensures |ds| == NUM_DUMMIES && Distinct(ds)
    ensures forall k :: 0 <= k < |ds| ==> fresh(ds[k])
    ensures forall k :: 0 <= k < |ds| ==>
      ds[k].x == spots[k].x && ds[k].y == spots[k].y && !ds[k].hit && ds[k].color == Crimson
  {
    ds := [];
    for i := 0 to |spots|
      invariant |ds| == i && Distinct(ds)
      invariant forall k :: 0 <= k < i ==> fresh(ds[k])
      invariant forall k :: 0 <= k < i ==>
        ds[k].x == spots[k].x && ds[k].y == spots[k].y && !ds[k].hit && ds[k].color == Crimson
    {
      var d := new Dummy(spots[i].x, spots[i].y);
      ds := ds + [d];
    }
  }

  // ---------------------------------------------------------------------
  // Events.

  /** Input events of one frame. A press records the clock reading. */
  datatype Event = Quit | MouseDown(button: int, now: real) | MouseUp(button: int)

  /** Movement keys held during a frame. */
  datatype Keys = Keys(a: bool, d: bool, w: bool, s: bool)

  /** What the events can see of the spear: none, or one with its charge
      start and whether it is thrown. */
  datatype Grip = Empty | Held(start: Option<real>, thrown: bool)

  /** One event of `handle_events` other than Quit: a left press with no
      spear creates one and starts its clock; a left release of a spear not
      yet thrown throws it; everything else is ignored. */
  function Press(g: Grip, ev: Event): (r: Grip)
    ensures g.Held? ==> r.Held? && r.start == g.start
    ensures g.Held? && g.thrown ==> r == g
    ensures g.Empty? ==> (r.Held? <==> ev.MouseDown? && ev.button == 1)
  {
    match ev
    case MouseDown(b, now) => if b == 1 && g.Empty? then Held(Some(now), false) else g
    case MouseUp(b) => if b == 1 && g.Held? && !g.thrown then g.(thrown := true) else g
    case Quit => g
  }

  /** The events of a batch applied in order. */
  function Replay(g: Grip, evs: seq<Event>): (r: Grip)
    ensures g.Held? ==> r.Held? && r.start == g.start
    ensures g.Held? && g.thrown ==> r == g
  {
    if evs == [] then g else Press(Replay(g, evs[..|evs| - 1]), evs[|evs| - 1])
  }

  /** Without a left press nothing can appear: a batch creates a spear only
      when it holds a press of button 1. */
  lemma {:induction false} ReplayNeedsPress(evs: seq<Event>)
    requires Replay(Empty, evs).Held?
    ensures exists k :: 0 <= k < |evs| && evs[k].MouseDown? && evs[k].button == 1
  {
    var n := |evs| - 1;
    if Replay(Empty, evs[..n]).Held? {
      ReplayNeedsPress(evs[..n]);
      var k :| 0 <= k < n && evs[..n][k].MouseDown? && evs[..n][k].button == 1;
      assert evs[k] == evs[..n][k];
    } else {
      assert evs[n].MouseDown? && evs[n].button == 1;
    }
  }

  /** The input on which the range stalls: press and release in one batch
      give a thrown spear whose charge never ran. */
  lemma ClickThrowsUncharged(t: real)
    ensures Replay(Empty, [MouseDown(1, t), MouseUp(1)]) == Held(Some(t), true)
  {
    var evs := [MouseDown(1, t), MouseUp(1)];
    assert evs[..1] == [MouseDown(1, t)];
    assert [MouseDown(1, t)][..0] == [];
    assert Replay(Empty, evs[..1]) == Held(Some(t), false);
  }

  /** Left and right (or up and down) held together cancel: each held key
      moves by its own step. */
  function NetAxis(negative: bool, positive: bool, step: real): (r: real)
    ensures negative == positive ==> r == 0.0
    ensures positive && !negative ==> r == step
    ensures negative && !positive ==> r == -step
  {
    (if positive then step else 0.0) - (if negative then step else 0.0)
  }

  // ---------------------------------------------------------------------
  // The main loop of test_3.py.

  class Range {
    const character: RootAvatar.Character
    var dummies: seq<Dummy>
    var spear: Spear?

    ghost predicate Valid()
      reads this`dummies
    {
      Distinct(dummies)
    }

    /** `all(dummy.hit == True for dummy in dummies)`. */
    predicate AllHit()
      reads this`dummies, dummies
    {
      forall k :: 0 <= k < |dummies| ==> dummies[k].hit
    }

    function HitCount(): nat
      reads this`dummies, dummies
    {
      CountTrue(HitFlags(dummies))
    }

    /** The spear as a frame: empty when there is none. */
    function Hand(): set<Spear>
      reads this`spear
    {
      if spear == null then {} else {spear}
    }

    function View(): Grip
      reads this`spear, spear
    {
      if spear == null then Empty else Held(spear.chargeStart, spear.thrown)
    }

    /** The avatar in the middle of the screen, a fresh wave, no spear. */
    constructor (spots: seq<Spot>)
      requires ValidSpots(spots)
      ensures Valid() && spear == null && HitCount() == 0 && |dummies| == NUM_DUMMIES
      ensures character.x == (SCREEN_WIDTH / 2) as real && character.y == (SCREEN_HEIGHT / 2) as real
    {
      character := new RootAvatar.Character((SCREEN_WIDTH / 2) as real, (SCREEN_HEIGHT / 2) as real);
      var ds := CreateDummies(spots);
      dummies := ds;
      spear := null;
      new;
      CountTrueNone(HitFlags(dummies));
    }

    /** One event of the batch. Quit is handled by the caller. */
    method Dispatch(ev: Event)
      requires !ev.Quit?
      modifies this`spear, Hand()`vx, Hand()`vy, Hand()`thrown
      ensures View() == Press(old(View()), ev)
      ensures old(spear) != null ==> spear == old(spear)
      ensures spear != old(spear) ==>
        && fresh(spear) && spear.x == character.x + 30.0 && spear.y == character.y - 30.0
        && spear.heading == Dir(1.0, 0.0) && spear.speed == 0.0 && spear.vx == 0.0 && spear.vy == 0.0
        && !spear.destroyed && spear.length == SPEAR_HEIGHT && spear.chargeValue == 0
      ensures spear != null && spear.thrown && !old(spear != null && spear.thrown) ==>
        SpearLifecycle.Velocity(spear.vx, spear.vy) == ThrowVelocity(spear.heading, spear.speed)
      ensures old(spear != null && spear.thrown) ==> unchanged(spear)
    {
      match ev
      case MouseDown(b, now) =>
        if b == 1 && spear == null {
          var sp := new Spear(character);
          sp.StartCharging(now);
          spear := sp;
        }
      case MouseUp(b) =>
        if b == 1 && spear != null && !spear.thrown {
          spear.Throw();
        }
    }

    /** `handle_events`. A Quit returns a lone `False` where the caller
        unpacks a pair, so the program stops with an error (`crashed`) and
        the movement keys are not read. Otherwise the events apply in order
        and each held key moves the avatar by CHARACTER_SPEED * dt. */
    method HandleEvents(evs: seq<Event>, keys: Keys, dt: real) returns (crashed: bool)
      modifies this`spear, Hand()`vx, Hand()`vy, Hand()`thrown, character
      ensures crashed <==> exists k :: 0 <= k < |evs| && evs[k].Quit?
      ensures !crashed ==> View() == Replay(old(View()), evs)
      ensures old(spear) != null ==> spear == old(spear)
      ensures spear != old(spear) ==>
        && fresh(spear) && spear.heading == Dir(1.0, 0.0) && spear.speed == 0.0
        && !spear.destroyed && spear.length == SPEAR_HEIGHT && spear.chargeValue == 0
      ensures spear != null && spear.thrown && !old(spear != null && spear.thrown) ==>
        SpearLifecycle.Velocity(spear.vx, spear.vy) == ThrowVelocity(spear.heading, spear.speed)
      ensures old(spear != null && spear.thrown) ==> unchanged(spear)
      ensures crashed ==> unchanged(character)
      ensures !crashed ==>
        && character.x == old(character.x) + NetAxis(keys.a, keys.d, CHARACTER_SPEED * dt)
        && character.y == old(character.y) + NetAxis(keys.w, keys.s, CHARACTER_SPEED * dt)
    {
      for i := 0 to |evs|
        invariant forall k :: 0 <= k < i ==> !evs[k].Quit?
        invariant View() == Replay(old(View()), evs[..i])
        invariant old(spear) != null ==> spear == old(spear)
        invariant spear != old(spear) ==>
          && fresh(spear) && spear.heading == Dir(1.0, 0.0) && spear.speed == 0.0
          && !spear.destroyed && spear.length == SPEAR_HEIGHT && spear.chargeValue == 0
        invariant spear != null && spear.thrown && !old(spear != null && spear.thrown) ==>
          SpearLifecycle.Velocity(spear.vx, spear.vy) == ThrowVelocity(spear.heading, spear.speed)
        invariant old(spear != null && spear.thrown) ==> unchanged(spear)
        invariant unchanged(character)
      {
        if evs[i].Quit? {
          return true;
        }
        assert evs[..i + 1][..i] == evs[..i];
        Dispatch(evs[i]);
      }
      assert evs[..|evs|] == evs;
      var step := CHARACTER_SPEED * dt;
      if keys.a {
        character.Move(-step, 0.0);
      }
      if keys.d {
        character.Move(step, 0.0);
      }
      if keys.w {
        character.Move(0.0, -step);
      }
      if keys.s {
        character.Move(0.0, step);
      }
      return false;
    }

    /** A fresh wave once every dummy is hit; otherwise nothing changes. */
    method RespawnIfCleared(spots: seq<Spot>)
      requires Valid() && ValidSpots(spots)
      modifies this`dummies
      ensures Valid()
      ensures old(AllHit()) ==> HitCount() == 0 && |dummies| == NUM_DUMMIES
      ensures old(AllHit()) ==> forall k :: 0 <= k < |dummies| ==>
        fresh(dummies[k]) && dummies[k].x == spots[k].x && dummies[k].y == spots[k].y && !dummies[k].hit
      ensures !old(AllHit()) ==> dummies == old(dummies)
    {
      if forall k :: 0 <= k < |dummies| ==> dummies[k].hit {
        var ds := CreateDummies(spots);
        dummies := ds;
        CountTrueNone(HitFlags(dummies));
      }
    }

    /** The loop of the collision pass on its own: which dummy the spear
        hits, if any, and what that does to the dummies and the spear.
        StrikePass adds what the pass does to the hit count. */
    method Sweep() returns (hitAt: Option<nat>)
      requires Valid()
      modifies this`spear, dummies, spear
      ensures hitAt.Some? ==>
        && hitAt.value < |dummies| && spear == null && old(spear) != null
        && old(spear).State() == old(spear.State()).(destroyed := true)
        && old(spear.thrown && !spear.destroyed) && !old(dummies[hitAt.value].hit)
        && Reaches(dummies[hitAt.value], old(spear.State()))
        && dummies[hitAt.value].hit && dummies[hitAt.value].color == Blue
      ensures hitAt.Some? ==> forall j :: 0 <= j < hitAt.value ==>
        old(dummies[j].hit) || !Reaches(dummies[j], old(spear.State()))
      ensures hitAt.None? ==> spear == old(spear) && (spear != null ==> unchanged(spear))
      ensures hitAt.None? && old(spear) != null && old(spear.thrown && !spear.destroyed) ==>
        forall j :: 0 <= j < |dummies| ==> old(dummies[j].hit) || !Reaches(dummies[j], spear.State())
      ensures forall j :: 0 <= j < |dummies| && hitAt != Some(j) ==> unchanged(dummies[j])
    {
      hitAt := None;
      ghost var sp, hs := spear, HitFlags(dummies);
      ghost var live := sp != null && sp.thrown && !sp.destroyed;
      ghost var s0: SpearLifecycle.SpearState;
      if sp != null {
        s0 := sp.State();
      }
      for k := 0 to |dummies|
        invariant hitAt.None? ==> spear == sp && (sp != null ==> unchanged(sp))
        invariant hitAt.None? && live ==> forall j :: 0 <= j < k ==> hs[j] || !Reaches(dummies[j], s0)
        invariant hitAt.Some? ==>
          && hitAt.value < k && spear == null && sp != null && live
          && sp.State() == s0.(destroyed := true)
          && !hs[hitAt.value] && Reaches(dummies[hitAt.value], s0)
          && dummies[hitAt.value].hit && dummies[hitAt.value].color == Blue
        invariant hitAt.Some? ==> forall j :: 0 <= j < hitAt.value ==> hs[j] || !Reaches(dummies[j], s0)
        invariant forall j :: 0 <= j < |dummies| && hitAt != Some(j) ==> unchanged(dummies[j])
      {
        if spear != null && spear.thrown {
          var h := dummies[k].CheckCollision(spear);
          if h {
            hitAt := Some(k);
            spear := null;
          }
        }
      }
    }

    /** The dummy loop of the frame: while the spear is there and thrown,
        each dummy in list order checks it, and the first hit drops the
        spear, so a frame hits at most one dummy, the first one in reach. */
    method StrikePass() returns (hitAt: Option<nat>)
      requires Valid()
      modifies this`spear, dummies, spear
      ensures hitAt.Some? ==>
        && hitAt.value < |dummies| && spear == null && old(spear) != null
        && old(spear).State() == old(spear.State()).(destroyed := true)
        && old(spear.thrown && !spear.destroyed) && !old(dummies[hitAt.value].hit)
        && Reaches(dummies[hitAt.value], old(spear.State()))
        && dummies[hitAt.value].hit && dummies[hitAt.value].color == Blue
      ensures hitAt.Some? ==> forall j :: 0 <= j < hitAt.value ==>
        old(dummies[j].hit) || !Reaches(dummies[j], old(spear.State()))
      ensures hitAt.None? ==> spear == old(spear) && (spear != null ==> unchanged(spear))
      ensures hitAt.None? && old(spear) != null && old(spear.thrown && !spear.destroyed) ==>
        forall j :: 0 <= j < |dummies| ==> old(dummies[j].hit) || !Reaches(dummies[j], spear.State())
      ensures forall j :: 0 <= j < |dummies| && hitAt != Some(j) ==> unchanged(dummies[j])
      ensures HitCount() == old(HitCount()) + (if hitAt.Some? then 1 else 0)
    {
      ghost var hs := HitFlags(dummies);
      hitAt := Sweep();
      if hitAt.Some? {
        assert HitFlags(dummies) == hs[hitAt.value := true];
        CountTrueSet(hs, hitAt.value, true);
      } else {
        assert HitFlags(dummies) == hs;
      }
    }

    /** The spear part of the frame: a spear not yet thrown turns to the
        cursor and charges; then it flies one tick; a thrown spear outside
        the screen is dropped. */
    method Fly(now: real, aim: Heading)
      modifies this`spear, spear
      ensures old(spear) == null ==> spear == null
      ensures old(spear) != null ==> (spear == null <==> old(spear).Lost()) && (spear == null || spear == old(spear))
      ensures old(spear) != null && !old(spear.thrown) ==> old(spear).heading == aim
      ensures old(spear) != null && old(spear.thrown) ==>
        old(spear).heading == old(spear.heading) && old(spear).speed == old(spear.speed)
      ensures old(spear) != null && old(spear.thrown && !spear.destroyed) ==>
        var s := old(spear);
        && SpearLifecycle.Velocity(s.vx, s.vy) == SpearLifecycle.NextVelocity(old(SpearLifecycle.Velocity(spear.vx, spear.vy)), s.speed, s.heading)
        && s.x == old(spear.x) + s.vx && s.y == old(spear.y) + s.vy
      ensures old(spear) != null ==> old(spear).State() == Tick(old(spear.State()), now, aim)
    {
      if spear != null {
        if !spear.thrown {
          spear.Aim(aim);
          spear.Charge(now);
        }
        spear.Update();
        if spear.thrown && (spear.y > SCREEN_HEIGHT as real || spear.x > SCREEN_WIDTH as real || spear.y < 0.0 || spear.x < 0.0) {
          spear := null;
        }
      }
    }

    /** The dummy part of the frame: a fresh wave when every dummy is hit,
        then the dummy loop. The first dummy, in list order, that still
        stands after the respawn and is within reach of the thrown spear
        falls; the others stay as the respawn left them. */
    method Strike(spots: seq<Spot>) returns (hitAt: Option<nat>)
      requires Valid() && ValidSpots(spots)
      modifies this`dummies, dummies, this`spear, spear
      ensures Valid()
      ensures !old(AllHit()) ==> dummies == old(dummies)
      ensures old(AllHit()) ==> |dummies| == NUM_DUMMIES
      ensures HitCount() == (if old(AllHit()) then 0 else old(HitCount())) + (if hitAt.Some? then 1 else 0)
      ensures hitAt.Some? ==> spear == null
      ensures hitAt.None? ==> spear == old(spear) && (spear != null ==> unchanged(spear))
      ensures hitAt.Some? ==> var j := hitAt.value;
        && j < |dummies| && old(spear) != null && old(spear.thrown && !spear.destroyed) && old(spear).destroyed
        && !(!old(AllHit()) && old(dummies[j].hit)) && Reaches(dummies[j], old(spear.State()))
        && dummies[j].hit && dummies[j].color == Blue
        && old(spear).State() == old(spear.State()).(destroyed := true)
      ensures hitAt.Some? ==> forall k :: 0 <= k < hitAt.value ==>
        (!old(AllHit()) && old(dummies[k].hit)) || !Reaches(dummies[k], old(spear.State()))
      ensures hitAt.None? && old(spear) != null && old(spear.thrown && !spear.destroyed) ==>
        forall k :: 0 <= k < |dummies| ==> (!old(AllHit()) && old(dummies[k].hit)) || !Reaches(dummies[k], old(spear.State()))
      ensures forall k :: 0 <= k < |dummies| && hitAt != Some(k) ==> dummies[k].hit == (!old(AllHit()) && old(dummies[k].hit))
    {
      RespawnIfCleared(spots);
      hitAt := StrikePass();
    }

    /** One frame of `main` after the events: a fresh wave when every dummy
        is hit, the dummy loop, then the spear's flight. At most one dummy
        falls per frame, a hit drops the spear, and a spear that survives
        the frame is the one it started with and is still on screen. */
    method Frame(now: real, aim: Heading, spots: seq<Spot>) returns (hitAt: Option<nat>)
      requires Valid() && ValidSpots(spots)
      modifies this`dummies, dummies, this`spear, spear
      ensures Valid()
      ensures !old(AllHit()) ==> dummies == old(dummies)
      ensures old(AllHit()) ==> |dummies| == NUM_DUMMIES
      ensures HitCount() == (if old(AllHit()) then 0 else old(HitCount())) + (if hitAt.Some? then 1 else 0)
      ensures hitAt.Some? ==> spear == null
      ensures spear != null ==> spear == old(spear) && !spear.Lost()
      ensures hitAt.Some? ==> var j := hitAt.value;
        && j < |dummies| && old(spear) != null && old(spear.thrown && !spear.destroyed) && old(spear).destroyed
        && !(!old(AllHit()) && old(dummies[j].hit)) && Reaches(dummies[j], old(spear.State()))
        && dummies[j].hit && dummies[j].color == Blue
      ensures hitAt.Some? ==> forall k :: 0 <= k < hitAt.value ==>
        (!old(AllHit()) && old(dummies[k].hit)) || !Reaches(dummies[k], old(spear.State()))
      ensures hitAt.None? && old(spear) != null && old(spear.thrown && !spear.destroyed) ==>
        forall k :: 0 <= k < |dummies| ==> (!old(AllHit()) && old(dummies[k].hit)) || !Reaches(dummies[k], old(spear.State()))
      ensures forall k :: 0 <= k < |dummies| && hitAt != Some(k) ==> dummies[k].hit == (!old(AllHit()) && old(dummies[k].hit))
      ensures old(spear) != null && hitAt.None? ==> old(spear).State() == Tick(old(spear.State()), now, aim)
    {
      hitAt := Strike(spots);
      Fly(now, aim);
    }
  }
}
