/** The gravity prototype of test_2.py: an 800 x 600 screen, a single spear
    that appears beside a fixed avatar on any mouse press, charges until it
    throws itself, then falls under a constant pull of half a pixel per tick
    per tick; the screen zooms in while the spear charges. Clock readings
    and the aim are inputs. */
module GravityPrototype {
  import opened Geometry
  import SpearLifecycle

  const SCREEN_WIDTH: int := 800
  const SCREEN_HEIGHT: int := 600
  const CHARACTER_X: int := 100
  const CHARACTER_Y: int := SCREEN_HEIGHT - 100
  /** The spear height and charge time equal those of the main game, so the
      stretch while charging is `SpearLifecycle.ChargedLength`. */
  const SPEAR_HEIGHT: real := 50.0
  const SPEAR_MAX_SPEED: real := 25.0
  const CHARGE_TIME: real := 1.5
  const ZOOM_SCALE: real := 1.1
  /** Added to the vertical velocity on every tick of flight. */
  const GRAVITY: real := 0.5

  // ---------------------------------------------------------------------
  // Charging and zoom.

  /** Speed after charging for e seconds: proportional to e and capped at
      SPEAR_MAX_SPEED. */
  function ChargedSpeed(e: real): (speed: real)
    ensures speed <= SPEAR_MAX_SPEED
    ensures e >= CHARGE_TIME ==> speed == SPEAR_MAX_SPEED
    ensures 0.0 <= e <= CHARGE_TIME ==> speed * CHARGE_TIME == SPEAR_MAX_SPEED * e
    ensures e >= 0.0 ==> speed >= 0.0
  {
    Min(SPEAR_MAX_SPEED, SPEAR_MAX_SPEED * (e / CHARGE_TIME))
  }

  /** The zoom while charging: grows from 1 with the charge fraction and
      stops at ZOOM_SCALE once the charge is full. */
  function ZoomLevel(e: real): (z: real)
    ensures e >= 0.0 ==> 1.0 <= z <= ZOOM_SCALE
    ensures e >= CHARGE_TIME ==> z == ZOOM_SCALE
    ensures e <= 0.0 ==> z <= 1.0
  {
    1.0 + (ZOOM_SCALE - 1.0) * Min(e / CHARGE_TIME, 1.0)
  }

  /** A longer charge never zooms out. */
  lemma ZoomMonotone(e1: real, e2: real)
    requires e1 <= e2
    ensures ZoomLevel(e1) <= ZoomLevel(e2)
  {
    assert e1 / CHARGE_TIME <= e2 / CHARGE_TIME;
  }

  // ---------------------------------------------------------------------
  // Flight under gravity.

  /** Position and velocity of a flying spear. */
  datatype Body = Body(x: real, y: real, vx: real, vy: real)

  /** One tick of `update`: move by the velocity, then gravity pulls. */
  function Fall(b: Body): (r: Body)
    ensures r.vx == b.vx && r.vy - b.vy == GRAVITY
    ensures r.x - b.x == b.vx && r.y - b.y == b.vy
  {
    Body(b.x + b.vx, b.y + b.vy, b.vx, b.vy + GRAVITY)
  }

  function FallAfter(b: Body, n: nat): Body
    decreases n
  {
    if n == 0 then b else FallAfter(Fall(b), n - 1)
  }

  /** n ticks of flight in closed form: uniform motion across, uniformly
      accelerated motion down. */
  lemma {:induction false} FallClosedForm(b: Body, n: nat)
    ensures FallAfter(b, n) == Body(
      b.x + n as real * b.vx,
      b.y + n as real * b.vy + GRAVITY * ((n * (n - 1)) as real / 2.0),
      b.vx,
      b.vy + n as real * GRAVITY)
    decreases n
  {
    if n > 0 {
      FallClosedForm(Fall(b), n - 1);
      var m := (n - 1) as real;
      assert ((n * (n - 1)) as real / 2.0) == ((((n - 1) * (n - 2)) as real) / 2.0) + m;
    }
  }

  /** Ticks still needed before the spear moves down by at least a pixel
      per tick. */
  function Climb(b: Body): nat
  {
    if b.vy >= 1.0 then 0 else ((1.0 - b.vy) * 2.0).Floor + 1
  }

  /** Whole pixels left above the bottom edge. */
  function Drop(b: Body): nat
  {
    if b.y > SCREEN_HEIGHT as real then 0 else (SCREEN_HEIGHT as real - b.y).Floor + 1
  }

  /** Every spear in flight eventually falls below the screen, whatever its
      throw: gravity first turns its vertical velocity downward, then it
      gains at least a pixel per tick, so the game drops it after the n
      ticks returned. */
  lemma {:induction false} FallsOff(b: Body) returns (n: nat)
    ensures FallAfter(b, n).y > SCREEN_HEIGHT as real
    decreases Climb(b), Drop(b)
  {
    if b.y > SCREEN_HEIGHT as real {
      n := 0;
    } else {
      var next := Fall(b);
      if b.vy < 1.0 {
        assert Climb(next) < Climb(b);
      } else {
        assert Climb(next) == 0 && Drop(next) < Drop(b);
      }
      var k := FallsOff(next);
      n := k + 1;
    }
  }

  // ---------------------------------------------------------------------
  // The spear of test_2.py.

  /** Everything the prototype's spear holds, as one value. */
  datatype SpearState = SpearState(body: Body, heading: Heading, speed: real, thrown: bool,
                                   chargeStart: Option<real>, length: real)

  /** `throw`: the charged speed along the aim, with no impulse. */
  function Launch(s: SpearState): (r: SpearState)
    ensures r.thrown && r.body.x == s.body.x && r.body.y == s.body.y
    ensures r.body.vx * r.body.vx + r.body.vy * r.body.vy == s.speed * s.speed
    ensures r.(body := s.body, thrown := s.thrown) == s
  {
    ScaledHeadingLength(s.heading, s.speed);
    s.(body := s.body.(vx := s.heading.c * s.speed, vy := -s.heading.s * s.speed), thrown := true)
  }

  /** `charge`: with a running clock, speed and length follow the elapsed
      time, and a full charge throws. */
  function Charged(s: SpearState, now: real): (r: SpearState)
    ensures r.body.x == s.body.x && r.body.y == s.body.y && r.heading == s.heading && r.chargeStart == s.chargeStart
    ensures s.chargeStart.None? || s.chargeStart.value == 0.0 ==> r == s
    ensures s.chargeStart.Some? && s.chargeStart.value != 0.0 ==>
      var e := now - s.chargeStart.value;
      && r.speed == ChargedSpeed(e) && (r.thrown <==> s.thrown || e >= CHARGE_TIME)
  {
    if s.chargeStart.None? || s.chargeStart.value == 0.0 then s
    else
      var e := now - s.chargeStart.value;
      var c := s.(speed := ChargedSpeed(e), length := SpearLifecycle.ChargedLength(e));
      if e >= CHARGE_TIME then Launch(c) else c
  }

  /** `update`: a thrown spear falls one tick. */
  function Flown(s: SpearState): (r: SpearState)
    ensures !s.thrown ==> r == s
    ensures r.(body := s.body) == s
    ensures s.thrown ==> r.body.vy - s.body.vy == GRAVITY && r.body.vx == s.body.vx
  {
    if s.thrown then s.(body := Fall(s.body)) else s
  }

  /** The spear's share of one frame: a spear not yet thrown turns to `aim`
      and charges, then it moves. Once thrown, a spear keeps its aim, speed
      and length and falls one tick. Without a running clock an unthrown
      spear only turns; with one, speed and length follow the elapsed time
      and the spear is thrown exactly at full charge, leaving at its charged
      speed along the aim and falling its first tick at once. A spear still
      unthrown stays put. The clock is never touched. */
  function Tick(s: SpearState, now: real, aim: Heading): (r: SpearState)
    ensures r.chargeStart == s.chargeStart
    ensures s.thrown ==>
      && r.thrown && r.heading == s.heading && r.speed == s.speed && r.length == s.length
      && r.body == Fall(s.body)
    ensures !s.thrown ==> r.heading == aim
    ensures !s.thrown && (s.chargeStart.None? || s.chargeStart.value == 0.0) ==> r == s.(heading := aim)
    ensures !s.thrown && s.chargeStart.Some? && s.chargeStart.value != 0.0 ==>
      var e := now - s.chargeStart.value;
      && r.speed == ChargedSpeed(e) && r.length == SpearLifecycle.ChargedLength(e)
      && (r.thrown <==> e >= CHARGE_TIME)
    ensures !r.thrown ==> r.body == s.body
    ensures !s.thrown && r.thrown ==>
      r.body == Fall(Body(s.body.x, s.body.y, aim.c * r.speed, -aim.s * r.speed))
  {
    Flown(if s.thrown then s else Charged(s.(heading := aim), now))
  }

  class Spear {
    var x: real
    var y: real
    var heading: Heading
    var speed: real
    var vx: real
    var vy: real
    var thrown: bool
    var chargeStart: Option<real>
    var length: real

    /** A spear at (x0, y0), at angle 0 and speed 0, not charging. */
    constructor (x0: real, y0: real)
      ensures x == x0 && y == y0 && heading == Dir(1.0, 0.0) && speed == 0.0
      ensures vx == 0.0 && vy == 0.0 && !thrown && chargeStart == None && length == SPEAR_HEIGHT
    {
      x, y := x0, y0;
      heading := Dir(1.0, 0.0);
      speed := 0.0;
      vx, vy := 0.0, 0.0;
      thrown := false;
      chargeStart := None;
      length := SPEAR_HEIGHT;
    }

    function State(): Body
      reads this
    {
      Body(x, y, vx, vy)
    }

    function Whole(): SpearState
      reads this
    {
      SpearState(State(), heading, speed, thrown, chargeStart, length)
    }

    /** `if self.charge_start_time:` — a start time that is not 0.0. */
    predicate ClockRunning()
      reads this
    {
      chargeStart.Some? && chargeStart.value != 0.0
    }

    method StartCharging(now: real)
      modifies this`chargeStart
      ensures chargeStart == Some(now)
    {
      chargeStart := Some(now);
    }

    method Aim(aim: Heading)
      modifies this`heading
      ensures heading == aim
      ensures Whole() == old(Whole()).(heading := aim)
    {
      heading := aim;
    }

    /** Recomputes speed and length from the elapsed time and throws at full
        charge; without a running clock nothing changes. */
    method Charge(now: real)
      modifies this`speed, this`length, this`vx, this`vy, this`thrown
      ensures !old(ClockRunning()) ==> unchanged(this)
      ensures old(ClockRunning()) ==>
        var e := now - chargeStart.value;
        && speed == ChargedSpeed(e) && length == SpearLifecycle.ChargedLength(e)
        && (e >= CHARGE_TIME ==> thrown && vx == heading.c * speed && vy == -heading.s * speed)
        && (e < CHARGE_TIME ==> thrown == old(thrown) && vx == old(vx) && vy == old(vy))
      ensures Whole() == Charged(old(Whole()), now)
    {
      if ClockRunning() {
        var e := now - chargeStart.value;
        speed := Min(SPEAR_MAX_SPEED, SPEAR_MAX_SPEED * (e / CHARGE_TIME));
        length := SPEAR_HEIGHT + SPEAR_HEIGHT * 3.0 * (e / CHARGE_TIME);
        if e >= CHARGE_TIME {
          Throw();
        }
      }
    }

    /** Launches along the aim at the charged speed, with no impulse. */
    method Throw()
      modifies this`vx, this`vy, this`thrown
      ensures thrown && vx == heading.c * speed && vy == -heading.s * speed
      ensures vx * vx + vy * vy == speed * speed
      ensures Whole() == Launch(old(Whole()))
    {
      vx := heading.c * speed;
      vy := -heading.s * speed;
      thrown := true;
      ScaledHeadingLength(heading, speed);
    }

    /** One tick: a thrown spear moves and gravity pulls; otherwise nothing
        changes. */
    method Update()
      modifies this`x, this`y, this`vy
      ensures old(thrown) ==> State() == Fall(old(State()))
      ensures !old(thrown) ==> unchanged(this)
      ensures Whole() == Flown(old(Whole()))
    {
      if thrown {
        x := x + vx;
        y := y + vy;
        vy := vy + 0.5;
      }
    }
  }

  // ---------------------------------------------------------------------
  // The main loop of test_2.py.

  /** Events of one frame; a press of any button records the clock. */
  datatype Event = Quit | MouseDown(now: real)

  /** Index of the first press in a batch, if any. */
  function FirstPress(evs: seq<Event>): (r: Option<nat>)
    ensures r.Some? ==> r.value < |evs| && evs[r.value].MouseDown?
    ensures r.Some? ==> forall k :: 0 <= k < r.value ==> !evs[k].MouseDown?
    ensures r.None? ==> forall k :: 0 <= k < |evs| ==> !evs[k].MouseDown?
  {
    if evs == [] then None
    else if evs[0].MouseDown? then Some(0)
    else match FirstPress(evs[1..])
      case None => None
      case Some(i) => Some(i + 1)
  }

  /** The spear a first press at time `now` creates: 30 right of and above
      the avatar, at rest, heading right, with its clock started. */
  function Pressed(now: real): (r: SpearState)
    ensures !r.thrown && r.chargeStart == Some(now) && r.speed == 0.0
    ensures r.body.vx == 0.0 && r.body.vy == 0.0 && r.body.x < SCREEN_WIDTH as real && r.body.y < SCREEN_HEIGHT as real
  {
    SpearState(Body((CHARACTER_X + 30) as real, (CHARACTER_Y - 30) as real, 0.0, 0.0), Dir(1.0, 0.0), 0.0, false,
               Some(now), SPEAR_HEIGHT)
  }

  /** The spear after the event loop of a frame, given the one before it:
      a spear already there stays as it is; otherwise the first press, if
      any, creates one. */
  function Held(before: Option<SpearState>, evs: seq<Event>): (r: Option<SpearState>)
    ensures before.Some? ==> r == before
    ensures before.None? ==> (r.Some? <==> exists k :: 0 <= k < |evs| && evs[k].MouseDown?)
  {
    if before.Some? then before
    else match FirstPress(evs)
      case None => None
      case Some(i) => Some(Pressed(evs[i].now))
  }

  /** The drop test of a frame: a thrown spear below or right of the
      screen. */
  predicate Dropped(s: SpearState)
    ensures Dropped(s) ==> s.thrown
    ensures s.thrown && s.body.y > SCREEN_HEIGHT as real ==> Dropped(s)
  {
    s.thrown && (s.body.y > SCREEN_HEIGHT as real || s.body.x > SCREEN_WIDTH as real)
  }

  class Prototype {
    var spear: Spear?
    var zoomLevel: real
    var running: bool

    /** A spear on screen always has its charge clock set. */
    ghost predicate Valid()
      reads this`spear, spear
    {
      spear != null ==> spear.chargeStart.Some?
    }

    /** The spear on screen, as a value. */
    function Holding(): Option<SpearState>
      reads this`spear, spear
    {
      if spear == null then None else Some(spear.Whole())
    }

    constructor ()
      ensures Valid() && spear == null && zoomLevel == 1.0 && running
    {
      spear := null;
      zoomLevel := 1.0;
      running := true;
    }

    /** The event loop of a frame: Quit clears `running` (the frame still
        completes); the first press of any button, when there is no spear,
        creates one 30 pixels right of and above the avatar and starts its
        clock at that press. Later presses are ignored. */
    method Events(evs: seq<Event>)
      requires Valid()
      modifies this`spear, this`running
      ensures Valid()
      ensures running == (old(running) && forall k :: 0 <= k < |evs| ==> !evs[k].Quit?)
      ensures old(spear) != null ==> spear == old(spear)
      ensures old(spear) == null ==> (spear != null <==> FirstPress(evs).Some?)
      ensures old(spear) == null && spear != null ==>
        && fresh(spear) && spear.chargeStart == Some(evs[FirstPress(evs).value].now)
        && spear.x == (CHARACTER_X + 30) as real && spear.y == (CHARACTER_Y - 30) as real
        && spear.speed == 0.0 && !spear.thrown && spear.heading == Dir(1.0, 0.0)
      ensures Holding() == Held(old(Holding()), evs)
    {
      for i := 0 to |evs|
        invariant Valid()
        invariant running == (old(running) && forall k :: 0 <= k < i ==> !evs[k].Quit?)
        invariant old(spear) != null ==> spear == old(spear)
        invariant old(spear) == null ==> (spear != null <==> exists k :: 0 <= k < i && evs[k].MouseDown?)
        invariant old(spear) == null && spear != null ==>
          && fresh(spear) && spear.chargeStart == Some(evs[FirstPress(evs).value].now)
          && spear.x == (CHARACTER_X + 30) as real && spear.y == (CHARACTER_Y - 30) as real
          && spear.speed == 0.0 && !spear.thrown && spear.heading == Dir(1.0, 0.0)
          && spear.Whole() == Pressed(evs[FirstPress(evs).value].now)
        invariant old(spear) != null ==> unchanged(spear)
      {
        if evs[i].Quit? {
          running := false;
        }
        if evs[i].MouseDown? && spear == null {
          var sp := new Spear((CHARACTER_X + 30) as real, (CHARACTER_Y - 30) as real);
          sp.StartCharging(evs[i].now);
          spear := sp;
        }
      }
    }

    /** The rest of the frame: a spear not yet thrown turns to the cursor,
        charges and sets the zoom from its charge time; the spear then
        moves; once thrown and below or right of the screen it is dropped
        and the zoom resets. A spear off the top or the left edge is kept. */
    method Advance(now: real, aim: Heading)
      requires Valid()
      modifies this`spear, this`zoomLevel, spear
      ensures Valid()
      ensures old(spear) == null ==> spear == null && zoomLevel == old(zoomLevel)
      ensures old(spear) != null ==>
        var s := old(spear);
        && (spear == null <==> s.thrown && (s.y > SCREEN_HEIGHT as real || s.x > SCREEN_WIDTH as real))
        && (spear != null ==> spear == s)
        && (spear == null ==> zoomLevel == 1.0)
        && (spear != null && old(s.thrown) ==> zoomLevel == old(zoomLevel))
        && (spear != null && !old(s.thrown) ==> zoomLevel == ZoomLevel(now - s.chargeStart.value))
      ensures old(spear) != null && old(spear.thrown) ==> old(spear).State() == Fall(old(spear.State()))
      ensures old(spear) != null && !old(spear.thrown) ==> old(spear).heading == aim
      ensures old(spear) != null && old(spear.thrown) ==> old(spear).thrown
      ensures old(spear) != null ==> old(spear).Whole() == Tick(old(spear.Whole()), now, aim)
    {
      if spear != null {
        if !spear.thrown {
          spear.Aim(aim);
          spear.Charge(now);
          var e := now - spear.chargeStart.value;
          zoomLevel := 1.0 + (ZOOM_SCALE - 1.0) * Min(e / CHARGE_TIME, 1.0);
        }
        spear.Update();
        if spear.thrown && (spear.y > SCREEN_HEIGHT as real || spear.x > SCREEN_WIDTH as real) {
          spear := null;
          zoomLevel := 1.0;
        }
      }
    }

    /** One frame of `main`. */
    method Frame(evs: seq<Event>, now: real, aim: Heading)
      requires Valid()
      modifies this`spear, this`running, this`zoomLevel, spear
      ensures Valid()
      ensures running == (old(running) && forall k :: 0 <= k < |evs| ==> !evs[k].Quit?)
      ensures spear != null ==> old(spear) == null || spear == old(spear)
      ensures spear != null && !spear.thrown ==> zoomLevel == ZoomLevel(now - spear.chargeStart.value)
      ensures var h := Held(old(Holding()), evs);
        && (h.None? ==> spear == null && zoomLevel == old(zoomLevel))
        && (h.Some? && spear == null ==> zoomLevel == 1.0)
        && (h.Some? ==> (spear == null <==> Dropped(Tick(h.value, now, aim))))
        && (spear != null ==> spear.Whole() == Tick(h.value, now, aim))
    {
      Events(evs);
      Advance(now, aim);
    }
  }
}
