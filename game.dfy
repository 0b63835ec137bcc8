/** The encounter loop of the application (app/Game.py): a wave of hit-point
    targets, the list of spears the mouse creates and throws, the avatar and
    its kill counter, advanced one tick at a time. Keyboard, mouse, clock and
    random draws are inputs of the methods. */
module Encounter {
  import opened Geometry
  import opened AppSettings
  import opened SpearLifecycle
  import opened HitPointEnemy
  import opened Avatar

  /** The three `random.randint` draws that make one enemy. */
  datatype SpawnDraw = SpawnDraw(x: int, y: int, hp: int)

  /** The inclusive ranges of `create_enemies`. */
  predicate InSpawnRange(d: SpawnDraw)
  {
    && SPAWN_MARGIN <= d.x <= SCREEN_WIDTH - SPAWN_MARGIN
    && SPAWN_MARGIN <= d.y <= SCREEN_HEIGHT - SPAWN_MARGIN
    && MIN_HP <= d.hp <= MAX_HP
  }

  /** A full batch of draws for one wave. */
  predicate ValidWave(draws: seq<SpawnDraw>)
  {
    |draws| == NUM_ENEMIES && forall k :: 0 <= k < |draws| ==> InSpawnRange(draws[k])
  }

  /** Input events the loop reacts to; a mouse-down of any button starts a
      spear, aimed along `aim` and timed by `now`. */
  datatype Event = Quit | MouseDown(now: real, aim: Heading) | MouseUp

  /** The number of mouse-down events in a batch. */
  function MouseDowns(evs: seq<Event>): (n: nat)
    ensures n <= |evs|
  {
    if evs == [] then 0 else MouseDowns(evs[..|evs| - 1]) + (if evs[|evs| - 1].MouseDown? then 1 else 0)
  }

  /** Whether a batch holds a Quit event, which ends the main loop. */
  function QuitIn(evs: seq<Event>): (r: bool)
    ensures r <==> exists k :: 0 <= k < |evs| && evs[k].Quit?
  {
    if evs == [] then false
    else
      var pre := evs[..|evs| - 1];
      assert forall k :: 0 <= k < |pre| ==> pre[k] == evs[k];
      QuitIn(pre) || evs[|evs| - 1].Quit?
  }

  /** The mouse-down events of a batch, in order: the k-th of them makes
      the k-th spear the batch adds. */
  function Presses(evs: seq<Event>): (r: seq<Event>)
    ensures |r| == MouseDowns(evs)
    ensures forall k :: 0 <= k < |r| ==> r[k].MouseDown? && r[k] in evs
  {
    if evs == [] then []
    else Presses(evs[..|evs| - 1]) + (if evs[|evs| - 1].MouseDown? then [evs[|evs| - 1]] else [])
  }

  /** The list indices of the spears a batch throws, for a list that held n
      spears before it: each mouse-up throws the spear that is last in the
      list at that moment, if the list is not empty. */
  function Thrown(n: nat, evs: seq<Event>): (r: set<nat>)
    ensures forall k :: k in r ==> k < n + MouseDowns(evs)
  {
    if evs == [] then {}
    else
      var len := n + MouseDowns(evs[..|evs| - 1]);
      Thrown(n, evs[..|evs| - 1]) + (if evs[|evs| - 1].MouseUp? && len > 0 then {len - 1} else {})
  }

  /** The spear a mouse-down at time `now`, aimed along `aim`, adds for an
      avatar at (cx, cy): 30 to the right of and 30 above the avatar, with
      the initial speed and length, charging from `now`. */
  function Drawn(cx: real, cy: real, now: real, aim: Heading): (r: SpearState)
    ensures !r.thrown && !r.destroyed && r.chargeStart == Some(now) && r.chargeValue == 0
  {
    SpearState(cx + 30.0, cy - 30.0, aim, 10.0, 0.0, 0.0, false, Some(now), SPEAR_HEIGHT, 0, false)
  }

  /** The state of the spear at index k of the list after a batch of
      events, given the states `olds` of the list before it: an old spear
      or the spear of the matching mouse-down, launched if a mouse-up threw
      it. */
  function Planned(olds: seq<SpearState>, cx: real, cy: real, evs: seq<Event>, k: nat): (r: SpearState)
    requires k < |olds| + MouseDowns(evs)
    ensures r.thrown <==> k in Thrown(|olds|, evs) || (k < |olds| && olds[k].thrown)
    ensures k >= |olds| ==> r.chargeStart == Some(Presses(evs)[k - |olds|].now) && !r.destroyed
  {
    var base := if k < |olds| then olds[k] else var p := Presses(evs)[k - |olds|]; Drawn(cx, cy, p.now, p.aim);
    if k in Thrown(|olds|, evs) then Launch(base) else base
  }

  /** The spear states of the list after one event: a mouse-down appends
      its new spear and a mouse-up launches the last spear, if any. */
  function Handled(ss: seq<SpearState>, cx: real, cy: real, ev: Event): (r: seq<SpearState>)
    ensures |r| == |ss| + (if ev.MouseDown? then 1 else 0)
    ensures forall k :: 0 <= k < |ss| && !(ev.MouseUp? && k == |ss| - 1) ==> r[k] == ss[k]
    ensures ev.MouseUp? && ss != [] ==> r[|ss| - 1].thrown
  {
    match ev
    case Quit => ss
    case MouseDown(now, aim) => ss + [Drawn(cx, cy, now, aim)]
    case MouseUp => if ss == [] then ss else ss[|ss| - 1 := Launch(ss[|ss| - 1])]
  }

  /** The spear states of the list after a batch, one event at a time. */
  function Plan(olds: seq<SpearState>, cx: real, cy: real, evs: seq<Event>): (r: seq<SpearState>)
    ensures |r| == |olds| + MouseDowns(evs)
  {
    if evs == [] then olds else Handled(Plan(olds, cx, cy, evs[..|evs| - 1]), cx, cy, evs[|evs| - 1])
  }

  /** Events move no spear: an old spear keeps its place and aim, and every
      spear a press adds starts intact beside the avatar. */
  lemma {:induction false} PlanPlaces(olds: seq<SpearState>, cx: real, cy: real, evs: seq<Event>)
    ensures forall k :: 0 <= k < |olds| ==>
      && Plan(olds, cx, cy, evs)[k].x == olds[k].x && Plan(olds, cx, cy, evs)[k].y == olds[k].y
      && Plan(olds, cx, cy, evs)[k].heading == olds[k].heading
    ensures forall k :: |olds| <= k < |Plan(olds, cx, cy, evs)| ==>
      && Plan(olds, cx, cy, evs)[k].x == cx + 30.0 && Plan(olds, cx, cy, evs)[k].y == cy - 30.0
      && !Plan(olds, cx, cy, evs)[k].destroyed
  {
    if evs != [] {
      var pre := evs[..|evs| - 1];
      PlanPlaces(olds, cx, cy, pre);
      var ss := Plan(olds, cx, cy, pre);
      if evs[|evs| - 1].MouseUp? && ss != [] {
        var l := |ss| - 1;
        var t := Launch(ss[l]);
        assert t.x == ss[l].x && t.y == ss[l].y && t.heading == ss[l].heading && t.destroyed == ss[l].destroyed;
        assert Plan(olds, cx, cy, evs) == ss[l := t];
      }
    }
  }

  /** One more event of a batch: a mouse-down adds its spear at the end and
      a mouse-up launches the spear that is last; every other spear keeps
      its Planned state. */
  lemma PlannedStep(olds: seq<SpearState>, cx: real, cy: real, evs: seq<Event>)
    requires evs != []
    ensures var pre, ev := evs[..|evs| - 1], evs[|evs| - 1]; var len := |olds| + MouseDowns(pre);
      && (forall k :: 0 <= k < len && !(ev.MouseUp? && k == len - 1) ==>
            Planned(olds, cx, cy, evs, k) == Planned(olds, cx, cy, pre, k))
      && (ev.MouseDown? ==> Planned(olds, cx, cy, evs, len) == Drawn(cx, cy, ev.now, ev.aim))
      && (ev.MouseUp? && len > 0 ==> Planned(olds, cx, cy, evs, len - 1) == Launch(Planned(olds, cx, cy, pre, len - 1)))
  {
    var pre := evs[..|evs| - 1];
    assert Presses(evs)[..MouseDowns(pre)] == Presses(pre);
  }

  /** The list after a batch, event by event, is the Planned state of each
      spear: an old spear launched or untouched, a new spear as its press
      drew it, launched if a later release threw it. */
  lemma {:induction false} PlanIsPlanned(olds: seq<SpearState>, cx: real, cy: real, evs: seq<Event>)
    ensures forall k :: 0 <= k < |olds| + MouseDowns(evs) ==> Plan(olds, cx, cy, evs)[k] == Planned(olds, cx, cy, evs, k)
  {
    if evs != [] {
      var pre := evs[..|evs| - 1];
      PlanIsPlanned(olds, cx, cy, pre);
      PlannedStep(olds, cx, cy, evs);
    }
  }

  /** A batch without a mouse-up throws nothing. */
  lemma {:induction false} NoReleaseNoThrow(n: nat, evs: seq<Event>)
    requires forall k :: 0 <= k < |evs| ==> !evs[k].MouseUp?
    ensures Thrown(n, evs) == {}
  {
    if evs != [] {
      NoReleaseNoThrow(n, evs[..|evs| - 1]);
    }
  }

  /** A press followed at once by a release throws the spear the press
      added: it starts charging at the press and leaves with the throw
      impulse. */
  lemma PressThenRelease(olds: seq<SpearState>, cx: real, cy: real, pre: seq<Event>, now: real, aim: Heading)
    ensures var evs := pre + [MouseDown(now, aim), MouseUp]; var k := |olds| + MouseDowns(pre);
      && k in Thrown(|olds|, evs)
      && k < |olds| + MouseDowns(evs)
      && Planned(olds, cx, cy, evs, k) == Launch(Drawn(cx, cy, now, aim))
  {
    var n, press := |olds|, MouseDown(now, aim);
    var evs, pressed := pre + [press, MouseUp], pre + [press];
    assert evs[..|evs| - 1] == pressed && pressed[..|pre|] == pre;
    assert MouseDowns(evs) == MouseDowns(pressed) == MouseDowns(pre) + 1;
    assert Thrown(n, evs) == Thrown(n, pressed) + {n + MouseDowns(pre)};
    assert Presses(evs) == Presses(pressed) == Presses(pre) + [press];
  }

  /** Movement keys held during a tick. */
  datatype Keys = Keys(a: bool, d: bool, w: bool, s: bool)

  /** One axis of movement: the positive key is checked last, so it wins when
      both are held. */
  function AxisDelta(negative: bool, positive: bool, step: real): (r: real)
    ensures positive ==> r == step
    ensures negative && !positive ==> r == -step
    ensures !negative && !positive ==> r == 0.0
  {
    var r := 0.0;
    var r := if negative then -step else r;
    if positive then step else r
  }

  /** A thrown spear is culled once it leaves [0, W] x [0, H]. */
  predicate OffScreen(s: SpearState)
  {
    s.y > SCREEN_HEIGHT as real || s.x > SCREEN_WIDTH as real || s.y < 0.0 || s.x < 0.0
  }

  predicate OutOfBounds(sp: Spear)
    reads sp
  {
    OffScreen(sp.State())
  }

  /** Python's `list.remove(x)`: drops the first element equal to x, or
      fails (ValueError) when there is none. */
  function RemoveFirst<T(==)>(s: seq<T>, x: T): (r: Option<seq<T>>)
    ensures r.None? <==> x !in s
    ensures r.Some? ==> |r.value| == |s| - 1 && multiset(r.value) == multiset(s) - multiset{x}
  {
    if s == [] then None
    else if s[0] == x then assert s == [x] + s[1..]; Some(s[1..])
    else match RemoveFirst(s[1..], x)
      case None => None
      case Some(t) => assert s == [s[0]] + s[1..]; Some([s[0]] + t)
  }

  /** When x sits at index i and nowhere before, `remove` cuts out index i. */
  lemma {:induction false} RemoveFirstAt<T>(s: seq<T>, x: T, i: nat)
    requires i < |s| && s[i] == x && x !in s[..i]
    ensures RemoveFirst(s, x) == Some(s[..i] + s[i + 1..])
  {
    if i == 0 {
      assert s[..0] + s[1..] == s[1..];
    } else {
      var tail := s[1..];
      assert s[0] in s[..i];
      assert s[0] != x;
      assert tail[..i - 1] == s[1..i];
      assert tail[i..] == s[i + 1..];
      RemoveFirstAt(tail, x, i - 1);
      assert RemoveFirst(s, x) == Some([s[0]] + (s[1..i] + s[i + 1..]));
      assert [s[0]] + s[1..i] == s[..i];
      assert [s[0]] + (s[1..i] + s[i + 1..]) == ([s[0]] + s[1..i]) + s[i + 1..];
    }
  }

  lemma DistinctCut<T>(s: seq<T>, i: nat)
    requires Distinct(s) && i < |s|
    ensures Distinct(s[..i] + s[i + 1..])
    ensures s[i] !in s[..i] + s[i + 1..]
  {
    var t := s[..i] + s[i + 1..];
    forall a, b | 0 <= a < b < |t| ensures t[a] != t[b] {
      var a' := if a < i then a else a + 1;
      var b' := if b < i then b else b + 1;
      assert t[a] == s[a'] && t[b] == s[b'];
    }
  }

  /** In a list of distinct elements, `remove` of the element at index i
      cuts out exactly that index, and what is left stays distinct. */
  lemma CutRemove<T>(s: seq<T>, i: nat)
    requires Distinct(s) && i < |s|
    ensures RemoveFirst(s, s[i]) == Some(s[..i] + s[i + 1..])
    ensures Distinct(s[..i] + s[i + 1..]) && s[i] !in s[..i] + s[i + 1..]
    ensures forall x :: x in s[..i] + s[i + 1..] ==> x in s
  {
    assert s[i] !in s[..i];
    RemoveFirstAt(s, s[i], i);
    DistinctCut(s, i);
  }

  /** What is left of a list of distinct elements once the one at index i
      is cut out: every other element, and the tail after i in place. */
  lemma {:induction false} CutContents<T>(s: seq<T>, i: nat)
    requires Distinct(s) && i < |s|
    ensures forall x :: x in s[..i] + s[i + 1..] <==> x in s && x != s[i]
    ensures (s[..i] + s[i + 1..])[i..] == s[i + 1..]
  {
    DistinctCut(s, i);
    var t := s[..i] + s[i + 1..];
    forall x | x in s && x != s[i] ensures x in t {
      var k :| 0 <= k < |s| && s[k] == x;
      assert t[if k < i then k else k - 1] == x;
    }
    assert t[i..] == s[i + 1..];
  }

  /** Dropping one more element from two equal suffixes. */
  lemma SuffixStep<T>(a: seq<T>, b: seq<T>, i: nat, j: nat)
    requires i < |a| && j <= |b| && a[i..] == b[j..]
    ensures j < |b| && a[i + 1..] == b[j + 1..] && a[i] == b[j]
  {
    assert a[i..][1..] == a[i + 1..];
    assert b[j..][1..] == b[j + 1..];
  }

  /** The state of a Python `for` loop over a list that the body edits:
      `orig` is the list when the loop began, `cur` the list now, `i` the
      iterator's index into `cur` and `oi` the index in `orig` of the element
      it will yield next; `done` holds the elements already yielded. An
      element of `orig` is missing from `cur` only after it was yielded, the
      element right after a removed one is never yielded, and every other
      element before `oi` was. */
  ghost predicate Walk<T>(orig: seq<T>, cur: seq<T>, i: int, oi: int, done: set<T>)
  {
    && Distinct(orig) && 0 <= oi <= |orig| && 0 <= i <= |cur| + 1
    && (i <= |cur| ==> cur[i..] == orig[oi..])
    && (i == |cur| + 1 ==> oi == |orig|)
    && WalkSets(orig, cur, oi, done)
  }

  /** The membership half of Walk. */
  ghost predicate WalkSets<T>(orig: seq<T>, cur: seq<T>, oi: int, done: set<T>)
  {
    && 0 <= oi <= |orig|
    && (forall x :: x in cur ==> x in orig)
    && (forall x :: x in orig && x !in done ==> x in cur)
    && (forall k :: oi <= k < |orig| ==> orig[k] !in done)
    && (forall k :: 0 < k < oi && orig[k - 1] in done && orig[k - 1] !in cur ==> orig[k] !in done)
    && (forall k :: 0 <= k < oi && orig[k] !in done ==> 0 < k && orig[k - 1] in done && orig[k - 1] !in cur)
    && (0 < oi < |orig| ==> orig[oi - 1] in cur)
  }

  /** Once the iterator has run off the end of the list, an element of
      `orig` was yielded exactly when it is the first one or the element
      before it was not both yielded and removed. */
  lemma WalkDone<T>(orig: seq<T>, cur: seq<T>, i: int, oi: int, done: set<T>)
    requires Walk(orig, cur, i, oi, done) && i >= |cur|
    ensures forall k :: 0 <= k < |orig| ==>
      (orig[k] in done <==> k == 0 || !(orig[k - 1] in done && orig[k - 1] !in cur))
  {
    if i == |cur| {
      assert |orig[oi..]| == 0;
    }
  }

  /** One turn of such a loop: the element at index i is yielded, then
      either left in place or cut out of the list; the iterator moves to
      index i + 1 either way. */
  lemma {:induction false} WalkStep<T>(orig: seq<T>, cur: seq<T>, i: nat, oi: nat, done: set<T>, removed: bool)
    returns (oi': nat)
    requires Walk(orig, cur, i, oi, done) && Distinct(cur) && i < |cur|
    ensures cur[i] == orig[oi]
    ensures Walk(orig, if removed then cur[..i] + cur[i + 1..] else cur, i + 1, oi', done + {cur[i]})
  {
    SuffixStep(cur, orig, i, oi);
    DistinctCut(orig, oi);
    if removed {
      oi' := WalkCut(orig, cur, i, oi, done);
    } else {
      oi' := oi + 1;
    }
  }

  /** The turn that cuts the yielded element out: the next element of
      `orig` moves into index i and is passed over. */
  lemma {:induction false} WalkCut<T>(orig: seq<T>, cur: seq<T>, i: nat, oi: nat, done: set<T>)
    returns (oi': nat)
    requires Walk(orig, cur, i, oi, done) && Distinct(cur) && i < |cur|
    requires oi < |orig| && cur[i] == orig[oi] && cur[i + 1..] == orig[oi + 1..]
    ensures Walk(orig, cur[..i] + cur[i + 1..], i + 1, oi', done + {cur[i]})
  {
    var next := cur[..i] + cur[i + 1..];
    CutContents(cur, i);
    if oi + 1 < |orig| {
      SuffixStep(next, orig, i, oi + 1);
      oi' := oi + 2;
    } else {
      oi' := oi + 1;
    }
    WalkCutSets(orig, cur, next, oi, oi', done);
  }

  /** WalkSets after a cut turn. */
  lemma {:induction false} WalkCutSets<T>(orig: seq<T>, cur: seq<T>, next: seq<T>, oi: nat, oi': nat, done: set<T>)
    requires Distinct(orig) && oi < |orig| && oi + 1 <= oi' <= oi + 2 && oi' <= |orig|
    requires forall x :: x in next <==> x in cur && x != orig[oi]
    requires WalkSets(orig, cur, oi, done) && (0 < oi ==> orig[oi - 1] in cur)
    requires oi' == oi + 2 ==> orig[oi + 1] in next
    requires oi' == oi + 1 ==> oi' == |orig|
    ensures WalkSets(orig, next, oi', done + {orig[oi]})
  {
    var y := orig[oi];
    forall k | oi' <= k < |orig| ensures orig[k] !in done + {y} {
      assert orig[k] != y;
    }
    forall k | 0 < k < oi' && orig[k - 1] in done + {y} && orig[k - 1] !in next
      ensures orig[k] !in done + {y}
    {
      if k - 1 < oi {
        assert orig[k - 1] != y;
        assert orig[k - 1] !in cur;
        assert k != oi;
        assert orig[k] != y;
      }
    }
  }

  /** A spear the loop may drop: thrown, and either spent on a hit or out
      of bounds. */
  predicate Culled(sp: Spear)
    reads sp
  {
    sp.thrown && (sp.destroyed || OutOfBounds(sp))
  }

  /** The targets' states, in list order. */
  function Foes(es: seq<Enemie>): (r: seq<Foe>)
    reads es
    ensures |r| == |es| && forall k :: 0 <= k < |es| ==> r[k] == es[k].State()
  {
    seq(|es|, k requires 0 <= k < |es| reads es => es[k].State())
  }

  /** Target k of `es`, in state fs[k], is alive and within reach of a
      spear in state s. */
  predicate Exposed(es: seq<Enemie>, fs: seq<Foe>, s: SpearState, k: int)
  {
    0 <= k < |es| && k < |fs| && !fs[k].killed && Reaches(es[k], s)
  }

  /** The first target at index j or later that is exposed to s. */
  function FirstFrom(es: seq<Enemie>, fs: seq<Foe>, s: SpearState, j: nat): (r: Option<nat>)
    requires j <= |es|
    ensures r.Some? ==> j <= r.value < |es| && Exposed(es, fs, s, r.value)
    ensures r.Some? ==> forall k :: j <= k < r.value ==> !Exposed(es, fs, s, k)
    ensures r.None? ==> forall k :: j <= k < |es| ==> !Exposed(es, fs, s, k)
    decreases |es| - j
  {
    if j == |es| then None
    else if Exposed(es, fs, s, j) then Some(j)
    else FirstFrom(es, fs, s, j + 1)
  }

  /** The enemy loop of `update` on values: `check_collision` succeeds
      first on the first live target in reach, provided the spear is
      thrown and intact; otherwise on none. */
  function FirstStrike(es: seq<Enemie>, fs: seq<Foe>, s: SpearState): (r: Option<nat>)
    ensures r.Some? ==> s.thrown && !s.destroyed && r.value < |es| && Exposed(es, fs, s, r.value)
    ensures r.Some? ==> forall k :: 0 <= k < r.value ==> !Exposed(es, fs, s, k)
    ensures r.None? ==> !(s.thrown && !s.destroyed) || forall k :: 0 <= k < |es| ==> !Exposed(es, fs, s, k)
  {
    if s.thrown && !s.destroyed then FirstFrom(es, fs, s, 0) else None
  }

  /** What the enemy loop does to the targets: the first one struck takes
      the spear's charge value; the others keep their state. */
  function Resolve(es: seq<Enemie>, fs: seq<Foe>, s: SpearState): (r: seq<Foe>)
    requires |fs| == |es|
    ensures |r| == |es|
    ensures forall k :: 0 <= k < |es| && FirstStrike(es, fs, s) != Some(k) ==> r[k] == fs[k]
    ensures FirstStrike(es, fs, s).Some? ==> var j := FirstStrike(es, fs, s).value;
      && r[j].hp == HpAfterHit(fs[j].hp, s.chargeValue)
      && (r[j].killed <==> r[j].hp == 0)
  {
    match FirstStrike(es, fs, s)
    case None => fs
    case Some(j) => fs[j := Struck(fs[j], s.chargeValue)]
  }

  /** Only the target struck changes, and a killed target never does. */
  lemma ResolveOnlyStruck(es: seq<Enemie>, fs: seq<Foe>, s: SpearState)
    requires |fs| == |es|
    ensures forall k :: 0 <= k < |es| && Resolve(es, fs, s)[k] != fs[k] ==> FirstStrike(es, fs, s) == Some(k)
    ensures forall k :: 0 <= k < |es| && fs[k].killed ==> Resolve(es, fs, s)[k] == fs[k]
  {
  }

  /** `check_collision` succeeds for a spear in state s on some target of
      `es`, as the targets are now. */
  predicate Strikes(es: seq<Enemie>, s: SpearState)
    reads es
    ensures Strikes(es, s) <==> s.thrown && !s.destroyed && exists k :: 0 <= k < |es| && !es[k].killed && Reaches(es[k], s)
  {
    var fs := Foes(es);
    assert forall k :: 0 <= k < |es| ==> (Exposed(es, fs, s, k) <==> !es[k].killed && Reaches(es[k], s));
    FirstStrike(es, fs, s).Some?
  }

  /** The states of the spears of `ss`, in list order: the spear-side
      counterpart of `Foes`. */
  function Snapshot(ss: seq<Spear>): (r: seq<SpearState>)
    reads ss
    ensures |r| == |ss| && forall k :: 0 <= k < |ss| ==> r[k] == ss[k].State()
  {
    seq(|ss|, k requires 0 <= k < |ss| reads ss => ss[k].State())
  }

  /** The spear loop so far, against `start`, the states of `orig` when the
      tick began, and `st`, their states now: a spear not yet visited is as
      it was; a visited one took its Tick, apart from `destroyed`, which a
      hit sets; a visited spear still in the list was not hit and is on
      screen. */
  ghost predicate Swept(orig: seq<Spear>, cur: seq<Spear>, start: seq<SpearState>, now: real,
                        aim: (real, real) -> Heading, done: set<Spear>, st: seq<SpearState>)
  {
    && |start| == |orig| && |st| == |orig|
    && (forall s :: s in done ==> s in orig)
    && (forall k :: 0 <= k < |orig| && orig[k] !in done ==> st[k] == start[k])
    && (forall k :: 0 <= k < |orig| && orig[k] in done ==>
          st[k] == Tick(start[k], now, aim(start[k].x, start[k].y)).(destroyed := st[k].destroyed))
    && (forall k :: 0 <= k < |orig| && orig[k] in done && orig[k] in cur ==>
          !(st[k].thrown && OffScreen(st[k])) && st[k].destroyed == start[k].destroyed)
  }

  /** Which spears a pass over `orig` that ended with the list `cur` visited:
      the first, and every spear whose predecessor in `orig` was not both
      visited and removed (removing an element under a running index skips
      the one after it). */
  ghost predicate VisitOrder(orig: seq<Spear>, cur: seq<Spear>, done: set<Spear>)
  {
    forall k :: 0 <= k < |orig| ==> (orig[k] in done <==> k == 0 || !(orig[k - 1] in done && orig[k - 1] !in cur))
  }

  /** No visited spear that a hit destroyed this tick is also out of bounds:
      no spear has been removed twice. */
  ghost predicate NoDoubleRemove(orig: seq<Spear>, cur: seq<Spear>, start: seq<SpearState>, done: set<Spear>,
                                 st: seq<SpearState>)
  {
    forall k :: 0 <= k < |orig| && k < |start| && k < |st| && orig[k] in done && orig[k] !in cur
                && !start[k].destroyed && st[k].destroyed
      ==> !(st[k].thrown && OffScreen(st[k]))
  }

  /** One visit keeps Swept and NoDoubleRemove: only the visited spear, at
      index oi of `orig`, changed, to `x`, its Tick, and the list lost at
      most that spear. */
  lemma SweptStep(orig: seq<Spear>, cur: seq<Spear>, cur': seq<Spear>, start: seq<SpearState>,
                  now: real, aim: (real, real) -> Heading, done: set<Spear>, st: seq<SpearState>,
                  oi: nat, st': seq<SpearState>)
    requires Swept(orig, cur, start, now, aim, done, st)
    requires Distinct(orig) && oi < |orig| && orig[oi] !in done
    requires forall s :: s in cur' ==> s in cur
    requires forall s :: s in cur && s != orig[oi] ==> s in cur'
    requires |st'| == |orig| && forall k :: 0 <= k < |orig| && k != oi ==> st'[k] == st[k]
    requires st'[oi] == Tick(st[oi], now, aim(st[oi].x, st[oi].y)).(destroyed := st'[oi].destroyed)
    requires orig[oi] in cur' ==> !(st'[oi].thrown && OffScreen(st'[oi])) && st'[oi].destroyed == st[oi].destroyed
    ensures Swept(orig, cur', start, now, aim, done + {orig[oi]}, st')
    ensures NoDoubleRemove(orig, cur, start, done, st)
      && (orig[oi] !in cur' && !st[oi].destroyed && st'[oi].destroyed ==> !(st'[oi].thrown && OffScreen(st'[oi])))
      ==> NoDoubleRemove(orig, cur', start, done + {orig[oi]}, st')
  {
  }

  /** What the spear loop has done to the targets so far: trace[k] holds
      their states just before the spear at index k of `orig` would be
      checked, and trace[|orig|] their states now. A spear that was not
      visited leaves them alone; a visited spear, in its state after its
      Tick, strikes the first live target in reach, and it was destroyed
      this tick exactly when it struck one. */
  ghost predicate Trace(es: seq<Enemie>, orig: seq<Spear>, done: set<Spear>, start: seq<SpearState>, now: real,
                        aim: (real, real) -> Heading, st: seq<SpearState>, trace: seq<seq<Foe>>)
  {
    && |start| == |orig| && |st| == |orig| && |trace| == |orig| + 1
    && (forall k :: 0 <= k <= |orig| ==> |trace[k]| == |es|)
    && (forall k :: 0 <= k < |orig| && orig[k] !in done ==> trace[k + 1] == trace[k])
    && (forall k :: 0 <= k < |orig| && orig[k] in done ==> StrikeStep(es, start, now, aim, st, trace, k))
  }

  /** The visit of the spear at index k: in its state after its Tick it
      resolves its strike against trace[k], giving trace[k + 1], and it was
      destroyed this tick exactly when it struck. */
  ghost predicate StrikeStep(es: seq<Enemie>, start: seq<SpearState>, now: real, aim: (real, real) -> Heading,
                             st: seq<SpearState>, trace: seq<seq<Foe>>, k: nat)
  {
    && k < |start| && k < |st| && k + 1 < |trace| && |trace[k]| == |es|
    && var a := Tick(start[k], now, aim(start[k].x, start[k].y));
       && trace[k + 1] == Resolve(es, trace[k], a)
       && (st[k].destroyed <==> start[k].destroyed || FirstStrike(es, trace[k], a).Some?)
  }

  /** One visit extends the trace: the visited spear, at index oi of
      `orig`, resolves its strike against trace[oi], and the targets'
      states from there on are the result, fs. */
  lemma TraceStep(es: seq<Enemie>, orig: seq<Spear>, done: set<Spear>, start: seq<SpearState>, now: real,
                  aim: (real, real) -> Heading, st: seq<SpearState>, trace: seq<seq<Foe>>, oi: nat,
                  st': seq<SpearState>, fs: seq<Foe>)
    returns (trace': seq<seq<Foe>>)
    requires Trace(es, orig, done, start, now, aim, st, trace)
    requires Distinct(orig) && oi < |orig| && forall k :: oi <= k < |orig| ==> orig[k] !in done
    requires |st'| == |orig| && forall k :: 0 <= k < |orig| && k != oi ==> st'[k] == st[k]
    requires var a := Tick(start[oi], now, aim(start[oi].x, start[oi].y));
      && (st'[oi].destroyed <==> start[oi].destroyed || FirstStrike(es, trace[oi], a).Some?)
      && fs == Resolve(es, trace[oi], a)
    ensures Trace(es, orig, done + {orig[oi]}, start, now, aim, st', trace')
    ensures trace'[0] == trace[0] && forall k :: oi < k <= |orig| ==> trace'[k] == fs
  {
    trace' := trace[..oi + 1] + seq(|orig| - oi, _ => fs);
    forall k | 0 <= k < |orig| && k != oi
      ensures orig[k] in done + {orig[oi]} <==> orig[k] in done
    {
      assert orig[k] != orig[oi];
    }
  }

  /** A killed target stays as it is for the rest of the trace. */
  lemma {:induction false} TraceKeepsDead(es: seq<Enemie>, orig: seq<Spear>, done: set<Spear>, start: seq<SpearState>,
                                          now: real, aim: (real, real) -> Heading, st: seq<SpearState>,
                                          trace: seq<seq<Foe>>, k: nat, m: nat, e: nat)
    requires Trace(es, orig, done, start, now, aim, st, trace)
    requires k <= m <= |orig| && e < |es| && trace[k][e].killed
    ensures trace[m][e] == trace[k][e]
    decreases m - k
  {
    if k < m {
      var a := Tick(start[k], now, aim(start[k].x, start[k].y));
      if orig[k] in done {
        ResolveOnlyStruck(es, trace[k], a);
      }
      TraceKeepsDead(es, orig, done, start, now, aim, st, trace, k + 1, m, e);
    }
  }

  /** A visited spear that is still intact strikes nothing among the
      targets as the loop left them: every target in its reach was already
      dead when it was checked, and stays dead. */
  lemma NoLateStrike(es: seq<Enemie>, orig: seq<Spear>, cur: seq<Spear>, done: set<Spear>, start: seq<SpearState>,
                     now: real, aim: (real, real) -> Heading, st: seq<SpearState>, trace: seq<seq<Foe>>)
    requires Trace(es, orig, done, start, now, aim, st, trace) && Swept(orig, cur, start, now, aim, done, st)
    ensures forall k :: 0 <= k < |orig| && orig[k] in done && !st[k].destroyed ==>
      FirstStrike(es, trace[|orig|], st[k]).None?
  {
    forall k | 0 <= k < |orig| && orig[k] in done && !st[k].destroyed
      ensures FirstStrike(es, trace[|orig|], st[k]).None?
    {
      var a := Tick(start[k], now, aim(start[k].x, start[k].y));
      assert StrikeStep(es, start, now, aim, st, trace, k);
      assert !start[k].destroyed && a.destroyed == start[k].destroyed;
      assert st[k] == a;
      if a.thrown {
        forall e | 0 <= e < |es| && Reaches(es[e], a)
          ensures trace[|orig|][e].killed
        {
          assert !Exposed(es, trace[k], a, e);
          TraceKeepsDead(es, orig, done, start, now, aim, st, trace, k, |orig|, e);
        }
      }
    }
  }

  /** A target whose state differs between trace[0] and trace[m] was the
      first live target in reach of some spear visited before index m. */
  lemma {:induction false} OnlyStruckChange(es: seq<Enemie>, orig: seq<Spear>, done: set<Spear>,
                                            start: seq<SpearState>, now: real, aim: (real, real) -> Heading,
                                            st: seq<SpearState>, trace: seq<seq<Foe>>, m: nat, e: nat)
    requires Trace(es, orig, done, start, now, aim, st, trace)
    requires m <= |orig| && e < |es| && trace[m][e] != trace[0][e]
    ensures exists k :: (0 <= k < m && orig[k] in done && !start[k].destroyed && st[k].destroyed
      && FirstStrike(es, trace[k], Tick(start[k], now, aim(start[k].x, start[k].y))) == Some(e))
  {
    var k := m - 1;
    var a := Tick(start[k], now, aim(start[k].x, start[k].y));
    if trace[m][e] != trace[k][e] {
      ResolveOnlyStruck(es, trace[k], a);
      assert orig[k] in done && FirstStrike(es, trace[k], a) == Some(e);
    } else {
      OnlyStruckChange(es, orig, done, start, now, aim, st, trace, k, e);
    }
  }

  /** The `killed` flags of a list of target states, in order. */
  function KilledOf(fs: seq<Foe>): (r: seq<bool>)
    ensures |r| == |fs| && forall k :: 0 <= k < |fs| ==> r[k] == fs[k].killed
  {
    seq(|fs|, k requires 0 <= k < |fs| => fs[k].killed)
  }

  /** The states of a fresh wave made from `draws`. */
  function Recruits(draws: seq<SpawnDraw>): (r: seq<Foe>)
    ensures |r| == |draws|
    ensures forall k :: 0 <= k < |r| ==> !r[k].killed && r[k].hp == draws[k].hp
  {
    seq(|draws|, k requires 0 <= k < |draws| => Foe(draws[k].hp, false, Crimson))
  }

  /** `create_enemies`: one new enemy per draw, none killed. */
  method CreateEnemies(draws: seq<SpawnDraw>) returns (es: seq<Enemie>)
    requires ValidWave(draws)
    ensures |es| == NUM_ENEMIES && Distinct(es)
    ensures forall k :: 0 <= k < |es| ==> fresh(es[k])
    ensures forall k :: 0 <= k < |es| ==>
      && es[k].x == draws[k].x && es[k].y == draws[k].y && es[k].hp == draws[k].hp
      && !es[k].killed && es[k].Valid()
    ensures Foes(es) == Recruits(draws)
  {
    es := [];
    var i := 0;
    while i < |draws|
      invariant 0 <= i <= |draws| && |es| == i && Distinct(es)
      invariant forall k :: 0 <= k < i ==> fresh(es[k])
      invariant forall k :: 0 <= k < i ==>
        && es[k].x == draws[k].x && es[k].y == draws[k].y && es[k].hp == draws[k].hp
        && !es[k].killed && es[k].Valid() && es[k].color == Crimson
    {
      var e := new Enemie(draws[i].x, draws[i].y, draws[i].hp);
      es := es + [e];
      i := i + 1;
    }
  }

  class Game {
    var enemies: seq<Enemie>
    var spears: seq<Spear>
    const character: Character
    var running: bool

    ghost predicate Valid()
      reads this`enemies, this`spears, enemies, spears
    {
      && Distinct(enemies) && Distinct(spears)
      && (forall e :: e in enemies ==> e.Valid())
      && (forall sp :: sp in spears ==> sp.Valid())
    }

    /** `all(enemy.killed for enemy in enemies)`. */
    predicate AllKilled()
      reads this`enemies, enemies
    {
      forall k :: 0 <= k < |enemies| ==> enemies[k].killed
    }

    function KilledCount(): nat
      reads this`enemies, enemies
    {
      CountTrue(KilledOf(Foes(enemies)))
    }

    constructor (draws: seq<SpawnDraw>)
      requires ValidWave(draws)
      ensures Valid() && running && spears == []
      ensures |enemies| == NUM_ENEMIES && KilledCount() == 0
      ensures character.x == CHARACTER_X && character.y == CHARACTER_Y && character.enemiesKilled == 0
    {
      var es := CreateEnemies(draws);
      enemies := es;
      character := new Character(CHARACTER_X, CHARACTER_Y);
      spears := [];
      running := true;
      new;
      CountTrueNone(KilledOf(Foes(enemies)));
    }

    /** One event of `events`: Quit stops the loop; a mouse-down appends one
        new charging spear; a mouse-up throws the last spear, if any. */
    method HandleEvent(ev: Event)
      requires Valid()
      modifies this`spears, this`running, spears
      ensures Valid()
      ensures ev.Quit? ==> !running && spears == old(spears) && unchanged(old(spears))
      ensures ev.MouseDown? ==>
        && running == old(running) && |spears| == |old(spears)| + 1
        && spears[..|old(spears)|] == old(spears) && unchanged(old(spears))
        && var sp := spears[|spears| - 1];
           fresh(sp) && sp.State() == Drawn(character.x, character.y, ev.now, ev.aim)
      ensures Snapshot(spears) == Handled(old(Snapshot(spears)), character.x, character.y, ev)
      ensures ev.MouseUp? ==> running == old(running) && spears == old(spears)
      ensures ev.MouseUp? && |spears| == 0 ==> unchanged(old(spears))
      ensures ev.MouseUp? && |spears| > 0 ==>
        && var last := spears[|spears| - 1];
           last.thrown && Velocity(last.vx, last.vy) == ThrowVelocity(last.heading, last.speed)
           && last.State() == Launch(old(last.State()))
           && forall k :: 0 <= k < |spears| - 1 ==> unchanged(spears[k])
    {
      match ev
      case Quit =>
        running := false;
      case MouseDown(now, aim) =>
        Press(now, aim);
      case MouseUp =>
        Release();
    }

    /** A mouse-down: a new spear is created next to the character,
        appended, and starts charging. */
    method Press(now: real, aim: Heading)
      requires Valid()
      modifies this`spears
      ensures Valid() && |spears| == |old(spears)| + 1 && spears[..|old(spears)|] == old(spears)
      ensures fresh(spears[|spears| - 1]) && spears[|spears| - 1].State() == Drawn(character.x, character.y, now, aim)
      ensures Snapshot(spears) == old(Snapshot(spears)) + [Drawn(character.x, character.y, now, aim)]
    {
      var sp := new Spear(character, aim);
      spears := spears + [sp];
      sp.StartCharging(now);
    }

    /** A mouse-up: the last spear of the list, if any, is thrown. */
    method Release()
      requires Valid()
      modifies spears
      ensures Valid()
      ensures |spears| == 0 ==> Snapshot(spears) == old(Snapshot(spears))
      ensures |spears| > 0 ==>
        && var last := spears[|spears| - 1];
           last.thrown && Velocity(last.vx, last.vy) == ThrowVelocity(last.heading, last.speed)
           && last.State() == Launch(old(last.State()))
           && (forall k :: 0 <= k < |spears| - 1 ==> unchanged(spears[k]))
           && Snapshot(spears) == old(Snapshot(spears))[|spears| - 1 := Launch(old(last.State()))]
    {
      if |spears| > 0 {
        spears[|spears| - 1].Throw();
      }
    }

    /** One turn of the loop in `events`: handles `evs[i]` and carries the
        snapshot from the plan of `evs[..i]` to the plan of `evs[..i + 1]`. */
    method HandleNext(evs: seq<Event>, i: nat, ghost olds: seq<SpearState>, ghost base: seq<Spear>,
                      ghost wasRunning: bool)
      requires i < |evs| && Valid() && |base| == |olds|
      requires running == (wasRunning && !QuitIn(evs[..i]))
      requires |spears| == |olds| + MouseDowns(evs[..i]) && spears[..|olds|] == base
      requires Snapshot(spears) == Plan(olds, character.x, character.y, evs[..i])
      modifies this`spears, this`running, spears
      ensures Valid()
      ensures |spears| == |olds| + MouseDowns(evs[..i + 1]) && spears[..|olds|] == base
      ensures forall k :: 0 <= k < |spears| ==> spears[k] in old(spears) || fresh(spears[k])
      ensures Snapshot(spears) == Plan(olds, character.x, character.y, evs[..i + 1])
      ensures running == (wasRunning && !QuitIn(evs[..i + 1]))
    {
      assert evs[..i + 1][..i] == evs[..i];
      HandleEvent(evs[i]);
    }

    /** `events`: the events of one tick, in order. Every mouse-down adds
        exactly one new spear at the end, and the spears' states are the
        Plan of the events: a new spear is drawn for each press, and a
        release launches the last spear. */
    method Events(evs: seq<Event>)
      requires Valid()
      modifies this`spears, this`running, spears
      ensures Valid()
      ensures |spears| == |old(spears)| + MouseDowns(evs)
      ensures spears[..|old(spears)|] == old(spears)
      ensures forall k :: |old(spears)| <= k < |spears| ==> fresh(spears[k])
      ensures Snapshot(spears) == Plan(old(Snapshot(spears)), character.x, character.y, evs)
      ensures (exists k :: 0 <= k < |evs| && evs[k].Quit?) ==> !running
      ensures (forall k :: 0 <= k < |evs| ==> !evs[k].Quit?) ==> running == old(running)
    {
      ghost var olds := Snapshot(spears);
      var i := 0;
      while i < |evs|
        invariant 0 <= i <= |evs| && Valid()
        invariant |spears| == |olds| + MouseDowns(evs[..i])
        invariant spears[..|olds|] == old(spears)
        invariant forall k :: 0 <= k < |spears| ==> spears[k] in old(spears) || fresh(spears[k])
        invariant Snapshot(spears) == Plan(olds, character.x, character.y, evs[..i])
        invariant running == (old(running) && !QuitIn(evs[..i]))
      {
        HandleNext(evs, i, olds, old(spears), old(running));
        i := i + 1;
      }
      assert evs[..i] == evs;
      forall k | |olds| <= k < |spears|
        ensures fresh(spears[k])
      {
        forall j | 0 <= j < |olds|
          ensures spears[k] != old(spears)[j]
        {
          assert spears[j] == old(spears)[j];
        }
      }
    }

    /** The inner loop of `update`: checks the enemies in list order and
        stops at the first one the spear hits. */
    method ResolveHit(sp: Spear) returns (hitAt: Option<nat>)
      requires Valid()
      modifies enemies, sp`destroyed, character`enemiesKilled
      ensures Valid()
      ensures hitAt == old(FirstStrike(enemies, Foes(enemies), sp.State()))
      ensures hitAt.None? ==> unchanged(enemies) && unchanged(sp)
      ensures hitAt.Some? ==> hitAt.value < |enemies|
      ensures hitAt.Some? ==> forall k :: 0 <= k < |enemies| && k != hitAt.value ==> unchanged(enemies[k])
      ensures hitAt.Some? ==> var j := hitAt.value;
        && old(enemies[j].CanBeHitBy(sp)) && enemies[j].InReach(sp) && !old(enemies[j].killed)
        && enemies[j].hp == HpAfterHit(old(enemies[j].hp), sp.chargeValue)
        && enemies[j].killed == (enemies[j].hp == 0)
      ensures hitAt.Some? ==> sp.destroyed && sp.thrown
      ensures hitAt.Some? ==>
        Foes(enemies) == old(Foes(enemies))[hitAt.value := Struck(old(enemies[hitAt.value].State()), sp.chargeValue)]
      ensures character.enemiesKilled == old(character.enemiesKilled)
        + (if hitAt.Some? && enemies[hitAt.value].killed then 1 else 0)
    {
      ghost var fs, s := Foes(enemies), sp.State();
      var j := 0;
      while j < |enemies|
        invariant 0 <= j <= |enemies|
        invariant unchanged(enemies) && unchanged(sp) && unchanged(character)
        invariant s.thrown && !s.destroyed ==> forall k :: 0 <= k < j ==> !Exposed(enemies, fs, s, k)
      {
        var e := enemies[j];
        var hit := e.CheckCollision(sp);
        if hit {
          assert forall k :: 0 <= k < |enemies| && k != j ==> enemies[k] != e;
          assert forall k :: 0 <= k < |enemies| && k != j ==> unchanged(enemies[k]);
          assert Foes(enemies) == fs[j := e.State()];
          assert Exposed(enemies, fs, s, j);
          if e.killed {
            character.enemiesKilled := character.enemiesKilled + 1;
          }
          return Some(j);
        }
        assert !(s.thrown && !s.destroyed) || !Exposed(enemies, fs, s, j);
        j := j + 1;
      }
      return None;
    }

    /** The first part of `update` for one spear: an unthrown spear follows
        the cursor and charges, then every spear takes a flight step. */
    method AdvanceSpear(sp: Spear, now: real, aim: (real, real) -> Heading)
      requires Valid() && sp in spears
      modifies sp
      ensures Valid()
      ensures old(!sp.thrown && sp.ClockRunning() && now - sp.chargeStart.value >= CHARGE_TIME) ==> sp.thrown
      ensures old(sp.thrown) ==> sp.thrown && sp.speed == old(sp.speed)
      ensures sp.destroyed == old(sp.destroyed)
      ensures sp.State() == Tick(old(sp.State()), now, aim(old(sp.x), old(sp.y)))
    {
      if !sp.thrown {
        sp.Aim(aim(sp.x, sp.y));
        sp.Charge(now);
      }
      sp.Update();
    }

    /** The enemy loop for one spear, with the score: the first live target
        in reach takes the hit, and a hit that kills adds one point
        (`gained`) to `enemies_killed` inside the loop. */
    method ScoreHit(sp: Spear) returns (hit: bool, gained: nat)
      requires Valid()
      modifies enemies, sp`destroyed, character`enemiesKilled
      ensures Valid()
      ensures character.enemiesKilled == old(character.enemiesKilled) + gained
      ensures KilledCount() == old(KilledCount()) + gained
      ensures gained <= 1 && (gained == 1 ==> hit)
      ensures hit ==> sp.thrown && sp.destroyed
      ensures !hit ==> unchanged(sp)
      ensures hit <==> old(Strikes(enemies, sp.State()))
      ensures hit ==> sp.State() == old(sp.State()).(destroyed := true)
      ensures Foes(enemies) == old(Resolve(enemies, Foes(enemies), sp.State()))
    {
      ghost var fs, s := Foes(enemies), sp.State();
      ghost var after := Resolve(enemies, fs, s);
      var hitAt := ResolveHit(sp);
      hit := hitAt.Some?;
      gained := 0;
      if hitAt.Some? {
        var j := hitAt.value;
        assert Foes(enemies) == after;
        assert KilledOf(after) == KilledOf(fs)[j := enemies[j].killed];
        CountTrueSet(KilledOf(fs), j, enemies[j].killed);
        if enemies[j].killed {
          gained := 1;
        }
      }
    }

    /** The body of the spear loop of `update` at index i: advance the
        spear, resolve its first hit (removing it from the list), then cull
        it if it was thrown out of bounds. A spear removed by its hit is not
        in the list any more, so the second `remove` raises (`crashed`). */
    method StepSpear(i: nat, now: real, aim: (real, real) -> Heading)
      returns (hit: bool, removed: bool, crashed: bool, gained: nat)
      requires Valid() && i < |spears|
      modifies this`spears, spears[i], enemies, character`enemiesKilled
      ensures Valid()
      ensures KilledCount() == old(KilledCount()) + gained
      ensures character.enemiesKilled == old(character.enemiesKilled) + gained
      ensures var sp := old(spears[i]); var a := Tick(old(sp.State()), now, aim(old(sp.x), old(sp.y)));
        && (hit <==> old(Strikes(enemies, a)))
        && sp.State() == a.(destroyed := a.destroyed || hit)
        && Foes(enemies) == old(Resolve(enemies, Foes(enemies), a))
      ensures removed ==> spears == old(spears[..i] + spears[i + 1..])
      ensures !removed ==> spears == old(spears)
      ensures removed ==> Culled(old(spears[i]))
      ensures removed <==> hit || (old(spears[i]).thrown && OutOfBounds(old(spears[i])))
      ensures crashed <==> hit && old(spears[i]).thrown && OutOfBounds(old(spears[i]))
      ensures crashed ==> removed && old(spears[i]).destroyed && OutOfBounds(old(spears[i]))
    {
      var sp := spears[i];
      AdvanceSpear(sp, now, aim);
      hit, gained := ScoreHit(sp);
      removed, crashed := CullSpear(i, hit);
    }

    /** The list edits of the spear loop at index i: `remove` after a hit,
        then `remove` again when the thrown spear is out of bounds. */
    method CullSpear(i: nat, hit: bool) returns (removed: bool, crashed: bool)
      requires Valid() && i < |spears|
      requires hit ==> spears[i].thrown && spears[i].destroyed
      modifies this`spears
      ensures Valid()
      ensures removed ==> spears == old(spears[..i] + spears[i + 1..])
      ensures !removed ==> spears == old(spears)
      ensures removed ==> Culled(old(spears[i]))
      ensures removed <==> hit || (old(spears[i]).thrown && OutOfBounds(old(spears[i])))
      ensures crashed <==> hit && old(spears[i]).thrown && OutOfBounds(old(spears[i]))
      ensures crashed ==> removed
    {
      var sp := spears[i];
      CutRemove(spears, i);
      removed, crashed := false, false;
      if hit {
        spears := RemoveFirst(spears, sp).value;
        removed := true;
      }
      if sp.thrown && OutOfBounds(sp) {
        match RemoveFirst(spears, sp)
        case None =>
          crashed := true;
          return;
        case Some(rest) =>
          spears := rest;
          removed := true;
      }
    }

    /** Movement of `update`: each axis takes the later of its two keys.
        `dt` is the frame time `clock.get_time() / 10`. */
    method MoveCharacter(keys: Keys, dt: real)
      modifies character`x, character`y
      ensures character.x == old(character.x) + AxisDelta(keys.a, keys.d, CHARACTER_SPEED * dt)
      ensures character.y == old(character.y) + AxisDelta(keys.w, keys.s, CHARACTER_SPEED * dt)
    {
      var dx, dy := 0.0, 0.0;
      if keys.a { dx := -CHARACTER_SPEED * dt; }
      if keys.d { dx := CHARACTER_SPEED * dt; }
      if keys.w { dy := -CHARACTER_SPEED * dt; }
      if keys.s { dy := CHARACTER_SPEED * dt; }
      character.Move(dx, dy);
    }

    /** The wave check of `update`: when every enemy is killed the list is
        replaced by a fresh batch before any collision is resolved. */
    method RespawnIfCleared(draws: seq<SpawnDraw>)
      requires Valid() && ValidWave(draws)
      modifies this`enemies
      ensures Valid()
      ensures !old(AllKilled()) ==> enemies == old(enemies)
      ensures old(AllKilled()) ==> |enemies| == NUM_ENEMIES && KilledCount() == 0 && forall k :: 0 <= k < |enemies| ==>
        && fresh(enemies[k]) && enemies[k].x == draws[k].x && enemies[k].y == draws[k].y
        && enemies[k].hp == draws[k].hp && !enemies[k].killed
      ensures Foes(enemies) == if old(AllKilled()) then Recruits(draws) else old(Foes(enemies))
    {
      if forall k :: 0 <= k < |enemies| ==> enemies[k].killed {
        enemies := CreateEnemies(draws);
        CountTrueNone(KilledOf(Foes(enemies)));
      }
    }

    /** The part of `update` before the spear loop: the character moves, and
        a new wave replaces the enemy list if every enemy was killed. */
    method BeginTick(keys: Keys, dt: real, draws: seq<SpawnDraw>)
      requires Valid() && ValidWave(draws)
      modifies this`enemies, character`x, character`y
      ensures Valid()
      ensures character.x == old(character.x) + AxisDelta(keys.a, keys.d, CHARACTER_SPEED * dt)
      ensures character.y == old(character.y) + AxisDelta(keys.w, keys.s, CHARACTER_SPEED * dt)
      ensures !old(AllKilled()) ==> enemies == old(enemies)
      ensures old(AllKilled()) ==> |enemies| == NUM_ENEMIES && forall k :: 0 <= k < |enemies| ==>
        fresh(enemies[k]) && enemies[k].x == draws[k].x && enemies[k].y == draws[k].y
      ensures KilledCount() == if old(AllKilled()) then 0 else old(KilledCount())
      ensures Foes(enemies) == if old(AllKilled()) then Recruits(draws) else old(Foes(enemies))
    {
      MoveCharacter(keys, dt);
      RespawnIfCleared(draws);
    }

    /** One turn of the spear loop of `update`: the spear at index i takes
        its step, and the walk over the list moves on to index i + 1. */
    method Visit(i: nat, now: real, aim: (real, real) -> Heading, ghost orig: seq<Spear>, ghost oi: nat,
                 ghost done: set<Spear>)
      returns (failed: bool, gained: nat, ghost oi': nat)
      requires Valid() && i < |spears| && Walk(orig, spears, i, oi, done)
      requires forall s :: s in orig && s !in spears ==> Culled(s)
      modifies this`spears, spears[i], enemies, character`enemiesKilled
      ensures Valid() && enemies == old(enemies)
      ensures KilledCount() == old(KilledCount()) + gained
      ensures character.enemiesKilled == old(character.enemiesKilled) + gained
      ensures Walk(orig, spears, i + 1, oi', done + {old(spears[i])})
      ensures forall s :: s in orig && s !in spears ==> Culled(s)
      ensures old(spears[i]) == orig[oi] && old(spears[i]) !in done
      ensures forall s :: s in spears ==> s in old(spears)
      ensures forall s :: s in old(spears) && s != old(spears[i]) ==> s in spears
      ensures var sp := old(spears[i]); var a := Tick(old(sp.State()), now, aim(old(sp.x), old(sp.y)));
        && sp.State() == a.(destroyed := sp.destroyed)
        && (sp.destroyed <==> old(sp.destroyed) || old(Strikes(enemies, a)))
        && (sp in spears <==> !old(Strikes(enemies, a)) && !(sp.thrown && OutOfBounds(sp)))
        && (failed <==> old(Strikes(enemies, a)) && sp.thrown && OutOfBounds(sp))
        && Foes(enemies) == old(Resolve(enemies, Foes(enemies), a))
      ensures failed ==>
        old(spears[i]) in orig && old(spears[i]) !in spears && old(spears[i]).destroyed && OutOfBounds(old(spears[i]))
      ensures forall k :: 0 <= k < |orig| && k != oi ==> orig[k].State() == old(orig[k].State())
    {
      ghost var visited := spears[i];
      ghost var before := spears;
      var hit, removed;
      hit, removed, failed, gained := StepSpear(i, now, aim);
      oi' := WalkStep(orig, before, i, oi, done, removed);
      if removed {
        CutContents(before, i);
      }
      forall k | 0 <= k < |orig| && k != oi
        ensures orig[k].State() == old(orig[k].State())
      {
        assert orig[k] != visited;
      }
    }

    /** The state of the spear loop: the walk over the list, the spears it
        dropped, and what the tick did to each spear of `orig`. */
    ghost predicate Progress(orig: seq<Spear>, i: nat, oi: nat, done: set<Spear>, start: seq<SpearState>,
                             st: seq<SpearState>, now: real, aim: (real, real) -> Heading)
      reads this`enemies, this`spears, enemies, spears, orig
    {
      && Valid() && Walk(orig, spears, i, oi, done)
      && (forall s :: s in orig && s !in spears ==> Culled(s))
      && |st| == |orig| && (forall k :: 0 <= k < |orig| ==> st[k] == orig[k].State())
      && Swept(orig, spears, start, now, aim, done, st)
    }

    /** What the spear loop did to the targets: the trace it kept, ending
        in their states now. */
    ghost predicate Fought(orig: seq<Spear>, done: set<Spear>, start: seq<SpearState>, st: seq<SpearState>,
                           trace: seq<seq<Foe>>, now: real, aim: (real, real) -> Heading)
      reads this`enemies, enemies
    {
      Trace(enemies, orig, done, start, now, aim, st, trace) && Foes(enemies) == trace[|orig|]
    }

    /** What the spear loop of one tick did, given the list `orig` it began
        with, the set `done` of spears it visited, the states `start` of
        orig's spears when the tick began and `st` of them now, and whether
        the tick crashed. The list keeps only spears of `orig`; a spear left
        it only if it is Culled; every spear not visited is still there; a
        spear after a visited and removed one was skipped, and without a
        crash exactly those were skipped (VisitOrder); each spear's state is
        as Swept says; and the tick crashed exactly when a spear that a hit
        destroyed this tick was also thrown and off screen, so that its
        second removal fails. */
    ghost predicate Passed(orig: seq<Spear>, done: set<Spear>, start: seq<SpearState>, st: seq<SpearState>,
                           crashed: bool, now: real, aim: (real, real) -> Heading)
      reads this`spears, orig
    {
      && (forall s :: s in spears ==> s in orig)
      && (forall s :: s in orig && s !in spears ==> Culled(s))
      && (crashed ==> exists s :: s in orig && s !in spears && s.destroyed && OutOfBounds(s))
      && (forall s :: s in orig && s !in done ==> s in spears)
      && (forall k :: 0 < k < |orig| && orig[k - 1] in done && orig[k - 1] !in spears ==> orig[k] !in done)
      && (!crashed ==> VisitOrder(orig, spears, done))
      && |start| == |orig| && |st| == |orig| && (forall k :: 0 <= k < |orig| ==> st[k] == orig[k].State())
      && Swept(orig, spears, start, now, aim, done, st)
      && (crashed <==> exists k :: (0 <= k < |orig| && orig[k] !in spears
            && !start[k].destroyed && st[k].destroyed && st[k].thrown && OffScreen(st[k])))
    }

    /** Visit, together with the record of what the tick has done so far to
        the spears of `orig`: `st` holds their current states and `start`
        their states when the tick began. */
    method TrackedVisit(i: nat, now: real, aim: (real, real) -> Heading, ghost orig: seq<Spear>, ghost oi: nat,
                        ghost done: set<Spear>, ghost start: seq<SpearState>, ghost st: seq<SpearState>)
      returns (failed: bool, gained: nat, ghost oi': nat, ghost st': seq<SpearState>)
      requires i < |spears| && Progress(orig, i, oi, done, start, st, now, aim)
      requires NoDoubleRemove(orig, spears, start, done, st)
      modifies this`spears, spears[i], enemies, character`enemiesKilled
      ensures Progress(orig, i + 1, oi', done + {old(spears[i])}, start, st', now, aim)
      ensures enemies == old(enemies)
      ensures KilledCount() == old(KilledCount()) + gained
      ensures character.enemiesKilled == old(character.enemiesKilled) + gained
      ensures !failed ==> NoDoubleRemove(orig, spears, start, done + {old(spears[i])}, st')
      ensures failed ==> var sp := old(spears[i]);
        sp in orig && sp !in spears && !start[oi].destroyed && sp.destroyed && sp.thrown && OutOfBounds(sp)
        && sp == orig[oi]
      ensures oi < |orig| && st' == st[oi := st'[oi]] && old(spears[i]) == orig[oi]
      ensures var a := Tick(start[oi], now, aim(start[oi].x, start[oi].y));
        && Foes(enemies) == Resolve(enemies, old(Foes(enemies)), a)
        && (st'[oi].destroyed <==> start[oi].destroyed || FirstStrike(enemies, old(Foes(enemies)), a).Some?)
    {
      var sp := spears[i];
      ghost var before, fs0, s0 := spears, Foes(enemies), sp.State();
      failed, gained, oi' := Visit(i, now, aim, orig, oi, done);
      st' := st[oi := sp.State()];
      SweptStep(orig, before, spears, start, now, aim, done, st, oi, st');
    }

    /** TrackedVisit, together with the trace of the targets' states. */
    method FoughtVisit(i: nat, now: real, aim: (real, real) -> Heading, ghost orig: seq<Spear>, ghost oi: nat,
                       ghost done: set<Spear>, ghost start: seq<SpearState>, ghost st: seq<SpearState>,
                       ghost trace: seq<seq<Foe>>)
      returns (failed: bool, gained: nat, ghost oi': nat, ghost st': seq<SpearState>, ghost trace': seq<seq<Foe>>)
      requires i < |spears| && Progress(orig, i, oi, done, start, st, now, aim)
      requires NoDoubleRemove(orig, spears, start, done, st)
      requires Fought(orig, done, start, st, trace, now, aim) && forall k :: oi <= k <= |orig| ==> trace[k] == trace[|orig|]
      modifies this`spears, spears[i], enemies, character`enemiesKilled
      ensures Progress(orig, i + 1, oi', done + {old(spears[i])}, start, st', now, aim)
      ensures Fought(orig, done + {old(spears[i])}, start, st', trace', now, aim)
      ensures forall k :: oi' <= k <= |orig| ==> trace'[k] == trace'[|orig|]
      ensures trace'[0] == trace[0]
      ensures enemies == old(enemies)
      ensures KilledCount() == old(KilledCount()) + gained
      ensures character.enemiesKilled == old(character.enemiesKilled) + gained
      ensures !failed ==> NoDoubleRemove(orig, spears, start, done + {old(spears[i])}, st')
      ensures failed ==> var sp := old(spears[i]);
        sp in orig && sp !in spears && !start[oi].destroyed && sp.destroyed && sp.thrown && OutOfBounds(sp)
        && sp == orig[oi]
    {
      ghost var fs0 := Foes(enemies);
      assert fs0 == trace[oi];
      failed, gained, oi', st' := TrackedVisit(i, now, aim, orig, oi, done, start, st);
      ghost var fs1 := Foes(enemies);
      trace' := TraceStep(enemies, orig, done, start, now, aim, st, trace, oi, st', fs1);
      assert fs1 == trace'[|orig|];
    }

    /** The spear loop of `update`. The list is walked by index while spears
        are removed from it, as Python's list iterator does: the spear right
        after a removed one is skipped this tick. A spear that hits and is
        also out of bounds is removed twice; the second `remove` finds
        nothing, Python raises ValueError, and the pass stops with `crashed`.
        `processed` is the set of spears the loop visited and `kills` the
        number of enemies killed on the way, each of which added one to
        `enemies_killed`. `trace` records the targets' states between
        visits (Fought). */
    method SpearLoop(now: real, aim: (real, real) -> Heading)
      returns (crashed: bool, kills: nat, ghost processed: set<Spear>, ghost start: seq<SpearState>,
               ghost st: seq<SpearState>, ghost trace: seq<seq<Foe>>)
      requires Valid()
      modifies this`spears, spears, enemies, character`enemiesKilled
      ensures Valid() && enemies == old(enemies)
      ensures KilledCount() == old(KilledCount()) + kills
      ensures character.enemiesKilled == old(character.enemiesKilled) + kills
      ensures |start| == |old(spears)| && forall k :: 0 <= k < |old(spears)| ==> start[k] == old(spears[k].State())
      ensures Passed(old(spears), processed, start, st, crashed, now, aim)
      ensures Fought(old(spears), processed, start, st, trace, now, aim) && trace[0] == old(Foes(enemies))
    {
      crashed := false;
      processed := {};
      kills := 0;
      ghost var orig := spears;
      start := Snapshot(spears);
      st := start;
      ghost var fs := Foes(enemies);
      trace := seq(|orig| + 1, _ => fs);
      ghost var oi: nat, culprit: nat := 0, 0;
      var i := 0;
      while i < |spears| && !crashed
        invariant enemies == old(enemies)
        invariant KilledCount() == old(KilledCount()) + kills
        invariant character.enemiesKilled == old(character.enemiesKilled) + kills
        invariant Progress(orig, i, oi, processed, start, st, now, aim)
        invariant Fought(orig, processed, start, st, trace, now, aim) && trace[0] == fs
        invariant forall k :: oi <= k <= |orig| ==> trace[k] == trace[|orig|]
        invariant !crashed ==> NoDoubleRemove(orig, spears, start, processed, st)
        invariant crashed ==>
          && culprit < |orig| && orig[culprit] !in spears
          && !start[culprit].destroyed && orig[culprit].destroyed && orig[culprit].thrown && OutOfBounds(orig[culprit])
        decreases |spears| + 1 - i
      {
        var sp := spears[i];
        assert sp == orig[oi];
        var gained;
        culprit := oi;
        crashed, gained, oi, st, trace := FoughtVisit(i, now, aim, orig, oi, processed, start, st, trace);
        processed := processed + {sp};
        kills := kills + gained;
        i := i + 1;
      }
      PassedAtEnd(orig, i, oi, processed, start, st, crashed, culprit, now, aim);
    }

    /** When the spear loop stops, either because its index ran off the list
        or because a visit crashed, the record it kept gives Passed. */
    lemma PassedAtEnd(orig: seq<Spear>, i: nat, oi: nat, done: set<Spear>, start: seq<SpearState>,
                      st: seq<SpearState>, crashed: bool, culprit: nat, now: real, aim: (real, real) -> Heading)
      requires Progress(orig, i, oi, done, start, st, now, aim)
      requires !crashed ==> i >= |spears| && NoDoubleRemove(orig, spears, start, done, st)
      requires crashed ==>
        && culprit < |orig| && orig[culprit] !in spears
        && !start[culprit].destroyed && orig[culprit].destroyed && orig[culprit].thrown && OutOfBounds(orig[culprit])
      ensures Passed(orig, done, start, st, crashed, now, aim)
    {
      if crashed {
        assert st[culprit] == orig[culprit].State();
      } else {
        WalkDone(orig, spears, i, oi, done);
      }
    }

    /** One tick of `update`: movement, the wave check, then the spear loop. */
    method Update(dt: real, keys: Keys, now: real, aim: (real, real) -> Heading, draws: seq<SpawnDraw>)
      returns (crashed: bool, ghost processed: set<Spear>, ghost start: seq<SpearState>, ghost st: seq<SpearState>,
               ghost trace: seq<seq<Foe>>)
      requires Valid() && ValidWave(draws)
      modifies this`enemies, this`spears, character`x, character`y, character`enemiesKilled, spears, enemies
      ensures Valid()
      ensures character.x == old(character.x) + AxisDelta(keys.a, keys.d, CHARACTER_SPEED * dt)
      ensures character.y == old(character.y) + AxisDelta(keys.w, keys.s, CHARACTER_SPEED * dt)
      ensures !old(AllKilled()) ==> enemies == old(enemies)
      ensures old(AllKilled()) ==> |enemies| == NUM_ENEMIES && forall k :: 0 <= k < |enemies| ==>
        fresh(enemies[k]) && enemies[k].x == draws[k].x && enemies[k].y == draws[k].y
      ensures character.enemiesKilled ==
        old(character.enemiesKilled) + KilledCount() - (if old(AllKilled()) then 0 else old(KilledCount()))
      ensures character.enemiesKilled >= old(character.enemiesKilled)
      ensures |start| == |old(spears)| && forall k :: 0 <= k < |old(spears)| ==> start[k] == old(spears[k].State())
      ensures Passed(old(spears), processed, start, st, crashed, now, aim)
      ensures Fought(old(spears), processed, start, st, trace, now, aim)
      ensures trace[0] == if old(AllKilled()) then Recruits(draws) else old(Foes(enemies))
    {
      BeginTick(keys, dt, draws);
      ghost var killedMid, score := KilledCount(), character.enemiesKilled;
      var kills;
      crashed, kills, processed, start, st, trace := SpearLoop(now, aim);
      assert character.enemiesKilled == score + KilledCount() - killedMid;
    }
  }
}
