// Configuration constants of the game. The application package (app/) and the
// root-level prototypes each carry their own settings file; both are modelled.

/** Constants of app/settings.py, used by the spear, the hit-point enemy, the
    encounter loop and the application avatar. */
module AppSettings {
  const SCREEN_WIDTH: int := 1600
  const SCREEN_HEIGHT: int := 900
  const CHARACTER_X: real := 100.0
  const CHARACTER_Y: real := 800.0
  const CHARACTER_RADIUS: int := 15
  const CHARACTER_SPEED: real := 10.0
  const SPEAR_HEIGHT: real := 50.0
  const SPEAR_MAX_SPEED: real := 60.0
  const SPEAR_IMPULSE: real := 4.5
  const CHARGE_TIME: real := 1.5
  const CHARGE_VALUE_MAX: int := 100
  const NUM_ENEMIES: int := 10
  const DUMMY_RADIUS: int := 23
  /** Inclusive range of `random.randint(5, 150)` for a new enemy's hit points. */
  const MIN_HP: int := 5
  const MAX_HP: int := 150
  /** Spawn margin used by every wave generator. */
  const SPAWN_MARGIN: int := 50
}

/** Constants of the root settings.py, used by the one-shot enemy and the
    single-spear prototype. */
module RootSettings {
  const SCREEN_WIDTH: int := 1600
  const SCREEN_HEIGHT: int := 900
  const CHARACTER_SPEED: real := 5.0
  const SPEAR_HEIGHT: real := 50.0
  const SPEAR_MAX_SPEED: real := 50.0
  const CHARGE_TIME: real := 1.5
  const CHARGE_VALUE_MAX: int := 100
  const NUM_DUMMIES: int := 10
  const DUMMY_RADIUS: int := 20
  const SPAWN_MARGIN: int := 50
}
