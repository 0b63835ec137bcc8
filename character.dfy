/** The player's avatar of the application package (app/Character.py): a
    position moved by deltas, the score counter the encounter loop raises,
    and the circle handed once to the shader. */
module Avatar {
  import opened AppSettings

  class Character {
    var x: real
    var y: real
    var enemiesKilled: int
    var circleCenter: (real, real)
    var circleRadius: int

    constructor (x0: real, y0: real)
      ensures x == x0 && y == y0 && enemiesKilled == 0
      ensures circleCenter == (x0, y0) && circleRadius == CHARACTER_RADIUS
    {
      x, y := x0, y0;
      enemiesKilled := 0;
      circleCenter := (x0, y0);
      circleRadius := CHARACTER_RADIUS;
    }

    /** Adds the deltas to the position; the score and the shader circle are
        not touched (the frame names only x and y). */
    method Move(dx: real, dy: real)
      modifies this`x, this`y
      ensures x == old(x) + dx && y == old(y) + dy
    {
      x := x + dx;
      y := y + dy;
    }
  }
}

/** The avatar of the root prototype (Character.py); test_3.py defines the
    same class again and is modelled with this one. */
module RootAvatar {

  class Character {
    var x: real
    var y: real

    constructor (x0: real, y0: real)
      ensures x == x0 && y == y0
    {
      x, y := x0, y0;
    }

    method Move(dx: real, dy: real)
      modifies this
      ensures x == old(x) + dx && y == old(y) + dy
    {
      x := x + dx;
      y := y + dy;
    }
  }

  /** Two moves land where one move by the summed deltas lands, and a move by
      (0, 0) stays put. */
  method MoveTwice(c: Character, dx1: real, dy1: real, dx2: real, dy2: real)
    modifies c
    ensures c.x == old(c.x) + (dx1 + dx2) && c.y == old(c.y) + (dy1 + dy2)
  {
    c.Move(dx1, dy1);
    c.Move(dx2, dy2);
    ghost var (px, py) := (c.x, c.y);
    c.Move(0.0, 0.0);
    assert c.x == px && c.y == py;
  }
}
