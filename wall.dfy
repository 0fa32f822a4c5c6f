/**
 * Walls (entities/wall.py). A wall sits between cells; it is identified
 * by its orientation and its reference cell, while the player who placed
 * it rides along as `owner` and plays no part in equality or hashing.
 */
module Walls {
  import opened Wrappers
  import opened Geometry
  import Config

  /** What identifies a wall: the pair `(horiz, coord)` that `__hash__` hashes. */
  datatype Slot = Slot(coord: Coord, horiz: bool)

  datatype Wall = Wall(coord: Coord, horiz: bool, owner: Option<nat>)
  {
    function Key(): Slot
    {
      Slot(coord, horiz)
    }
  }

  /**
   * `Wall.__eq__`: same orientation and same coordinate. It holds exactly
   * when the two walls have the same key, so a hash taken of the key (as
   * `__hash__` does) agrees with it, and the owner never matters.
   */
  predicate Same(a: Wall, b: Wall): (r: bool)
    ensures r <==> a.Key() == b.Key()
  {
    a.horiz == b.horiz && a.coord == b.coord
  }

  /**
   * The `coords` property, from possibly unset fields: `None` when the
   * orientation or the coordinate is unset, otherwise the reference cell
   * followed by the cell one step along `DIRS_DELTA[DIR.W]` (horizontal)
   * or `DIRS_DELTA[DIR.N]` (vertical). The table gives `DIR.W` the step
   * (0, +1), so a horizontal wall spans its cell and the next column.
   */
  function CellsOf(horiz: Option<bool>, coord: Option<Coord>): (r: Option<seq<Coord>>)
    ensures r.None? <==> horiz.None? || coord.None?
    ensures r.Some? ==> |r.value| == 2 && r.value[0] == coord.value
    ensures r.Some? && horiz.value ==> r.value[1] == Coord(coord.value.row, coord.value.col + 1)
    ensures r.Some? && !horiz.value ==> r.value[1] == Coord(coord.value.row - 1, coord.value.col)
  {
    assert Config.DirsDelta[Config.W] == Coord(0, 1) && Config.DirsDelta[Config.N] == Coord(-1, 0);
    if horiz.None? || coord.None? then None
    else if horiz.value then Some([coord.value, coord.value.Plus(Config.DirsDelta[Config.W])])
    else Some([coord.value, coord.value.Plus(Config.DirsDelta[Config.N])])
  }

  /** `coords` of a wall whose fields are set. */
  function Cells(w: Wall): seq<Coord>
  {
    CellsOf(Some(w.horiz), Some(w.coord)).value
  }

  /**
   * `Wall.collides`: parallel walls collide when they share a cell of
   * `coords`, perpendicular walls when they cross at the same coordinate.
   */
  predicate Collides(a: Wall, b: Wall)
  {
    if a.horiz == b.horiz then
      exists i :: 0 <= i < 2 && Cells(a)[i] in Cells(b)
    else
      a.coord == b.coord
  }

  /**
   * The collision rule spelled out: two horizontal walls collide iff they
   * are on one row at most one column apart, two vertical walls iff they
   * are in one column at most one row apart, and crossing walls iff they
   * have the same coordinate.
   */
  lemma CollidesGeometry(a: Wall, b: Wall)
    ensures a.horiz && b.horiz ==>
      (Collides(a, b) <==> a.coord.row == b.coord.row && Abs(a.coord.col - b.coord.col) <= 1)
    ensures !a.horiz && !b.horiz ==>
      (Collides(a, b) <==> a.coord.col == b.coord.col && Abs(a.coord.row - b.coord.row) <= 1)
    ensures a.horiz != b.horiz ==> (Collides(a, b) <==> a.coord == b.coord)
  {
    var ca, cb := Cells(a), Cells(b);
    if a.horiz == b.horiz {
      assert ca == [a.coord, ca[1]] && cb == [b.coord, cb[1]];
      if a.horiz {
        assert ca[1] == Coord(a.coord.row, a.coord.col + 1) && cb[1] == Coord(b.coord.row, b.coord.col + 1);
      } else {
        assert ca[1] == Coord(a.coord.row - 1, a.coord.col) && cb[1] == Coord(b.coord.row - 1, b.coord.col);
      }
      if a.coord.row == b.coord.row && a.horiz && Abs(a.coord.col - b.coord.col) <= 1 {
        if a.coord.col + 1 == b.coord.col { assert ca[1] in cb; }
        else { assert ca[0] in cb; }
      }
      if a.coord.col == b.coord.col && !a.horiz && Abs(a.coord.row - b.coord.row) <= 1 {
        if a.coord.row == b.coord.row + 1 { assert ca[1] in cb; }
        else { assert ca[0] in cb; }
      }
    }
  }

  /** `collides` does not depend on the order of its arguments. */
  lemma CollidesSymmetric(a: Wall, b: Wall)
    ensures Collides(a, b) == Collides(b, a)
  {
    CollidesGeometry(a, b);
    CollidesGeometry(b, a);
  }

  /** Every wall collides with every wall equal to it, itself included. */
  lemma CollidesSame(a: Wall, b: Wall)
    requires Same(a, b)
    ensures Collides(a, b)
  {
    CollidesGeometry(a, b);
  }

  function DigitChar(d: nat): (c: char)
    requires d < 10
    ensures '0' <= c <= '9'
  {
    (('0' as int) + d) as char
  }

  /** Decimal digits of a natural number, as `"%i"` prints it. */
  function NatToString(n: nat): (s: string)
    ensures 0 < |s|
    ensures forall i :: 0 <= i < |s| ==> '0' <= s[i] <= '9'
    ensures n < 10 ==> |s| == 1
    decreases n
  {
    if n < 10 then [DigitChar(n)] else NatToString(n / 10) + [DigitChar(n % 10)]
  }

  /** `"%i" % n` for any integer. */
  function IntToString(n: int): string
  {
    if n < 0 then "-" + NatToString(-n) else NatToString(n)
  }

  /** The `state` property: `"%i%i%i" % (row, col, horiz)`. */
  function State(w: Wall): string
  {
    IntToString(w.coord.row) + IntToString(w.coord.col) + IntToString(if w.horiz then 1 else 0)
  }

  /** Reads a three-character wall state back into (row, col, horiz). */
  function ParseState(s: string): Option<(int, int, bool)>
  {
    if |s| == 3 && '0' <= s[0] <= '9' && '0' <= s[1] <= '9' && (s[2] == '0' || s[2] == '1')
    then Some(((s[0] as int) - ('0' as int), (s[1] as int) - ('0' as int), s[2] == '1'))
    else None
  }

  /**
   * On boards of at most ten rows and columns the state of a wall is three
   * characters, its last one `0` or `1`, and row, column and orientation can
   * be read back from it.
   */
  lemma StateRoundTrip(w: Wall)
    requires 0 <= w.coord.row <= 9 && 0 <= w.coord.col <= 9
    ensures |State(w)| == 3
    ensures State(w)[2] == '0' || State(w)[2] == '1'
    ensures ParseState(State(w)) == Some((w.coord.row, w.coord.col, w.horiz))
  {
  }
}
