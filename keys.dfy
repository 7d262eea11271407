/** The key table of the template: which key moves the player glyph, and by how much.
    Every one of the eight compass directions is bound to three keys (a navigation key,
    a vi-style letter and a keypad digit); three more keys are bound to "stay put".
    Screen coordinates grow to the right (x) and downwards (y). */
module Keys {

  /** The keys the event handler names, plus every other key. */
  datatype Key =
    | Left | Right | Up | Down | Home | PageUp | End | PageDown | Clear
    | H | L | K | J | Y | U | B | N | Period
    | Kp1 | Kp2 | Kp3 | Kp4 | Kp5 | Kp6 | Kp7 | Kp8 | Kp9
    | Other(code: int)

  /** A displacement of the cursor, in cells. */
  datatype Vec = Vec(dx: int, dy: int)

  /** The displacement one key press applies to the cursor. Unlisted keys move nothing. */
  function Delta(k: Key): (v: Vec)
    ensures -1 <= v.dx <= 1 && -1 <= v.dy <= 1
    ensures v == Vec(0, 0) <==> k in {Period, Clear, Kp5} || k.Other?
  {
    match k
    case Left | H | Kp4 => Vec(-1, 0)
    case Right | L | Kp6 => Vec(1, 0)
    case Up | K | Kp8 => Vec(0, -1)
    case Down | J | Kp2 => Vec(0, 1)
    case Home | Y | Kp7 => Vec(-1, -1)
    case PageUp | U | Kp9 => Vec(1, -1)
    case End | B | Kp1 => Vec(-1, 1)
    case PageDown | N | Kp3 => Vec(1, 1)
    case Period | Clear | Kp5 => Vec(0, 0)
    case Other(_) => Vec(0, 0)
  }

  /** The eight compass directions and "wait". North is up the screen. */
  datatype Direction = West | East | North | South | NorthWest | NorthEast | SouthWest | SouthEast | Wait

  /** The reference meaning of a direction, built from its two compass components. */
  function Vector(d: Direction): Vec
  {
    var east := d in {East, NorthEast, SouthEast};
    var west := d in {West, NorthWest, SouthWest};
    var north := d in {North, NorthWest, NorthEast};
    var south := d in {South, SouthWest, SouthEast};
    Vec((if east then 1 else 0) - (if west then 1 else 0),
        (if south then 1 else 0) - (if north then 1 else 0))
  }

  /** The navigation-cluster key for a direction (arrows, Home/End/PageUp/PageDown, Clear). */
  function NavKey(d: Direction): Key
  {
    match d
    case West => Left
    case East => Right
    case North => Up
    case South => Down
    case NorthWest => Home
    case NorthEast => PageUp
    case SouthWest => End
    case SouthEast => PageDown
    case Wait => Clear
  }

  /** The vi-style letter for a direction (h, l, k, j, y, u, b, n, and '.' to wait). */
  function ViKey(d: Direction): Key
  {
    match d
    case West => H
    case East => L
    case North => K
    case South => J
    case NorthWest => Y
    case NorthEast => U
    case SouthWest => B
    case SouthEast => N
    case Wait => Period
  }

  /** The numeric-keypad key for a direction, laid out as on a keypad (7 is up-left). */
  function KeypadKey(d: Direction): Key
  {
    match d
    case West => Kp4
    case East => Kp6
    case North => Kp8
    case South => Kp2
    case NorthWest => Kp7
    case NorthEast => Kp9
    case SouthWest => Kp1
    case SouthEast => Kp3
    case Wait => Kp5
  }

  /** The three keys bound to a direction. */
  function Bindings(d: Direction): set<Key>
  {
    {NavKey(d), ViKey(d), KeypadKey(d)}
  }

  /** All three keys of a direction apply exactly that direction's vector. */
  lemma BindingsAgree(d: Direction)
    ensures forall k :: k in Bindings(d) ==> Delta(k) == Vector(d)
  {
    match d
    case West =>
    case East =>
    case North =>
    case South =>
    case NorthWest =>
    case NorthEast =>
    case SouthWest =>
    case SouthEast =>
    case Wait =>
  }

  /** Distinct directions have distinct vectors. */
  lemma VectorInjective(d1: Direction, d2: Direction)
    ensures Vector(d1) == Vector(d2) <==> d1 == d2
  {
  }

  /** Two bound keys move the cursor identically exactly when they are bound to the same direction. */
  lemma SameDeltaIffSameDirection(k1: Key, d1: Direction, k2: Key, d2: Direction)
    requires k1 in Bindings(d1) && k2 in Bindings(d2)
    ensures Delta(k1) == Delta(k2) <==> d1 == d2
  {
    BindingsAgree(d1);
    BindingsAgree(d2);
    VectorInjective(d1, d2);
  }

  /** Every key is either bound to some direction, or it is an unlisted key, which moves nothing. */
  lemma EveryKeyBoundOrInert(k: Key)
    ensures k.Other? <==> forall d :: k !in Bindings(d)
    ensures k.Other? ==> Delta(k) == Vec(0, 0)
  {
    if !k.Other? {
      var d :=
        match k
        case Left | H | Kp4 => West
        case Right | L | Kp6 => East
        case Up | K | Kp8 => North
        case Down | J | Kp2 => South
        case Home | Y | Kp7 => NorthWest
        case PageUp | U | Kp9 => NorthEast
        case End | B | Kp1 => SouthWest
        case PageDown | N | Kp3 => SouthEast
        case Period | Clear | Kp5 => Wait;
      assert k in Bindings(d);
    }
  }

  /** The bindings of different directions do not overlap. */
  lemma BindingsDisjoint(d1: Direction, d2: Direction)
    requires d1 != d2
    ensures Bindings(d1) !! Bindings(d2)
  {
    forall k | k in Bindings(d1) && k in Bindings(d2)
      ensures false
    {
      SameDeltaIffSameDirection(k, d1, k, d2);
    }
  }
}
