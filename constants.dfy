/** The enumerations of `cube/constants.py`: sticker colours and cube faces. */
module Constants {

  /** Sticker colours; `Unknown` is a colour the camera could not classify. */
  datatype Color = White | Yellow | Red | Orange | Blue | Green | Unknown

  /** The six faces, declared in the order Python's `for face in Face` visits them. */
  datatype Face = Up | Down | Front | Back | Left | Right

  /** `list(Face)`: the faces in declaration order. */
  const AllFaces: seq<Face> := [Up, Down, Front, Back, Left, Right]

  /** `list(Color)`: the colours in declaration order. */
  const AllColors: seq<Color> := [White, Yellow, Red, Orange, Blue, Green, Unknown]

  /** The colours that are counted by validation: every member except `Unknown`. */
  const RealColors: seq<Color> := [White, Yellow, Red, Orange, Blue, Green]

  /** The integer value each `Color` member carries. */
  function ColorValue(c: Color): (v: nat)
    ensures v <= 6
    ensures v == 6 <==> c == Unknown
  {
    match c
    case White => 0
    case Yellow => 1
    case Red => 2
    case Orange => 3
    case Blue => 4
    case Green => 5
    case Unknown => 6
  }

  /** The integer value each `Face` member carries; it differs from its declaration position. */
  function FaceValue(f: Face): (v: nat)
    ensures v < 6
  {
    match f
    case Up => 0
    case Down => 1
    case Front => 5
    case Back => 4
    case Left => 3
    case Right => 2
  }

  /** The position of a face in `AllFaces`. */
  function FaceIndex(f: Face): (i: nat)
    ensures i < 6 && AllFaces[i] == f
  {
    match f
    case Up => 0
    case Down => 1
    case Front => 2
    case Back => 3
    case Left => 4
    case Right => 5
  }

  /** Every face occurs exactly once in `AllFaces`, so iterating over it visits each face once. */
  lemma AllFacesEnumerates(f: Face)
    ensures f in AllFaces
    ensures |AllFaces| == 6
    ensures forall i, j :: 0 <= i < j < 6 ==> AllFaces[i] != AllFaces[j]
  {
  }

  /** Distinct members carry distinct values, for both enumerations. */
  lemma ValuesAreDistinct(c: Color, d: Color, f: Face, g: Face)
    ensures ColorValue(c) == ColorValue(d) ==> c == d
    ensures FaceValue(f) == FaceValue(g) ==> f == g
  {
  }
}
