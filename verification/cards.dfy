/** Card.java: an immutable card carrying one integer face value. */
module Cards {
  import opened Wrappers
  import Text

  /** The face value is fixed at construction; the class offers no mutator,
      which a datatype value captures by construction. */
  datatype Card = Card(faceValue: int)

  /** `getFaceValue`: the value the card was built with, and nothing else. */
  function FaceValue(c: Card): (v: int)
    ensures Card(v) == c
  {
    c.faceValue
  }

  /** `toString`: the decimal rendering of the face value. */
  function ToString(c: Card): (s: string)
    ensures Text.ParseInt(s) == Some(FaceValue(c))
    ensures Text.IsWord(s)
    ensures Text.Canonical(s)
  {
    Text.IntToDecimal(c.faceValue)
  }

  /** The face values of a row of cards, in order. */
  function Values(cs: seq<Card>): (vs: seq<int>)
    ensures |vs| == |cs|
    ensures forall i :: 0 <= i < |cs| ==> vs[i] == cs[i].faceValue
  {
    if cs == [] then [] else [cs[0].faceValue] + Values(cs[1..])
  }

  /** One fresh card per value, as the dealer wraps each pack entry. */
  function CardsOf(values: seq<int>): (cs: seq<Card>)
    ensures |cs| == |values|
    ensures forall i :: 0 <= i < |values| ==> cs[i] == Card(values[i])
  {
    if values == [] then [] else [Card(values[0])] + CardsOf(values[1..])
  }

}
