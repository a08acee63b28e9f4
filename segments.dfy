/** The shared vocabulary of the feed: where one dart landed. */
module Segments {

  /** A board number as the feed reports it: 1..20 on the board, 25 for the bull, 0 for a
      miss. The type admits anything from 0 to 25; no rule set checks the value. */
  type BoardNumber = n: int | 0 <= n <= 25

  /** Single, double or treble; 0 for a miss. */
  type Multiplier = m: int | 0 <= m <= 3

  /** One landed dart as the feed reports it (the display name and bed are left out). */
  datatype Segment = Segment(number: BoardNumber, multiplier: Multiplier)

  /** The points a dart is worth: number times multiplier, the convention every variant uses. */
  function Score(s: Segment): (points: int)
    ensures 0 <= points <= 75
    ensures points == 0 <==> s.number == 0 || s.multiplier == 0
  {
    s.number * s.multiplier
  }
}
