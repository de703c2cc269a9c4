/** How a repeated position is judged, from the point of view of the side to move. */
module Repetitions {
  datatype RepetitionResult = NoRepetition | RepetitionDraw | RepetitionWin | RepetitionLoss
}
