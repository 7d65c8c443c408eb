/**
 * The wiring between the drill session and the library: the board's
 * `onComplete` and `onError` callbacks update the counters of the line
 * being drilled, found by its id.
 */
module App {
  import opened Library
  import opened Trainer

  /**
   * The library after the session reports `signal` for the line `id`: a
   * completion adds one completion, an error one error, to every line with
   * that id; a quiet drop and a thrown error leave it as it was.
   */
  function AfterSignal(games: seq<Opening>, id: int, signal: Signal): (after: seq<Opening>)
    ensures |after| == |games|
    ensures TotalCompleted(after)
            == TotalCompleted(games) + (if signal == CompleteSignal then Occurrences(games, id) else 0)
    ensures TotalErrors(after)
            == TotalErrors(games) + (if signal == ErrorSignal then Occurrences(games, id) else 0)
    ensures signal == CompleteSignal ==> after == RecordCompletion(games, id)
    ensures signal == ErrorSignal ==> after == RecordError(games, id)
    ensures signal == Quiet || signal == Fault ==> after == games
  {
    match signal
    case CompleteSignal =>
      RecordCompletionTotal(games, id);
      RecordCompletion(games, id)
    case ErrorSignal =>
      RecordErrorTotal(games, id);
      RecordError(games, id)
    case Quiet => games
    case Fault => games
  }

  /**
   * In a library whose ids are distinct, a signal about a line it holds moves
   * the matching total by exactly one.
   */
  lemma SignalCountsOnce(games: seq<Opening>, k: nat, signal: Signal)
    requires DistinctIds(games) && k < |games|
    ensures TotalCompleted(AfterSignal(games, games[k].id, signal))
            == TotalCompleted(games) + (if signal == CompleteSignal then 1 else 0)
    ensures TotalErrors(AfterSignal(games, games[k].id, signal))
            == TotalErrors(games) + (if signal == ErrorSignal then 1 else 0)
  {
    OccurrencesOfDistinct(games, games[k].id);
  }
}
