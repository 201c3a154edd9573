/** A professional match record as the feed delivers it, and the duration buckets. */
module Matches {

  /** One entry of the feed; `startTime` is in Unix seconds (UTC), `duration` in seconds. */
  datatype Record = Record(matchId: int, startTime: int, duration: int, radiantScore: int, direScore: int)

  /** Kills of both teams together. */
  function Kills(m: Record): int {
    m.radiantScore + m.direScore
  }

  /** Short games last under 30 minutes, medium ones 30 to 40 minutes inclusive, long ones over 40. */
  datatype Bucket = Short | Medium | Long

  const ShortLimit := 1800
  const LongLimit := 2400

  /** The bucket of a duration: every duration gets exactly one. */
  function Classify(duration: int): (b: Bucket)
    ensures b == Short <==> duration < ShortLimit
    ensures b == Medium <==> ShortLimit <= duration <= LongLimit
    ensures b == Long <==> duration > LongLimit
  {
    if duration < ShortLimit then Short
    else if ShortLimit <= duration <= LongLimit then Medium
    else Long
  }
}
