/**
 * The relative-time caption under each note: the elapsed time since the
 * note was created, in whole minutes, hours or days, or "Just now".
 */
module RelativeTime {

  const MsPerMinute := 60000
  const MsPerHour := 60 * MsPerMinute
  const MsPerDay := 24 * MsPerHour

  /** The caption, with its number kept as a number rather than text. */
  datatype Label = JustNow | MinutesAgo(minutes: nat) | HoursAgo(hours: nat) | DaysAgo(days: nat)

  /**
   * The caption for a note created at `thenMs`, seen at `nowMs`. Dafny's `/`
   * by a positive constant rounds toward minus infinity, as `Math.floor` does,
   * so a timestamp in the future gives a negative minute count.
   */
  function FormatTime(nowMs: int, thenMs: int): (r: Label)
    ensures r.JustNow? <==> nowMs - thenMs < MsPerMinute
    ensures r.MinutesAgo? <==> MsPerMinute <= nowMs - thenMs < MsPerHour
    ensures r.HoursAgo? <==> MsPerHour <= nowMs - thenMs < MsPerDay
    ensures r.DaysAgo? <==> MsPerDay <= nowMs - thenMs
    ensures r.MinutesAgo? ==> 1 <= r.minutes <= 59
    ensures r.MinutesAgo? ==> r.minutes * MsPerMinute <= nowMs - thenMs < (r.minutes + 1) * MsPerMinute
    ensures r.HoursAgo? ==> 1 <= r.hours <= 23
    ensures r.HoursAgo? ==> r.hours * MsPerHour <= nowMs - thenMs < (r.hours + 1) * MsPerHour
    ensures r.DaysAgo? ==> 1 <= r.days
    ensures r.DaysAgo? ==> r.days * MsPerDay <= nowMs - thenMs < (r.days + 1) * MsPerDay
  {
    var diff := (nowMs - thenMs) / MsPerMinute;
    if diff < 1 then JustNow
    else if diff < 60 then MinutesAgo(diff)
    else
      var hours := diff / 60;
      if hours < 24 then HoursAgo(hours)
      else DaysAgo(hours / 24)
  }

  /** Orders captions from youngest to oldest. */
  predicate NoOlder(a: Label, b: Label) {
    match (a, b)
    case (JustNow, _) => true
    case (MinutesAgo(m), MinutesAgo(n)) => m <= n
    case (MinutesAgo(_), HoursAgo(_)) => true
    case (MinutesAgo(_), DaysAgo(_)) => true
    case (HoursAgo(m), HoursAgo(n)) => m <= n
    case (HoursAgo(_), DaysAgo(_)) => true
    case (DaysAgo(m), DaysAgo(n)) => m <= n
    case _ => false
  }

  /** As the clock moves forward a note's caption never gets younger. */
  lemma FormatTimeMonotone(now1: int, now2: int, thenMs: int)
    requires now1 <= now2
    ensures NoOlder(FormatTime(now1, thenMs), FormatTime(now2, thenMs))
  {
  }

  /** Whole days are counted down, not rounded: 47h59m is one day. */
  lemma DaysAreTruncated(thenMs: int)
    ensures FormatTime(thenMs + 2 * MsPerDay - MsPerMinute, thenMs) == DaysAgo(1)
    ensures FormatTime(thenMs + MsPerDay - 1, thenMs) == HoursAgo(23)
  {
  }
}
