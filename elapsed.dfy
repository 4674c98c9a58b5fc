/** The "time ago" buckets shared by the bot's table and the web pages:
    seconds below a minute, then minutes, hours, and days below thirty. */
module Elapsed {
  import opened Strings

  datatype Unit = Second | Minute | Hour | Day

  datatype Elapsed = Within(count: int, unit: Unit) | Older

  const MINUTE: int := 60
  const HOUR: int := 3600
  const DAY: int := 86400
  /** Thirty days, the point where an absolute date is shown instead. */
  const MONTH: int := 30 * 86400

  lemma MinutesToHours(s: int)
    requires s >= 0
    ensures s / 60 / 60 == s / 3600
  {
    var q := s / 3600;
    assert 3600 * q <= s < 3600 * q + 3600;
    assert 60 * q <= s / 60 < 60 * q + 60;
  }

  lemma HoursToDays(s: int)
    requires s >= 0
    ensures s / 3600 / 24 == s / 86400
  {
    var q := s / 86400;
    assert 86400 * q <= s < 86400 * q + 86400;
    assert 24 * q <= s / 3600 < 24 * q + 24;
  }

  /** Successive floor divisions by 60, 60 and 24, each stopping at the
      first quotient below its limit. */
  function Classify(seconds: int): (r: Elapsed)
    ensures (r.Within? && r.unit == Second) <==> seconds < MINUTE
    ensures (r.Within? && r.unit == Minute) <==> MINUTE <= seconds < HOUR
    ensures (r.Within? && r.unit == Hour) <==> HOUR <= seconds < DAY
    ensures (r.Within? && r.unit == Day) <==> DAY <= seconds < MONTH
    ensures r.Older? <==> seconds >= MONTH
    ensures r.Within? && r.unit == Second ==> r.count == seconds
    ensures r.Within? && r.unit == Minute ==> r.count == seconds / MINUTE && 1 <= r.count < 60
    ensures r.Within? && r.unit == Hour ==> r.count == seconds / HOUR && 1 <= r.count < 24
    ensures r.Within? && r.unit == Day ==> r.count == seconds / DAY && 1 <= r.count < 30
  {
    if seconds < 60 then Within(seconds, Second)
    else
      var minutes := seconds / 60;
      if minutes < 60 then Within(minutes, Minute)
      else
        var hours := minutes / 60;
        MinutesToHours(seconds);
        if hours < 24 then Within(hours, Hour)
        else
          var days := hours / 24;
          HoursToDays(seconds);
          if days < 30 then Within(days, Day) else Older
  }

  function UnitWord(unit: Unit): string {
    match unit
    case Second => "second"
    case Minute => "minute"
    case Hour => "hour"
    case Day => "day"
  }

  /** `"{n} {unit} ago"`, with the unit in the singular exactly when n is 1. */
  function Phrase(count: int, unit: Unit): (r: string)
    ensures EndsWith(r, " ago")
    ensures count == 1 <==> r == "1 " + UnitWord(unit) + " ago"
  {
    var word := if count == 1 then UnitWord(unit) else UnitWord(unit) + "s";
    var r := IntToString(count) + " " + word + " ago";
    assert r[|r| - 4..] == " ago";
    r
  }

}
