/**
 * The integer formatters of src/utils/timeFormat.js: voice-message
 * durations, the relative-time buckets ("30 sec", "5 min", "2 hrs", "3d")
 * and the edit window. Each label is paired with a reader that recovers the
 * number it shows, and each bucket with an interval characterisation that
 * determines it.
 */
module TimeFormat {
  import opened Wrappers
  import opened JsText
  import opened SeqLemmas

  const MsPerSecond: int := 1000
  const MsPerMinute: int := 60000
  const MsPerHour: int := 3600000
  const MsPerDay: int := 86400000

  // ---------------------------------------------------------------- durations

  /** `formatDuration` on a whole number of seconds. */
  function FormatDuration(seconds: int): (r: string)
    ensures |r| > 4 && EndsWith(r, " sec")
  {
    if seconds < 60 then IntToString(seconds) + " sec"
    else NatToString(seconds / 60) + " min " + NatToString(seconds % 60) + " sec"
  }

  /** Reads a duration label back into seconds. */
  function ParseDuration(s: string): Option<int> {
    match ReadInt(s)
    case None => None
    case Some((a, rest)) =>
      if rest == " sec" && a < 60 then Some(a)
      else if |rest| >= 5 && rest[..5] == " min " && a >= 1 then ParseMinuteRemainder(a, rest[5..])
      else None
  }

  /** Reads the "<r> sec" that follows "<m> min " and adds it to the whole minutes. */
  function ParseMinuteRemainder(minutes: int, s: string): Option<int> {
    match ReadNat(s)
    case None => None
    case Some((b, tail)) => if tail == " sec" && b < 60 then Some(minutes * 60 + b) else None
  }

  /** From a minute onwards the label splits the seconds into whole minutes and a remainder below 60. */
  lemma DurationSplitsMinutes(seconds: int)
    requires seconds >= 60
    ensures exists m: nat, r: nat ::
              && r < 60 && m * 60 + r == seconds
              && FormatDuration(seconds) == NatToString(m) + " min " + NatToString(r) + " sec"
  {
    var m: nat, r: nat := seconds / 60, seconds % 60;
    assert m * 60 + r == seconds;
    assert FormatDuration(seconds) == NatToString(m) + " min " + NatToString(r) + " sec";
  }

  /** Every duration label reads back as the number of seconds it was made from. */
  lemma DurationRoundTrip(seconds: int)
    ensures ParseDuration(FormatDuration(seconds)) == Some(seconds)
  {
    if seconds < 60 {
      ReadIntOfIntToString(seconds, " sec");
    } else {
      MinuteDurationRoundTrip(seconds);
    }
  }

  lemma MinuteDurationRoundTrip(seconds: int)
    requires seconds >= 60
    ensures ParseDuration(FormatDuration(seconds)) == Some(seconds)
  {
    var m: nat, r: nat := seconds / 60, seconds % 60;
    var shown := NatToString(m) + " min " + NatToString(r) + " sec";
    assert FormatDuration(seconds) == shown;
    assert ParseDuration(shown) == Some(seconds) by {
      MinuteLabelRoundTrip(m, r);
      assert m * 60 + r == seconds;
    }
  }

  /** A "<m> min <r> sec" label reads back as m * 60 + r. */
  lemma MinuteLabelRoundTrip(m: nat, r: nat)
    requires m >= 1 && r < 60
    ensures ParseDuration(NatToString(m) + " min " + NatToString(r) + " sec") == Some(m * 60 + r)
  {
    var shown := NatToString(m) + " min " + NatToString(r) + " sec";
    var field := NatToString(r) + " sec";
    var tail := " min " + field;
    assert ReadInt(shown) == Some((m as int, tail)) by {
      ConcatAssoc4(NatToString(m), " min ", NatToString(r), " sec");
      ReadIntOfIntToString(m, tail);
    }
    assert tail[..5] == " min " && tail[5..] == field by {
      SliceConcat(" min ", field);
    }
    assert ParseMinuteRemainder(m, field) == Some(m * 60 + r) by {
      ReadNatOfNatToString(r, " sec");
    }
  }

  /** Distinct durations never share a label. */
  lemma DurationLabelsDistinct(s1: int, s2: int)
    requires FormatDuration(s1) == FormatDuration(s2)
    ensures s1 == s2
  {
    DurationRoundTrip(s1);
    DurationRoundTrip(s2);
  }

  // ------------------------------------------------------------ relative time

  /** The bucket `formatRelativeTime` picks and the number it shows. */
  datatype Elapsed = Seconds(n: int) | Minutes(n: int) | Hours(n: int) | Days(n: int)

  /** The interval of millisecond differences each bucket and number stand for. */
  predicate Covers(e: Elapsed, diffMs: int) {
    match e
    case Seconds(n) => diffMs < 60 * MsPerSecond && n * MsPerSecond <= diffMs < (n + 1) * MsPerSecond
    case Minutes(n) => 1 <= n < 60 && n * MsPerMinute <= diffMs < (n + 1) * MsPerMinute
    case Hours(n) => 1 <= n < 24 && n * MsPerHour <= diffMs < (n + 1) * MsPerHour
    case Days(n) => 1 <= n && n * MsPerDay <= diffMs < (n + 1) * MsPerDay
  }

  /** The bucket chain of `formatRelativeTime`, each step a floor division of the one before. */
  function RelativeBucket(diffMs: int): (e: Elapsed)
    ensures Covers(e, diffMs)
  {
    var secs := diffMs / 1000;
    if secs < 60 then Seconds(secs)
    else
      var mins := secs / 60;
      if mins < 60 then Minutes(mins)
      else
        var hours := mins / 60;
        if hours < 24 then Hours(hours) else Days(hours / 24)
  }

  /** Exactly one bucket applies: any bucket whose interval holds the difference is the one chosen. */
  lemma BucketIsUnique(diffMs: int, e: Elapsed)
    requires Covers(e, diffMs)
    ensures e == RelativeBucket(diffMs)
  {
  }

  /** The unit each bucket is shown with. */
  function UnitOf(e: Elapsed): string {
    match e
    case Seconds(_) => " sec"
    case Minutes(_) => " min"
    case Hours(_) => " hrs"
    case Days(_) => "d"
  }

  /** `formatRelativeTime`: the bucket's number followed by the bucket's unit. */
  function FormatRelativeTime(diffMs: int): (r: string)
    ensures var u := UnitOf(RelativeBucket(diffMs));
            |r| > |u| && EndsWith(r, u)
  {
    match RelativeBucket(diffMs)
    case Seconds(n) => IntToString(n) + " sec"
    case Minutes(n) => IntToString(n) + " min"
    case Hours(n) => IntToString(n) + " hrs"
    case Days(n) => IntToString(n) + "d"
  }

  /** Reads a relative-time label back into its bucket. */
  function ParseRelativeTime(s: string): Option<Elapsed> {
    match ReadInt(s)
    case None => None
    case Some((n, unit)) =>
      if unit == " sec" then Some(Seconds(n))
      else if unit == " min" then Some(Minutes(n))
      else if unit == " hrs" then Some(Hours(n))
      else if unit == "d" then Some(Days(n))
      else None
  }

  /** A relative-time label shows its bucket and number unambiguously. */
  lemma RelativeTimeRoundTrip(diffMs: int)
    ensures ParseRelativeTime(FormatRelativeTime(diffMs)) == Some(RelativeBucket(diffMs))
  {
    var e := RelativeBucket(diffMs);
    match e
    case Seconds(n) => ReadIntOfIntToString(n, " sec");
    case Minutes(n) => ReadIntOfIntToString(n, " min");
    case Hours(n) => ReadIntOfIntToString(n, " hrs");
    case Days(n) => ReadIntOfIntToString(n, "d");
  }

  // ------------------------------------------------------------- edit window

  /** `{ isEditable, timeLeft }`; `timeLeft == None` stands for `Infinity`. */
  datatype EditWindow = EditWindow(isEditable: bool, timeLeft: Option<int>)

  /** Messages stay editable for ever: there is no time limit, whatever the timestamp. */
  function EditableTime(timestamp: int): (w: EditWindow)
    ensures w.isEditable && w.timeLeft == None
  {
    EditWindow(true, None)
  }
}
