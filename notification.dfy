/**
 * The pure parts of src/utils/notification.js: the last-seen buckets of
 * `formatLastSeen`, and `urlBase64ToUint8Array`, which pads a base64url
 * string, maps it from the URL-safe alphabet (section 5 of RFC 4648) to the
 * standard one (section 4), decodes it with `atob` and copies the decoded
 * characters into a fresh byte array.
 */
module Notification {
  import opened Wrappers
  import opened JsText
  import opened Base64

  const MsPerMinute: int := 60000
  const MsPerHour: int := 3600000
  const MsPerDay: int := 86400000

  // -------------------------------------------------------------- last seen

  /** The label `formatLastSeen` shows; `CalendarDate` is the locale-formatted date of older times. */
  datatype LastSeenLabel =
    | Never
    | JustNow
    | MinutesAgo(n: int)
    | HoursAgo(n: int)
    | Yesterday
    | DaysAgo(n: int)
    | CalendarDate(lastSeen: int)

  /** The times each label stands for, as intervals of the difference `now - lastSeen`. */
  predicate LastSeenCovers(l: LastSeenLabel, lastSeen: Option<int>, now: int) {
    if !IsTruthy(lastSeen) then l == Never
    else
      var diff := now - lastSeen.value;
      match l
      case Never => false
      case JustNow => diff < MsPerMinute
      case MinutesAgo(n) => 1 <= n < 60 && n * MsPerMinute <= diff < (n + 1) * MsPerMinute
      case HoursAgo(n) => 1 <= n < 24 && n * MsPerHour <= diff < (n + 1) * MsPerHour
      case Yesterday => MsPerDay <= diff < 2 * MsPerDay
      case DaysAgo(n) => 2 <= n < 7 && n * MsPerDay <= diff < (n + 1) * MsPerDay
      case CalendarDate(t) => t == lastSeen.value && 7 * MsPerDay <= diff
  }

  /** The bucket chain of `formatLastSeen`: a future time counts as just now. */
  function LastSeenBucket(lastSeen: Option<int>, now: int): (l: LastSeenLabel)
    ensures LastSeenCovers(l, lastSeen, now)
  {
    if !IsTruthy(lastSeen) then Never
    else
      var diffMs := now - lastSeen.value;
      var diffMins := diffMs / 60000;
      var diffHours := diffMins / 60;
      var diffDays := diffHours / 24;
      if diffMins < 1 then JustNow
      else if diffMins < 60 then MinutesAgo(diffMins)
      else if diffHours < 24 then HoursAgo(diffHours)
      else if diffDays == 1 then Yesterday
      else if diffDays < 7 then DaysAgo(diffDays)
      else CalendarDate(lastSeen.value)
  }

  /** Exactly one label applies to each time. */
  lemma LastSeenBucketIsUnique(l: LastSeenLabel, lastSeen: Option<int>, now: int)
    requires LastSeenCovers(l, lastSeen, now)
    ensures l == LastSeenBucket(lastSeen, now)
  {
  }

  /** The text of a label; `None` for the locale-formatted date, which is not modelled. */
  function LastSeenText(l: LastSeenLabel): (r: Option<string>)
    ensures r.None? <==> l.CalendarDate?
  {
    match l
    case Never => Some("Never")
    case JustNow => Some("Just now")
    case MinutesAgo(n) => Some(IntToString(n) + "m ago")
    case HoursAgo(n) => Some(IntToString(n) + "h ago")
    case Yesterday => Some("Yesterday")
    case DaysAgo(n) => Some(IntToString(n) + "d ago")
    case CalendarDate(_) => None
  }

  /** `formatLastSeen`: 'Never' for a falsy time; no text (the locale date) exactly from a week ago on. */
  function FormatLastSeen(lastSeen: Option<int>, now: int): (r: Option<string>)
    ensures !IsTruthy(lastSeen) ==> r == Some("Never")
    ensures r.None? <==> IsTruthy(lastSeen) && now - lastSeen.value >= 7 * MsPerDay
  {
    LastSeenText(LastSeenBucket(lastSeen, now))
  }

  /** Reads a last-seen text back into its label. */
  function ParseLastSeen(s: string): Option<LastSeenLabel> {
    match ReadInt(s)
    case Some((n, unit)) =>
      if unit == "m ago" then Some(MinutesAgo(n))
      else if unit == "h ago" then Some(HoursAgo(n))
      else if unit == "d ago" then Some(DaysAgo(n))
      else None
    case None =>
      if s == "Never" then Some(Never)
      else if s == "Just now" then Some(JustNow)
      else if s == "Yesterday" then Some(Yesterday)
      else None
  }

  /** Different labels never share a text. */
  lemma LastSeenTextRoundTrip(l: LastSeenLabel)
    requires !l.CalendarDate?
    ensures LastSeenText(l).Some? && ParseLastSeen(LastSeenText(l).value) == Some(l)
  {
    match l
    case MinutesAgo(n) => ReadIntOfIntToString(n, "m ago");
    case HoursAgo(n) => ReadIntOfIntToString(n, "h ago");
    case DaysAgo(n) => ReadIntOfIntToString(n, "d ago");
    case Never => assert LeadingDigitCount("Never") == 0;
    case JustNow => assert LeadingDigitCount("Just now") == 0;
    case Yesterday => assert LeadingDigitCount("Yesterday") == 0;
  }

  // ------------------------------------------------------ base64url to bytes

  /** `s.replace(/<from>/g, <to>)` for a single character. */
  function ReplaceAll(s: string, from: char, to: char): (r: string)
    ensures |r| == |s|
    ensures forall i :: 0 <= i < |s| ==> r[i] == if s[i] == from then to else s[i]
  {
    seq(|s|, i requires 0 <= i < |s| => if s[i] == from then to else s[i])
  }

  /** The two substitutions, `-` to `+` then `_` to `/`. */
  function ToStandardAlphabet(s: string): (r: string)
    ensures |r| == |s| && NoneOf(r, '-', '_')
  {
    ReplaceAll(ReplaceAll(s, '-', '+'), '_', '/')
  }

  /** The section 4 to section 5 direction, used to state the inverse. */
  function ToUrlAlphabet(s: string): (r: string)
    ensures |r| == |s| && NoneOf(r, '+', '/')
  {
    ReplaceAll(ReplaceAll(s, '+', '-'), '/', '_')
  }

  /** Every `-` becomes `+`, every `_` becomes `/`, and every other character stays. */
  lemma StandardAlphabetPerCharacter(s: string)
    ensures |ToStandardAlphabet(s)| == |s|
    ensures forall i :: 0 <= i < |s| ==>
              ToStandardAlphabet(s)[i] == if s[i] == '-' then '+' else if s[i] == '_' then '/' else s[i]
  {
  }

  predicate NoneOf(s: string, a: char, b: char) {
    forall i :: 0 <= i < |s| ==> s[i] != a && s[i] != b
  }

  /** The two alphabet changes undo each other on strings of their own alphabet. */
  lemma AlphabetChangesAreInverse(s: string)
    ensures NoneOf(s, '+', '/') ==> ToUrlAlphabet(ToStandardAlphabet(s)) == s
    ensures NoneOf(s, '-', '_') ==> ToStandardAlphabet(ToUrlAlphabet(s)) == s
  {
    if NoneOf(s, '+', '/') {
      assert forall i :: 0 <= i < |s| ==> ToUrlAlphabet(ToStandardAlphabet(s))[i] == s[i];
    }
    if NoneOf(s, '-', '_') {
      assert forall i :: 0 <= i < |s| ==> ToStandardAlphabet(ToUrlAlphabet(s))[i] == s[i];
    }
  }

  /** `window.atob`: the decoded bytes as a string of characters U+0000 to U+00FF, or `None` where it throws. */
  function Atob(data: string): (r: Option<string>)
    ensures r.None? <==> Decode(data).None?
    ensures r.Some? ==> |r.value| == |Decode(data).value|
                        && forall i :: 0 <= i < |r.value| ==> r.value[i] as int == Decode(data).value[i]
  {
    match Decode(data)
    case None => None
    case Some(bs) => Some(seq(|bs|, i requires 0 <= i < |bs| => bs[i] as char))
  }

  /** The bytes `urlBase64ToUint8Array` returns: the decoded bytes, or none when decoding fails. */
  function UrlBase64Bytes(base64String: string): seq<Byte> {
    match Decode(ToStandardAlphabet(Padded(base64String)))
    case None => []
    case Some(bs) => bs
  }

  /** Storing a number into a `Uint8Array` element keeps it modulo 256. */
  function ToUint8(x: int): (b: Byte)
    ensures 0 <= x < 256 ==> b == x
  {
    x % 256
  }

  /** What `atob` yields on the padded, standard-alphabet input: the characters of `UrlBase64Bytes`, or a failure when that is empty for want of a decoding. */
  lemma AtobOfPadded(s: string)
    ensures var d := Atob(ToStandardAlphabet(Padded(s)));
            && (d.None? ==> UrlBase64Bytes(s) == [])
            && (d.Some? ==> |d.value| == |UrlBase64Bytes(s)|)
            && (d.Some? ==> forall i :: 0 <= i < |d.value| ==> d.value[i] as int == UrlBase64Bytes(s)[i])
  {
  }

  method UrlBase64ToUint8Array(base64String: string) returns (outputArray: array<Byte>)
    ensures fresh(outputArray)
    ensures outputArray[..] == UrlBase64Bytes(base64String)
  {
    var base64 := ToStandardAlphabet(Padded(base64String));
    var decoded := Atob(base64);
    ghost var bytes := UrlBase64Bytes(base64String);
    AtobOfPadded(base64String);
    if decoded.None? {
      outputArray := new Byte[0];
      return;
    }
    var rawData := decoded.value;
    outputArray := new Byte[|rawData|](_ => 0);
    for i := 0 to |rawData|
      invariant outputArray[..i] == bytes[..i]
    {
      outputArray[i] := ToUint8(rawData[i] as int);
      assert outputArray[..i + 1] == outputArray[..i] + [bytes[i]];
    }
    assert outputArray[..] == outputArray[..|rawData|];
  }

  /** The base64url encoding without padding, the form `urlBase64ToUint8Array` expects. */
  function EncodeUrlSafe(bs: seq<Byte>): string {
    ToUrlAlphabet(EncodeUnpadded(bs))
  }

  lemma PaddedAlphabetChange(e: string)
    requires NoneOf(e, '-', '_')
    ensures ToStandardAlphabet(Padded(ToUrlAlphabet(e))) == Padded(e)
  {
    var u := ToUrlAlphabet(e);
    var a := ToStandardAlphabet(Padded(u));
    AlphabetChangesAreInverse(e);
    assert |a| == |Padded(e)|;
    forall i | 0 <= i < |a| ensures a[i] == Padded(e)[i] {
      if i < |e| {
        assert Padded(u)[i] == u[i];
        assert ToStandardAlphabet(u)[i] == e[i];
      }
    }
  }

  /** Every byte string survives the trip through its unpadded base64url encoding. */
  lemma UrlBase64RoundTrip(bs: seq<Byte>)
    ensures UrlBase64Bytes(EncodeUrlSafe(bs)) == bs
  {
    var e := EncodeUnpadded(bs);
    assert NoneOf(e, '-', '_');
    PaddedAlphabetChange(e);
    DecodeOfEncode(bs);
  }

  /** An input one character past a whole group cannot be decoded and yields no bytes. */
  lemma StrayCharacterYieldsNoBytes(s: string)
    requires |s| % 4 == 1 && NoneOf(s, '=', '=')
    requires forall i :: 0 <= i < |s| ==> !IsAsciiWhitespace(s[i])
    ensures UrlBase64Bytes(s) == []
  {
    var p := Padded(s);
    var b := ToStandardAlphabet(p);
    StandardAlphabetPerCharacter(p);
    assert |p| == |s| + 3;
    assert RemoveAsciiWhitespace(b) == b;
    var d := StripPadding(b);
    assert d == b[..|b| - 2];
    assert d[|d| - 1] == '=';
    assert !AllInAlphabet(d);
  }
}
