/** The track list of the album page (components/Albums/TrackList/TrackList.tsx):
    the duration format and what each row shows. */
module TrackList {
  import opened Wrappers
  import opened Text
  import opened Store

  const NoDuration := "--:--"
  const NoTracksMessage := "No tracks available"

  /** JavaScript's `%`: the remainder takes the sign of the dividend, and its
      magnitude is the remainder of the dividend's magnitude. */
  function JsRemainder(a: int, b: int): (r: int)
    requires b > 0
    ensures a >= 0 ==> r == a % b
    ensures a < 0 ==> -b < r <= 0
    ensures a < 0 ==> -r == (-a) % b
  {
    if a >= 0 then a % b else -((-a) % b)
  }

  /** `formatDuration`: no duration and 0 show dashes; otherwise the whole
      minutes (rounded down) and the remaining seconds padded to two digits. */
  function FormatDuration(seconds: Option<int>): (r: string)
    ensures seconds.None? || seconds.value == 0 ==> r == NoDuration
    ensures seconds.Some? && seconds.value > 0 ==>
              var k := |r| - 3;
              && k >= 1 && r[k] == ':'
              && AllDigits(r[..k]) && AllDigits(r[k + 1..])
              && DigitsValue(r[..k]) == seconds.value / 60
              && DigitsValue(r[k + 1..]) == seconds.value % 60
  {
    if seconds.None? || seconds.value == 0 then NoDuration
    else
      PositiveDigits(seconds.value);
      MinutesAndSeconds(seconds.value)
  }

  /** The text for a non-zero duration. */
  function MinutesAndSeconds(s: int): string {
    IntToString(s / 60) + ":" + PadStart(IntToString(JsRemainder(s, 60)), 2, '0')
  }

  /** For a positive duration the two parts are numerals of the minutes and
      of the seconds within the minute. */
  lemma {:induction false} PositiveDigits(s: int)
    ensures s > 0 ==>
            var r := MinutesAndSeconds(s);
            var k := |r| - 3;
            && k >= 1 && r[k] == ':'
            && AllDigits(r[..k]) && AllDigits(r[k + 1..])
            && DigitsValue(r[..k]) == s / 60
            && DigitsValue(r[k + 1..]) == s % 60
  {
    if s > 0 {
      PositiveText(s);
      MinutesSecondsDigits(s / 60, s % 60);
    }
  }

  lemma {:induction false} PositiveText(s: int)
    requires s > 0
    ensures MinutesAndSeconds(s) == NatToString(s / 60) + ":" + PadStart(NatToString(s % 60), 2, '0')
  {
    assert JsRemainder(s, 60) == s % 60;
    assert IntToString(s / 60) == NatToString(s / 60);
    assert IntToString(s % 60) == NatToString(s % 60);
  }

  /** The seconds part: two digits with the value of the remainder. */
  lemma PaddedSeconds(sec: nat)
    requires sec < 60
    ensures var p := PadStart(NatToString(sec), 2, '0');
            |p| == 2 && AllDigits(p) && DigitsValue(p) == sec
  {
    NatToStringRoundTrip(sec);
    var d := NatToString(sec);
    if sec < 10 {
      assert d == [DigitChar(sec)];
      var p := PadStart(d, 2, '0');
      assert p == ['0', DigitChar(sec)];
      assert p[..1] == "0";
      assert DigitsValue(p) == 10 * DigitsValue("0") + DigitValue(DigitChar(sec));
    } else {
      assert d == NatToString(sec / 10) + [DigitChar(sec % 10)];
    }
  }

  lemma MinutesSecondsDigits(m: nat, sec: nat)
    requires sec < 60
    ensures var a := NatToString(m);
            var p := PadStart(NatToString(sec), 2, '0');
            var r := a + ":" + p;
            && |r| - 3 == |a| && r[|a|] == ':' && r[..|a|] == a && r[|a| + 1..] == p
            && AllDigits(a) && AllDigits(p) && DigitsValue(a) == m && DigitsValue(p) == sec
  {
    NatToStringRoundTrip(m);
    PaddedSeconds(sec);
    var a := NatToString(m);
    var p := PadStart(NatToString(sec), 2, '0');
    var r := a + ":" + p;
    assert r[..|a|] == a;
    assert r[|a| + 1..] == p;
  }

  /** Reads "m:ss" back into seconds: digits, a colon, exactly two digits
      below 60. */
  function ParseDuration(t: string): (r: Option<int>)
    ensures r.Some? ==> r.value >= 0
  {
    var parts := Split(t, ':');
    if |parts| == 2 && |parts[0]| > 0 && AllDigits(parts[0]) && |parts[1]| == 2 && AllDigits(parts[1])
       && DigitsValue(parts[1]) < 60
    then Some(60 * DigitsValue(parts[0]) + DigitsValue(parts[1]))
    else None
  }

  lemma {:induction false} ParseDurationOf(a: string, b: string)
    requires |a| > 0 && AllDigits(a) && |b| == 2 && AllDigits(b) && DigitsValue(b) < 60
    ensures ParseDuration(a + ":" + b) == Some(60 * DigitsValue(a) + DigitsValue(b))
  {
    assert ':' !in a by { assert AllDigits(a); }
    assert ':' !in b by { assert AllDigits(b); }
    assert a + ":" + b == a + [':'] + b;
    SplitAfterField(a, ':', b);
    SplitWithoutSeparator(b, ':');
    assert Split(a + ":" + b, ':') == [a, b];
  }

  /** Every positive duration is shown so that it reads back exactly. */
  lemma {:induction false} FormatDurationRoundTrip(s: int)
    requires s > 0
    ensures ParseDuration(FormatDuration(Some(s))) == Some(s)
  {
    assert FormatDuration(Some(s)) == MinutesAndSeconds(s);
    PositiveText(s);
    MinutesSecondsDigits(s / 60, s % 60);
    ParseDurationOf(NatToString(s / 60), PadStart(NatToString(s % 60), 2, '0'));
  }

  /** Minutes are neither padded nor capped at an hour. */
  lemma AnHourIsSixtyMinutes()
    ensures FormatDuration(Some(3600)) == "60:00"
  {
    assert NatToString(60) == NatToString(6) + [DigitChar(0)];
    assert NatToString(0) == "0";
    assert PadStart("0", 2, '0') == "00";
  }

  /** A negative duration follows JavaScript arithmetic: the minutes round
      down while the remainder keeps the minus sign. */
  lemma NegativeDurationKeepsSigns()
    ensures FormatDuration(Some(-61)) == "-2:-1"
  {
    assert -61 / 60 == -2;
    assert JsRemainder(-61, 60) == -1;
    assert NatToString(2) == "2" && NatToString(1) == "1";
    assert IntToString(-1) == "-1";
    assert PadStart("-1", 2, '0') == "-1";
  }

  /** The artist line appears only when the artist is non-empty and differs
      from the track name. */
  function ArtistLine(t: Track): (line: Option<string>)
    ensures line.Some? <==> t.artist != "" && t.artist != t.name
    ensures line.Some? ==> line.value == t.artist
  {
    if t.artist != "" && t.artist != t.name then Some(t.artist) else None
  }

  /** One row: its 1-based number, name, artist line, duration and link. */
  datatype TrackRow = TrackRow(number: int, name: string, artistLine: Option<string>, duration: string, link: Option<string>)

  datatype TrackListView = NoTracks | Rows(rows: seq<TrackRow>)

  /** The list: the no-tracks message for a missing or empty list, otherwise
      one row per track in order, linked when the track has a url. */
  function Render(tracks: Option<seq<Track>>): (v: TrackListView)
    ensures v.NoTracks? <==> tracks.None? || |tracks.value| == 0
    ensures v.Rows? ==> |v.rows| == |tracks.value|
    ensures v.Rows? ==> forall k :: 0 <= k < |v.rows| ==>
              && v.rows[k].number == k + 1
              && v.rows[k].name == tracks.value[k].name
              && v.rows[k].artistLine == ArtistLine(tracks.value[k])
              && v.rows[k].duration == FormatDuration(tracks.value[k].duration)
              && (v.rows[k].link.Some? <==> Truthy(tracks.value[k].url))
              && (v.rows[k].link.Some? ==> v.rows[k].link == tracks.value[k].url)
  {
    if tracks.None? || |tracks.value| == 0 then NoTracks
    else
      var ts := tracks.value;
      Rows(seq(|ts|, k requires 0 <= k < |ts| =>
        TrackRow(k + 1, ts[k].name, ArtistLine(ts[k]), FormatDuration(ts[k].duration),
                 if Truthy(ts[k].url) then ts[k].url else None)))
  }
}
