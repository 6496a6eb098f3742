/** The Last.fm album lookup (lib/lastfm-api.ts), from the HTTP reply on: the
    request itself is not modelled, and a reply is given as its status and its
    parsed JSON body. */
module LastFm {
  import opened Wrappers
  import opened Text

  datatype LfImage = LfImage(text: string, size: string)

  datatype LfArtist = LfArtist(name: Option<string>)

  /** A track duration as Last.fm sends it: a number or a string. */
  datatype LfDuration = DurationNumber(n: int) | DurationText(s: string)

  datatype LfTrack = LfTrack(
    name: Option<string>,
    duration: Option<LfDuration>,
    url: Option<string>,
    artist: Option<LfArtist>)

  /** `tracks.track`: one object or a list of them. */
  datatype LfTracks = OneTrack(track: LfTrack) | ManyTracks(list: seq<LfTrack>)

  /** An album; `tracks` is `None` when `tracks` or `tracks.track` is missing. */
  datatype LfAlbum = LfAlbum(url: Option<string>, image: Option<seq<LfImage>>, tracks: Option<LfTracks>)

  datatype LfResponse = LfResponse(album: Option<LfAlbum>, error: Option<int>)

  /** A reply that arrived: whether its status was OK, and its parsed body. */
  datatype Reply = Reply(ok: bool, body: LfResponse)

  datatype InfoTrack = InfoTrack(name: string, artist: string, duration: Option<Num>, url: Option<string>)

  datatype AlbumInfo = AlbumInfo(
    albumCover: Option<string>,
    largeAlbumCover: Option<string>,
    url: Option<string>,
    tracks: seq<InfoTrack>)

  const MediumSizes := {"medium"}
  const LargeSizes := {"large", "extralarge"}

  /** `images.find(...)`: the first image whose size is one of `sizes`. */
  function FindImage(images: seq<LfImage>, sizes: set<string>): (r: Option<LfImage>)
    ensures r.None? <==> forall k :: 0 <= k < |images| ==> images[k].size !in sizes
    ensures r.Some? ==> exists k :: 0 <= k < |images| && images[k] == r.value && r.value.size in sizes
                                    && forall j :: 0 <= j < k ==> images[j].size !in sizes
    decreases |images|
  {
    if |images| == 0 then None
    else if images[0].size in sizes then Some(images[0])
    else
      var r := FindImage(images[1..], sizes);
      if r.Some? then
        FirstMatchShift(images, sizes, r.value);
        r
      else r
  }

  lemma FirstMatchShift(images: seq<LfImage>, sizes: set<string>, v: LfImage)
    requires |images| > 0 && images[0].size !in sizes
    requires exists k :: 0 <= k < |images[1..]| && images[1..][k] == v && v.size in sizes
                         && forall j :: 0 <= j < k ==> images[1..][j].size !in sizes
    ensures exists k :: 0 <= k < |images| && images[k] == v && v.size in sizes
                        && forall j :: 0 <= j < k ==> images[j].size !in sizes
  {
    var k :| 0 <= k < |images[1..]| && images[1..][k] == v && v.size in sizes
             && forall j :: 0 <= j < k ==> images[1..][j].size !in sizes;
    assert images[k + 1] == v;
    assert forall j :: 1 <= j < k + 1 ==> images[j] == images[1..][j - 1];
  }

  /** `image?.["#text"] || null` */
  function CoverText(image: Option<LfImage>): (r: Option<string>)
    ensures r.Some? <==> image.Some? && image.value.text != ""
    ensures r.Some? ==> r.value == image.value.text
  {
    if image.Some? && image.value.text != "" then Some(image.value.text) else None
  }

  /** `track.duration ? parseInt(track.duration.toString()) : null`: no
      duration for 0 or the empty string, otherwise `parseInt` with no radix
      of its text. */
  function Duration(d: Option<LfDuration>): (r: Option<Num>)
    ensures d.None? ==> r.None?
    ensures d.Some? && d.value.DurationNumber? ==>
              r == (if d.value.n == 0 then None else Some(Int(d.value.n)))
    ensures d.Some? && d.value.DurationText? ==>
              r == (if d.value.s == "" then None else Some(ParseInt(d.value.s)))
  {
    match d
    case None => None
    case Some(DurationNumber(n)) =>
      if n == 0 then None
      else
        ParseIntOfNumeral(n);
        Some(ParseInt(IntToString(n)))
    case Some(DurationText(s)) => if s == "" then None else Some(ParseInt(s))
  }

  /** A textual duration with a `0x` prefix is read as hexadecimal. */
  lemma HexDurationText()
    ensures Duration(Some(DurationText("0x10"))) == Some(Int(16))
  {
    var t := "0x10";
    assert !IsSpace(t[0]);
    assert TrimStart(t) == t;
    assert SignAndRest(t) == (1, t);
    assert HasHexPrefix(t);
    assert t[2..] == "10";
    assert HexPrefix("10") == "10" by {
      assert "10"[1..] == "0";
      assert "0"[1..] == "";
      assert HexPrefix("0") == "0";
    }
    assert HexValue("10") == 16 by {
      assert "10"[..1] == "1";
      assert "1"[..0] == "";
      assert HexValue("1") == 1;
    }
    assert ParseInt(t) == Int(16);
  }

  /** One track as the lookup reports it: the name defaults to the empty
      string, the artist to the queried one, the url to none. */
  function ConvertTrack(t: LfTrack, artist: string): (r: InfoTrack)
    ensures r.name == (if Truthy(t.name) then t.name.value else "")
    ensures r.artist == (if t.artist.Some? && Truthy(t.artist.value.name) then t.artist.value.name.value else artist)
    ensures r.duration == Duration(t.duration)
    ensures r.url == (if Truthy(t.url) then t.url else None)
  {
    InfoTrack(
      if Truthy(t.name) then t.name.value else "",
      if t.artist.Some? && Truthy(t.artist.value.name) then t.artist.value.name.value else artist,
      Duration(t.duration),
      if Truthy(t.url) then t.url else None)
  }

  /** The track list, a single object counting as a one-element list. */
  function TrackData(tracks: Option<LfTracks>): (r: seq<LfTrack>)
    ensures tracks.None? ==> r == []
    ensures tracks.Some? && tracks.value.OneTrack? ==> r == [tracks.value.track]
    ensures tracks.Some? && tracks.value.ManyTracks? ==> r == tracks.value.list
  {
    match tracks
    case None => []
    case Some(OneTrack(t)) => [t]
    case Some(ManyTracks(ts)) => ts
  }

  function ConvertTracks(ts: seq<LfTrack>, artist: string): (r: seq<InfoTrack>)
    ensures |r| == |ts| && forall k :: 0 <= k < |ts| ==> r[k] == ConvertTrack(ts[k], artist)
  {
    seq(|ts|, k requires 0 <= k < |ts| => ConvertTrack(ts[k], artist))
  }

  /** `getAlbumInfo` from the reply on: nothing when the fetch or the JSON
      parse threw (`None`), when the status is not OK, when the body reports
      an error or has no album; otherwise the two covers, the url and the
      converted tracks in their order. */
  function GetAlbumInfo(reply: Option<Reply>, artist: string): (r: Option<AlbumInfo>)
    ensures r.Some? <==> reply.Some? && reply.value.ok && !(reply.value.body.error.Some? && reply.value.body.error.value != 0)
                         && reply.value.body.album.Some?
    ensures r.Some? ==>
              var album := reply.value.body.album.value;
              var images := album.image.GetOr([]);
              && r.value.albumCover == CoverText(FindImage(images, MediumSizes))
              && r.value.largeAlbumCover == CoverText(FindImage(images, LargeSizes))
              && r.value.url == (if Truthy(album.url) then album.url else None)
              && |r.value.tracks| == |TrackData(album.tracks)|
              && forall k :: 0 <= k < |r.value.tracks| ==> r.value.tracks[k] == ConvertTrack(TrackData(album.tracks)[k], artist)
  {
    if reply.None? || !reply.value.ok then None
    else
      var body := reply.value.body;
      if (body.error.Some? && body.error.value != 0) || body.album.None? then None
      else
        var album := body.album.value;
        var images := album.image.GetOr([]);
        Some(AlbumInfo(
          CoverText(FindImage(images, MediumSizes)),
          CoverText(FindImage(images, LargeSizes)),
          if Truthy(album.url) then album.url else None,
          ConvertTracks(TrackData(album.tracks), artist)))
  }

  /** A lone track object gives the same result as a list holding it. */
  lemma SingleTrackAsList(ok: bool, url: Option<string>, image: Option<seq<LfImage>>, t: LfTrack, artist: string)
    ensures GetAlbumInfo(Some(Reply(ok, LfResponse(Some(LfAlbum(url, image, Some(OneTrack(t)))), None))), artist) ==
            GetAlbumInfo(Some(Reply(ok, LfResponse(Some(LfAlbum(url, image, Some(ManyTracks([t])))), None))), artist)
  {
  }

  /** The large cover is whichever of "large" and "extralarge" comes first. */
  lemma LargeCoverTakesFirstOfEither(a: string, b: string)
    requires a != "" && b != ""
    ensures FindImage([LfImage(a, "extralarge"), LfImage(b, "large")], LargeSizes) == Some(LfImage(a, "extralarge"))
    ensures FindImage([LfImage(b, "large"), LfImage(a, "extralarge")], LargeSizes) == Some(LfImage(b, "large"))
  {
  }
}
