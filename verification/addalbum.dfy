/** The add-album dialog (components/AddAlbum/AddAlbumModal.tsx): validation,
    the Last.fm lookup, the mutation input it builds, and its loading and
    error state. */
module AddAlbumModal {
  import opened Wrappers
  import opened Text
  import opened LastFm
  import Store
  import Catalog

  const BothRequired := "Both fields are required."
  const NotFoundOnLastFm := "Album not found on Last.fm."
  const DefaultError := "An error occurred."

  datatype ModalState = ModalState(artist: string, album: string, loading: bool, error: Option<string>)

  /** A track of the mutation input as the client builds it; its duration may
      be `NaN`. */
  datatype ClientTrackInput = ClientTrackInput(name: string, artist: string, duration: Option<Num>, url: Option<string>)

  datatype ClientAlbumInput = ClientAlbumInput(
    title: string,
    artist: string,
    albumCover: Option<string>,
    largeAlbumCover: Option<string>,
    albumUrl: Option<string>,
    tracks: seq<ClientTrackInput>)

  /** The first step of `handleSubmit`: the error is cleared; with an empty
      field the dialog shows the requirement and stops, otherwise it starts
      loading and looks the album up. */
  function Validate(st: ModalState): (r: (ModalState, bool))
    ensures r.1 <==> st.artist != "" && st.album != ""
    ensures !r.1 ==> r.0 == st.(error := Some(BothRequired))
    ensures r.1 ==> r.0 == st.(error := None, loading := true)
  {
    if st.artist == "" || st.album == "" then (st.(error := Some(BothRequired)), false)
    else (st.(error := None, loading := true), true)
  }

  /** The mutation input: the typed album name as title, the typed artist,
      the lookup's covers and url, and its tracks one to one. */
  function BuildInput(artist: string, album: string, info: AlbumInfo): (input: ClientAlbumInput)
    ensures input.title == album && input.artist == artist
    ensures input.albumCover == info.albumCover && input.largeAlbumCover == info.largeAlbumCover
    ensures input.albumUrl == info.url
    ensures |input.tracks| == |info.tracks|
    ensures forall k :: 0 <= k < |info.tracks| ==>
              var t := info.tracks[k];
              input.tracks[k] == ClientTrackInput(t.name, t.artist, t.duration, t.url)
  {
    ClientAlbumInput(album, artist, info.albumCover, info.largeAlbumCover, info.url,
      seq(|info.tracks|, k requires 0 <= k < |info.tracks| =>
        ClientTrackInput(info.tracks[k].name, info.tracks[k].artist, info.tracks[k].duration, info.tracks[k].url)))
  }

  /** The second step: no album found stops loading with a message; a found
      album is sent. */
  function AfterLookup(st: ModalState, info: Option<AlbumInfo>): (r: (ModalState, Option<ClientAlbumInput>))
    ensures info.None? ==> r.1.None? && r.0 == st.(error := Some(NotFoundOnLastFm), loading := false)
    ensures info.Some? ==> r.1 == Some(BuildInput(st.artist, st.album, info.value)) && r.0 == st
  {
    if info.None? then (st.(error := Some(NotFoundOnLastFm), loading := false), None)
    else (st, Some(BuildInput(st.artist, st.album, info.value)))
  }

  /** The mutation completed: loading stops and the success callback runs. */
  function OnCompleted(st: ModalState): (r: ModalState)
    ensures !r.loading && r.error == st.error
  {
    st.(loading := false)
  }

  /** The mutation failed: its message is shown and loading stops. */
  function OnError(st: ModalState, message: string): (r: ModalState)
    ensures !r.loading && r.error == Some(message)
  {
    st.(error := Some(message), loading := false)
  }

  /** Something threw during submission: its message, or the default. */
  function OnThrown(st: ModalState, message: string): (r: ModalState)
    ensures !r.loading && r.error.Some? && r.error.value != ""
    ensures message != "" ==> r.error == Some(message)
    ensures message == "" ==> r.error == Some(DefaultError)
  {
    st.(error := Some(if message != "" then message else DefaultError), loading := false)
  }

  /** `handleClose`: both fields and the error are cleared. */
  function Close(st: ModalState): (r: ModalState)
    ensures r.artist == "" && r.album == "" && r.error.None? && r.loading == st.loading
  {
    ModalState("", "", st.loading, None)
  }

  /** Every way a submission can fail leaves the dialog not loading. */
  lemma FailuresStopLoading(st: ModalState, info: Option<AlbumInfo>, message: string)
    ensures !Validate(st).1 ==> Validate(st).0.loading == st.loading
    ensures info.None? ==> !AfterLookup(Validate(st).0, info).0.loading
    ensures !OnError(AfterLookup(Validate(st).0, info).0, message).loading
    ensures !OnThrown(AfterLookup(Validate(st).0, info).0, message).loading
  {
  }

  // ---------------------------------------------------------------------------
  // What the server receives
  // ---------------------------------------------------------------------------

  /** A duration as the request body carries it: `JSON.stringify` writes
      `NaN` as `null`, so only an integer stays a number. */
  function WireDuration(d: Option<Num>): (r: Option<int>)
    ensures r.Some? <==> d.Some? && d.value.Int?
    ensures r.Some? ==> r.value == d.value.i
  {
    if d.Some? && d.value.Int? then Some(d.value.i) else None
  }

  /** GraphQL's `Int`: a signed 32-bit integer. */
  predicate IsGraphQLInt(n: int) {
    -0x8000_0000 <= n < 0x8000_0000
  }

  predicate Coercible(input: ClientAlbumInput) {
    forall k :: 0 <= k < |input.tracks| ==>
      var d := WireDuration(input.tracks[k].duration);
      d.None? || IsGraphQLInt(d.value)
  }

  /** Variable coercion of the serialised mutation input: a duration outside
      32 bits fails the request, a `NaN` one arrives as null; otherwise the
      server gets the input without genre or year. */
  function Coerce(input: ClientAlbumInput): (r: Option<Catalog.AlbumInput>)
    ensures r.Some? <==>
              forall k :: 0 <= k < |input.tracks| ==>
                input.tracks[k].duration.None? || input.tracks[k].duration.value.NaN?
                || IsGraphQLInt(input.tracks[k].duration.value.i)
    ensures r.Some? ==>
              && r.value.title == input.title && r.value.artist == input.artist
              && r.value.albumCover == input.albumCover
              && r.value.largeAlbumCover == input.largeAlbumCover
              && r.value.albumUrl == input.albumUrl
              && r.value.genre.None? && r.value.releaseYear.None?
              && r.value.tracks.Some? && |r.value.tracks.value| == |input.tracks|
              && forall k :: 0 <= k < |input.tracks| ==>
                   && r.value.tracks.value[k].name == input.tracks[k].name
                   && r.value.tracks.value[k].artist == input.tracks[k].artist
                   && r.value.tracks.value[k].url == input.tracks[k].url
                   && (r.value.tracks.value[k].duration.None? <==>
                         input.tracks[k].duration.None? || input.tracks[k].duration.value.NaN?)
                   && (r.value.tracks.value[k].duration.Some? ==>
                         r.value.tracks.value[k].duration == Some(input.tracks[k].duration.value.i))
  {
    if !Coercible(input) then None
    else
      Some(Catalog.AlbumInput(
        input.title, input.artist, input.albumCover, input.largeAlbumCover, input.albumUrl, None, None,
        Some(seq(|input.tracks|, k requires 0 <= k < |input.tracks| =>
          var t := input.tracks[k];
          Catalog.TrackInput(t.name, t.artist, WireDuration(t.duration), t.url)))))
  }

  /** An album added from the dialog that the catalogue did not have is
      created with the "Unknown" genre, the server's current year, the
      lookup's covers and url (or ""), and one track per looked-up track, with
      consecutive new ids, the track's name, artist and url, and its duration,
      null where the lookup read `NaN`. */
  lemma AddedAlbumGetsDefaults(db: Store.Db, st: ModalState, info: AlbumInfo, userId: Option<Store.UserId>, currentYear: int)
    requires Coercible(BuildInput(st.artist, st.album, info))
    requires Catalog.FindByTitleArtist(db.albums, st.album, st.artist).None?
    ensures var input := Coerce(BuildInput(st.artist, st.album, info)).value;
            var (db', view) := Catalog.AddAlbum(db, input, userId, currentYear);
            && view.album.title == st.album && view.album.artist == st.artist
            && view.album.genre == Catalog.UnknownGenre
            && view.album.releaseYear == currentYear
            && view.album.albumCover == Some(info.albumCover.GetOr(""))
            && view.album.largeAlbumCover == Some(info.largeAlbumCover.GetOr(""))
            && view.album.albumUrl == Some(info.url.GetOr(""))
            && db'.albums == db.albums + [view.album]
            && |view.album.tracks| == |info.tracks|
            && forall k :: 0 <= k < |info.tracks| ==>
                 var t := view.album.tracks[k];
                 && t.id == db.nextTrackId + k && t.albumId == view.album.id
                 && t.name == info.tracks[k].name && t.artist == info.tracks[k].artist
                 && t.url == info.tracks[k].url
                 && t.duration == WireDuration(info.tracks[k].duration)
  {
  }

  /** A looked-up track whose duration text does not parse still adds the
      album, and that track is stored with no duration. */
  lemma UnparsedDurationStoredAsNull(db: Store.Db, st: ModalState, info: AlbumInfo, userId: Option<Store.UserId>, currentYear: int)
    requires |info.tracks| == 1 && info.tracks[0].duration == Some(NaN)
    requires Catalog.FindByTitleArtist(db.albums, st.album, st.artist).None?
    ensures Coerce(BuildInput(st.artist, st.album, info)).Some?
    ensures var input := Coerce(BuildInput(st.artist, st.album, info)).value;
            Catalog.AddAlbum(db, input, userId, currentYear).1.album.tracks[0].duration.None?
  {
  }
}
