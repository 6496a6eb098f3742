/** The album card (components/Albums/AlbumCard/AlbumCard.tsx): its `liked`
    and auth-modal state, the like/unlike decision with its optimistic album,
    the two cache updates of the current-user query, and the detail-page path.
    Also the detail page's reading of the album id back from that path
    (app/album/[slug]/page.tsx). */
module AlbumCard {
  import opened Wrappers
  import opened Text
  import opened ClientTypes
  import Catalog

  const DefaultCover := "/album-placeholder.jpg"

  /** The card's own state. */
  datatype Card = Card(liked: bool, authModalOpen: bool)

  /** `useState(album.isLiked || false)`, modal closed. */
  function InitialCard(album: ClientAlbum): (card: Card)
    ensures card.liked <==> album.isLiked == Some(true)
    ensures !card.authModalOpen
  {
    Card(album.isLiked.Some? && album.isLiked.value, false)
  }

  /** `cover || DEFAULT_ALBUM_COVER` */
  function CoverOr(cover: Option<string>): (r: string)
    ensures r != ""
    ensures Truthy(cover) ==> r == cover.value
    ensures !Truthy(cover) ==> r == DefaultCover
  {
    if Truthy(cover) then cover.value else DefaultCover
  }

  /** The optimistic response: the card's album with both covers filled in and
      `isLiked` set to the state the mutation aims for. */
  function Optimistic(album: ClientAlbum, liked: bool): (r: ClientAlbum)
    ensures r.id == album.id && r.title == album.title && r.artist == album.artist
    ensures r.genre == album.genre && r.releaseYear == album.releaseYear
    ensures Truthy(r.albumCover) && Truthy(r.largeAlbumCover)
    ensures Truthy(album.albumCover) ==> r.albumCover == album.albumCover
    ensures Truthy(album.largeAlbumCover) ==> r.largeAlbumCover == album.largeAlbumCover
    ensures !Truthy(album.albumCover) ==> r.albumCover == Some(DefaultCover)
    ensures !Truthy(album.largeAlbumCover) ==> r.largeAlbumCover == Some(DefaultCover)
    ensures r.isLiked == Some(liked)
  {
    album.(albumCover := Some(CoverOr(album.albumCover)),
           largeAlbumCover := Some(CoverOr(album.largeAlbumCover)),
           isLiked := Some(liked))
  }

  /** The image the card shows: the large cover, else the small one, else the
      placeholder. */
  function DisplayedCover(album: ClientAlbum): (r: string)
    ensures r != ""
    ensures Truthy(album.largeAlbumCover) ==> r == album.largeAlbumCover.value
    ensures !Truthy(album.largeAlbumCover) && Truthy(album.albumCover) ==> r == album.albumCover.value
    ensures !Truthy(album.largeAlbumCover) && !Truthy(album.albumCover) ==> r == DefaultCover
  {
    if Truthy(album.largeAlbumCover) then album.largeAlbumCover.value else CoverOr(album.albumCover)
  }

  /** While the optimistic album stands in for the card's album, the card
      shows the same image exactly when the album has a large cover or no
      cover at all; an album with only a small cover shows the placeholder. */
  lemma OptimisticCoverShown(album: ClientAlbum, liked: bool)
    ensures DisplayedCover(Optimistic(album, liked)) == DisplayedCover(album) <==>
              Truthy(album.largeAlbumCover) || !Truthy(album.albumCover) || album.albumCover.value == DefaultCover
    ensures !Truthy(album.largeAlbumCover) ==> DisplayedCover(Optimistic(album, liked)) == DefaultCover
  {
  }

  /** What a click on the heart sends. */
  datatype Mutation =
    | NoMutation
    | LikeMutation(albumId: int, optimistic: ClientAlbum)
    | UnlikeMutation(albumId: int, optimistic: ClientAlbum)

  /** `handleLikeClick`: logged out, it only opens the auth modal; logged in,
      it unlikes a liked album and likes any other, optimistically. The card's
      own state changes only when the mutation completes. */
  function LikeClick(card: Card, isLoggedIn: bool, album: ClientAlbum): (r: (Card, Mutation))
    ensures !isLoggedIn ==> r.1.NoMutation? && r.0.authModalOpen && r.0.liked == card.liked
    ensures isLoggedIn ==> r.0 == card && !r.1.NoMutation?
    ensures r.1.LikeMutation? <==> isLoggedIn && !card.liked
    ensures r.1.UnlikeMutation? <==> isLoggedIn && card.liked
    ensures !r.1.NoMutation? ==> r.1.albumId == album.id && r.1.optimistic.id == album.id
    ensures !r.1.NoMutation? ==> r.1.optimistic.isLiked == Some(!card.liked)
  {
    if !isLoggedIn then (card.(authModalOpen := true), NoMutation)
    else if card.liked then (card, UnlikeMutation(album.id, Optimistic(album, false)))
    else (card, LikeMutation(album.id, Optimistic(album, true)))
  }

  // ---------------------------------------------------------------------------
  // Cache updates of the current-user query
  // ---------------------------------------------------------------------------

  /** Number of entries with the given album id. */
  function CountId(s: seq<ClientAlbum>, id: int): nat
    decreases |s|
  {
    if |s| == 0 then 0 else (if s[0].id == id then 1 else 0) + CountId(s[1..], id)
  }

  lemma {:induction false} CountIdAppend(s: seq<ClientAlbum>, t: seq<ClientAlbum>, id: int)
    ensures CountId(s + t, id) == CountId(s, id) + CountId(t, id)
    decreases |s|
  {
    if |s| == 0 {
      assert s + t == t;
    } else {
      assert (s + t)[0] == s[0];
      assert (s + t)[1..] == s[1..] + t;
      CountIdAppend(s[1..], t, id);
    }
  }

  /** The like update: the user's cached list with the returned album
      appended, whether or not it is already there. A cache without a user or
      without a list makes the update throw, which is caught: nothing changes. */
  function LikeUpdate(cache: MeQuery, returned: Option<ClientAlbum>): (r: MeQuery)
    ensures !(cache.MeData? && cache.me.likedAlbums.Some? && returned.Some?) ==> r == cache
    ensures cache.MeData? && cache.me.likedAlbums.Some? && returned.Some? ==>
              var old_ := cache.me.likedAlbums.value;
              && r.MeData? && r.me.likedAlbums.Some?
              && r.me.id == cache.me.id && r.me.email == cache.me.email && r.me.name == cache.me.name
              && |r.me.likedAlbums.value| == |old_| + 1
              && r.me.likedAlbums.value[..|old_|] == old_
              && r.me.likedAlbums.value[|old_|] == returned.value
  {
    if cache.MeData? && cache.me.likedAlbums.Some? && returned.Some? then
      MeData(cache.me.(likedAlbums := Some(cache.me.likedAlbums.value + [returned.value])))
    else cache
  }

  /** The entries whose id differs from `id`, in their order. */
  function RemoveId(s: seq<ClientAlbum>, id: int): (r: seq<ClientAlbum>)
    ensures |r| <= |s|
    decreases |s|
  {
    if |s| == 0 then []
    else
      var rest := RemoveId(s[1..], id);
      if s[0].id == id then rest else [s[0]] + rest
  }

  /** Removal keeps every other id as often as it was listed. */
  lemma {:induction false} RemoveIdKeepsOthers(s: seq<ClientAlbum>, id: int, other: int)
    requires other != id
    ensures CountId(RemoveId(s, id), other) == CountId(s, other)
    decreases |s|
  {
    if |s| > 0 {
      RemoveIdKeepsOthers(s[1..], id, other);
      if s[0].id != id {
        assert ([s[0]] + RemoveId(s[1..], id))[1..] == RemoveId(s[1..], id);
      }
    }
  }

  /** Removal leaves no entry with the id and drops exactly those entries. */
  lemma {:induction false} RemoveIdCount(s: seq<ClientAlbum>, id: int)
    ensures CountId(RemoveId(s, id), id) == 0
    ensures |RemoveId(s, id)| == |s| - CountId(s, id)
    decreases |s|
  {
    if |s| > 0 {
      RemoveIdCount(s[1..], id);
      var rest := RemoveId(s[1..], id);
      if s[0].id != id {
        assert ([s[0]] + rest)[1..] == rest;
      }
    }
  }

  /** Removal keeps exactly the entries with a different id. */
  lemma {:induction false} RemoveIdMembers(s: seq<ClientAlbum>, id: int)
    ensures forall x :: x in RemoveId(s, id) <==> x in s && x.id != id
    decreases |s|
  {
    if |s| > 0 {
      RemoveIdMembers(s[1..], id);
      assert forall x :: x in s <==> x == s[0] || x in s[1..];
    }
  }

  /** Removal works entry by entry, so it keeps the order of what it keeps. */
  lemma {:induction false} RemoveIdAppend(s: seq<ClientAlbum>, t: seq<ClientAlbum>, id: int)
    ensures RemoveId(s + t, id) == RemoveId(s, id) + RemoveId(t, id)
    decreases |s|
  {
    if |s| == 0 {
      assert s + t == t;
    } else {
      RemoveIdAppend(s[1..], t, id);
      RemoveIdAppendStep(s, t, id);
    }
  }

  lemma RemoveIdAppendStep(s: seq<ClientAlbum>, t: seq<ClientAlbum>, id: int)
    requires |s| > 0
    requires RemoveId(s[1..] + t, id) == RemoveId(s[1..], id) + RemoveId(t, id)
    ensures RemoveId(s + t, id) == RemoveId(s, id) + RemoveId(t, id)
  {
    assert (s + t)[0] == s[0] && (s + t)[1..] == s[1..] + t;
    if s[0].id != id {
      var a, b := RemoveId(s[1..], id), RemoveId(t, id);
      assert [s[0]] + (a + b) == ([s[0]] + a) + b;
    }
  }

  /** A list without the id is left exactly as it is. */
  lemma {:induction false} RemoveAbsentId(s: seq<ClientAlbum>, id: int)
    requires CountId(s, id) == 0
    ensures RemoveId(s, id) == s
    decreases |s|
  {
    if |s| > 0 {
      RemoveAbsentId(s[1..], id);
    }
  }

  /** The unlike update: every cached entry with the returned album's id
      removed, the others kept in order; as for likes, a cache without a user
      or without a list is left alone. */
  function UnlikeUpdate(cache: MeQuery, returned: Option<ClientAlbum>): (r: MeQuery)
    ensures !(cache.MeData? && cache.me.likedAlbums.Some? && returned.Some?) ==> r == cache
    ensures cache.MeData? && cache.me.likedAlbums.Some? && returned.Some? ==>
              && r.MeData? && r.me.likedAlbums.Some?
              && r.me.id == cache.me.id && r.me.email == cache.me.email && r.me.name == cache.me.name
              && r.me.likedAlbums.value == RemoveId(cache.me.likedAlbums.value, returned.value.id)
              && CountId(r.me.likedAlbums.value, returned.value.id) == 0
              && (forall x :: x in r.me.likedAlbums.value <==>
                    x in cache.me.likedAlbums.value && x.id != returned.value.id)
  {
    if cache.MeData? && cache.me.likedAlbums.Some? && returned.Some? then
      RemoveIdMembers(cache.me.likedAlbums.value, returned.value.id);
      RemoveIdCount(cache.me.likedAlbums.value, returned.value.id);
      MeData(cache.me.(likedAlbums := Some(RemoveId(cache.me.likedAlbums.value, returned.value.id))))
    else cache
  }

  /** Two like updates for one album leave it listed twice. */
  lemma LikeUpdateDuplicates(cache: MeQuery, a: ClientAlbum)
    requires cache.MeData? && cache.me.likedAlbums.Some?
    ensures var r := LikeUpdate(LikeUpdate(cache, Some(a)), Some(a));
            CountId(r.me.likedAlbums.value, a.id) == CountId(cache.me.likedAlbums.value, a.id) + 2
  {
    var s := cache.me.likedAlbums.value;
    CountIdAppend(s, [a], a.id);
    CountIdAppend(s + [a], [a], a.id);
    assert CountId([a], a.id) == 1 by { assert [a][1..] == []; }
  }

  /** An unlike after a like of an album that was not listed restores the
      cached list exactly. */
  lemma {:induction false} UnlikeUndoesLike(cache: MeQuery, a: ClientAlbum, b: ClientAlbum)
    requires cache.MeData? && cache.me.likedAlbums.Some?
    requires CountId(cache.me.likedAlbums.value, a.id) == 0
    requires b.id == a.id
    ensures UnlikeUpdate(LikeUpdate(cache, Some(a)), Some(b)) == cache
  {
    var s := cache.me.likedAlbums.value;
    RemoveIdAppend(s, [a], a.id);
    RemoveAbsentId(s, a.id);
    assert RemoveId([a], a.id) == [] by { assert [a][1..] == []; }
    assert s + [] == s;
  }

  // ---------------------------------------------------------------------------
  // The `liked` and auth-modal transitions
  // ---------------------------------------------------------------------------

  const LoginRequiredPhrase := "must be logged in"

  /** Like completed: the heart is filled. */
  function OnLikeCompleted(card: Card): (r: Card)
    ensures r.liked && r.authModalOpen == card.authModalOpen
  {
    card.(liked := true)
  }

  /** Unlike completed: the heart is empty. */
  function OnUnlikeCompleted(card: Card): (r: Card)
    ensures !r.liked && r.authModalOpen == card.authModalOpen
  {
    card.(liked := false)
  }

  /** A failed like leaves `liked` alone and opens the auth modal exactly when
      the message says the user must be logged in. */
  function OnLikeError(card: Card, message: string): (r: Card)
    ensures r.liked == card.liked
    ensures r.authModalOpen <==> card.authModalOpen || Contains(message, LoginRequiredPhrase)
  {
    if Contains(message, LoginRequiredPhrase) then card.(authModalOpen := true) else card
  }

  /** A failed unlike only logs the message. */
  function OnUnlikeError(card: Card, message: string): (r: Card)
    ensures r == card
  {
    card
  }

  /** Logging out empties the heart; logging in leaves it for the user query. */
  function OnAuthChange(card: Card, isLoggedIn: bool): (r: Card)
    ensures !isLoggedIn ==> !r.liked
    ensures isLoggedIn ==> r == card
    ensures r.authModalOpen == card.authModalOpen
  {
    if !isLoggedIn then card.(liked := false) else card
  }

  /** The user query completed: with a list, the heart shows whether the list
      has an entry with this album's id; without one, nothing changes. */
  function OnMeCompleted(card: Card, data: MeQuery, albumId: int): (r: Card)
    ensures data.MeData? && data.me.likedAlbums.Some? ==>
              (r.liked <==> exists k :: 0 <= k < |data.me.likedAlbums.value| &&
                                        data.me.likedAlbums.value[k].id == albumId)
    ensures !(data.MeData? && data.me.likedAlbums.Some?) ==> r.liked == card.liked
    ensures r.authModalOpen == card.authModalOpen
  {
    if data.MeData? && data.me.likedAlbums.Some? then
      var s := data.me.likedAlbums.value;
      card.(liked := exists k :: 0 <= k < |s| && s[k].id == albumId)
    else card
  }

  function CloseAuthModal(card: Card): (r: Card)
    ensures !r.authModalOpen && r.liked == card.liked
  {
    card.(authModalOpen := false)
  }

  /** The server's refusal of an anonymous like opens the auth modal. */
  lemma AnonymousLikeOpensModal(card: Card)
    ensures OnLikeError(card, Catalog.LoginToLike).authModalOpen
  {
    assert LoginRequiredPhrase <= Catalog.LoginToLike[4..];
  }

  /** The server's refusal of an anonymous unlike says the same, but the card
      does not react to it. */
  lemma AnonymousUnlikeIgnored(card: Card)
    ensures Contains(Catalog.LoginToUnlike, LoginRequiredPhrase)
    ensures OnUnlikeError(card, Catalog.LoginToUnlike) == card
  {
    assert LoginRequiredPhrase <= Catalog.LoginToUnlike[4..];
  }

  /** A missing album is reported without opening the modal. */
  lemma MissingAlbumKeepsModalClosed(card: Card)
    ensures OnLikeError(card, Catalog.AlbumNotFound) == card
  {
  }

  // ---------------------------------------------------------------------------
  // The detail-page path
  // ---------------------------------------------------------------------------

  /** The path segment of `handleCardClick`: the id, a dash, and the title
      lower-cased with white-space runs turned into dashes, URI-encoded. */
  function SlugSegment(album: ClientAlbum): (slug: string)
    ensures IntToString(album.id) + "-" <= slug
    ensures forall i :: |IntToString(album.id)| < i < |slug| ==>
              IsUriUnreserved(slug[i]) || slug[i] == '%' || IsHexDigit(slug[i])
  {
    IntToString(album.id) + "-" + EncodeUriComponent(ReplaceSpaceRuns(ToLower(album.title), '-'))
  }

  const AlbumPathPrefix := "/album/"

  /** The route `handleCardClick` pushes. */
  function CardPath(album: ClientAlbum): (path: string)
    ensures AlbumPathPrefix <= path && path[|AlbumPathPrefix|..] == SlugSegment(album)
  {
    AlbumPathPrefix + SlugSegment(album)
  }

  /** The detail page's id as written: the route segment is a string, so
      `slug[0]` is its first character, and `parseInt` reads that one
      character. */
  function SlugIdAsWritten(slug: string): (id: Option<int>)
    ensures id.Some? ==> 0 <= id.value < 10
    ensures id.Some? <==> |slug| > 0 && IsDigit(slug[0])
  {
    if |slug| == 0 then None
    else
      var n := ParseInt10(Split([slug[0]], '-')[0]);
      SingleCharacterId(slug[0]);
      if n.NaN? then None else Some(n.i)
  }

  /** What `parseInt(c.split("-")[0], 10)` makes of a single character. */
  lemma SingleCharacterId(c: char)
    ensures ParseInt10(Split([c], '-')[0]) == if IsDigit(c) then Int(DigitValue(c)) else NaN
  {
    if c == '-' {
      assert [c] == "" + ['-'] + "";
      SplitAfterField("", '-', "");
      assert Split([c], '-')[0] == "";
      assert TrimStart("") == "";
    } else {
      SplitWithoutSeparator([c], '-');
      ParseOneCharacter(c);
    }
  }

  lemma ParseOneCharacter(c: char)
    ensures ParseInt10([c]) == if IsDigit(c) then Int(DigitValue(c)) else NaN
  {
    if IsDigit(c) {
      ParseDigitCharacter(c);
    } else {
      ParseOtherCharacter(c);
    }
  }

  lemma ParseDigitCharacter(c: char)
    requires IsDigit(c)
    ensures ParseInt10([c]) == Int(DigitValue(c))
  {
    var d := DigitValue(c);
    assert DigitChar(d) == c;
    assert IntToString(d) == [c];
    ParseInt10OfNumeral(d, "");
    assert IntToString(d) + "" == [c];
  }

  lemma ParseOtherCharacter(c: char)
    requires !IsDigit(c)
    ensures ParseInt10([c]) == NaN
  {
    assert [c][1..] == "";
    if IsSpace(c) {
      assert TrimStart([c]) == TrimStart("") == "";
    } else {
      assert TrimStart([c]) == [c];
      if c == '+' || c == '-' {
        assert SignAndRest([c]).1 == "";
      } else {
        assert SignAndRest([c]) == (1, [c]);
        assert DigitPrefix([c]) == "";
      }
    }
  }

  /** For album 12 the detail page asks for album 1. */
  lemma SlugIdAsWrittenMisreadsTwoDigitIds(album: ClientAlbum)
    requires album.id == 12
    ensures SlugIdAsWritten(SlugSegment(album)) == Some(1)
  {
    assert NatToString(12) == "12";
    assert SlugSegment(album)[0] == '1';
    SingleCharacterId('1');
  }

  /** The detail page's id read from the whole first dash-separated field with
      `parseInt(…, 10)`, none when that is not a number. */
  function SlugId(slug: string): (id: Option<int>)
    ensures id.Some? <==> ParseInt10(Split(slug, '-')[0]).Int?
    ensures id.Some? ==> id.value == ParseInt10(Split(slug, '-')[0]).i
  {
    var n := ParseInt10(Split(slug, '-')[0]);
    if n.NaN? then None else Some(n.i)
  }

  /** The corrected reading recovers the id of every card's album. */
  lemma {:induction false} SlugRoundTrip(album: ClientAlbum)
    requires album.id >= 0
    ensures SlugId(SlugSegment(album)) == Some(album.id)
  {
    var numeral := IntToString(album.id);
    var rest := EncodeUriComponent(ReplaceSpaceRuns(ToLower(album.title), '-'));
    assert '-' !in numeral by {
      assert AllDigits(numeral);
    }
    assert SlugSegment(album) == numeral + ['-'] + rest;
    SplitAfterField(numeral, '-', rest);
    ParseInt10OfNumeral(album.id, "");
    assert numeral + "" == numeral;
  }
}
