/** The album list page (components/Albums/AlbumsList/AlbumList.tsx): the
    GraphQL filter built from the filter form, and the genre choices offered
    by the filter drop-down. */
module AlbumList {
  import opened Wrappers
  import opened Store
  import opened Catalog
  import opened ClientTypes

  /** The year field of the filter form: blank, or a number. */
  datatype YearField = Blank | Year(year: int)

  /** The filter form's values. */
  datatype FilterValues = FilterValues(genre: string, artist: string, year: YearField)

  const InitialValues := FilterValues("", "", Blank)

  /** The `filter` memo: genre and artist only when non-empty, the year
      whenever it is not blank (so also 0), and never `likedOnly`. */
  function BuildFilter(v: FilterValues): (f: Filter)
    ensures f.genre.Some? <==> v.genre != ""
    ensures f.genre.Some? ==> f.genre.value == v.genre
    ensures f.artist.Some? <==> v.artist != ""
    ensures f.artist.Some? ==> f.artist.value == v.artist
    ensures f.releaseYear.Some? <==> v.year.Year?
    ensures f.releaseYear.Some? ==> f.releaseYear.value == v.year.year
    ensures f.likedOnly.None?
  {
    Filter(
      if v.genre != "" then Some(v.genre) else None,
      if v.artist != "" then Some(v.artist) else None,
      if v.year.Year? then Some(v.year.year) else None,
      None)
  }

  /** The year 0 is sent, and the server lists exactly what it lists for a
      blank year. */
  lemma YearZeroListsLikeBlank(db: Db, v: FilterValues, userId: Option<UserId>)
    ensures BuildFilter(v.(year := Year(0))).releaseYear == Some(0)
    ensures Albums(db, Given(BuildFilter(v.(year := Year(0)))), userId) ==
            Albums(db, Given(BuildFilter(v.(year := Blank))), userId)
  {
    SameWhereSameListing(db, BuildFilter(v.(year := Year(0))), BuildFilter(v.(year := Blank)), userId);
  }

  /** The untouched form lists what the query without a filter lists. */
  lemma InitialFormListsEverything(db: Db, userId: Option<UserId>)
    ensures Albums(db, Given(BuildFilter(InitialValues)), userId) == Albums(db, Omitted, userId)
  {
    assert Effective(Given(BuildFilter(InitialValues))) == Effective(Omitted);
  }

  // ---------------------------------------------------------------------------
  // Genre choices
  // ---------------------------------------------------------------------------

  function GenresOf(albums: seq<ClientAlbum>): (r: seq<string>)
    ensures |r| == |albums| && forall i :: 0 <= i < |albums| ==> r[i] == albums[i].genre
  {
    seq(|albums|, i requires 0 <= i < |albums| => albums[i].genre)
  }

  /** The position of the first occurrence of `x` in `s`. */
  function FirstIndex(s: seq<string>, x: string): (i: nat)
    requires x in s
    ensures i < |s| && s[i] == x && x !in s[..i]
    decreases |s|
  {
    if s[0] == x then 0
    else
      var i := 1 + FirstIndex(s[1..], x);
      assert s[..i] == [s[0]] + s[1..][..i - 1];
      i
  }

  lemma {:induction false} FirstIndexAppend(s: seq<string>, y: string, x: string)
    requires x in s + [y]
    ensures x in s ==> FirstIndex(s + [y], x) == FirstIndex(s, x)
    ensures x !in s ==> FirstIndex(s + [y], x) == |s|
  {
    var t := s + [y];
    var i := FirstIndex(t, x);
    assert forall k :: 0 <= k < |s| ==> t[k] == s[k];
    assert forall k :: 0 <= k < i ==> t[k] != x by {
      forall k | 0 <= k < i ensures t[k] != x {
        assert t[..i][k] == t[k];
      }
    }
    if x in s {
      var j := FirstIndex(s, x);
      assert forall k :: 0 <= k < j ==> s[k] != x by {
        forall k | 0 <= k < j ensures s[k] != x {
          assert s[..j][k] == s[k];
        }
      }
      assert t[j] == x;
    } else {
      assert forall k :: 0 <= k < |s| ==> s[k] != x;
    }
  }

  /** `[...new Set(s)]`: each value once, at its first occurrence. */
  function Distinct(s: seq<string>): (r: seq<string>)
    ensures forall x :: x in r <==> x in s
    ensures forall i, j :: 0 <= i < j < |r| ==> r[i] != r[j]
    ensures forall i, j :: 0 <= i < j < |r| ==> FirstIndex(s, r[i]) < FirstIndex(s, r[j])
    decreases |s|
  {
    if |s| == 0 then []
    else
      var init := s[..|s| - 1];
      var last := s[|s| - 1];
      assert s == init + [last];
      var d := Distinct(init);
      forall x | x in init ensures FirstIndex(s, x) == FirstIndex(init, x) {
        FirstIndexAppend(init, last, x);
      }
      if last in d then d
      else
        FirstIndexAppend(init, last, last);
        d + [last]
  }

  /** The `genres` memo: no choices without data, otherwise every genre of
      the listed albums once, in the order of first appearance. */
  method Genres(data: Option<seq<ClientAlbum>>) returns (genres: seq<string>)
    ensures data.None? ==> genres == []
    ensures data.Some? ==> genres == Distinct(GenresOf(data.value))
    ensures data.Some? ==> forall g :: g in genres <==> exists i :: 0 <= i < |data.value| && data.value[i].genre == g
    ensures forall i, j :: 0 <= i < j < |genres| ==> genres[i] != genres[j]
  {
    if data.None? {
      return [];
    }
    var albums := data.value;
    var all := GenresOf(albums);
    genres := [];
    var seen: set<string> := {};
    var i := 0;
    while i < |albums|
      invariant 0 <= i <= |albums|
      invariant genres == Distinct(all[..i])
      invariant forall g :: g in seen <==> g in genres
    {
      var g := albums[i].genre;
      assert all[..i + 1] == all[..i] + [g];
      assert all[..i + 1][..i] == all[..i];
      if g !in seen {
        genres := genres + [g];
        seen := seen + {g};
      }
      i := i + 1;
    }
    assert all[..|albums|] == all;
    forall g | g in genres ensures exists i :: 0 <= i < |albums| && albums[i].genre == g {
      var k :| 0 <= k < |all| && all[k] == g;
    }
  }
}
