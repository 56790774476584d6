/**
 * The table cell texts of the frontend's `TabContent`: owner and title
 * names, the playlist list of a user, the de-duplicated song list, and the
 * playlist list of a song.
 *
 * The records are the JSON the backend sends; a field that may be missing
 * or null is an `Option`. JavaScript's `||` picks its right operand when
 * the left one is missing, null or the empty string; an array, even an
 * empty one, counts as present.
 */
module TabContent {
  import opened Common
  import opened Seqs
  import opened Strings
  import Dtos

  const UNKNOWN_USER: string := "Неизвестный пользователь"
  const NO_PLAYLISTS: string := "Нет плейлистов"
  const NO_SONGS: string := "Нет песен"
  const IN_NO_PLAYLIST: string := "Не в плейлистах"
  const SEPARATOR: string := ", "

  datatype PlaylistJson = PlaylistJson(name: Option<string>, username: Option<string>, songTitles: Option<seq<Option<string>>>)
  datatype UserJson = UserJson(username: Option<string>, playlists: Option<seq<PlaylistJson>>)
  datatype SongJson = SongJson(title: Option<string>, playlistNames: Option<seq<Option<string>>>, playlists: Option<seq<PlaylistJson>>)

  /** A string operand of `||`: present and non-empty. */
  predicate Truthy(s: Option<string>) {
    s.Some? && s.value != ""
  }

  /** How `Array.join` writes an element: null and undefined become the empty string. */
  function JsText(s: Option<string>): string {
    if s.Some? then s.value else ""
  }

  /** `xs.join(sep)` on possibly null elements. */
  function JsJoin(xs: seq<Option<string>>, sep: string): string {
    Join(seq(|xs|, i requires 0 <= i < |xs| => JsText(xs[i])), sep)
  }

  /** `renderUsername`: the name, or the placeholder when it is missing or empty. */
  function RenderUsername(username: Option<string>): (r: string)
    ensures Truthy(username) ==> r == username.value
    ensures !Truthy(username) ==> r == UNKNOWN_USER
    ensures r != ""
  {
    if Truthy(username) then username.value else UNKNOWN_USER
  }

  /** The names of `playlists`, in order. */
  function Names(playlists: seq<PlaylistJson>): (r: seq<Option<string>>)
    ensures |r| == |playlists|
    ensures forall i :: 0 <= i < |playlists| ==> r[i] == playlists[i].name
  {
    seq(|playlists|, i requires 0 <= i < |playlists| => playlists[i].name)
  }

  /**
   * `renderPlaylists`: the names joined with ", ", or the placeholder when
   * the list is missing or the join is empty.
   */
  function RenderPlaylists(playlists: Option<seq<PlaylistJson>>): (r: string)
    ensures playlists.None? ==> r == NO_PLAYLISTS
    ensures playlists.Some? && JsJoin(Names(playlists.value), SEPARATOR) != "" ==> r == JsJoin(Names(playlists.value), SEPARATOR)
    ensures r != ""
  {
    var joined := if playlists.Some? then JsJoin(Names(playlists.value), SEPARATOR) else "";
    if joined != "" then joined else NO_PLAYLISTS
  }

  /** A title `filter(title => title?.trim())` keeps: present and not only white space. */
  predicate KeptTitle(t: Option<string>) {
    t.Some? && Trim(t.value) != ""
  }

  /** `Array.from(new Set(titles.filter(title => title?.trim())))`: each kept title once, first occurrence first. */
  function KeptDistinct(titles: seq<Option<string>>): (d: seq<Option<string>>)
    ensures NoDup(d)
    ensures forall t :: t in d <==> t in titles && KeptTitle(t)
    ensures forall i, j :: 0 <= i < j < |d| ==> FirstIndex(titles, d[i]) < FirstIndex(titles, d[j])
  {
    var kept := Filter(titles, KeptTitle);
    var d := Dedupe(kept);
    forall i, j | 0 <= i < j < |d|
      ensures FirstIndex(titles, d[i]) < FirstIndex(titles, d[j])
    {
      FilterKeepsFirstOrder(titles, KeptTitle, d[i], d[j]);
    }
    d
  }

  /** The title strings of kept, distinct titles. */
  function TitleTexts(d: seq<Option<string>>): (r: seq<string>)
    requires forall t :: t in d ==> KeptTitle(t)
    ensures |r| == |d|
    ensures forall i :: 0 <= i < |d| ==> d[i] == Some(r[i])
  {
    assert forall i :: 0 <= i < |d| ==> KeptTitle(d[i]) by {
      forall i | 0 <= i < |d| ensures KeptTitle(d[i]) { assert d[i] in d; }
    }
    seq(|d|, i requires 0 <= i < |d| => JsText(d[i]))
  }

  /**
   * The parts `renderSongsList` joins: every kept title once, in the order
   * of its first occurrence.
   */
  function SongListParts(titles: seq<Option<string>>): (r: seq<string>)
    ensures NoDup(r)
    ensures forall x :: x in r <==> Some(x) in titles && Trim(x) != ""
    ensures forall i, j :: 0 <= i < j < |r| ==> FirstIndex(titles, Some(r[i])) < FirstIndex(titles, Some(r[j]))
  {
    var d := KeptDistinct(titles);
    var r := TitleTexts(d);
    TitleTextsMembers(titles, d, r);
    r
  }

  lemma TitleTextsMembers(titles: seq<Option<string>>, d: seq<Option<string>>, r: seq<string>)
    requires forall t :: t in d <==> t in titles && KeptTitle(t)
    requires |r| == |d| && forall i :: 0 <= i < |d| ==> d[i] == Some(r[i])
    ensures forall x :: x in r <==> Some(x) in titles && Trim(x) != ""
  {
    forall x | Some(x) in titles && Trim(x) != ""
      ensures x in r
    {
      assert Some(x) in d;
      var i :| 0 <= i < |d| && d[i] == Some(x);
      assert r[i] == x;
    }
  }

  /**
   * `renderSongsList`: the placeholder for a missing or empty list;
   * otherwise the distinct kept titles joined with ", ".
   */
  function RenderSongsList(titles: Option<seq<Option<string>>>): (r: string)
    ensures titles.None? || |titles.value| == 0 ==> r == NO_SONGS
    ensures titles.Some? && |titles.value| > 0 ==> r == Join(SongListParts(titles.value), SEPARATOR)
  {
    if titles.None? || |titles.value| == 0 then NO_SONGS
    else Join(SongListParts(titles.value), SEPARATOR)
  }

  /**
   * A non-empty list renders as the empty string exactly when none of its
   * titles is kept: the placeholder is not used for a list of blanks.
   */
  lemma BlankListRendersEmpty(titles: seq<Option<string>>)
    requires |titles| > 0
    ensures RenderSongsList(Some(titles)) == "" <==> forall i :: 0 <= i < |titles| ==> !KeptTitle(titles[i])
  {
    var parts := SongListParts(titles);
    JoinEmptyIff(parts, SEPARATOR);
    if |parts| > 0 {
      assert parts[0] in parts;
      assert Trim(parts[0]) != "";
    }
    NoPartsIffAllBlank(titles);
  }

  /** No part survives exactly when every title is missing or blank. */
  lemma NoPartsIffAllBlank(titles: seq<Option<string>>)
    ensures |SongListParts(titles)| == 0 <==> forall i :: 0 <= i < |titles| ==> !KeptTitle(titles[i])
  {
    var parts := SongListParts(titles);
    if exists i :: 0 <= i < |titles| && KeptTitle(titles[i]) {
      var i :| 0 <= i < |titles| && KeptTitle(titles[i]);
      assert Some(titles[i].value) in titles;
      assert titles[i].value in parts;
    }
    if |parts| > 0 {
      assert parts[0] in parts;
      assert Some(parts[0]) in titles;
    }
  }

  /** The song titles of a playlist as `p.songTitles || []` gives them. */
  function TitlesOf(p: PlaylistJson): seq<Option<string>> {
    if p.songTitles.Some? then p.songTitles.value else []
  }

  /** The users table's songs column: all titles of all the user's playlists, in order. */
  function AllSongTitles(u: UserJson): (r: seq<Option<string>>)
    ensures forall t :: t in r <==> u.playlists.Some? && exists i :: 0 <= i < |u.playlists.value| && t in TitlesOf(u.playlists.value[i])
  {
    if u.playlists.None? then []
    else
      var ps := u.playlists.value;
      var ss := seq(|ps|, i requires 0 <= i < |ps| => TitlesOf(ps[i]));
      assert forall i :: 0 <= i < |ps| ==> ss[i] == TitlesOf(ps[i]);
      Flatten(ss)
  }

  /** The text of the users table's songs column. */
  function UserSongsColumn(u: UserJson): (r: string)
    ensures AllSongTitles(u) == [] ==> r == NO_SONGS
    ensures AllSongTitles(u) != [] ==> r == Join(SongListParts(AllSongTitles(u)), SEPARATOR)
  {
    RenderSongsList(Some(AllSongTitles(u)))
  }

  /**
   * The names the songs table's playlists column joins: `playlistNames`
   * whenever it is present, even empty; otherwise the names of `playlists`;
   * otherwise none.
   */
  function SongPlaylistNames(s: SongJson): (r: seq<Option<string>>)
    ensures s.playlistNames.Some? ==> r == s.playlistNames.value
    ensures s.playlistNames.None? && s.playlists.Some? ==> r == Names(s.playlists.value)
    ensures s.playlistNames.None? && s.playlists.None? ==> r == []
  {
    if s.playlistNames.Some? then s.playlistNames.value
    else if s.playlists.Some? then Names(s.playlists.value)
    else []
  }

  /** The text of the songs table's playlists column: the join, or the placeholder when it is empty. */
  function SongPlaylistsColumn(s: SongJson): (r: string)
    ensures JsJoin(SongPlaylistNames(s), SEPARATOR) != "" ==> r == JsJoin(SongPlaylistNames(s), SEPARATOR)
    ensures JsJoin(SongPlaylistNames(s), SEPARATOR) == "" ==> r == IN_NO_PLAYLIST
  {
    var joined := JsJoin(SongPlaylistNames(s), SEPARATOR);
    if joined != "" then joined else IN_NO_PLAYLIST
  }

  /**
   * `playlistNames` takes precedence: when it is present, even empty, the
   * `playlists` field plays no part, and an empty list shows the placeholder.
   */
  lemma PlaylistNamesTakePrecedence(s: SongJson, other: Option<seq<PlaylistJson>>)
    requires s.playlistNames.Some?
    ensures SongPlaylistsColumn(s) == SongPlaylistsColumn(s.(playlists := other))
    ensures s.playlistNames.value == [] ==> SongPlaylistsColumn(s) == IN_NO_PLAYLIST
  {
  }

  /** The JSON a `UserDto` is sent as. */
  function UserJsonOf(d: Dtos.UserDto): (u: UserJson)
    ensures u.playlists.Some? && |u.playlists.value| == |d.playlists|
    ensures forall i :: 0 <= i < |d.playlists| ==> TitlesOf(u.playlists.value[i]) == d.playlists[i].songTitles
  {
    var ps := d.playlists;
    UserJson(Some(d.username), Some(seq(|ps|, i requires 0 <= i < |ps| =>
      PlaylistJson(Some(ps[i].name), ps[i].username, Some(ps[i].songTitles)))))
  }

  /**
   * For a user sent by the backend, the songs column names each title that
   * some playlist of the user holds and that is not blank, and nothing else.
   */
  lemma UserSongsColumnListsOwnedTitles(d: Dtos.UserDto, x: string)
    ensures x in SongListParts(AllSongTitles(UserJsonOf(d))) <==>
              Trim(x) != "" && exists i :: 0 <= i < |d.playlists| && Some(x) in d.playlists[i].songTitles
  {
    var u := UserJsonOf(d);
    if Trim(x) != "" && exists i :: 0 <= i < |d.playlists| && Some(x) in d.playlists[i].songTitles {
      var i :| 0 <= i < |d.playlists| && Some(x) in d.playlists[i].songTitles;
      assert Some(x) in TitlesOf(u.playlists.value[i]);
    }
  }
}
