/**
 * The response projections `PlaylistDto`, `UserDto` and `SongDto`.
 *
 * `fromEntity` reads an entity object as the persistence layer hands it
 * over, with its related objects attached and its collections possibly
 * null (a freshly built object has none). The `...View` datatypes are
 * those objects; `PlaylistViewOf` builds the one a repository lookup gives.
 */
module Dtos {
  import opened Common
  import opened Entities

  /** A `Playlist` object: its owner object and its song objects, each list possibly null. */
  datatype PlaylistView = PlaylistView(id: PlaylistId, name: string, user: Option<User>, songs: Option<seq<Song>>)

  /** A `User` object with its playlists. */
  datatype UserView = UserView(id: UserId, username: string, playlists: Option<seq<PlaylistView>>)

  /** A `Song` object with the playlists that hold it. */
  datatype SongView = SongView(id: SongId, song: Song, playlists: Option<seq<PlaylistView>>)

  datatype PlaylistDto = PlaylistDto(id: PlaylistId, name: string, username: Option<string>, songTitles: seq<Option<string>>)

  datatype UserDto = UserDto(id: UserId, username: string, playlists: seq<PlaylistDto>)

  datatype SongDto = SongDto(id: SongId, title: Option<string>, artist: string, playlistNames: seq<string>)

  /** The titles of `songs`, in order. */
  function Titles(songs: seq<Song>): (r: seq<Option<string>>)
    ensures |r| == |songs|
    ensures forall i :: 0 <= i < |songs| ==> r[i] == songs[i].title
  {
    seq(|songs|, i requires 0 <= i < |songs| => songs[i].title)
  }

  /**
   * `PlaylistDto.fromEntity`: id and name copied, the owner's username or
   * null, and the song titles in list order (none when the list is null).
   */
  function PlaylistDtoFromEntity(p: PlaylistView): (d: PlaylistDto)
    ensures d.id == p.id && d.name == p.name
    ensures d.username.Some? <==> p.user.Some?
    ensures p.user.Some? ==> d.username.value == p.user.value.username
    ensures p.songs.None? ==> d.songTitles == []
    ensures p.songs.Some? ==> |d.songTitles| == |p.songs.value|
    ensures p.songs.Some? ==> forall i :: 0 <= i < |p.songs.value| ==> d.songTitles[i] == p.songs.value[i].title
  {
    PlaylistDto(
      p.id,
      p.name,
      if p.user.Some? then Some(p.user.value.username) else None,
      if p.songs.Some? then Titles(p.songs.value) else [])
  }

  /**
   * `UserDto.fromEntity`: id and username copied, and each playlist
   * projected by `PlaylistDto.fromEntity`, in list order (none when the
   * list is null).
   */
  function UserDtoFromEntity(u: UserView): (d: UserDto)
    ensures d.id == u.id && d.username == u.username
    ensures u.playlists.None? ==> d.playlists == []
    ensures u.playlists.Some? ==> |d.playlists| == |u.playlists.value|
    ensures u.playlists.Some? ==> forall i :: 0 <= i < |u.playlists.value| ==>
              d.playlists[i] == PlaylistDtoFromEntity(u.playlists.value[i])
  {
    var ps := if u.playlists.Some? then u.playlists.value else [];
    UserDto(u.id, u.username, seq(|ps|, i requires 0 <= i < |ps| => PlaylistDtoFromEntity(ps[i])))
  }

  /**
   * `SongDto.fromEntity`: id, title and artist copied, and the names of
   * the song's playlists in list order. The list is dereferenced without
   * a null check, so a null list is excluded.
   */
  function SongDtoFromEntity(s: SongView): (d: SongDto)
    requires s.playlists.Some?
    ensures d.id == s.id && d.title == s.song.title && d.artist == s.song.artist
    ensures |d.playlistNames| == |s.playlists.value|
    ensures forall i :: 0 <= i < |s.playlists.value| ==> d.playlistNames[i] == s.playlists.value[i].name
  {
    var ps := s.playlists.value;
    SongDto(s.id, s.song.title, s.song.artist, seq(|ps|, i requires 0 <= i < |ps| => ps[i].name))
  }

  /** The songs stored under `ids`, in list order. */
  function SongsOf(db: Db, ids: seq<SongId>): (r: seq<Song>)
    requires forall i :: 0 <= i < |ids| ==> ids[i] in db.songs
    ensures |r| == |ids|
    ensures forall i :: 0 <= i < |ids| ==> r[i] == db.songs[ids[i]]
  {
    seq(|ids|, i requires 0 <= i < |ids| => db.songs[ids[i]])
  }

  /** The playlist object a lookup of `pid` yields, with its owner and songs attached. */
  function PlaylistViewOf(db: Db, pid: PlaylistId): (v: PlaylistView)
    requires RefsValid(db) && pid in db.playlists
    ensures v.id == pid && v.name == db.playlists[pid].name
    ensures v.songs.Some? && |v.songs.value| == |db.playlists[pid].songs|
  {
    var p := db.playlists[pid];
    PlaylistView(
      pid,
      p.name,
      if p.owner.Some? then Some(db.users[p.owner.value]) else None,
      Some(SongsOf(db, p.songs)))
  }

  /**
   * The DTO of a stored playlist lists one title per song row, each the
   * title of the stored song, and names the owner exactly when there is one.
   */
  lemma StoredPlaylistDto(db: Db, pid: PlaylistId)
    requires RefsValid(db) && pid in db.playlists
    ensures var d := PlaylistDtoFromEntity(PlaylistViewOf(db, pid));
            var p := db.playlists[pid];
            && |d.songTitles| == |p.songs|
            && (forall i :: 0 <= i < |p.songs| ==> d.songTitles[i] == db.songs[p.songs[i]].title)
            && (d.username.Some? <==> p.owner.Some?)
            && (p.owner.Some? ==> d.username.value == db.users[p.owner.value].username)
  {
  }
}
