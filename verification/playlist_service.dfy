/**
 * `PlaylistService` of the backend: lookup, creation for an owner,
 * replacement of the song list, deletion and conditional update.
 */
module PlaylistService {
  import opened Common
  import opened Seqs
  import opened Entities
  import Dtos

  /** `getPlaylistById`: the stored playlist, or NotFound. */
  function GetPlaylistById(db: Db, pid: PlaylistId): (r: Result<Playlist>)
    ensures r.Ok? <==> pid in db.playlists
    ensures r.Ok? ==> r.value == db.playlists[pid]
    ensures r.Err? ==> r.failure == NotFound
  {
    if pid in db.playlists then Ok(db.playlists[pid]) else Err(NotFound)
  }

  /** A song object in a request body: the row it refers to and its fields as sent. */
  datatype SongInBody = SongInBody(id: SongId, song: Song)

  /**
   * The `Playlist` object `createPlaylist` receives from the request body:
   * a name and song objects, the list null when the body has none.
   */
  datatype PlaylistBody = PlaylistBody(name: string, songs: Option<seq<SongInBody>>)

  /** The `playlist_songs` rows saving the body writes: the ids of its song objects, in order. */
  function BodySongIds(b: PlaylistBody): (r: seq<SongId>)
    ensures b.songs.None? ==> r == []
    ensures b.songs.Some? ==> |r| == |b.songs.value| && forall i :: 0 <= i < |r| ==> r[i] == b.songs.value[i].id
  {
    if b.songs.None? then []
    else seq(|b.songs.value|, i requires 0 <= i < |b.songs.value| => b.songs.value[i].id)
  }

  /** The song objects the body holds, as sent. */
  function BodySongObjects(b: PlaylistBody): (r: Option<seq<Song>>)
    ensures r.None? <==> b.songs.None?
    ensures b.songs.Some? ==> |r.value| == |b.songs.value| && forall i :: 0 <= i < |r.value| ==> r.value[i] == b.songs.value[i].song
  {
    if b.songs.None? then None
    else Some(seq(|b.songs.value|, i requires 0 <= i < |b.songs.value| => b.songs.value[i].song))
  }

  /**
   * `createPlaylist`: NotFound for an unknown user, saving nothing;
   * otherwise the playlist is saved owned by that user, under the id the
   * identity column hands out (`newId`). `save` returns the very object it
   * was given, so the DTO is built from the request body: the titles are
   * those sent with its song objects (none when the list is null), not
   * those stored for the songs.
   */
  function CreatePlaylist(db: Db, body: PlaylistBody, uid: UserId, newId: PlaylistId): (out: (Result<Dtos.PlaylistDto>, Db))
    requires newId !in db.playlists
    ensures out.0.Ok? <==> uid in db.users
    ensures out.0.Err? ==> out.0.failure == NotFound && out.1 == db
    ensures out.0.Ok? ==>
              && out.1 == db.(playlists := db.playlists[newId := Playlist(body.name, Some(uid), BodySongIds(body))])
              && out.0.value.id == newId && out.0.value.name == body.name
              && out.0.value.username == Some(db.users[uid].username)
              && newId in OwnedBy(out.1.playlists, uid)
    ensures out.0.Ok? && body.songs.None? ==> out.0.value.songTitles == []
    ensures out.0.Ok? && body.songs.Some? ==>
              && |out.0.value.songTitles| == |body.songs.value|
              && forall i :: 0 <= i < |body.songs.value| ==> out.0.value.songTitles[i] == body.songs.value[i].song.title
  {
    if uid !in db.users then (Err(NotFound), db)
    else
      var saved := Playlist(body.name, Some(uid), BodySongIds(body));
      var view := Dtos.PlaylistView(newId, body.name, Some(db.users[uid]), BodySongObjects(body));
      (Ok(Dtos.PlaylistDtoFromEntity(view)), db.(playlists := db.playlists[newId := saved]))
  }

  /**
   * The DTO `createPlaylist` returns agrees with the one a later lookup of
   * the new playlist gives exactly when every song object of the body
   * carried the title stored for its row (and a null list reads as none).
   */
  lemma CreatedDtoMatchesStoredIff(db: Db, body: PlaylistBody, uid: UserId, newId: PlaylistId)
    requires RefsValid(db) && newId !in db.playlists && uid in db.users
    requires forall sid :: sid in BodySongIds(body) ==> sid in db.songs
    ensures var out := CreatePlaylist(db, body, uid, newId);
            RefsValid(out.1) &&
            (out.0.value == Dtos.PlaylistDtoFromEntity(Dtos.PlaylistViewOf(out.1, newId)) <==>
               body.songs.Some? ==> forall i :: 0 <= i < |body.songs.value| ==>
                 body.songs.value[i].song.title == db.songs[body.songs.value[i].id].title)
  {
    var out := CreatePlaylist(db, body, uid, newId);
    Dtos.StoredPlaylistDto(out.1, newId);
    var d := out.0.value;
    var stored := Dtos.PlaylistDtoFromEntity(Dtos.PlaylistViewOf(out.1, newId));
    assert out.1.songs == db.songs;
    if body.songs.Some? {
      var ss := body.songs.value;
      assert |stored.songTitles| == |ss|;
      forall i | 0 <= i < |ss| ensures stored.songTitles[i] == db.songs[ss[i].id].title {
        assert BodySongIds(body)[i] == ss[i].id;
      }
      if d == stored {
        forall i | 0 <= i < |ss| ensures ss[i].song.title == db.songs[ss[i].id].title {
          assert d.songTitles[i] == stored.songTitles[i];
        }
      }
      if forall i :: 0 <= i < |ss| ==> ss[i].song.title == db.songs[ss[i].id].title {
        assert d.songTitles == stored.songTitles;
      }
    } else {
      assert |stored.songTitles| == 0;
    }
  }

  /**
   * `addSongsToPlaylist`: NotFound for an unknown playlist; otherwise the
   * song list becomes exactly the songs found for `songIds`, the previous
   * list discarded.
   */
  function AddSongsToPlaylist(db: Db, pid: PlaylistId, songIds: seq<SongId>): (out: (Result<Playlist>, Db))
    ensures out.0.Ok? <==> pid in db.playlists
    ensures out.0.Err? ==> out.0.failure == NotFound && out.1 == db
    ensures out.0.Ok? ==>
              && out.0.value == db.playlists[pid].(songs := FindAllById(db.songs, songIds))
              && out.1 == db.(playlists := db.playlists[pid := out.0.value])
  {
    match GetPlaylistById(db, pid)
    case Err(f) => (Err(f), db)
    case Ok(p) =>
      var updated := p.(songs := FindAllById(db.songs, songIds));
      (Ok(updated), db.(playlists := db.playlists[pid := updated]))
  }

  /**
   * `deletePlaylist`: NotFound for an unknown playlist; otherwise its song
   * rows are cleared and the playlist is deleted.
   */
  function DeletePlaylist(db: Db, pid: PlaylistId): (out: (Result<()>, Db))
    ensures out.0.Ok? <==> pid in db.playlists
    ensures out.0.Err? ==> out.0.failure == NotFound && out.1 == db
    ensures out.0.Ok? ==> out.1 == db.(playlists := db.playlists - {pid})
  {
    match GetPlaylistById(db, pid)
    case Err(f) => (Err(f), db)
    case Ok(p) =>
      var cleared := db.(playlists := db.playlists[pid := p.(songs := [])]);
      (Ok(()), cleared.(playlists := cleared.playlists - {pid}))
  }

  /**
   * `updatePlaylist`: NotFound for an unknown playlist; otherwise the name
   * changes only when one is supplied and the songs are replaced by the
   * songs found for `songIds` only when a list is supplied.
   */
  function UpdatePlaylist(db: Db, pid: PlaylistId, name: Option<string>, songIds: Option<seq<SongId>>): (out: (Result<Playlist>, Db))
    ensures out.0.Ok? <==> pid in db.playlists
    ensures out.0.Err? ==> out.0.failure == NotFound && out.1 == db
    ensures out.0.Ok? ==>
              var p := db.playlists[pid];
              && out.0.value.name == (if name.Some? then name.value else p.name)
              && out.0.value.owner == p.owner
              && out.0.value.songs == (if songIds.Some? then FindAllById(db.songs, songIds.value) else p.songs)
              && out.1 == db.(playlists := db.playlists[pid := out.0.value])
  {
    if pid !in db.playlists then (Err(NotFound), db)
    else
      var p := db.playlists[pid];
      var named := if name.Some? then p.(name := name.value) else p;
      // `clear()` then `addAll(found)`: the list becomes the found songs.
      var updated := if songIds.Some? then named.(songs := FindAllById(db.songs, songIds.value)) else named;
      (Ok(updated), db.(playlists := db.playlists[pid := updated]))
  }

  /** An update with a song list and no name is the same as `addSongsToPlaylist`. */
  lemma UpdateWithSongsOnlyIsAddSongs(db: Db, pid: PlaylistId, songIds: seq<SongId>)
    ensures UpdatePlaylist(db, pid, None, Some(songIds)) == AddSongsToPlaylist(db, pid, songIds)
  {
  }

  /** An update with neither a name nor a song list stores the playlist unchanged. */
  lemma EmptyUpdateChangesNothing(db: Db, pid: PlaylistId)
    requires pid in db.playlists
    ensures UpdatePlaylist(db, pid, None, None).1 == db
  {
  }

  /**
   * After replacing the songs, the playlist's DTO lists exactly the titles
   * of the songs found, in the order they were first requested.
   */
  lemma AddedSongsAppearInDto(db: Db, pid: PlaylistId, songIds: seq<SongId>)
    requires RefsValid(db) && pid in db.playlists
    ensures RefsValid(AddSongsToPlaylist(db, pid, songIds).1)
    ensures var after := AddSongsToPlaylist(db, pid, songIds).1;
            var found := FindAllById(db.songs, songIds);
            var d := Dtos.PlaylistDtoFromEntity(Dtos.PlaylistViewOf(after, pid));
            && |d.songTitles| == |found|
            && forall i :: 0 <= i < |found| ==> d.songTitles[i] == db.songs[found[i]].title
  {
    var after := AddSongsToPlaylist(db, pid, songIds).1;
    Dtos.StoredPlaylistDto(after, pid);
  }

  /** Every playlist operation keeps every foreign key valid (a new playlist's songs must exist). */
  lemma PlaylistOperationsKeepRefs(db: Db, pid: PlaylistId, name: Option<string>, songIds: Option<seq<SongId>>, body: PlaylistBody, uid: UserId, newId: PlaylistId)
    requires RefsValid(db)
    requires newId !in db.playlists
    requires forall sid :: sid in BodySongIds(body) ==> sid in db.songs
    ensures RefsValid(UpdatePlaylist(db, pid, name, songIds).1)
    ensures RefsValid(DeletePlaylist(db, pid).1)
    ensures RefsValid(CreatePlaylist(db, body, uid, newId).1)
  {
  }
}
