/**
 * The persisted state of the music service: songs, playlists and users as
 * finite maps from generated ids to records, and the repository queries
 * the services use.
 *
 * A playlist owns both of its relations: `Playlist.user` is the join
 * column and `Playlist.songs` the join table. The inverse collections
 * (`User.playlists`, `Song.playlists`) are therefore not stored; they are
 * the functions `OwnedBy` and `Containing`.
 */
module Entities {
  import opened Common
  import opened Seqs

  type SongId = nat
  type PlaylistId = nat
  type UserId = nat

  /** A song row. The title column may be null on an unsaved object. */
  datatype Song = Song(title: Option<string>, artist: string)

  /** A playlist row with its owner (`user_id`) and its `playlist_songs` rows in list order. */
  datatype Playlist = Playlist(name: string, owner: Option<UserId>, songs: seq<SongId>)

  /** A user row. */
  datatype User = User(username: string)

  /** The three repositories. */
  datatype Db = Db(
    songs: map<SongId, Song>,
    playlists: map<PlaylistId, Playlist>,
    users: map<UserId, User>)

  /**
   * Every foreign key points at an existing row: each playlist's songs
   * exist and its owner, if any, exists.
   */
  predicate RefsValid(db: Db) {
    && (forall pid, sid :: pid in db.playlists && sid in db.playlists[pid].songs ==> sid in db.songs)
    && (forall pid :: pid in db.playlists && db.playlists[pid].owner.Some? ==> db.playlists[pid].owner.value in db.users)
  }

  /** The requested ids that are present in `m`. */
  function Present<T>(m: map<nat, T>, ids: seq<nat>): (r: seq<nat>)
    ensures forall x :: x in r <==> x in ids && x in m
    ensures IsSubsequence(r, ids)
  {
    Filter(ids, (x: nat) => x in m)
  }

  /**
   * `findAllById`: each requested id that exists, once, in the order of
   * its first request.
   */
  function FindAllById<T>(m: map<nat, T>, ids: seq<nat>): (r: seq<nat>)
    ensures NoDup(r)
    ensures forall x :: x in r <==> x in ids && x in m
    ensures forall i, j :: 0 <= i < j < |r| ==> FirstIndex(ids, r[i]) < FirstIndex(ids, r[j])
  {
    var p := Present(m, ids);
    var r := Dedupe(p);
    forall i, j | 0 <= i < j < |r|
      ensures FirstIndex(ids, r[i]) < FirstIndex(ids, r[j])
    {
      FilterKeepsFirstOrder(ids, (x: nat) => x in m, r[i], r[j]);
    }
    r
  }

  /** `findByArtist`: the songs whose artist is exactly `artist`. */
  function FindByArtist(songs: map<SongId, Song>, artist: string): (r: map<SongId, Song>)
    ensures forall id :: id in r <==> id in songs && songs[id].artist == artist
    ensures forall id :: id in r ==> r[id] == songs[id]
  {
    map id | id in songs && songs[id].artist == artist :: songs[id]
  }

  /** Two song tables that agree on the songs of `artist` answer `findByArtist(artist)` alike. */
  lemma FindByArtistAgrees(s1: map<SongId, Song>, s2: map<SongId, Song>, artist: string)
    requires forall id :: id in s1 && s1[id].artist == artist ==> id in s2 && s2[id] == s1[id]
    requires forall id :: id in s2 && s2[id].artist == artist ==> id in s1 && s1[id] == s2[id]
    ensures FindByArtist(s1, artist) == FindByArtist(s2, artist)
  {
    var r1, r2 := FindByArtist(s1, artist), FindByArtist(s2, artist);
    assert r1.Keys == r2.Keys;
  }

  /** `User.playlists`: the playlists whose owner is `uid`. */
  function OwnedBy(playlists: map<PlaylistId, Playlist>, uid: UserId): set<PlaylistId> {
    set pid | pid in playlists && playlists[pid].owner == Some(uid)
  }

  /** `Song.playlists`: the playlists whose song list holds `sid`. */
  function Containing(playlists: map<PlaylistId, Playlist>, sid: SongId): set<PlaylistId> {
    set pid | pid in playlists && sid in playlists[pid].songs
  }
}
