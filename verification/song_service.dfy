/**
 * `SongService` of the backend: lookup by artist through an LRU cache
 * (cache-aside), song creation with title validation, update and delete
 * with cache invalidation.
 *
 * The cache bean is the generic LRU map of capacity 3, keyed by the
 * sanitised artist, holding the song list the repository returned.
 */
module SongService {
  import opened Common
  import opened Strings
  import opened Seqs
  import opened Entities
  import LruCache

  /** What the cache holds for an artist: the songs `findByArtist` returned, by id. */
  type SongsByArtist = map<SongId, Song>

  type ArtistCache = LruCache.Cache<string, SongsByArtist>

  datatype State = State(db: Db, cache: ArtistCache)

  /** The longest artist name accepted, in UTF-16 code units. */
  const MAX_ARTIST_LENGTH: nat := 100

  /**
   * Every cached list is what the repository would return for its key now:
   * a cache hit answers the same as a miss.
   */
  predicate Coherent(st: State) {
    forall a :: a in st.cache.values ==> st.cache.values[a] == FindByArtist(st.db.songs, a)
  }

  /** `artist.replaceAll("[\n\r]", "_")`. */
  function ReplaceLineBreaks(s: string): (r: string)
    ensures |r| == |s|
    ensures forall i :: 0 <= i < |s| ==> r[i] == if s[i] == '\n' || s[i] == '\r' then '_' else s[i]
  {
    seq(|s|, i requires 0 <= i < |s| => if s[i] == '\n' || s[i] == '\r' then '_' else s[i])
  }

  /** The cache key has no line breaks, and sanitising it again changes nothing. */
  lemma ReplaceLineBreaksIdempotent(s: string)
    ensures forall i :: 0 <= i < |s| ==> ReplaceLineBreaks(s)[i] != '\n' && ReplaceLineBreaks(s)[i] != '\r'
    ensures ReplaceLineBreaks(ReplaceLineBreaks(s)) == ReplaceLineBreaks(s)
  {
  }

  /** The checks `getSongsByArtist` makes before it touches the cache: not null, not empty, at most 100 UTF-16 units. */
  predicate ValidArtist(artist: Option<string>) {
    artist.Some? && artist.value != "" && Utf16Length(artist.value) <= MAX_ARTIST_LENGTH
  }

  /**
   * `getSongsByArtist`: BadRequest for an invalid artist with nothing
   * touched; otherwise a hit answers from the cache (and refreshes the
   * key's recency) and a miss asks the repository and caches the answer.
   */
  function GetSongsByArtist(st: State, artist: Option<string>): (out: (Result<SongsByArtist>, State))
    ensures out.0.Err? <==> !ValidArtist(artist)
    ensures out.0.Err? ==> out.0.failure == BadRequest && out.1 == st
    ensures out.1.db == st.db
    ensures ValidArtist(artist) ==>
              var key := ReplaceLineBreaks(artist.value);
              && key in out.1.cache.values
              && (key in st.cache.values ==>
                    out.0 == Ok(st.cache.values[key]) && out.1.cache.values == st.cache.values)
              && (key !in st.cache.values ==>
                    out.0 == Ok(FindByArtist(st.db.songs, key)) && out.1.cache.values[key] == out.0.value)
  {
    if artist.None? || artist.value == "" then (Err(BadRequest), st)
    else if Utf16Length(artist.value) > MAX_ARTIST_LENGTH then (Err(BadRequest), st)
    else
      var key := ReplaceLineBreaks(artist.value);
      if LruCache.ContainsKey(st.cache, key) then
        var (hit, cache) := LruCache.Get(st.cache, key);
        (Ok(hit.value), st.(cache := cache))
      else
        var songs := FindByArtist(st.db.songs, key);
        (Ok(songs), st.(cache := LruCache.Put(st.cache, key, songs).1))
  }

  /**
   * With a coherent cache, a lookup answers exactly what the repository
   * holds for the sanitised artist, and the cache stays coherent.
   */
  lemma GetSongsByArtistAnswersRepository(st: State, artist: Option<string>)
    requires Coherent(st)
    ensures Coherent(GetSongsByArtist(st, artist).1)
    ensures ValidArtist(artist) ==>
              GetSongsByArtist(st, artist).0 == Ok(FindByArtist(st.db.songs, ReplaceLineBreaks(artist.value)))
  {
    if ValidArtist(artist) {
      var key := ReplaceLineBreaks(artist.value);
      if key !in st.cache.values {
        LruCache.PutAddsOnlyItsKey(st.cache, key, FindByArtist(st.db.songs, key));
        CoherentAfterCaching(st, GetSongsByArtist(st, artist).1, key);
      }
    }
  }

  /** Caching the repository's answer for `key`, and keeping every other entry as it was, keeps the cache coherent. */
  lemma CoherentAfterCaching(st: State, after: State, key: string)
    requires Coherent(st) && after.db == st.db
    requires key in after.cache.values && after.cache.values[key] == FindByArtist(st.db.songs, key)
    requires forall a :: a in after.cache.values && a != key ==> a in st.cache.values && after.cache.values[a] == st.cache.values[a]
    ensures Coherent(after)
  {
  }

  /** The songs `createSongs` saves get the ids base, base + 1, ... in list order. */
  function Saved(songs: map<SongId, Song>, batch: seq<Song>, base: nat): (r: map<SongId, Song>)
    ensures forall id :: id in r <==> id in songs || base <= id < base + |batch|
    ensures forall id :: base <= id < base + |batch| ==> r[id] == batch[id - base]
    ensures forall id :: id in songs && !(base <= id < base + |batch|) ==> r[id] == songs[id]
    decreases |batch|
  {
    if |batch| == 0 then songs
    else
      var last := |batch| - 1;
      Saved(songs, batch[..last], base)[base + last := batch[last]]
  }

  /** The ids base, base + 1, ..., base + n - 1. */
  function FreshIds(base: nat, n: nat): (r: seq<SongId>)
    ensures |r| == n
    ensures forall i :: 0 <= i < n ==> r[i] == base + i
    ensures forall id :: id in r <==> base <= id < base + n
    ensures NoDup(r)
  {
    if n == 0 then []
    else
      var init := FreshIds(base, n - 1);
      init + [base + n - 1]
  }

  /** A song `createSongs` rejects: null or blank title. */
  predicate BadTitle(s: Song) {
    s.title.None? || IsBlank(s.title.value)
  }

  /**
   * `createSongs`: BadRequest for a null or empty list or any song with a
   * null or blank title, saving nothing; otherwise every song is saved
   * under a fresh id. Ids come from the database's identity column, given
   * here as the first free id `base`.
   */
  function CreateSongs(st: State, batch: Option<seq<Song>>, base: nat): (out: (Result<seq<SongId>>, State))
    requires forall id :: id in st.db.songs ==> id < base
    ensures out.0.Err? <==>
              batch.None? || |batch.value| == 0 || exists i :: 0 <= i < |batch.value| && BadTitle(batch.value[i])
    ensures out.0.Err? ==> out.0.failure == BadRequest && out.1 == st
    ensures out.1.cache == st.cache
    ensures out.1.db.playlists == st.db.playlists && out.1.db.users == st.db.users
    ensures out.0.Ok? ==>
              && |out.0.value| == |batch.value|
              && (forall i :: 0 <= i < |batch.value| ==>
                    && out.0.value[i] !in st.db.songs
                    && out.0.value[i] in out.1.db.songs
                    && out.1.db.songs[out.0.value[i]] == batch.value[i])
              && NoDup(out.0.value)
              && (forall id :: id in out.1.db.songs <==> id in st.db.songs || id in out.0.value)
              && (forall id :: id in st.db.songs ==> out.1.db.songs[id] == st.db.songs[id])
  {
    if batch.None? || |batch.value| == 0 then (Err(BadRequest), st)
    else if exists i :: 0 <= i < |batch.value| && BadTitle(batch.value[i]) then (Err(BadRequest), st)
    else
      var ids := FreshIds(base, |batch.value|);
      var songs := Saved(st.db.songs, batch.value, base);
      (Ok(ids), st.(db := st.db.(songs := songs)))
  }

  /**
   * `createSongs` leaves the cache alone, so it stays coherent only when no
   * saved song's artist is cached.
   */
  lemma CreateSongsKeepsUncachedArtistsCoherent(st: State, batch: Option<seq<Song>>, base: nat)
    requires forall id :: id in st.db.songs ==> id < base
    requires Coherent(st)
    requires batch.Some? ==> forall i :: 0 <= i < |batch.value| ==> batch.value[i].artist !in st.cache.values
    ensures Coherent(CreateSongs(st, batch, base).1)
  {
    var out := CreateSongs(st, batch, base);
    if out.0.Ok? {
      var ids, songs := out.0.value, out.1.db.songs;
      forall a | a in st.cache.values
        ensures FindByArtist(songs, a) == FindByArtist(st.db.songs, a)
      {
        forall id | id in songs && id !in st.db.songs
          ensures songs[id].artist != a
        {
          var i :| 0 <= i < |batch.value| && ids[i] == id;
        }
        FindByArtistAgrees(songs, st.db.songs, a);
      }
    }
  }

  /**
   * `updateSong` as written: NotFound for an unknown id; otherwise the
   * title and artist are replaced and the cache entry of the artist the
   * song holds AFTER the update is dropped.
   */
  function UpdateSong(st: State, id: SongId, details: Song): (out: (Result<Song>, State))
    ensures id !in st.db.songs <==> out.0.Err?
    ensures out.0.Err? ==> out.0.failure == NotFound && out.1 == st
    ensures out.0.Ok? ==>
              && out.0.value == details
              && out.1.db == st.db.(songs := st.db.songs[id := details])
              && out.1.cache.values == st.cache.values - {details.artist}
  {
    if id !in st.db.songs then (Err(NotFound), st)
    else
      var songs := st.db.songs[id := Song(details.title, details.artist)];
      (Ok(songs[id]), State(st.db.(songs := songs), LruCache.Remove(st.cache, details.artist).1))
  }

  /**
   * When a cached song moves to another artist, the old artist's cached
   * list still holds the song, which the repository no longer returns
   * for that artist.
   */
  lemma UpdateSongLeavesOldArtistStale(st: State, id: SongId, details: Song)
    requires Coherent(st)
    requires id in st.db.songs && st.db.songs[id].artist in st.cache.values
    requires details.artist != st.db.songs[id].artist
    ensures var after := UpdateSong(st, id, details).1;
            var old_artist := st.db.songs[id].artist;
            && old_artist in after.cache.values
            && id in after.cache.values[old_artist]
            && id !in FindByArtist(after.db.songs, old_artist)
            && !Coherent(after)
  {
  }

  /**
   * The evidently intended `updateSong`: drop the cache entries of both
   * the artist the song had and the artist it gets.
   */
  function UpdateSongInvalidatingBoth(st: State, id: SongId, details: Song): (out: (Result<Song>, State))
    ensures id !in st.db.songs <==> out.0.Err?
    ensures out.0.Err? ==> out.0.failure == NotFound && out.1 == st
    ensures out.0.Ok? ==>
              && out.0.value == details
              && out.1.db == st.db.(songs := st.db.songs[id := details])
              && out.1.cache.values == st.cache.values - {st.db.songs[id].artist, details.artist}
  {
    if id !in st.db.songs then (Err(NotFound), st)
    else
      var songs := st.db.songs[id := Song(details.title, details.artist)];
      var cache := EvictBoth(st.cache, st.db.songs[id].artist, details.artist);
      (Ok(songs[id]), State(st.db.(songs := songs), cache))
  }

  /** Two `cache.remove` calls in a row: neither artist stays cached, every other entry does. */
  function EvictBoth(c: ArtistCache, a: string, b: string): (r: ArtistCache)
    ensures r.values == c.values - {a, b}
  {
    var withoutA := LruCache.Remove(c, a).1;
    assert withoutA.values == c.values - {a};
    LruCache.Remove(withoutA, b).1
  }

  /** The corrected update keeps a coherent cache coherent. */
  lemma UpdateSongInvalidatingBothKeepsCoherent(st: State, id: SongId, details: Song)
    requires Coherent(st)
    ensures Coherent(UpdateSongInvalidatingBoth(st, id, details).1)
  {
    if id in st.db.songs {
      var gone := {st.db.songs[id].artist, details.artist};
      CoherentWhereOtherArtistsStay(st, UpdateSongInvalidatingBoth(st, id, details).1, gone);
    }
  }

  /**
   * Dropping the cache entries of the artists in `gone` keeps a coherent
   * cache coherent across any change of the song table that leaves the
   * songs of every other artist as they were.
   */
  lemma CoherentWhereOtherArtistsStay(st: State, after: State, gone: set<string>)
    requires Coherent(st)
    requires after.cache.values == st.cache.values - gone
    requires forall id :: id in st.db.songs && st.db.songs[id].artist !in gone ==>
               id in after.db.songs && after.db.songs[id] == st.db.songs[id]
    requires forall id :: id in after.db.songs && after.db.songs[id].artist !in gone ==>
               id in st.db.songs && st.db.songs[id] == after.db.songs[id]
    ensures Coherent(after)
  {
    forall a | a in after.cache.values
      ensures after.cache.values[a] == FindByArtist(after.db.songs, a)
    {
      FindByArtistAgrees(st.db.songs, after.db.songs, a);
    }
  }

  /** A playlist with every row of `sid` removed, the rest kept in order. */
  function WithoutSong(p: Playlist, sid: SongId): (r: Playlist)
    ensures r.name == p.name && r.owner == p.owner
    ensures r.songs == Erase(p.songs, sid)
  {
    p.(songs := Erase(p.songs, sid))
  }

  /**
   * `deleteSong`: an unknown id fails inside `getSongById` with a runtime
   * exception (a server error); otherwise the song leaves every playlist
   * that holds it, is deleted, and its artist's cache entry is dropped.
   */
  function DeleteSong(st: State, id: SongId): (out: (Result<()>, State))
    ensures id !in st.db.songs <==> out.0.Err?
    ensures out.0.Err? ==> out.0.failure == Internal && out.1 == st
    ensures out.0.Ok? ==>
              && out.1.db.songs == st.db.songs - {id}
              && out.1.db.users == st.db.users
              && out.1.db.playlists.Keys == st.db.playlists.Keys
              && (forall pid :: pid in st.db.playlists ==> out.1.db.playlists[pid] == WithoutSong(st.db.playlists[pid], id))
              && Containing(out.1.db.playlists, id) == {}
              && out.1.cache.values == st.cache.values - {st.db.songs[id].artist}
  {
    if id !in st.db.songs then (Err(Internal), st)
    else
      var artist := st.db.songs[id].artist;
      var playlists := map pid | pid in st.db.playlists ::
        if id in st.db.playlists[pid].songs then WithoutSong(st.db.playlists[pid], id) else st.db.playlists[pid];
      var db := Db(st.db.songs - {id}, playlists, st.db.users);
      (Ok(()), State(db, LruCache.Remove(st.cache, artist).1))
  }

  /** Deleting a song keeps every foreign key valid. */
  lemma DeleteSongKeepsRefs(st: State, id: SongId)
    requires RefsValid(st.db)
    ensures RefsValid(DeleteSong(st, id).1.db)
  {
  }

  /** Deleting a song keeps a coherent cache coherent. */
  lemma DeleteSongKeepsCoherent(st: State, id: SongId)
    requires Coherent(st)
    ensures Coherent(DeleteSong(st, id).1)
  {
    if id in st.db.songs {
      CoherentWithoutSong(st, DeleteSong(st, id).1, id);
    }
  }

  /** Removing one song and its artist's cache entry keeps a coherent cache coherent. */
  lemma CoherentWithoutSong(st: State, after: State, id: SongId)
    requires Coherent(st) && id in st.db.songs
    requires after.db.songs == st.db.songs - {id}
    requires after.cache.values == st.cache.values - {st.db.songs[id].artist}
    ensures Coherent(after)
  {
    CoherentWhereOtherArtistsStay(st, after, {st.db.songs[id].artist});
  }

  /** The corrected update keeps every foreign key valid. */
  lemma UpdateSongKeepsRefs(st: State, id: SongId, details: Song)
    requires RefsValid(st.db)
    ensures RefsValid(UpdateSongInvalidatingBoth(st, id, details).1.db)
    ensures RefsValid(UpdateSong(st, id, details).1.db)
  {
  }
}
