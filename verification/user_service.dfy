/**
 * `UserService` of the backend: lookup, update with reassignment of
 * playlist ownership, and deletion that cascades to the user's playlists.
 */
module UserService {
  import opened Common
  import opened Seqs
  import opened Entities

  /** `getUserById`: the user, or null (not an exception) for an unknown id. */
  function GetUserById(db: Db, uid: UserId): (r: Option<User>)
    ensures r.Some? <==> uid in db.users
    ensures r.Some? ==> r.value == db.users[uid]
  {
    if uid in db.users then Some(db.users[uid]) else None
  }

  /**
   * The owner of a playlist after `updateUser` hands `uid` the playlists
   * `found`: those become the user's, the user's other playlists lose
   * their owner, and everyone else's stay as they were.
   */
  function Reassigned(p: Playlist, pid: PlaylistId, uid: UserId, found: seq<PlaylistId>): (r: Playlist)
    ensures r.name == p.name && r.songs == p.songs
  {
    if pid in found then p.(owner := Some(uid))
    else if p.owner == Some(uid) then p.(owner := None)
    else p
  }

  /**
   * `updateUser`: NotFound for an unknown user, changing nothing;
   * otherwise the username changes only when one is supplied, and when a
   * list of playlist ids is supplied, the user's old playlists are
   * released and the playlists found for those ids are given to the user.
   */
  function UpdateUser(db: Db, uid: UserId, username: Option<string>, playlistIds: Option<seq<PlaylistId>>): (out: (Result<()>, Db))
    ensures out.0.Ok? <==> uid in db.users
    ensures out.0.Err? ==> out.0.failure == NotFound && out.1 == db
    ensures out.0.Ok? ==>
              && out.1.songs == db.songs
              && out.1.users == (if username.Some? then db.users[uid := User(username.value)] else db.users)
              && out.1.playlists.Keys == db.playlists.Keys
              && (forall pid :: pid in db.playlists ==>
                    out.1.playlists[pid].name == db.playlists[pid].name && out.1.playlists[pid].songs == db.playlists[pid].songs)
    ensures out.0.Ok? && playlistIds.None? ==> out.1.playlists == db.playlists
    ensures out.0.Ok? && playlistIds.Some? ==>
              forall pid :: pid in db.playlists ==>
                out.1.playlists[pid] == Reassigned(db.playlists[pid], pid, uid, FindAllById(db.playlists, playlistIds.value))
  {
    if uid !in db.users then (Err(NotFound), db)
    else
      var users := if username.Some? then db.users[uid := User(username.value)] else db.users;
      var playlists :=
        if playlistIds.None? then db.playlists
        else
          var found := FindAllById(db.playlists, playlistIds.value);
          map pid | pid in db.playlists :: Reassigned(db.playlists[pid], pid, uid, found);
      (Ok(()), Db(db.songs, playlists, users))
  }

  /**
   * With a list of ids, the user owns afterwards exactly the playlists
   * found for it; another user keeps the playlists they had, minus those
   * handed over.
   */
  lemma UpdateUserOwnership(db: Db, uid: UserId, username: Option<string>, ids: seq<PlaylistId>, other: UserId)
    requires uid in db.users && other != uid
    ensures var after := UpdateUser(db, uid, username, Some(ids)).1;
            var found := FindAllById(db.playlists, ids);
            && OwnedBy(after.playlists, uid) == set pid | pid in found
            && OwnedBy(after.playlists, other) == OwnedBy(db.playlists, other) - (set pid | pid in found)
  {
    var after := UpdateUser(db, uid, username, Some(ids)).1;
    var found := FindAllById(db.playlists, ids);
    var mine := set pid | pid in found;
    forall pid | pid in after.playlists
      ensures after.playlists[pid].owner == Some(uid) <==> pid in mine
      ensures after.playlists[pid].owner == Some(other) <==> pid in OwnedBy(db.playlists, other) && pid !in mine
    {
      assert after.playlists[pid] == Reassigned(db.playlists[pid], pid, uid, found);
    }
    assert forall pid :: pid in mine ==> pid in db.playlists;
  }

  /** Without a list of ids, every user owns the same playlists as before. */
  lemma UpdateUserWithoutIdsKeepsOwnership(db: Db, uid: UserId, username: Option<string>, v: UserId)
    ensures OwnedBy(UpdateUser(db, uid, username, None).1.playlists, v) == OwnedBy(db.playlists, v)
  {
  }

  /**
   * `deleteUser`: NotFound for an unknown user, deleting nothing;
   * otherwise the user's playlists lose their song rows and are deleted,
   * then the user is deleted.
   */
  function DeleteUser(db: Db, uid: UserId): (out: (Result<()>, Db))
    ensures out.0.Ok? <==> uid in db.users
    ensures out.0.Err? ==> out.0.failure == NotFound && out.1 == db
    ensures out.0.Ok? ==>
              && out.1.songs == db.songs
              && out.1.users == db.users - {uid}
              && (forall pid :: pid in out.1.playlists <==> pid in db.playlists && pid !in OwnedBy(db.playlists, uid))
              && (forall pid :: pid in out.1.playlists ==> out.1.playlists[pid] == db.playlists[pid])
  {
    if uid !in db.users then (Err(NotFound), db)
    else
      var owned := OwnedBy(db.playlists, uid);
      var cleared := map pid | pid in db.playlists :: if pid in owned then db.playlists[pid].(songs := []) else db.playlists[pid];
      var remaining := map pid | pid in cleared && pid !in owned :: cleared[pid];
      (Ok(()), Db(db.songs, remaining, db.users - {uid}))
  }

  /** Deleting a user leaves no playlist owned by them and keeps every foreign key valid. */
  lemma DeleteUserKeepsRefs(db: Db, uid: UserId)
    requires RefsValid(db)
    ensures OwnedBy(DeleteUser(db, uid).1.playlists, uid) == {}
    ensures RefsValid(DeleteUser(db, uid).1)
  {
    var after := DeleteUser(db, uid).1;
    if uid in db.users {
      forall pid | pid in after.playlists && after.playlists[pid].owner.Some?
        ensures after.playlists[pid].owner.value in after.users
      {
        assert pid !in OwnedBy(db.playlists, uid);
      }
    }
  }

  /** Updating a user keeps every foreign key valid. */
  lemma UpdateUserKeepsRefs(db: Db, uid: UserId, username: Option<string>, playlistIds: Option<seq<PlaylistId>>)
    requires RefsValid(db)
    ensures RefsValid(UpdateUser(db, uid, username, playlistIds).1)
  {
  }
}
