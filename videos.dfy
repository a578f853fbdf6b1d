/** The mutations and queries of the `videos` table: creation with optional
    tag names, the flag patch, deletion, adding and removing tags, the
    playback progress, and the user's list newest first. Every mutation of
    an existing video first checks that it exists and belongs to the caller;
    otherwise it answers `videos.errors.notFound` and writes nothing. */
module Videos {
  import opened Base
  import opened Catalog

  const NotFoundKey := "videos.errors.notFound"

  /** A flag argument `args.x || false`: set only by an explicit true. */
  predicate IsSet(flag: Option<bool>) {
    flag == Some(true)
  }

  function NamesOf(tagNames: Option<seq<string>>): seq<string> {
    if tagNames.Some? then tagNames.value else []
  }

  /** The row `createVideo` ends up with. */
  function NewVideo(id: Id, userId: Id, url: string, details: VideoDetails, tagIds: seq<Id>,
                    isFavorite: Option<bool>, isArchived: Option<bool>, isWatched: Option<bool>, now: int): Video
  {
    Video(id, userId, url, details, tagIds, IsSet(isFavorite), IsSet(isArchived), IsSet(isWatched), now, None, None)
  }

  /** The `updates` object of `updateVideo` applied to a video. */
  function Flagged(v: Video, isFavorite: Option<bool>, isArchived: Option<bool>, isWatched: Option<bool>, now: int): Video {
    v.(isFavorite := if isFavorite.Some? then isFavorite.value else v.isFavorite,
       isArchived := if isArchived.Some? then isArchived.value else v.isArchived,
       isWatched := if isWatched.Some? then isWatched.value else v.isWatched,
       watchedAt := if isWatched == Some(true) then Some(now) else v.watchedAt)
  }

  /** `[...new Set([...existing, ...added])]`: each id of either list once,
      in the order of its first occurrence in the concatenation. */
  function MergeTagIds(existing: seq<Id>, added: seq<Id>): (r: seq<Id>)
    ensures NoDuplicates(r)
    ensures forall id :: id in r <==> id in existing || id in added
    ensures InFirstOccurrenceOrder(r, existing + added)
  {
    DedupOrder(existing + added);
    Dedup(existing + added)
  }

  function NotInFn(removed: seq<Id>): Id -> bool {
    id => id !in removed
  }

  /** `existing.filter(id => !removed.includes(id))`. */
  function RemoveTagIds(existing: seq<Id>, removed: seq<Id>): (r: seq<Id>)
    ensures forall id :: id in r <==> id in existing && id !in removed
  {
    Filter(existing, NotInFn(removed))
  }

  function OwnerFn(userId: Id): Video -> bool {
    (v: Video) => v.userId == userId
  }

  function OtherVideoFn(id: Id): Video -> bool {
    (v: Video) => v.id != id
  }

  // ---------------------------------------------------------------------
  // Mutations
  // ---------------------------------------------------------------------

  /** `createVideo`: inserts the video with the three flags defaulting to
      false and `addedAt = now`; when tag names are given and non-empty,
      resolves them in order and stores the collected ids. */
  method CreateVideo(db: Tables, userId: Id, url: string, details: VideoDetails, tagNames: Option<seq<string>>,
                     isFavorite: Option<bool>, isArchived: Option<bool>, isWatched: Option<bool>, now: int)
    returns (video: Video)
    requires db.Valid()
    modifies db
    ensures db.Valid()
    ensures var res := Resolve(old(db.tags), old(db.nextTagId), userId, NamesOf(tagNames), now);
      video == NewVideo(old(db.nextVideoId), userId, url, details, res.ids, isFavorite, isArchived, isWatched, now)
      && db.videos == old(db.videos) + [video] && db.nextVideoId == old(db.nextVideoId) + 1
      && db.tags == res.tags && db.nextTagId == res.nextTagId
  {
    var videoId := db.nextVideoId;
    var tagIds: seq<Id> := [];
    ResolveWellFormed(db.tags, db.nextTagId, userId, NamesOf(tagNames), now);
    if tagNames.Some? && |tagNames.value| > 0 {
      tagIds := ResolveTagNames(db, userId, tagNames.value, now);
    }
    video := NewVideo(videoId, userId, url, details, tagIds, isFavorite, isArchived, isWatched, now);
    db.videos := db.videos + [video];
    db.nextVideoId := db.nextVideoId + 1;
  }

  /** `updateVideo`: patches the supplied flags; `watchedAt` is stamped only
      when the video is marked watched. */
  method UpdateVideo(db: Tables, videoId: Id, userId: Id, isFavorite: Option<bool>, isArchived: Option<bool>,
                     isWatched: Option<bool>, now: int)
    returns (r: Result<Video>)
    requires db.Valid()
    modifies db
    ensures db.Valid()
    ensures db.tags == old(db.tags) && db.nextTagId == old(db.nextTagId) && db.nextVideoId == old(db.nextVideoId)
    ensures !OwnsVideo(old(db.videos), videoId, userId) ==> r == Err(NotFoundKey) && db.videos == old(db.videos)
    ensures OwnsVideo(old(db.videos), videoId, userId) ==>
      var updated := Flagged(GetVideo(old(db.videos), videoId).value, isFavorite, isArchived, isWatched, now);
      r == Ok(updated) && db.videos == ReplaceVideo(old(db.videos), updated)
  {
    var video := GetVideo(db.videos, videoId);
    if video.None? || video.value.userId != userId {
      return Err(NotFoundKey);
    }
    var updated := Updates(video.value, isFavorite, isArchived, isWatched, now);
    ReplaceVideoEffect(db.videos, db.nextVideoId, updated);
    db.videos := ReplaceVideo(db.videos, updated);
    r := Ok(updated);
  }

  /** The `updates` object of `updateVideo`, built field by field. */
  method Updates(video: Video, isFavorite: Option<bool>, isArchived: Option<bool>, isWatched: Option<bool>, now: int)
    returns (updated: Video)
    ensures updated == Flagged(video, isFavorite, isArchived, isWatched, now)
  {
    updated := video;
    if isFavorite.Some? {
      updated := updated.(isFavorite := isFavorite.value);
    }
    if isArchived.Some? {
      updated := updated.(isArchived := isArchived.value);
    }
    if isWatched.Some? {
      updated := updated.(isWatched := isWatched.value);
      if isWatched.value {
        updated := updated.(watchedAt := Some(now));
      }
    }
  }

  /** `deleteVideo`. */
  method DeleteVideo(db: Tables, videoId: Id, userId: Id) returns (r: Result<()>)
    requires db.Valid()
    modifies db
    ensures db.Valid()
    ensures db.tags == old(db.tags) && db.nextTagId == old(db.nextTagId) && db.nextVideoId == old(db.nextVideoId)
    ensures !OwnsVideo(old(db.videos), videoId, userId) ==> r == Err(NotFoundKey) && db.videos == old(db.videos)
    ensures OwnsVideo(old(db.videos), videoId, userId) ==>
      r == Ok(()) && db.videos == Filter(old(db.videos), OtherVideoFn(videoId))
  {
    var video := GetVideo(db.videos, videoId);
    if video.None? || video.value.userId != userId {
      return Err(NotFoundKey);
    }
    FilterKeepsIncreasing(db.videos, OtherVideoFn(videoId), VideoKey);
    db.videos := Filter(db.videos, OtherVideoFn(videoId));
    r := Ok(());
  }

  /** `addTagsToVideo`: resolves the names like `createVideo`, then stores
      the duplicate-free union of the video's ids and the collected ones. */
  method AddTagsToVideo(db: Tables, videoId: Id, userId: Id, tagNames: seq<string>, now: int)
    returns (r: Result<Video>)
    requires db.Valid()
    modifies db
    ensures db.Valid()
    ensures db.nextVideoId == old(db.nextVideoId)
    ensures !OwnsVideo(old(db.videos), videoId, userId) ==>
      r == Err(NotFoundKey) && db.videos == old(db.videos)
      && db.tags == old(db.tags) && db.nextTagId == old(db.nextTagId)
    ensures OwnsVideo(old(db.videos), videoId, userId) ==>
      var res := Resolve(old(db.tags), old(db.nextTagId), userId, tagNames, now);
      var v := GetVideo(old(db.videos), videoId).value;
      var updated := v.(tagIds := MergeTagIds(v.tagIds, res.ids));
      r == Ok(updated) && db.videos == ReplaceVideo(old(db.videos), updated)
      && db.tags == res.tags && db.nextTagId == res.nextTagId
  {
    var video := GetVideo(db.videos, videoId);
    if video.None? || video.value.userId != userId {
      return Err(NotFoundKey);
    }
    ResolveWellFormed(db.tags, db.nextTagId, userId, tagNames, now);
    var tagIds := ResolveTagNames(db, userId, tagNames, now);
    var newTagIds := MergeTagIds(video.value.tagIds, tagIds);
    var updated := video.value.(tagIds := newTagIds);
    ReplaceVideoEffect(db.videos, db.nextVideoId, updated);
    db.videos := ReplaceVideo(db.videos, updated);
    r := Ok(updated);
  }

  /** `removeTagsFromVideo`. */
  method RemoveTagsFromVideo(db: Tables, videoId: Id, userId: Id, tagIds: seq<Id>) returns (r: Result<Video>)
    requires db.Valid()
    modifies db
    ensures db.Valid()
    ensures db.tags == old(db.tags) && db.nextTagId == old(db.nextTagId) && db.nextVideoId == old(db.nextVideoId)
    ensures !OwnsVideo(old(db.videos), videoId, userId) ==> r == Err(NotFoundKey) && db.videos == old(db.videos)
    ensures OwnsVideo(old(db.videos), videoId, userId) ==>
      var v := GetVideo(old(db.videos), videoId).value;
      var updated := v.(tagIds := RemoveTagIds(v.tagIds, tagIds));
      r == Ok(updated) && db.videos == ReplaceVideo(old(db.videos), updated)
  {
    var video := GetVideo(db.videos, videoId);
    if video.None? || video.value.userId != userId {
      return Err(NotFoundKey);
    }
    var updated := video.value.(tagIds := RemoveTagIds(video.value.tagIds, tagIds));
    ReplaceVideoEffect(db.videos, db.nextVideoId, updated);
    db.videos := ReplaceVideo(db.videos, updated);
    r := Ok(updated);
  }

  /** `updateVideoProgress`: stores the progress and answers it back. */
  method UpdateVideoProgress(db: Tables, videoId: Id, userId: Id, progress: int) returns (r: Result<int>)
    requires db.Valid()
    modifies db
    ensures db.Valid()
    ensures db.tags == old(db.tags) && db.nextTagId == old(db.nextTagId) && db.nextVideoId == old(db.nextVideoId)
    ensures !OwnsVideo(old(db.videos), videoId, userId) ==> r == Err(NotFoundKey) && db.videos == old(db.videos)
    ensures OwnsVideo(old(db.videos), videoId, userId) ==>
      r == Ok(progress)
      && db.videos == ReplaceVideo(old(db.videos), GetVideo(old(db.videos), videoId).value.(progress := Some(progress)))
  {
    var video := GetVideo(db.videos, videoId);
    if video.None? || video.value.userId != userId {
      return Err(NotFoundKey);
    }
    var updated := video.value.(progress := Some(progress));
    ReplaceVideoEffect(db.videos, db.nextVideoId, updated);
    db.videos := ReplaceVideo(db.videos, updated);
    r := Ok(progress);
  }

  // ---------------------------------------------------------------------
  // Queries
  // ---------------------------------------------------------------------

  /** `getUserVideos`: the user's videos, newest first. */
  function GetUserVideos(videos: seq<Video>, userId: Id): (r: seq<Video>)
    ensures forall v :: v in r <==> v in videos && v.userId == userId
  {
    var mine := Filter(videos, OwnerFn(userId));
    assert forall v :: v in Reverse(mine) <==> v in mine by {
      forall v | v in mine ensures v in Reverse(mine) {
        var i :| 0 <= i < |mine| && mine[i] == v;
        assert Reverse(mine)[|mine| - 1 - i] == v;
      }
    }
    Reverse(mine)
  }

  /** `getVideoWithProgress`: the video and its progress, 0 when unset. */
  function GetVideoWithProgress(videos: seq<Video>, videoId: Id, userId: Id): (r: Result<(Video, int)>)
    ensures r.Err? <==> !OwnsVideo(videos, videoId, userId)
    ensures r.Err? ==> r.messageKey == NotFoundKey
    ensures r.Ok? ==>
      r.value.0 in videos && r.value.0.id == videoId && r.value.0.userId == userId
      && r.value.1 == (if r.value.0.progress.Some? then r.value.0.progress.value else 0)
  {
    match GetVideo(videos, videoId)
    case None => Err(NotFoundKey)
    case Some(v) =>
      if v.userId != userId then Err(NotFoundKey)
      else Ok((v, if v.progress.Some? && v.progress.value != 0 then v.progress.value else 0))
  }

  // ---------------------------------------------------------------------
  // Properties
  // ---------------------------------------------------------------------

  /** Replacing an existing video row keeps the table well formed, makes the
      row findable with its new content, and leaves every other row as it
      was. */
  lemma ReplaceVideoEffect(videos: seq<Video>, nextVideoId: Id, v: Video)
    requires VideosWellFormed(videos, nextVideoId)
    requires GetVideo(videos, v.id).Some?
    ensures var after := ReplaceVideo(videos, v);
      VideosWellFormed(after, nextVideoId)
      && GetVideo(after, v.id) == Some(v)
      && forall i :: 0 <= i < |videos| && videos[i].id != v.id ==> after[i] == videos[i]
  {
    var after := ReplaceVideo(videos, v);
    var k := ReplaceKeepsVideoIds(videos, nextVideoId, v);
    forall j | 0 <= j < k ensures !VideoIdFn(v.id)(after[j]) {
    }
    FirstIndexIs(after, VideoIdFn(v.id), k);
  }

  /** Replacing a row keeps every row's id; the replaced row is the only one
      with that id. */
  lemma ReplaceKeepsVideoIds(videos: seq<Video>, nextVideoId: Id, v: Video) returns (k: nat)
    requires VideosWellFormed(videos, nextVideoId)
    requires GetVideo(videos, v.id).Some?
    ensures k < |videos| && videos[k].id == v.id && ReplaceVideo(videos, v)[k] == v
    ensures forall i :: 0 <= i < |videos| && i != k ==> videos[i].id != v.id && ReplaceVideo(videos, v)[i] == videos[i]
    ensures forall i :: 0 <= i < |videos| ==> ReplaceVideo(videos, v)[i].id == videos[i].id
  {
    k :| 0 <= k < |videos| && videos[k] == GetVideo(videos, v.id).value;
    forall i | 0 <= i < |videos| && i != k ensures videos[i].id != v.id {
      if i < k {
        assert videos[i].id < videos[k].id;
      } else {
        assert videos[k].id < videos[i].id;
      }
    }
  }

  /** What `createVideo` writes: the video is found under the next id, its
      flags are true only when passed as true, it was added at `now`, never
      watched, with no progress, and its tag ids are, name by name and in
      input order, the ids of the user's tags with those names; the tables
      stay well formed and every tag reference stays valid. */
  lemma CreateVideoFacts(videos: seq<Video>, nextVideoId: Id, tags: seq<Tag>, nextTagId: Id, userId: Id, url: string,
                         details: VideoDetails, tagNames: Option<seq<string>>,
                         isFavorite: Option<bool>, isArchived: Option<bool>, isWatched: Option<bool>, now: int)
    requires VideosWellFormed(videos, nextVideoId) && TagsWellFormed(tags, nextTagId)
    requires TagRefsValid(videos, tags)
    ensures var res := Resolve(tags, nextTagId, userId, NamesOf(tagNames), now);
      var v := NewVideo(nextVideoId, userId, url, details, res.ids, isFavorite, isArchived, isWatched, now);
      var after := videos + [v];
      VideosWellFormed(after, nextVideoId + 1) && TagsWellFormed(res.tags, res.nextTagId)
      && TagRefsValid(after, res.tags)
      && GetVideo(after, nextVideoId) == Some(v)
      && v.userId == userId && v.url == url && v.details == details
      && (v.isFavorite <==> isFavorite == Some(true))
      && (v.isArchived <==> isArchived == Some(true))
      && (v.isWatched <==> isWatched == Some(true))
      && v.addedAt == now && v.watchedAt == None && v.progress == None
      && |v.tagIds| == |NamesOf(tagNames)|
      && forall k :: 0 <= k < |v.tagIds| ==>
           FindTag(res.tags, userId, NamesOf(tagNames)[k]).Some?
           && FindTag(res.tags, userId, NamesOf(tagNames)[k]).value.id == v.tagIds[k]
  {
    var names := NamesOf(tagNames);
    var res := Resolve(tags, nextTagId, userId, names, now);
    var v := NewVideo(nextVideoId, userId, url, details, res.ids, isFavorite, isArchived, isWatched, now);
    var after := videos + [v];
    ResolveFacts(tags, nextTagId, userId, names, now);
    ResolveRefs(videos, tags, nextTagId, userId, names, now);
    forall i, k | 0 <= i < |after| && 0 <= k < |after[i].tagIds|
      ensures HasTag(res.tags, after[i].tagIds[k], after[i].userId)
    {
      if i < |videos| {
        assert after[i] == videos[i];
      }
    }
    forall j | 0 <= j < |videos| ensures !VideoIdFn(nextVideoId)(after[j]) {
      assert after[j] == videos[j];
    }
    FirstIndexIs(after, VideoIdFn(nextVideoId), |videos|);
  }

  /** The branch on empty tag names in `createVideo` changes nothing:
      resolving no names gives no ids and leaves the tags table alone. */
  lemma NoNamesNoTags(tags: seq<Tag>, nextTagId: Id, userId: Id, tagNames: Option<seq<string>>, now: int)
    requires tagNames.None? || tagNames.value == []
    ensures Resolve(tags, nextTagId, userId, NamesOf(tagNames), now) == Resolution([], tags, nextTagId)
  {
  }

  /** `updateVideo` changes exactly the supplied flags of the video, stamps
      `watchedAt` exactly when it is marked watched, and keeps everything
      else; a repeat of the same update at the same time changes nothing. */
  lemma FlaggedEffect(v: Video, isFavorite: Option<bool>, isArchived: Option<bool>, isWatched: Option<bool>, now: int)
    ensures var u := Flagged(v, isFavorite, isArchived, isWatched, now);
      u.id == v.id && u.userId == v.userId && u.url == v.url && u.details == v.details
      && u.tagIds == v.tagIds && u.addedAt == v.addedAt && u.progress == v.progress
      && (isFavorite.None? ==> u.isFavorite == v.isFavorite) && (isFavorite.Some? ==> u.isFavorite == isFavorite.value)
      && (isArchived.None? ==> u.isArchived == v.isArchived) && (isArchived.Some? ==> u.isArchived == isArchived.value)
      && (isWatched.None? ==> u.isWatched == v.isWatched) && (isWatched.Some? ==> u.isWatched == isWatched.value)
      && (u.watchedAt != v.watchedAt ==> isWatched == Some(true) && u.watchedAt == Some(now))
      && (isWatched == Some(true) ==> u.watchedAt == Some(now))
      && Flagged(u, isFavorite, isArchived, isWatched, now) == u
  {
  }

  /** After `deleteVideo` the video is gone, every other row is kept in
      order, and the references of the remaining videos stay valid. */
  lemma DeleteVideoEffect(videos: seq<Video>, nextVideoId: Id, tags: seq<Tag>, videoId: Id)
    requires VideosWellFormed(videos, nextVideoId) && TagRefsValid(videos, tags)
    ensures var after := Filter(videos, OtherVideoFn(videoId));
      GetVideo(after, videoId).None?
      && (forall v :: v in after <==> v in videos && v.id != videoId)
      && VideosWellFormed(after, nextVideoId)
      && TagRefsValid(after, tags)
  {
    var after := Filter(videos, OtherVideoFn(videoId));
    FilterKeepsIncreasing(videos, OtherVideoFn(videoId), VideoKey);
    forall i, k | 0 <= i < |after| && 0 <= k < |after[i].tagIds|
      ensures HasTag(tags, after[i].tagIds[k], after[i].userId)
    {
      assert after[i] in videos;
      var j :| 0 <= j < |videos| && videos[j] == after[i];
    }
  }

  /** The merge is the existing ids without their repeats, followed by the
      added ids the video lacked, without their repeats. */
  lemma MergeSplits(existing: seq<Id>, added: seq<Id>)
    ensures MergeTagIds(existing, added) == Dedup(existing) + DedupFrom(added, Elements(existing))
  {
    DedupFromAppend(existing, added, {});
    assert {} + Elements(existing) == Elements(existing);
  }

  /** The merge of `addTagsToVideo` keeps the existing ids, repeats dropped,
      as its prefix in their order (the list itself when it has no repeats)
      and adds only ids it did not have. */
  lemma MergeKeepsExisting(existing: seq<Id>, added: seq<Id>)
    ensures var r := MergeTagIds(existing, added);
      var kept := Dedup(existing);
      |kept| <= |r| && r[..|kept|] == kept
      && (forall k :: |kept| <= k < |r| ==> r[k] in added && r[k] !in existing)
      && (NoDuplicates(existing) ==> |existing| <= |r| && r[..|existing|] == existing)
  {
    MergeSplits(existing, added);
    var kept := Dedup(existing);
    var rest := DedupFrom(added, Elements(existing));
    MergeTail(existing, added);
    AppendParts(kept, rest);
    if NoDuplicates(existing) {
      DedupOfDistinct(existing);
    }
  }

  /** The ids the merge appends are added ids the video lacked. */
  lemma MergeTail(existing: seq<Id>, added: seq<Id>)
    ensures forall id :: id in DedupFrom(added, Elements(existing)) ==> id in added && id !in existing
  {
  }

  /** Adding ids that are already there, or none, leaves the existing ids
      with their repeats dropped. */
  lemma MergeNothingNew(existing: seq<Id>, added: seq<Id>)
    requires forall id :: id in added ==> id in existing
    ensures MergeTagIds(existing, added) == Dedup(existing)
  {
    MergeSplits(existing, added);
    var rest := DedupFrom(added, Elements(existing));
    forall i | 0 <= i < |added| ensures added[i] in Elements(existing) {
      assert added[i] in existing;
    }
    DedupFromAllSeen(added, Elements(existing));
    assert Dedup(existing) + [] == Dedup(existing);
  }

  /** Removing ids right after adding them leaves the ids the video had,
      minus those, with repeats dropped. */
  lemma RemoveAfterAdd(existing: seq<Id>, added: seq<Id>)
    ensures RemoveTagIds(MergeTagIds(existing, added), added) == Dedup(RemoveTagIds(existing, added))
  {
    MergeSplits(existing, added);
    var rest := DedupFrom(added, Elements(existing));
    FilterAppend(Dedup(existing), rest, NotInFn(added));
    FilterNone(rest, NotInFn(added));
    FilterDedupFrom(existing, {}, NotInFn(added));
    assert Filter(Dedup(existing), NotInFn(added)) + [] == Filter(Dedup(existing), NotInFn(added));
  }

  /** A tag name given twice collects the same id twice: `createVideo`
      stores the repeat, and a later merge of that list collapses it. */
  lemma RepeatedNameRepeatsId(tags: seq<Tag>, nextTagId: Id, userId: Id, name: string, now: int)
    ensures var r := Resolve(tags, nextTagId, userId, [name, name], now);
      |r.ids| == 2 && r.ids[0] == r.ids[1] && MergeTagIds(r.ids, []) == [r.ids[0]]
  {
    ResolveLookup(tags, nextTagId, userId, [name, name], now);
    var r := Resolve(tags, nextTagId, userId, [name, name], now);
    var x := r.ids[0];
    assert r.ids == [x, x];
    assert r.ids + [] == [x] + [x];
    DedupHead(x, [x], {});
    assert DedupFrom([x], {x}) == DedupFrom([], {x});
  }

  /** Removing tags drops the removed ids from each part of the list on its
      own: the kept ids stay in their order. */
  lemma RemoveDistributes(a: seq<Id>, b: seq<Id>, removed: seq<Id>)
    ensures RemoveTagIds(a + b, removed) == RemoveTagIds(a, removed) + RemoveTagIds(b, removed)
  {
    FilterAppend(a, b, NotInFn(removed));
  }

  /** Removing tags drops exactly the entries of removed ids, and keeps a
      duplicate-free list duplicate-free. */
  lemma {:induction false} RemoveCounts(existing: seq<Id>, removed: seq<Id>)
    ensures var r := RemoveTagIds(existing, removed);
      |r| + Count(existing, (id: Id) => id in removed) == |existing|
      && (NoDuplicates(existing) ==> NoDuplicates(r))
  {
    FilterCountPartition(existing, NotInFn(removed), (id: Id) => id in removed);
    if existing != [] {
      RemoveCounts(existing[1..], removed);
      var r := RemoveTagIds(existing, removed);
      if NoDuplicates(existing) {
        assert NoDuplicates(existing[1..]);
        if existing[0] !in removed {
          assert r == [existing[0]] + RemoveTagIds(existing[1..], removed);
          assert existing[0] !in existing[1..];
        }
      }
    }
  }

  /** Adding or removing tags on an owned video keeps every tag reference
      valid. */
  lemma TagEditsKeepRefs(videos: seq<Video>, nextVideoId: Id, tags: seq<Tag>, nextTagId: Id, videoId: Id, userId: Id,
                         names: seq<string>, removed: seq<Id>, now: int)
    requires VideosWellFormed(videos, nextVideoId) && TagRefsValid(videos, tags)
    requires OwnsVideo(videos, videoId, userId)
    ensures var res := Resolve(tags, nextTagId, userId, names, now);
      var v := GetVideo(videos, videoId).value;
      TagRefsValid(ReplaceVideo(videos, v.(tagIds := MergeTagIds(v.tagIds, res.ids))), res.tags)
      && TagRefsValid(ReplaceVideo(videos, v.(tagIds := RemoveTagIds(v.tagIds, removed))), tags)
  {
    var res := Resolve(tags, nextTagId, userId, names, now);
    var v := GetVideo(videos, videoId).value;
    ResolveRefs(videos, tags, nextTagId, userId, names, now);
    var j :| 0 <= j < |videos| && videos[j] == v;
    var added := ReplaceVideo(videos, v.(tagIds := MergeTagIds(v.tagIds, res.ids)));
    forall i, k | 0 <= i < |added| && 0 <= k < |added[i].tagIds|
      ensures HasTag(res.tags, added[i].tagIds[k], added[i].userId)
    {
      if videos[i].id == videoId {
        var id := added[i].tagIds[k];
        assert id in v.tagIds || id in res.ids;
        if id in v.tagIds {
          var m :| 0 <= m < |v.tagIds| && v.tagIds[m] == id;
          assert HasTag(res.tags, videos[j].tagIds[m], videos[j].userId);
        } else {
          var m :| 0 <= m < |res.ids| && res.ids[m] == id;
        }
      }
    }
    var cut := ReplaceVideo(videos, v.(tagIds := RemoveTagIds(v.tagIds, removed)));
    forall i, k | 0 <= i < |cut| && 0 <= k < |cut[i].tagIds|
      ensures HasTag(tags, cut[i].tagIds[k], cut[i].userId)
    {
      if videos[i].id == videoId {
        var id := cut[i].tagIds[k];
        assert id in v.tagIds;
        var m :| 0 <= m < |v.tagIds| && v.tagIds[m] == id;
        assert HasTag(tags, videos[j].tagIds[m], videos[j].userId);
      }
    }
  }

  /** `getUserVideos` lists the newest video first. */
  lemma UserVideosNewestFirst(videos: seq<Video>, nextVideoId: Id, userId: Id)
    requires VideosWellFormed(videos, nextVideoId)
    ensures DecreasingBy(GetUserVideos(videos, userId), VideoKey)
  {
    assert IncreasingBy(videos, VideoKey);
    FilterKeepsIncreasing(videos, OwnerFn(userId), VideoKey);
    ReverseOfIncreasing(Filter(videos, OwnerFn(userId)), VideoKey);
  }
}
