/** The two tables of a user's library, `videos` and `tags`, and the
    get-or-create resolution of tag names that both `createVideo` and
    `addTagsToVideo` perform. A video lists the ids of its tags; a tag is
    looked up by (user, name) through the `by_user_name` index, whose
    `.first()` is the oldest such tag. */
module Catalog {
  import opened Base

  /** The optional metadata `createVideo` copies from its arguments. */
  datatype VideoDetails = VideoDetails(
    title: Option<string>,
    description: Option<string>,
    thumbnail: Option<string>,
    platform: Option<string>,
    videoId: Option<string>,
    channelTitle: Option<string>,
    duration: Option<string>,
    publishedAt: Option<string>,
    viewCount: Option<string>,
    likeCount: Option<string>)

  datatype Video = Video(
    id: Id,
    userId: Id,
    url: string,
    details: VideoDetails,
    tagIds: seq<Id>,
    isFavorite: bool,
    isArchived: bool,
    isWatched: bool,
    addedAt: int,
    watchedAt: Option<int>,
    progress: Option<int>)

  datatype Tag = Tag(id: Id, userId: Id, name: string, color: Option<string>, createdAt: int)

  /** The database handle the mutations of both files work on. */
  class Tables {
    var videos: seq<Video>
    var tags: seq<Tag>
    var nextVideoId: Id
    var nextTagId: Id

    ghost predicate Valid()
      reads this
    {
      VideosWellFormed(videos, nextVideoId) && TagsWellFormed(tags, nextTagId)
    }

    constructor ()
      ensures Valid() && videos == [] && tags == []
    {
      videos := [];
      tags := [];
      nextVideoId := 0;
      nextTagId := 0;
    }
  }

  ghost predicate VideosWellFormed(videos: seq<Video>, nextVideoId: Id) {
    (forall i, j :: 0 <= i < j < |videos| ==> videos[i].id < videos[j].id)
    && (forall i :: 0 <= i < |videos| ==> videos[i].id < nextVideoId)
  }

  /** Tag ids grow with insertion, and a user never has two tags with the
      same non-empty name. (Only a rename to "" can give a user two tags
      with the same name.) */
  ghost predicate TagsWellFormed(tags: seq<Tag>, nextTagId: Id) {
    (forall i, j :: 0 <= i < j < |tags| ==> tags[i].id < tags[j].id)
    && (forall i :: 0 <= i < |tags| ==> tags[i].id < nextTagId)
    && UniqueTagNames(tags)
  }

  ghost predicate UniqueTagNames(tags: seq<Tag>) {
    forall i, j :: 0 <= i < j < |tags| && tags[i].userId == tags[j].userId && tags[i].name != "" ==>
      tags[i].name != tags[j].name
  }

  /** Every tag id a video lists names a tag of the video's owner. */
  ghost predicate TagRefsValid(videos: seq<Video>, tags: seq<Tag>) {
    forall i, k :: 0 <= i < |videos| && 0 <= k < |videos[i].tagIds| ==>
      HasTag(tags, videos[i].tagIds[k], videos[i].userId)
  }

  predicate HasTag(tags: seq<Tag>, id: Id, userId: Id) {
    exists j :: 0 <= j < |tags| && tags[j].id == id && tags[j].userId == userId
  }

  /** The creation order of rows, which their ids follow. */
  function VideoKey(v: Video): int {
    v.id
  }

  function TagKey(t: Tag): int {
    t.id
  }

  function VideoIdFn(id: Id): Video -> bool {
    (v: Video) => v.id == id
  }

  function TagIdFn(id: Id): Tag -> bool {
    (t: Tag) => t.id == id
  }

  function TagNamedFn(userId: Id, name: string): Tag -> bool {
    (t: Tag) => t.userId == userId && t.name == name
  }

  /** `ctx.db.get(videoId)`. */
  function GetVideo(videos: seq<Video>, id: Id): (r: Option<Video>)
    ensures r.Some? ==> r.value in videos && r.value.id == id
    ensures r.None? <==> forall v :: v in videos ==> v.id != id
  {
    First(videos, VideoIdFn(id))
  }

  /** `ctx.db.get(tagId)`. */
  function GetTag(tags: seq<Tag>, id: Id): (r: Option<Tag>)
    ensures r.Some? ==> r.value in tags && r.value.id == id
    ensures r.None? <==> forall t :: t in tags ==> t.id != id
  {
    First(tags, TagIdFn(id))
  }

  /** The `by_user_name` lookup. */
  function FindTag(tags: seq<Tag>, userId: Id, name: string): (r: Option<Tag>)
    ensures r.Some? ==> r.value in tags && r.value.userId == userId && r.value.name == name
    ensures r.None? <==> forall t :: t in tags ==> !(t.userId == userId && t.name == name)
  {
    First(tags, TagNamedFn(userId, name))
  }

  /** The video with `id` when it exists and belongs to `userId`: the check
      every video mutation starts with. */
  predicate OwnsVideo(videos: seq<Video>, id: Id, userId: Id) {
    GetVideo(videos, id).Some? && GetVideo(videos, id).value.userId == userId
  }

  /** The videos table with the row of `v.id` replaced by `v`. */
  function ReplaceVideo(videos: seq<Video>, v: Video): (r: seq<Video>)
    ensures |r| == |videos|
  {
    seq(|videos|, i requires 0 <= i < |videos| => if videos[i].id == v.id then v else videos[i])
  }

  // ---------------------------------------------------------------------
  // Tag-name resolution
  // ---------------------------------------------------------------------

  /** The ids collected so far and the tags table and id counter after them. */
  datatype Resolution = Resolution(ids: seq<Id>, tags: seq<Tag>, nextTagId: Id)

  /** The get-or-create loop over `names`, in input order: each name takes
      the id of the user's tag with that name, or of a tag created for it
      (with no colour, created at `now`). */
  function Resolve(tags: seq<Tag>, nextTagId: Id, userId: Id, names: seq<string>, now: int): Resolution
    decreases |names|
  {
    if names == [] then Resolution([], tags, nextTagId)
    else
      var prev := Resolve(tags, nextTagId, userId, names[..|names| - 1], now);
      ResolveOne(prev, userId, names[|names| - 1], now)
  }

  /** One round of the loop. */
  function ResolveOne(prev: Resolution, userId: Id, name: string, now: int): Resolution {
    match FindTag(prev.tags, userId, name)
    case Some(t) => Resolution(prev.ids + [t.id], prev.tags, prev.nextTagId)
    case None =>
      Resolution(prev.ids + [prev.nextTagId], prev.tags + [Tag(prev.nextTagId, userId, name, None, now)], prev.nextTagId + 1)
  }

  /** The loop of `createVideo` and `addTagsToVideo` that collects tag ids. */
  method ResolveTagNames(db: Tables, userId: Id, names: seq<string>, now: int) returns (ids: seq<Id>)
    modifies db
    ensures Resolution(ids, db.tags, db.nextTagId) == Resolve(old(db.tags), old(db.nextTagId), userId, names, now)
    ensures db.videos == old(db.videos) && db.nextVideoId == old(db.nextVideoId)
  {
    ids := [];
    var i := 0;
    while i < |names|
      invariant 0 <= i <= |names|
      invariant Resolution(ids, db.tags, db.nextTagId) == Resolve(old(db.tags), old(db.nextTagId), userId, names[..i], now)
      invariant db.videos == old(db.videos) && db.nextVideoId == old(db.nextVideoId)
    {
      assert names[..i + 1][..i] == names[..i];
      var tagName := names[i];
      var existingTag := FindTag(db.tags, userId, tagName);
      if existingTag.Some? {
        ids := ids + [existingTag.value.id];
      } else {
        var tagId := db.nextTagId;
        db.tags := db.tags + [Tag(tagId, userId, tagName, None, now)];
        db.nextTagId := db.nextTagId + 1;
        ids := ids + [tagId];
      }
      i := i + 1;
    }
    assert names[..i] == names;
  }

  /** Appending a tag changes no lookup that already found a tag, and a
      failed lookup now finds the new tag exactly when it matches. */
  lemma FindTagAppend(tags: seq<Tag>, t: Tag, userId: Id, name: string)
    ensures FindTag(tags + [t], userId, name)
         == if FindTag(tags, userId, name).Some? then FindTag(tags, userId, name)
            else if t.userId == userId && t.name == name then Some(t)
            else None
  {
    var p := TagNamedFn(userId, name);
    var all := tags + [t];
    match FirstIndex(tags, p)
    case Some(k) =>
      assert all[k] == tags[k];
      forall j | 0 <= j < k ensures !p(all[j]) {
        assert all[j] == tags[j];
      }
      FirstIndexIs(all, p, k);
    case None =>
      forall j | 0 <= j < |tags| ensures !p(all[j]) {
        assert all[j] == tags[j];
      }
      if p(t) {
        FirstIndexIs(all, p, |tags|);
      }
  }

  /** What resolving tag names does to the tags table, for all inputs: one id
      per name in input order; the old tags stay in place as a prefix; every
      added tag is the user's, named after one of the names, with no colour
      and created at `now`; every name ends up looked up to the tag whose id
      was collected for it, and a name the user already had a tag for
      collects that tag's id. The table stays well formed. */
  lemma ResolveFacts(tags: seq<Tag>, nextTagId: Id, userId: Id, names: seq<string>, now: int)
    requires TagsWellFormed(tags, nextTagId)
    ensures var r := Resolve(tags, nextTagId, userId, names, now);
      |r.ids| == |names|
      && |tags| <= |r.tags| && r.tags[..|tags|] == tags
      && nextTagId <= r.nextTagId
      && TagsWellFormed(r.tags, r.nextTagId)
      && (forall k :: |tags| <= k < |r.tags| ==>
            r.tags[k].userId == userId && r.tags[k].name in names && r.tags[k].color == None
            && r.tags[k].createdAt == now && nextTagId <= r.tags[k].id)
      && (forall k :: 0 <= k < |names| ==>
            FindTag(r.tags, userId, names[k]).Some? && FindTag(r.tags, userId, names[k]).value.id == r.ids[k])
      && (forall k :: 0 <= k < |names| && FindTag(tags, userId, names[k]).Some? ==>
            r.ids[k] == FindTag(tags, userId, names[k]).value.id)
  {
    ResolveAdds(tags, nextTagId, userId, names, now);
    ResolveWellFormed(tags, nextTagId, userId, names, now);
    ResolveLookup(tags, nextTagId, userId, names, now);
    var r := Resolve(tags, nextTagId, userId, names, now);
    forall k | 0 <= k < |names| && FindTag(tags, userId, names[k]).Some?
      ensures r.ids[k] == FindTag(tags, userId, names[k]).value.id
    {
      FindTagStaysAfterResolve(tags, nextTagId, userId, names, names[k], now);
    }
  }

  lemma {:induction false} ResolveAdds(tags: seq<Tag>, nextTagId: Id, userId: Id, names: seq<string>, now: int)
    ensures var r := Resolve(tags, nextTagId, userId, names, now);
      |r.ids| == |names|
      && |tags| <= |r.tags| && r.tags[..|tags|] == tags
      && nextTagId + |r.tags| - |tags| == r.nextTagId
      && (forall k :: |tags| <= k < |r.tags| ==>
            r.tags[k].userId == userId && r.tags[k].name in names && r.tags[k].color == None
            && r.tags[k].createdAt == now && nextTagId <= r.tags[k].id)
    decreases |names|
  {
    if names != [] {
      var init := names[..|names| - 1];
      var name := names[|names| - 1];
      ResolveAdds(tags, nextTagId, userId, init, now);
      var prev := Resolve(tags, nextTagId, userId, init, now);
      var r := Resolve(tags, nextTagId, userId, names, now);
      assert r == ResolveOne(prev, userId, name, now);
      assert forall x :: x in init ==> x in names;
      if FindTag(prev.tags, userId, name).None? {
        assert r.tags == prev.tags + [Tag(prev.nextTagId, userId, name, None, now)];
        assert r.tags[..|tags|] == prev.tags[..|tags|];
      }
    }
  }

  lemma {:induction false} ResolveWellFormed(tags: seq<Tag>, nextTagId: Id, userId: Id, names: seq<string>, now: int)
    requires TagsWellFormed(tags, nextTagId)
    ensures var r := Resolve(tags, nextTagId, userId, names, now);
      TagsWellFormed(r.tags, r.nextTagId)
    decreases |names|
  {
    if names != [] {
      var init := names[..|names| - 1];
      var name := names[|names| - 1];
      ResolveWellFormed(tags, nextTagId, userId, init, now);
      var prev := Resolve(tags, nextTagId, userId, init, now);
      var r := Resolve(tags, nextTagId, userId, names, now);
      assert r == ResolveOne(prev, userId, name, now);
      if FindTag(prev.tags, userId, name).None? {
        var added := Tag(prev.nextTagId, userId, name, None, now);
        assert r.tags == prev.tags + [added];
        forall i, j | 0 <= i < j < |r.tags| && r.tags[i].userId == r.tags[j].userId && r.tags[i].name != ""
          ensures r.tags[i].name != r.tags[j].name
        {
          if j == |prev.tags| {
            assert r.tags[i] in prev.tags;
          } else {
            assert r.tags[i] == prev.tags[i] && r.tags[j] == prev.tags[j];
          }
        }
      }
    }
  }

  /** Every name is looked up to the tag whose id was collected for it. */
  predicate LookedUp(r: Resolution, userId: Id, names: seq<string>) {
    |r.ids| == |names|
    && forall k :: 0 <= k < |names| ==>
         FindTag(r.tags, userId, names[k]).Some? && FindTag(r.tags, userId, names[k]).value.id == r.ids[k]
  }

  lemma {:induction false} ResolveLookup(tags: seq<Tag>, nextTagId: Id, userId: Id, names: seq<string>, now: int)
    ensures LookedUp(Resolve(tags, nextTagId, userId, names, now), userId, names)
    decreases |names|
  {
    if names != [] {
      var init := names[..|names| - 1];
      var name := names[|names| - 1];
      ResolveLookup(tags, nextTagId, userId, init, now);
      LookupStep(Resolve(tags, nextTagId, userId, init, now), userId, init, name, now);
      assert init + [name] == names;
    }
  }

  /** One round of the loop keeps every earlier name looked up to its id
      and looks the new name up to the id it collects. */
  lemma LookupStep(prev: Resolution, userId: Id, init: seq<string>, name: string, now: int)
    requires LookedUp(prev, userId, init)
    ensures LookedUp(ResolveOne(prev, userId, name, now), userId, init + [name])
  {
    var r := ResolveOne(prev, userId, name, now);
    var names := init + [name];
    forall k | 0 <= k < |names|
      ensures FindTag(r.tags, userId, names[k]).Some? && FindTag(r.tags, userId, names[k]).value.id == r.ids[k]
    {
      if FindTag(prev.tags, userId, name).None? {
        FindTagAppend(prev.tags, Tag(prev.nextTagId, userId, name, None, now), userId, names[k]);
      }
      if k < |init| {
        assert names[k] == init[k];
      }
    }
  }

  /** A lookup that succeeds before resolving still gives the same tag
      afterwards. */
  lemma {:induction false} FindTagStaysAfterResolve(tags: seq<Tag>, nextTagId: Id, userId: Id, names: seq<string>,
                                                   name: string, now: int)
    requires FindTag(tags, userId, name).Some?
    ensures FindTag(Resolve(tags, nextTagId, userId, names, now).tags, userId, name) == FindTag(tags, userId, name)
    decreases |names|
  {
    if names != [] {
      var init := names[..|names| - 1];
      FindTagStaysAfterResolve(tags, nextTagId, userId, init, name, now);
      var prev := Resolve(tags, nextTagId, userId, init, now);
      var last := names[|names| - 1];
      if FindTag(prev.tags, userId, last).None? {
        FindTagAppend(prev.tags, Tag(prev.nextTagId, userId, last, None, now), userId, name);
      }
    }
  }
  /** Resolving names keeps every reference the videos had valid, and every
      collected id names a tag of the user. */
  lemma ResolveRefs(videos: seq<Video>, tags: seq<Tag>, nextTagId: Id, userId: Id, names: seq<string>, now: int)
    ensures var r := Resolve(tags, nextTagId, userId, names, now);
      (TagRefsValid(videos, tags) ==> TagRefsValid(videos, r.tags))
      && forall k :: 0 <= k < |r.ids| ==> HasTag(r.tags, r.ids[k], userId)
  {
    ResolveAdds(tags, nextTagId, userId, names, now);
    ResolveLookup(tags, nextTagId, userId, names, now);
    var r := Resolve(tags, nextTagId, userId, names, now);
    HasTagGrows(tags, r.tags);
    forall k | 0 <= k < |r.ids| ensures HasTag(r.tags, r.ids[k], userId) {
      FoundTagIsHeld(r.tags, userId, names[k]);
    }
  }

  /** The tag a lookup finds is a tag of the user in the table. */
  lemma FoundTagIsHeld(tags: seq<Tag>, userId: Id, name: string)
    requires FindTag(tags, userId, name).Some?
    ensures HasTag(tags, FindTag(tags, userId, name).value.id, userId)
  {
    var t := FindTag(tags, userId, name).value;
    var j :| 0 <= j < |tags| && tags[j] == t;
  }

  /** A tag found in a prefix of a table is found in the table. */
  lemma HasTagGrows(tags: seq<Tag>, more: seq<Tag>)
    requires |tags| <= |more| && more[..|tags|] == tags
    ensures forall id, userId :: HasTag(tags, id, userId) ==> HasTag(more, id, userId)
  {
    forall id, userId | HasTag(tags, id, userId) ensures HasTag(more, id, userId) {
      var j :| 0 <= j < |tags| && tags[j].id == id && tags[j].userId == userId;
      assert more[j] == tags[j];
    }
  }
}
