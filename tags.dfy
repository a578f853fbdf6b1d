/** The mutations and queries of the `tags` table: creation refused for a
    name the user already has, the name/colour patch with its rename check,
    deletion that first strips the tag from the user's videos, and the
    user's tags newest first. */
module Tags {
  import opened Base
  import opened Catalog

  const AlreadyExistsKey := "tags.errors.alreadyExists"
  const NotFoundKey := "tags.errors.notFound"
  const NameAlreadyExistsKey := "tags.errors.nameAlreadyExists"

  function OtherTagFn(id: Id): Tag -> bool {
    (t: Tag) => t.id != id
  }

  function TagOwnerFn(userId: Id): Tag -> bool {
    (t: Tag) => t.userId == userId
  }

  function NotTagFn(tagId: Id): Id -> bool {
    id => id != tagId
  }

  /** The tag with `id` when it exists and belongs to `userId`. */
  predicate OwnsTag(tags: seq<Tag>, id: Id, userId: Id) {
    GetTag(tags, id).Some? && GetTag(tags, id).value.userId == userId
  }

  /** The table with the row of `t.id` replaced by `t`. */
  function ReplaceTag(tags: seq<Tag>, t: Tag): (r: seq<Tag>)
    ensures |r| == |tags|
  {
    seq(|tags|, i requires 0 <= i < |tags| => if tags[i].id == t.id then t else tags[i])
  }

  /** The checks `updateTag` makes before writing: the tag must be the
      user's, and a non-empty new name other than its own must not be taken
      by another of the user's tags. On success, the tag as it was. */
  function UpdateCheck(tags: seq<Tag>, tagId: Id, userId: Id, name: Option<string>): (r: Result<Tag>)
    ensures r == Err(NotFoundKey) <==> !OwnsTag(tags, tagId, userId)
    ensures r == Err(NameAlreadyExistsKey) <==>
      OwnsTag(tags, tagId, userId) && name.Some? && name.value != "" && name.value != GetTag(tags, tagId).value.name
      && exists t :: t in tags && t.userId == userId && t.name == name.value
    ensures r.Ok? ==> r.value == GetTag(tags, tagId).value
  {
    match GetTag(tags, tagId)
    case None => Err(NotFoundKey)
    case Some(tag) =>
      if tag.userId != userId then Err(NotFoundKey)
      else if name.Some? && name.value != "" && name.value != tag.name && FindTag(tags, userId, name.value).Some?
      then Err(NameAlreadyExistsKey)
      else Ok(tag)
  }

  /** The `updates` object of `updateTag` applied to a tag. */
  function Renamed(t: Tag, name: Option<string>, color: Option<string>): Tag {
    t.(name := if name.Some? then name.value else t.name,
       color := if color.Some? then color else t.color)
  }

  /** The loop of `deleteTag`: each of the user's videos that lists the tag
      gets the list without it. */
  function StripTag(videos: seq<Video>, userId: Id, tagId: Id): (r: seq<Video>)
    ensures |r| == |videos|
  {
    seq(|videos|, i requires 0 <= i < |videos| =>
      if videos[i].userId == userId && tagId in videos[i].tagIds
      then videos[i].(tagIds := Filter(videos[i].tagIds, NotTagFn(tagId)))
      else videos[i])
  }

  // ---------------------------------------------------------------------
  // Mutations
  // ---------------------------------------------------------------------

  /** `createTag`. */
  method CreateTag(db: Tables, userId: Id, name: string, color: Option<string>, now: int) returns (r: Result<Tag>)
    requires db.Valid()
    modifies db
    ensures db.Valid()
    ensures db.videos == old(db.videos) && db.nextVideoId == old(db.nextVideoId)
    ensures FindTag(old(db.tags), userId, name).Some? ==>
      r == Err(AlreadyExistsKey) && db.tags == old(db.tags) && db.nextTagId == old(db.nextTagId)
    ensures FindTag(old(db.tags), userId, name).None? ==>
      r == Ok(Tag(old(db.nextTagId), userId, name, color, now))
      && db.tags == old(db.tags) + [r.value] && db.nextTagId == old(db.nextTagId) + 1
  {
    var existingTag := FindTag(db.tags, userId, name);
    if existingTag.Some? {
      return Err(AlreadyExistsKey);
    }
    var tag := Tag(db.nextTagId, userId, name, color, now);
    CreateTagEffect(db.tags, db.nextTagId, db.videos, userId, name, color, now);
    db.tags := db.tags + [tag];
    db.nextTagId := db.nextTagId + 1;
    r := Ok(tag);
  }

  /** The lookups `updateTag` makes before writing, in their order. */
  method CheckUpdate(tags: seq<Tag>, tagId: Id, userId: Id, name: Option<string>) returns (r: Result<Tag>)
    ensures r == UpdateCheck(tags, tagId, userId, name)
  {
    var tag := GetTag(tags, tagId);
    if tag.None? || tag.value.userId != userId {
      return Err(NotFoundKey);
    }
    if name.Some? && name.value != "" && name.value != tag.value.name {
      var existingTag := FindTag(tags, userId, name.value);
      if existingTag.Some? {
        return Err(NameAlreadyExistsKey);
      }
    }
    r := Ok(tag.value);
  }

  /** The `updates` object of `updateTag`, built field by field. */
  method Updates(tag: Tag, name: Option<string>, color: Option<string>) returns (updated: Tag)
    ensures updated == Renamed(tag, name, color)
  {
    updated := tag;
    if name.Some? {
      updated := updated.(name := name.value);
    }
    if color.Some? {
      updated := updated.(color := color);
    }
  }

  /** `updateTag`. */
  method UpdateTag(db: Tables, tagId: Id, userId: Id, name: Option<string>, color: Option<string>)
    returns (r: Result<Tag>)
    requires db.Valid()
    modifies db
    ensures db.Valid()
    ensures db.videos == old(db.videos) && db.nextVideoId == old(db.nextVideoId) && db.nextTagId == old(db.nextTagId)
    ensures UpdateCheck(old(db.tags), tagId, userId, name).Err? ==>
      r == UpdateCheck(old(db.tags), tagId, userId, name) && db.tags == old(db.tags)
    ensures UpdateCheck(old(db.tags), tagId, userId, name).Ok? ==>
      var updated := Renamed(UpdateCheck(old(db.tags), tagId, userId, name).value, name, color);
      r == Ok(updated) && db.tags == ReplaceTag(old(db.tags), updated)
  {
    var tag := CheckUpdate(db.tags, tagId, userId, name);
    if tag.Err? {
      return tag;
    }
    var updated := Updates(tag.value, name, color);
    UpdateTagEffect(db.tags, db.nextTagId, db.videos, tagId, userId, name, color);
    db.tags := ReplaceTag(db.tags, updated);
    r := Ok(updated);
  }

  /** `deleteTag`: strips the tag from the user's videos, then deletes it. */
  method DeleteTag(db: Tables, tagId: Id, userId: Id) returns (r: Result<()>)
    requires db.Valid()
    modifies db
    ensures db.Valid()
    ensures db.nextVideoId == old(db.nextVideoId) && db.nextTagId == old(db.nextTagId)
    ensures !OwnsTag(old(db.tags), tagId, userId) ==>
      r == Err(NotFoundKey) && db.videos == old(db.videos) && db.tags == old(db.tags)
    ensures OwnsTag(old(db.tags), tagId, userId) ==>
      r == Ok(()) && db.videos == StripTag(old(db.videos), userId, tagId)
      && db.tags == Filter(old(db.tags), OtherTagFn(tagId))
  {
    var tag := GetTag(db.tags, tagId);
    if tag.None? || tag.value.userId != userId {
      return Err(NotFoundKey);
    }
    StripTagFromVideos(db, userId, tagId);
    StripTagKeepsVideos(old(db.videos), db.nextVideoId, userId, tagId);
    FilterKeepsTagsWellFormed(db.tags, db.nextTagId, OtherTagFn(tagId));
    db.tags := Filter(db.tags, OtherTagFn(tagId));
    r := Ok(());
  }

  /** The loop of `deleteTag` over the videos: each of the user's videos
      that lists the tag is patched to the list without it. */
  method StripTagFromVideos(db: Tables, userId: Id, tagId: Id)
    modifies db
    ensures db.videos == StripTag(old(db.videos), userId, tagId)
    ensures db.tags == old(db.tags) && db.nextTagId == old(db.nextTagId) && db.nextVideoId == old(db.nextVideoId)
  {
    ghost var target := StripTag(db.videos, userId, tagId);
    var i := 0;
    while i < |db.videos|
      invariant 0 <= i <= |db.videos| == |old(db.videos)|
      invariant forall j :: 0 <= j < i ==> db.videos[j] == target[j]
      invariant forall j :: i <= j < |db.videos| ==> db.videos[j] == old(db.videos)[j]
      invariant db.tags == old(db.tags) && db.nextTagId == old(db.nextTagId) && db.nextVideoId == old(db.nextVideoId)
    {
      var video := db.videos[i];
      if video.userId == userId && tagId in video.tagIds {
        var newTagIds := Filter(video.tagIds, NotTagFn(tagId));
        db.videos := db.videos[i := video.(tagIds := newTagIds)];
      }
      i := i + 1;
    }
    assert db.videos == target;
  }

  // ---------------------------------------------------------------------
  // Queries
  // ---------------------------------------------------------------------

  /** `getUserTags`: the user's tags, newest first. */
  function GetUserTags(tags: seq<Tag>, userId: Id): (r: seq<Tag>)
    ensures forall t :: t in r <==> t in tags && t.userId == userId
  {
    var mine := Filter(tags, TagOwnerFn(userId));
    assert forall t :: t in Reverse(mine) <==> t in mine by {
      forall t | t in mine ensures t in Reverse(mine) {
        var i :| 0 <= i < |mine| && mine[i] == t;
        assert Reverse(mine)[|mine| - 1 - i] == t;
      }
    }
    Reverse(mine)
  }

  // ---------------------------------------------------------------------
  // Properties
  // ---------------------------------------------------------------------

  /** A created tag gets the next id, is then found under its name, and
      keeps the table well formed and every video reference valid. */
  lemma CreateTagEffect(tags: seq<Tag>, nextTagId: Id, videos: seq<Video>, userId: Id, name: string,
                        color: Option<string>, now: int)
    requires TagsWellFormed(tags, nextTagId)
    requires FindTag(tags, userId, name).None?
    ensures var t := Tag(nextTagId, userId, name, color, now);
      TagsWellFormed(tags + [t], nextTagId + 1)
      && FindTag(tags + [t], userId, name) == Some(t)
      && GetTag(tags + [t], nextTagId) == Some(t)
      && (TagRefsValid(videos, tags) ==> TagRefsValid(videos, tags + [t]))
  {
    var t := Tag(nextTagId, userId, name, color, now);
    var after := tags + [t];
    FindTagAppend(tags, t, userId, name);
    AppendTagWellFormed(tags, nextTagId, t);
    forall j | 0 <= j < |tags| ensures !TagIdFn(nextTagId)(after[j]) {
      assert after[j] == tags[j];
    }
    FirstIndexIs(after, TagIdFn(nextTagId), |tags|);
    assert after[..|tags|] == tags;
    HasTagGrows(tags, after);
  }

  /** A new tag with the next id and a name its owner does not use keeps
      the table well formed. */
  lemma AppendTagWellFormed(tags: seq<Tag>, nextTagId: Id, t: Tag)
    requires TagsWellFormed(tags, nextTagId) && t.id == nextTagId
    requires FindTag(tags, t.userId, t.name).None?
    ensures TagsWellFormed(tags + [t], nextTagId + 1)
  {
    var after := tags + [t];
    forall i, j | 0 <= i < j < |after| ensures after[i].id < after[j].id {
      assert after[i] == tags[i];
    }
    forall i, j | 0 <= i < j < |after| && after[i].userId == after[j].userId && after[i].name != ""
      ensures after[i].name != after[j].name
    {
      assert after[i] == tags[i] && tags[i] in tags;
    }
  }

  /** An accepted `updateTag` rewrites only that tag (its id, owner and
      creation time stay; name and colour change only when supplied), and
      the table stays well formed: no two tags of a user share a non-empty
      name. Video references stay valid. */
  lemma UpdateTagEffect(tags: seq<Tag>, nextTagId: Id, videos: seq<Video>, tagId: Id, userId: Id,
                        name: Option<string>, color: Option<string>)
    requires TagsWellFormed(tags, nextTagId)
    requires UpdateCheck(tags, tagId, userId, name).Ok?
    ensures var t := UpdateCheck(tags, tagId, userId, name).value;
      var u := Renamed(t, name, color);
      var after := ReplaceTag(tags, u);
      TagsWellFormed(after, nextTagId)
      && GetTag(after, tagId) == Some(u)
      && u.id == t.id && u.userId == t.userId && u.createdAt == t.createdAt
      && u.name == (if name.Some? then name.value else t.name)
      && u.color == (if color.Some? then color else t.color)
      && (forall i :: 0 <= i < |tags| && tags[i].id != tagId ==> after[i] == tags[i])
      && (TagRefsValid(videos, tags) ==> TagRefsValid(videos, after))
  {
    var t := UpdateCheck(tags, tagId, userId, name).value;
    var u := Renamed(t, name, color);
    ReplaceTagEffect(tags, nextTagId, u);
    RenameKeepsNamesUnique(tags, nextTagId, tagId, userId, name, color);
  }

  /** Replacing an existing tag row by one with the same id and owner keeps
      the ids in order, makes the row findable with its new content, leaves
      every other row as it was and finds every tag reference it found. */
  lemma ReplaceTagEffect(tags: seq<Tag>, nextTagId: Id, u: Tag)
    requires TagsWellFormed(tags, nextTagId)
    requires GetTag(tags, u.id).Some? && GetTag(tags, u.id).value.userId == u.userId
    ensures var after := ReplaceTag(tags, u);
      (forall i, j :: 0 <= i < j < |after| ==> after[i].id < after[j].id)
      && (forall i :: 0 <= i < |after| ==> after[i].id < nextTagId)
      && GetTag(after, u.id) == Some(u)
      && (forall i :: 0 <= i < |tags| && tags[i].id != u.id ==> after[i] == tags[i])
      && forall id, owner :: HasTag(tags, id, owner) ==> HasTag(after, id, owner)
  {
    var after := ReplaceTag(tags, u);
    var k := ReplaceKeepsKeys(tags, nextTagId, u);
    forall j | 0 <= j < k ensures !TagIdFn(u.id)(after[j]) {
    }
    FirstIndexIs(after, TagIdFn(u.id), k);
    forall id, owner | HasTag(tags, id, owner) ensures HasTag(after, id, owner) {
      var j :| 0 <= j < |tags| && tags[j].id == id && tags[j].userId == owner;
      assert after[j].id == id && after[j].userId == owner;
    }
  }

  /** Replacing a row keeps every row's id and owner; the replaced row is
      the only one with that id. */
  lemma ReplaceKeepsKeys(tags: seq<Tag>, nextTagId: Id, u: Tag) returns (k: nat)
    requires TagsWellFormed(tags, nextTagId)
    requires GetTag(tags, u.id).Some? && GetTag(tags, u.id).value.userId == u.userId
    ensures k < |tags| && tags[k].id == u.id && ReplaceTag(tags, u)[k] == u
    ensures forall i :: 0 <= i < |tags| && i != k ==> tags[i].id != u.id && ReplaceTag(tags, u)[i] == tags[i]
    ensures forall i :: 0 <= i < |tags| ==>
      ReplaceTag(tags, u)[i].id == tags[i].id && ReplaceTag(tags, u)[i].userId == tags[i].userId
  {
    k :| 0 <= k < |tags| && tags[k] == GetTag(tags, u.id).value;
    forall i | 0 <= i < |tags| && i != k ensures tags[i].id != u.id {
      if i < k {
        assert tags[i].id < tags[k].id;
      } else {
        assert tags[k].id < tags[i].id;
      }
    }
  }

  /** A rename that passed the check leaves no two tags of a user with the
      same non-empty name. */
  lemma RenameKeepsNamesUnique(tags: seq<Tag>, nextTagId: Id, tagId: Id, userId: Id,
                               name: Option<string>, color: Option<string>)
    requires TagsWellFormed(tags, nextTagId)
    requires UpdateCheck(tags, tagId, userId, name).Ok?
    ensures UniqueTagNames(ReplaceTag(tags, Renamed(UpdateCheck(tags, tagId, userId, name).value, name, color)))
  {
    var t := UpdateCheck(tags, tagId, userId, name).value;
    var u := Renamed(t, name, color);
    var after := ReplaceTag(tags, u);
    var k :| 0 <= k < |tags| && tags[k] == t;
    assert forall j :: 0 <= j < |tags| && tags[j].id == tagId ==> j == k;
    forall i, j | 0 <= i < j < |after| && after[i].userId == after[j].userId && after[i].name != ""
      ensures after[i].name != after[j].name
    {
      if (i == k || j == k) && u.name != t.name && u.name != "" {
        assert name.Some? && name.value == u.name;
        var other := if i == k then j else i;
        assert after[other] == tags[other] && tags[other] in tags;
      }
    }
  }

  /** No two tags of a user with increasing ids share a non-empty name:
      the same property as `UniqueTagNames`, stated on members so that it
      passes to any sub-table. */
  ghost predicate UniqueNamesByMember(tags: seq<Tag>) {
    forall s, t :: s in tags && t in tags && s.id < t.id && s.userId == t.userId && s.name != "" ==> s.name != t.name
  }

  lemma UniqueNamesAsMembers(tags: seq<Tag>, nextTagId: Id)
    requires TagsWellFormed(tags, nextTagId)
    ensures UniqueNamesByMember(tags)
  {
    forall s, t | s in tags && t in tags && s.id < t.id && s.userId == t.userId && s.name != ""
      ensures s.name != t.name
    {
      var i :| 0 <= i < |tags| && tags[i] == s;
      var j :| 0 <= j < |tags| && tags[j] == t;
      assert i < j;
    }
  }

  /** Keeping only some tags keeps the table well formed. */
  lemma FilterKeepsTagsWellFormed(tags: seq<Tag>, nextTagId: Id, p: Tag -> bool)
    requires TagsWellFormed(tags, nextTagId)
    ensures TagsWellFormed(Filter(tags, p), nextTagId)
  {
    var r := Filter(tags, p);
    FilterKeepsIncreasing(tags, p, TagKey);
    UniqueNamesAsMembers(tags, nextTagId);
    forall i | 0 <= i < |r| ensures r[i].id < nextTagId {
      assert r[i] in tags;
    }
    forall i, j | 0 <= i < j < |r| && r[i].userId == r[j].userId && r[i].name != ""
      ensures r[i].name != r[j].name
    {
      assert r[i] in tags && r[j] in tags && r[i].id < r[j].id;
    }
  }

  /** Stripping the tag changes no id, so the videos stay well formed. */
  lemma StripTagKeepsVideos(videos: seq<Video>, nextVideoId: Id, userId: Id, tagId: Id)
    requires VideosWellFormed(videos, nextVideoId)
    ensures VideosWellFormed(StripTag(videos, userId, tagId), nextVideoId)
  {
  }

  /** What `deleteTag` leaves: the tag is gone, every other tag is kept, no
      video lists the tag any more, every video keeps its other ids in
      order, and every reference left is valid. Videos of other users never
      listed the tag, since a video only lists its owner's tags. */
  lemma DeleteTagEffect(videos: seq<Video>, nextVideoId: Id, tags: seq<Tag>, nextTagId: Id, tagId: Id, userId: Id)
    requires VideosWellFormed(videos, nextVideoId) && TagsWellFormed(tags, nextTagId)
    requires TagRefsValid(videos, tags)
    requires OwnsTag(tags, tagId, userId)
    ensures var vs := StripTag(videos, userId, tagId);
      var ts := Filter(tags, OtherTagFn(tagId));
      GetTag(ts, tagId).None?
      && (forall t :: t in ts <==> t in tags && t.id != tagId)
      && (forall i :: 0 <= i < |vs| ==> tagId !in vs[i].tagIds)
      && (forall i :: 0 <= i < |vs| ==>
            vs[i].tagIds == Filter(videos[i].tagIds, NotTagFn(tagId)) && vs[i] == videos[i].(tagIds := vs[i].tagIds))
      && TagRefsValid(vs, ts)
  {
    StripTagEverywhere(videos, tags, nextTagId, tagId, userId);
    StripTagKeepsRefs(videos, tags, nextTagId, tagId, userId);
  }

  /** Under valid references, stripping the tag from the user's videos is
      stripping it from every video. */
  lemma StripTagEverywhere(videos: seq<Video>, tags: seq<Tag>, nextTagId: Id, tagId: Id, userId: Id)
    requires TagsWellFormed(tags, nextTagId) && TagRefsValid(videos, tags)
    requires OwnsTag(tags, tagId, userId)
    ensures var vs := StripTag(videos, userId, tagId);
      forall i :: 0 <= i < |vs| ==>
        vs[i].tagIds == Filter(videos[i].tagIds, NotTagFn(tagId)) && tagId !in vs[i].tagIds
  {
    var vs := StripTag(videos, userId, tagId);
    var o :| 0 <= o < |tags| && tags[o] == GetTag(tags, tagId).value;
    forall i | 0 <= i < |vs|
      ensures vs[i].tagIds == Filter(videos[i].tagIds, NotTagFn(tagId))
    {
      if !(videos[i].userId == userId && tagId in videos[i].tagIds) {
        forall id | id in videos[i].tagIds ensures NotTagFn(tagId)(id) {
          var k :| 0 <= k < |videos[i].tagIds| && videos[i].tagIds[k] == id;
          var j :| 0 <= j < |tags| && tags[j].id == id && tags[j].userId == videos[i].userId;
          assert tags[j].id == tagId ==> j == o;
        }
        FilterKeepsAll(videos[i].tagIds, NotTagFn(tagId));
      }
    }
  }

  /** After `deleteTag` every id a video still lists names a remaining tag of
      its owner. */
  lemma StripTagKeepsRefs(videos: seq<Video>, tags: seq<Tag>, nextTagId: Id, tagId: Id, userId: Id)
    requires TagsWellFormed(tags, nextTagId) && TagRefsValid(videos, tags)
    requires OwnsTag(tags, tagId, userId)
    ensures TagRefsValid(StripTag(videos, userId, tagId), Filter(tags, OtherTagFn(tagId)))
  {
    StripTagEverywhere(videos, tags, nextTagId, tagId, userId);
    var vs := StripTag(videos, userId, tagId);
    var ts := Filter(tags, OtherTagFn(tagId));
    forall i, k | 0 <= i < |vs| && 0 <= k < |vs[i].tagIds|
      ensures HasTag(ts, vs[i].tagIds[k], vs[i].userId)
    {
      var id := vs[i].tagIds[k];
      assert vs[i].tagIds[k] in vs[i].tagIds;
      assert id in videos[i].tagIds && id != tagId;
      var m :| 0 <= m < |videos[i].tagIds| && videos[i].tagIds[m] == id;
      OtherTagKept(tags, id, videos[i].userId, tagId);
    }
  }

  /** A tag other than the deleted one is still there after the deletion. */
  lemma OtherTagKept(tags: seq<Tag>, id: Id, owner: Id, tagId: Id)
    requires HasTag(tags, id, owner) && id != tagId
    ensures HasTag(Filter(tags, OtherTagFn(tagId)), id, owner)
  {
    var ts := Filter(tags, OtherTagFn(tagId));
    var j :| 0 <= j < |tags| && tags[j].id == id && tags[j].userId == owner;
    assert tags[j] in ts;
    var n :| 0 <= n < |ts| && ts[n] == tags[j];
  }

  /** `getUserTags` lists the newest tag first. */
  lemma UserTagsNewestFirst(tags: seq<Tag>, nextTagId: Id, userId: Id)
    requires TagsWellFormed(tags, nextTagId)
    ensures DecreasingBy(GetUserTags(tags, userId), TagKey)
  {
    assert IncreasingBy(tags, TagKey);
    FilterKeepsIncreasing(tags, TagOwnerFn(userId), TagKey);
    ReverseOfIncreasing(Filter(tags, TagOwnerFn(userId)), TagKey);
  }
}
