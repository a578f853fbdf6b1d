/** The web client's player store: the video being played, the player
    flag, and the local cache of playback positions (video id to seconds),
    filled by the player and by the server. The server calls are not made
    here: the reply of the position query enters as a parameter, and the
    save request's outcome changes nothing in the store. */
module VideoPlayerStore {
  import opened Base

  /** The video handed to the player. */
  datatype PlayerVideo = PlayerVideo(
    id: string, title: Option<string>, url: string, thumbnail: Option<string>, duration: Option<string>)

  /** How the position query ended: a reply with its success flag and the
      position if any, or an exception. */
  datatype ProgressReply = Reply(success: bool, progress: Option<int>) | Threw

  class Store {
    var currentVideo: Option<PlayerVideo>
    var isPlayerOpen: bool
    var videoProgress: map<string, int>
    var isLoadingProgress: bool
    var isSavingProgress: bool

    /** Between actions nothing is loading or saving. */
    predicate Valid()
      reads this
    {
      !isLoadingProgress && !isSavingProgress
    }

    /** The initial state: no video, closed, nothing cached. */
    constructor ()
      ensures Valid()
      ensures currentVideo == None && !isPlayerOpen && videoProgress == map[]
    {
      currentVideo := None;
      isPlayerOpen := false;
      videoProgress := map[];
      isLoadingProgress := false;
      isSavingProgress := false;
    }

    /** `getProgress`: the cached position, 0 when there is none. */
    function GetProgress(videoId: string): (seconds: int)
      reads this
      ensures seconds == if videoId in videoProgress then videoProgress[videoId] else 0
    {
      if videoId in videoProgress && videoProgress[videoId] != 0 then videoProgress[videoId] else 0
    }

    /** `updateProgress`: the new position goes into the cache at once; the
        save request that follows leaves the cache as it is, whether it
        succeeds or not. */
    method UpdateProgress(videoId: string, progress: int)
      requires Valid()
      modifies this
      ensures Valid()
      ensures videoProgress == old(videoProgress)[videoId := progress]
      ensures GetProgress(videoId) == progress
      ensures forall other :: other != videoId ==> GetProgress(other) == old(GetProgress(other))
      ensures currentVideo == old(currentVideo) && isPlayerOpen == old(isPlayerOpen) && !isSavingProgress
    {
      videoProgress := videoProgress[videoId := progress];
      // The flag is raised for the save request and lowered in `finally`.
      isSavingProgress := false;
    }

    /** `loadProgressFromAPI`, with the query's reply as a parameter: a
        successful reply with a position replaces the cached one; anything
        else keeps the cache. */
    method LoadProgressFromApi(videoId: string, reply: ProgressReply)
      requires Valid()
      modifies this
      ensures Valid()
      ensures reply.Reply? && reply.success && reply.progress.Some? ==>
        videoProgress == old(videoProgress)[videoId := reply.progress.value]
      ensures !(reply.Reply? && reply.success && reply.progress.Some?) ==>
        videoProgress == old(videoProgress)
      ensures currentVideo == old(currentVideo) && isPlayerOpen == old(isPlayerOpen)
    {
      isLoadingProgress := true;
      match reply {
        case Reply(success, progress) =>
          if success && progress.Some? {
            videoProgress := videoProgress[videoId := progress.value];
          }
        case Threw =>
      }
      isLoadingProgress := false;
    }

    /** `openPlayer`: the video (or none) becomes current, the player opens,
        and for a video with an id its position is loaded. */
    method OpenPlayer(video: Option<PlayerVideo>, reply: ProgressReply)
      requires Valid()
      modifies this
      ensures Valid()
      ensures currentVideo == video && isPlayerOpen
      ensures video.Some? && video.value.id != "" && reply.Reply? && reply.success && reply.progress.Some? ==>
        videoProgress == old(videoProgress)[video.value.id := reply.progress.value]
      ensures !(video.Some? && video.value.id != "" && reply.Reply? && reply.success && reply.progress.Some?) ==>
        videoProgress == old(videoProgress)
    {
      currentVideo := video;
      isPlayerOpen := true;
      if video.Some? && video.value.id != "" {
        LoadProgressFromApi(video.value.id, reply);
      }
    }

    /** `closePlayer`: no current video, player closed, cache kept. */
    method ClosePlayer()
      requires Valid()
      modifies this
      ensures Valid()
      ensures currentVideo == None && !isPlayerOpen
      ensures videoProgress == old(videoProgress)
    {
      currentVideo := None;
      isPlayerOpen := false;
    }
  }
}
