/** The web client's "add video" form store: the modal flag, the URL being
    typed with its validity, the error shown, and the loading flag. The
    request that creates the video is not made here: its outcome enters
    `SubmitVideo` as a parameter. */
module AddVideoStore {
  import LinkUtils
  import YouTubeService
  import opened UrlPatterns

  const InvalidUrlMessage := "Please enter a valid YouTube URL"
  const DefaultFailureMessage := "Error adding video. Please try again."

  /** How the create-video request ended: created, or failed with the
      error's message (empty when the error has none). */
  datatype CreateOutcome = Created | Failed(message: string)

  /** The text shown for a failed request: its message, else the default. */
  function FailureText(message: string): (text: string)
    ensures text != ""
    ensures message != "" ==> text == message
  {
    if message != "" then message else DefaultFailureMessage
  }

  /** No pattern matches the empty text, so the blank form is invalid. */
  lemma EmptyUrlInvalid()
    ensures !LinkUtils.ValidateYouTubeUrl("")
  {
    forall p, k | p in LinkUtils.ClientPatterns && 0 <= k <= 0 ensures MatchAt(p, "", k).None? {
      assert !LiteralAt("", k, WatchQuery);
      if p.Prefixed? {
        forall q | q in p.prefixes ensures !PrefixMatches(q, p.atEnd, "", k) {
          assert q != [];
        }
      }
    }
  }

  /** A URL the client accepts, the server accepts too. */
  lemma AcceptedByServer(url: string)
    requires LinkUtils.ValidateYouTubeUrl(url)
    ensures YouTubeService.IsValidYouTubeUrl(url)
  {
    LinkUtils.SameUrlsAccepted(url);
  }

  class Store {
    var isModalOpen: bool
    var url: string
    var isValidUrl: bool
    var error: string
    var isLoading: bool

    /** Between actions: the validity flag is that of the URL, and nothing
        is loading. */
    predicate Valid()
      reads this
    {
      UrlChecked() && !isLoading
    }

    /** The validity flag is that of the URL. */
    predicate UrlChecked()
      reads this
    {
      isValidUrl == LinkUtils.ValidateYouTubeUrl(url)
    }

    /** The initial state: closed, blank, no error. */
    constructor ()
      ensures Valid()
      ensures !isModalOpen && url == "" && !isValidUrl && error == "" && !isLoading
    {
      isModalOpen := false;
      url := "";
      isValidUrl := false;
      error := "";
      isLoading := false;
      EmptyUrlInvalid();
    }

    /** `openModal`. */
    method OpenModal()
      requires Valid()
      modifies this
      ensures Valid()
      ensures isModalOpen
      ensures url == old(url) && isValidUrl == old(isValidUrl) && error == old(error) && isLoading == old(isLoading)
    {
      isModalOpen := true;
    }

    /** `reset`: a blank form, no error, not loading; the modal flag is
        kept. */
    method Reset()
      modifies this
      ensures Valid()
      ensures url == "" && !isValidUrl && error == "" && !isLoading
      ensures isModalOpen == old(isModalOpen)
    {
      url := "";
      isValidUrl := false;
      error := "";
      isLoading := false;
      EmptyUrlInvalid();
    }

    /** `closeModal`: reset, then close. */
    method CloseModal()
      modifies this
      ensures Valid()
      ensures !isModalOpen && url == "" && !isValidUrl && error == "" && !isLoading
    {
      Reset();
      isModalOpen := false;
    }

    /** `setUrl`: the new text, its validity, and the error cleared. */
    method SetUrl(newUrl: string)
      requires Valid()
      modifies this
      ensures Valid()
      ensures url == newUrl && isValidUrl == LinkUtils.ValidateYouTubeUrl(newUrl) && error == ""
      ensures isModalOpen == old(isModalOpen) && isLoading == old(isLoading)
    {
      url := newUrl;
      isValidUrl := LinkUtils.ValidateYouTubeUrl(newUrl);
      error := "";
    }

    /** `setError`. */
    method SetError(message: string)
      requires Valid()
      modifies this
      ensures Valid()
      ensures error == message
      ensures isModalOpen == old(isModalOpen) && url == old(url) && isValidUrl == old(isValidUrl) && isLoading == old(isLoading)
    {
      error := message;
    }

    /** `clearError`. */
    method ClearError()
      requires Valid()
      modifies this
      ensures Valid()
      ensures error == ""
      ensures isModalOpen == old(isModalOpen) && url == old(url) && isValidUrl == old(isValidUrl) && isLoading == old(isLoading)
    {
      error := "";
    }

    /** `validateUrl`: the client's check, which the server's agrees with;
        the store is left as it is. */
    method ValidateUrl(candidate: string) returns (valid: bool)
      ensures valid == LinkUtils.ValidateYouTubeUrl(candidate)
      ensures valid <==> YouTubeService.IsValidYouTubeUrl(candidate)
    {
      valid := LinkUtils.ValidateYouTubeUrl(candidate);
      LinkUtils.SameUrlsAccepted(candidate);
    }

    /** `submitVideo`, with the request's outcome as a parameter. An
        invalid URL only sets the error; otherwise the request is made, a
        created video resets the form and leaves the modal closed, and a
        failure shows its message and reopens the modal with the URL kept.
        Loading ends in every case. */
    method SubmitVideo(outcome: CreateOutcome) returns (submitted: bool)
      requires Valid()
      modifies this
      ensures Valid()
      ensures !old(isValidUrl) ==>
        !submitted && error == InvalidUrlMessage
        && isModalOpen == old(isModalOpen) && url == old(url) && isValidUrl == old(isValidUrl)
      ensures old(isValidUrl) && outcome.Created? ==>
        submitted && !isModalOpen && url == "" && !isValidUrl && error == ""
      ensures old(isValidUrl) && outcome.Failed? ==>
        !submitted && isModalOpen && url == old(url) && isValidUrl == old(isValidUrl)
        && error == FailureText(outcome.message)
      ensures submitted ==> YouTubeService.IsValidYouTubeUrl(old(url))
    {
      if !isValidUrl {
        SetError(InvalidUrlMessage);
        return false;
      }
      AcceptedByServer(url);
      StartRequest();
      submitted := Settle(outcome);
    }

    /** The part of `submitVideo` before the request: loading, no error,
        the modal closed at once. */
    method StartRequest()
      requires UrlChecked()
      modifies this
      ensures UrlChecked()
      ensures isLoading && error == "" && !isModalOpen
      ensures url == old(url) && isValidUrl == old(isValidUrl)
    {
      isLoading := true;
      error := "";
      isModalOpen := false;
    }

    /** The part of `submitVideo` after the request: the outcome decides
        the form, and loading ends. */
    method Settle(outcome: CreateOutcome) returns (submitted: bool)
      requires UrlChecked()
      modifies this
      ensures Valid()
      ensures outcome.Created? ==>
        submitted && url == "" && !isValidUrl && error == "" && isModalOpen == old(isModalOpen)
      ensures outcome.Failed? ==>
        !submitted && isModalOpen && url == old(url) && isValidUrl == old(isValidUrl)
        && error == FailureText(outcome.message)
    {
      match outcome {
        case Created =>
          Reset();
          submitted := true;
        case Failed(message) =>
          error := FailureText(message);
          isModalOpen := true;
          isLoading := false;
          submitted := false;
      }
    }
  }
}
