/**
 * `extractTranscriptFromYouTube`, the script injected into the video page:
 * expand the description (optional), open the transcript panel (required),
 * wait for transcript segments, filter and join their texts, copy the result
 * to the clipboard and return it.
 */
module Extractor {
  import opened Options
  import opened Poller
  import opened Transcript

  const MoreButtonSelector: string := "tp-yt-paper-button#expand"
  const ShowTranscriptSelector: string := "button[aria-label=\"Show transcript\"]"
  const MoreButtonWarning: string := "More button not found or already expanded:"
  const ShowTranscriptError: string := "Show transcript button not found:"

  /** What the script does to the page, in order. */
  datatype PageStep<E> =
    | Click(element: E)
    | Warn(message: string)
    | LogError(message: string)
      /** One `querySelectorAll` of the transcript segments, and how many it matched. */
    | QueryLines(count: nat)
    | CopyToClipboard(text: string)

  /**
   * How the script ends: returning a string, or still waiting for transcript
   * segments when the observed polls run out (the source's segment poll has
   * no timeout).
   */
  datatype Extraction = Returned(text: string) | StillWaiting

  /** The first poll, every 200 ms, at which some transcript segment is present. */
  function FirstNonEmpty(polls: seq<seq<string>>): (i: Option<nat>)
    ensures i.Some? ==> i.value < |polls| && polls[i.value] != [] &&
                        (forall j :: 0 <= j < i.value ==> polls[j] == [])
    ensures i.None? ==> (forall j :: 0 <= j < |polls| ==> polls[j] == [])
  {
    if polls == [] then None
    else if polls[0] != [] then Some(0)
    else match FirstNonEmpty(polls[1..])
      case None => None
      case Some(i) => Some(i + 1)
  }

  /** The `QueryLines` steps of the segment polls `polls`, one per poll. */
  function SegmentQueries<E>(polls: seq<seq<string>>): (steps: seq<PageStep<E>>)
    ensures |steps| == |polls|
    ensures forall j :: 0 <= j < |polls| ==> steps[j] == QueryLines(|polls[j]|)
  {
    seq(|polls|, j requires 0 <= j < |polls| => QueryLines(|polls[j]|))
  }

  /**
   * The result of the script, given how the wait for the "Show transcript"
   * button settled and what the segment polls saw. The wait for the "more"
   * button does not appear: its failure is swallowed.
   */
  function ExtractionOutcome<E>(show: Lookup<E>, polls: seq<seq<string>>): Extraction {
    if show.NotFound? then Returned("")
    else match FirstNonEmpty(polls)
      case None => StillWaiting
      case Some(i) => Returned(ExtractText(polls[i]))
  }

  /** The steps the script takes, given how both button waits settled and what the polls saw. */
  function ExtractionSteps<E>(more: Lookup<E>, show: Lookup<E>, polls: seq<seq<string>>): seq<PageStep<E>> {
    (if more.Found? then [Click(more.element)] else [Warn(MoreButtonWarning)]) +
    (if show.NotFound? then [LogError(ShowTranscriptError)]
     else [Click(show.element)] + SegmentPollSteps(polls) + ClipboardSteps(polls))
  }

  /** The clipboard write that follows a poll that found segments. */
  function ClipboardSteps<E>(polls: seq<seq<string>>): seq<PageStep<E>> {
    match FirstNonEmpty(polls)
    case None => []
    case Some(i) => [CopyToClipboard(ExtractText(polls[i]))]
  }

  /** The queries of the segment poll: up to and including the first that finds segments, or all of them. */
  function SegmentPollSteps<E>(polls: seq<seq<string>>): seq<PageStep<E>> {
    match FirstNonEmpty(polls)
    case None => SegmentQueries(polls)
    case Some(i) => SegmentQueries(polls[..i + 1])
  }

  /**
   * The segment poll: query every 200 ms until some segment is present and
   * resolve with the segments' texts; `None` when the observed polls run out
   * first.
   */
  method PollSegments<E>(polls: seq<seq<string>>) returns (segments: Option<seq<string>>, steps: seq<PageStep<E>>)
    ensures segments.Some? ==> segments.value != []
    ensures segments == (match FirstNonEmpty(polls) case None => None case Some(i) => Some(polls[i]))
    ensures steps == SegmentPollSteps(polls)
  {
    steps := [];
    var i := 0;
    while i < |polls| && polls[i] == []
      invariant 0 <= i <= |polls|
      invariant forall j :: 0 <= j < i ==> polls[j] == []
      invariant steps == SegmentQueries(polls[..i])
    {
      assert polls[..i + 1] == polls[..i] + [polls[i]];
      steps := steps + [QueryLines(0)];
      i := i + 1;
    }
    if i == |polls| {
      assert polls[..i] == polls;
      return None, steps;
    }
    assert FirstNonEmpty(polls) == Some(i);
    steps := steps + [QueryLines(|polls[i]|)];
    segments := Some(polls[i]);
  }

  /**
   * The script, run against a page whose two buttons answer `moreQuery` and
   * `showQuery` at each tick and whose transcript segments are `polls[j]` at
   * the `j`-th segment poll.
   */
  method ExtractTranscript<E>(moreQuery: nat -> Option<E>, showQuery: nat -> Option<E>,
                              polls: seq<seq<string>>)
    returns (r: Extraction, steps: seq<PageStep<E>>)
    ensures r == ExtractionOutcome(WaitOutcome(ShowTranscriptSelector, showQuery, DefaultTimeout), polls)
    ensures steps == ExtractionSteps(WaitOutcome(MoreButtonSelector, moreQuery, DefaultTimeout),
                                     WaitOutcome(ShowTranscriptSelector, showQuery, DefaultTimeout), polls)
  {
    var more, _ := WaitForElement(MoreButtonSelector, moreQuery, DefaultTimeout);
    var expand: seq<PageStep<E>> := if more.Found? then [Click(more.element)] else [Warn(MoreButtonWarning)];
    var show, _ := WaitForElement(ShowTranscriptSelector, showQuery, DefaultTimeout);
    if show.NotFound? {
      return Returned(""), expand + [LogError(ShowTranscriptError)];
    }
    var segments, pollSteps := PollSegments(polls);
    if segments.None? {
      return StillWaiting, expand + ([Click(show.element)] + pollSteps + []);
    }
    var text := ExtractText(segments.value);
    r := Returned(text);
    steps := expand + ([Click(show.element)] + pollSteps + [CopyToClipboard(text)]);
  }

  /**
   * Whatever the "more" button does, the extracted text is the same, and
   * every step after the first is the same.
   */
  lemma MoreButtonSwallowed<E>(more1: Lookup<E>, more2: Lookup<E>, show: Lookup<E>, polls: seq<seq<string>>)
    ensures ExtractionSteps(more1, show, polls)[1..] == ExtractionSteps(more2, show, polls)[1..]
  {
  }

  /** A "Show transcript" button that never appears ends the script with "" before any segment is read. */
  lemma ShowTranscriptMissing<E>(more: Lookup<E>, show: Lookup<E>, polls: seq<seq<string>>)
    requires show.NotFound?
    ensures ExtractionOutcome(show, polls) == Returned("")
    ensures forall s :: s in ExtractionSteps(more, show, polls) ==> !s.QueryLines? && !s.CopyToClipboard?
  {
  }

  /**
   * When the script returns after opening the panel, the segment list it read
   * was nonempty: the text comes from the first poll that found segments, and
   * the clipboard receives that same text.
   */
  lemma ReturnedTextFromFirstSegments<E>(more: Lookup<E>, show: Lookup<E>, polls: seq<seq<string>>)
    requires show.Found? && ExtractionOutcome(show, polls).Returned?
    ensures exists i :: (0 <= i < |polls| && polls[i] != [] && (forall j :: 0 <= j < i ==> polls[j] == []) &&
                         ExtractionOutcome(show, polls).text == ExtractText(polls[i]))
    ensures var steps := ExtractionSteps(more, show, polls);
      steps[|steps| - 1] == CopyToClipboard(ExtractionOutcome(show, polls).text)
  {
    var i := FirstNonEmpty(polls).value;
    assert polls[i] != [];
  }
}
