/**
 * The handler of the toolbar button (`chrome.action.onClicked`): check that
 * the active tab is a video page, run the extractor in it, open the
 * destination page, and paste the transcript once that page has finished
 * loading. The Chrome calls the handler makes are recorded in order instead
 * of performed.
 */
module Relay {
  import opened JsBuiltins
  import opened Transcript
  import Poller
  import Extractor

  const WatchPageMarker: string := "youtube.com/watch"
  const WrongPageAlert: string := "This extension works only on YouTube video pages."
  const NoTranscriptError: string := "No transcript was extracted."
  const ExecutionError: string := "Error during execution:"
  const DestinationUrl: string := "https://chatgpt.com/g/g-p-677d61bf69c881918e28b745d2e8dcca-youtube-summary/project/"
  const CompleteStatus: string := "complete"

  /** What the handler's `await` of the extractor's `executeScript` gives back. */
  datatype ScriptResult =
    | Resolved(text: string)
      /** The result was `undefined` or `null`. */
    | Missing
      /** The call threw; the handler's `catch` takes over. */
    | Rejected
      /** The script never finished, so the `await` never resumes. */
    | Pending

  /** A call the handler makes into the browser, or a line it logs. */
  datatype ChromeCall =
    | Alert(message: string)
    | InjectExtractor(tabId: int)
    | LogError(message: string)
    | CreateTab(url: string)
    | AddUpdateListener
    | RemoveUpdateListener
    | InjectPaster(tabId: int, text: string)

  /** One `chrome.tabs.onUpdated` event: the tab it concerns and its load status. */
  datatype TabUpdate = TabUpdate(tabId: int, status: string)

  /** How the handler sees the extractor's end: its return value, or an `await` that never resumes. */
  function ScriptResultOf(e: Extractor.Extraction): (r: ScriptResult)
    ensures e.Returned? <==> r.Resolved?
    ensures e.Returned? ==> r.text == e.text
  {
    match e
    case Returned(text) => Resolved(text)
    case StillWaiting => Pending
  }

  /** JavaScript truthiness of the extractor's result: a nonempty string. */
  predicate IsTruthy(extracted: ScriptResult) {
    extracted.Resolved? && extracted.text != ""
  }

  /** The text the handler passes on to the paster, when there is one. */
  function TranscriptOf(extracted: ScriptResult): string {
    if extracted.Resolved? then extracted.text else ""
  }

  /** Whether the click leaves a listener waiting for the new tab to load. */
  predicate ArmsListener(url: string, extracted: ScriptResult) {
    Contains(url, WatchPageMarker) && IsTruthy(extracted)
  }

  /** The calls the handler makes for one click, before any tab update arrives. */
  function ClickCalls(url: string, tabId: int, extracted: ScriptResult): seq<ChromeCall> {
    if !Contains(url, WatchPageMarker) then [Alert(WrongPageAlert)]
    else [InjectExtractor(tabId)] + ResultCalls(extracted)
  }

  /** What the handler does with the extractor's result once it has one. */
  function ResultCalls(extracted: ScriptResult): seq<ChromeCall> {
    match extracted
    case Rejected => [LogError(ExecutionError)]
    case Pending => []
    case Missing => [LogError(NoTranscriptError)]
    case Resolved(text) =>
      if text == "" then [LogError(NoTranscriptError)] else [CreateTab(DestinationUrl), AddUpdateListener]
  }

  /** The listener's test: the update says the new tab has finished loading. */
  predicate Fires(update: TabUpdate, tabId: int) {
    update.tabId == tabId && update.status == CompleteStatus
  }

  /**
   * The calls the listener makes over a sequence of tab updates: on the first
   * update that fires while it is registered, it removes itself and injects
   * the paster; every other update is ignored.
   */
  function UpdateCalls(listening: bool, tabId: int, text: string, updates: seq<TabUpdate>): seq<ChromeCall> {
    if updates == [] then []
    else if listening && Fires(updates[0], tabId) then
      [RemoveUpdateListener, InjectPaster(tabId, text)] + UpdateCalls(false, tabId, text, updates[1..])
    else UpdateCalls(listening, tabId, text, updates[1..])
  }

  /** Whether the listener is still registered after the updates `updates`. */
  predicate ListeningAfter(listening: bool, tabId: int, updates: seq<TabUpdate>) {
    listening && forall i :: 0 <= i < |updates| ==> !Fires(updates[i], tabId)
  }

  /** The number of paster injections among `calls`. */
  function Pastes(calls: seq<ChromeCall>): (n: nat)
    ensures n <= |calls|
  {
    if calls == [] then 0
    else (if calls[0].InjectPaster? then 1 else 0) + Pastes(calls[1..])
  }

  lemma {:induction false} PastesAppend(a: seq<ChromeCall>, b: seq<ChromeCall>)
    ensures Pastes(a + b) == Pastes(a) + Pastes(b)
  {
    if a != [] {
      assert (a + b)[0] == a[0];
      assert (a + b)[1..] == a[1..] + b;
      PastesAppend(a[1..], b);
    } else {
      assert a + b == b;
    }
  }

  lemma {:induction false} PastesNone(calls: seq<ChromeCall>)
    requires forall i :: 0 <= i < |calls| ==> !calls[i].InjectPaster?
    ensures Pastes(calls) == 0
  {
    if calls != [] {
      PastesNone(calls[1..]);
    }
  }

  /**
   * Over any sequence of updates the listener makes either no call at all,
   * or exactly one removal and one injection, and the latter exactly when it
   * was registered and some update fires.
   */
  lemma {:induction false} UpdateCallsClosedForm(listening: bool, tabId: int, text: string, updates: seq<TabUpdate>)
    ensures UpdateCalls(listening, tabId, text, updates) ==
      if listening && !ListeningAfter(listening, tabId, updates)
      then [RemoveUpdateListener, InjectPaster(tabId, text)] else []
  {
    if updates != [] {
      UpdateCallsClosedForm(false, tabId, text, updates[1..]);
      UpdateCallsClosedForm(listening, tabId, text, updates[1..]);
      if listening && !Fires(updates[0], tabId) {
        assert ListeningAfter(listening, tabId, updates) == ListeningAfter(listening, tabId, updates[1..]) by {
          assert forall i :: 1 <= i < |updates| ==> updates[i] == updates[1..][i - 1];
        }
      }
    }
  }

  /**
   * Handling updates one after another is handling them all at once: the
   * calls for `updates + [u]` are those for `updates`, then those `u` draws
   * from the listener as `updates` left it.
   */
  lemma {:induction false} UpdateCallsAppend(listening: bool, tabId: int, text: string,
                                             updates: seq<TabUpdate>, u: TabUpdate)
    ensures UpdateCalls(listening, tabId, text, updates + [u]) ==
            UpdateCalls(listening, tabId, text, updates) +
            UpdateCalls(ListeningAfter(listening, tabId, updates), tabId, text, [u])
  {
    UpdateCallsClosedForm(listening, tabId, text, updates + [u]);
    UpdateCallsClosedForm(listening, tabId, text, updates);
    UpdateCallsClosedForm(ListeningAfter(listening, tabId, updates), tabId, text, [u]);
    var all := updates + [u];
    assert forall i :: 0 <= i < |updates| ==> all[i] == updates[i];
    assert all[|updates|] == u;
  }

  /**
   * The paste happens on the first update that fires and on no other: before
   * it the listener has made no call and is still registered; from it on the
   * listener has made its two calls and is gone.
   */
  lemma PasteOnFirstComplete(tabId: int, text: string, updates: seq<TabUpdate>, first: nat)
    requires first < |updates| && Fires(updates[first], tabId)
    requires forall i :: 0 <= i < first ==> !Fires(updates[i], tabId)
    ensures UpdateCalls(true, tabId, text, updates[..first]) == []
    ensures ListeningAfter(true, tabId, updates[..first])
    ensures forall n :: first < n <= |updates| ==>
      UpdateCalls(true, tabId, text, updates[..n]) == [RemoveUpdateListener, InjectPaster(tabId, text)] &&
      !ListeningAfter(true, tabId, updates[..n])
  {
    UpdateCallsClosedForm(true, tabId, text, updates[..first]);
    forall n | first < n <= |updates|
      ensures UpdateCalls(true, tabId, text, updates[..n]) == [RemoveUpdateListener, InjectPaster(tabId, text)]
      ensures !ListeningAfter(true, tabId, updates[..n])
    {
      assert updates[..n][first] == updates[first];
      UpdateCallsClosedForm(true, tabId, text, updates[..n]);
    }
  }

  /** On a page that is not a video page the handler only alerts: no injection, no new tab. */
  lemma WrongPageHasNoEffect(url: string, tabId: int, extracted: ScriptResult)
    requires !Contains(url, WatchPageMarker)
    ensures ClickCalls(url, tabId, extracted) == [Alert(WrongPageAlert)]
    ensures !ArmsListener(url, extracted)
  {
  }

  /** A falsy extraction result (empty, missing), a rejection or a hang never opens the destination page. */
  lemma NoTranscriptOpensNoTab(url: string, tabId: int, extracted: ScriptResult)
    requires !IsTruthy(extracted)
    ensures forall c :: c in ClickCalls(url, tabId, extracted) ==> !c.CreateTab? && !c.AddUpdateListener?
    ensures !ArmsListener(url, extracted)
  {
  }

  /**
   * A transcript whose every line is a timestamp, or that has no line at all,
   * extracts to "" and so never opens the destination page.
   */
  lemma TimestampOnlyTranscriptOpensNoTab(url: string, tabId: int, lines: seq<string>)
    requires forall i :: 0 <= i < |lines| ==> IsTimestamp(Trim(lines[i]))
    ensures forall c :: c in ClickCalls(url, tabId, Resolved(ExtractText(lines))) ==> !c.CreateTab?
  {
    AllTimestampsExtractEmpty(lines);
  }

  /**
   * When the "Show transcript" button never appears, the extractor returns ""
   * and the handler logs an error and opens no tab, whatever the segment polls
   * would have seen.
   */
  lemma MissingShowButtonOpensNoTab<E>(url: string, tabId: int, show: Poller.Lookup<E>, polls: seq<seq<string>>)
    requires Contains(url, WatchPageMarker) && show.NotFound?
    ensures ClickCalls(url, tabId, ScriptResultOf(Extractor.ExtractionOutcome(show, polls))) ==
            [InjectExtractor(tabId), LogError(NoTranscriptError)]
    ensures !ArmsListener(url, ScriptResultOf(Extractor.ExtractionOutcome(show, polls)))
  {
    Extractor.ShowTranscriptMissing(Poller.NotFound(""), show, polls);
  }

  /**
   * Whatever updates arrive after a click, the run injects the paster at most
   * once, into the tab it created, with the extracted text; and it does so
   * exactly when the click armed the listener and some update fires.
   */
  lemma {:induction false} RunPastesAtMostOnce(url: string, tabId: int, extracted: ScriptResult,
                                               newTabId: int, updates: seq<TabUpdate>)
    ensures var calls := ClickCalls(url, tabId, extracted) +
                         UpdateCalls(ArmsListener(url, extracted), newTabId, TranscriptOf(extracted), updates);
      Pastes(calls) <= 1 &&
      (Pastes(calls) == 1 <==> ArmsListener(url, extracted) && !ListeningAfter(true, newTabId, updates)) &&
      (forall c :: c in calls && c.InjectPaster? ==> c == InjectPaster(newTabId, TranscriptOf(extracted)))
  {
    var armed := ArmsListener(url, extracted);
    var click := ClickCalls(url, tabId, extracted);
    var later := UpdateCalls(armed, newTabId, TranscriptOf(extracted), updates);
    UpdateCallsClosedForm(armed, newTabId, TranscriptOf(extracted), updates);
    PastesAppend(click, later);
    PastesNone(click);
    if later != [] {
      assert later[1..][1..] == [];
    }
  }

  /**
   * One run of the click handler: the listener it registers for the new tab
   * and every call it has made so far.
   */
  class RelayRun {
    var listening: bool
    var newTabId: int
    var transcript: string
    var calls: seq<ChromeCall>

    /** The listener pastes at most once: it is still registered only while nothing has been pasted. */
    ghost predicate Valid()
      reads this
    {
      Pastes(calls) + (if listening then 1 else 0) <= 1 &&
      (listening ==> transcript != "")
    }

    /**
     * The click: reject a page that is not a video page, inject the
     * extractor, give up on a falsy result, otherwise open the destination
     * page and register the listener for the tab it created.
     */
    constructor OnClicked(url: string, tabId: int, extracted: ScriptResult, createdTabId: int)
      ensures Valid()
      ensures calls == ClickCalls(url, tabId, extracted)
      ensures listening == ArmsListener(url, extracted)
      ensures newTabId == createdTabId && transcript == TranscriptOf(extracted)
    {
      listening := false;
      newTabId := createdTabId;
      transcript := TranscriptOf(extracted);
      if !Contains(url, WatchPageMarker) {
        calls := [Alert(WrongPageAlert)];
      } else {
        calls := [InjectExtractor(tabId)];
        match extracted {
          case Rejected =>
            calls := calls + [LogError(ExecutionError)];
          case Pending =>
          case Missing =>
            calls := calls + [LogError(NoTranscriptError)];
          case Resolved(text) =>
            if text == "" {
              calls := calls + [LogError(NoTranscriptError)];
            } else {
              calls := calls + [CreateTab(DestinationUrl), AddUpdateListener];
              listening := true;
            }
        }
      }
      new;
      PastesNone(calls);
    }

    /**
     * One `chrome.tabs.onUpdated` event: if the listener is registered and
     * the event says the new tab is complete, remove the listener, then
     * inject the paster with the transcript.
     */
    method OnUpdated(update: TabUpdate)
      requires Valid()
      modifies this
      ensures Valid()
      ensures calls == old(calls) + UpdateCalls(old(listening), newTabId, transcript, [update])
      ensures listening == ListeningAfter(old(listening), newTabId, [update])
      ensures newTabId == old(newTabId) && transcript == old(transcript)
    {
      if listening && update.tabId == newTabId && update.status == CompleteStatus {
        listening := false;
        PastesAppend(calls, [RemoveUpdateListener, InjectPaster(newTabId, transcript)]);
        assert Pastes([RemoveUpdateListener, InjectPaster(newTabId, transcript)]) == 1 by {
          assert [RemoveUpdateListener, InjectPaster(newTabId, transcript)][1..][1..] == [];
        }
        calls := calls + [RemoveUpdateListener, InjectPaster(newTabId, transcript)];
      }
    }
  }
}
