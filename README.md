# YouTube transcript relay: a Dafny model

This project models the background script `background.js` of a Chrome
extension. When the toolbar button is clicked, the extension pulls the
transcript out of a YouTube video page and relays it to a ChatGPT project page.
The model covers three parts of that script:

- **The transcript filter** (`Transcript`, built on `JsBuiltins`). The texts of
  the transcript segments are filtered and joined. A segment is dropped when
  its trimmed text is exactly a timestamp of the form `^\d{1,2}:\d{2}(?::\d{2})?$`.
  Kept segments stay untrimmed and in order, and are joined with single spaces.
  The model proves:
  - that the timestamp test matches a grammar of fields;
  - that the output is exactly the kept segments, in order;
  - when the output is empty;
  - worked examples.
- **`waitForElement`** (`Poller`). It queries the page every 100 ms until an
  element appears, and gives up once the accumulated wait reaches the
  timeout (10000 ms by default). It is modelled as a method with the same loop
  over a query oracle. The method is proved against a specification function
  that picks the first hit within the query budget. The budget is 100 queries
  by default. The same helper is copied verbatim at `background.js:131-151`
  inside the paster, apart from a log line; this model stands for both copies.
- **The extractor and the click handler** (`Extractor`, `Relay`).
  - `extractTranscriptFromYouTube` is modelled with its early returns: a
    missing "more" button is only a warning, and a missing "Show transcript"
    button returns `""`. The segment poll has no timeout; it is observed over a
    finite window of polls, and `StillWaiting` stands for the hang.
  - The click handler is a class `RelayRun`. Its constructor is the click. Its
    `OnUpdated` method is the `chrome.tabs.onUpdated` listener, and a
    `listening` flag records whether that listener is still registered.
  - Chrome calls and console errors are recorded in order as a trace.
  - The model proves:
    - a page that is not a watch page gets only an alert;
    - a falsy transcript never opens a tab;
    - the listener removes itself on the first "complete" update for the new
      tab, so the paster is injected at most once, into that tab, with the
      extracted text.

Strings are sequences of Unicode scalar values. `String.prototype.trim` removes
the ECMAScript WhiteSpace and LineTerminator characters, as listed in section
7.2 and section 7.3 of ECMA-262. Timestamp digits are the ASCII digits that
`\d` matches.

## Model

| member | source | states |
|---|---|---|
| JsBuiltins.TrimStart | background.js:115 | the result is a suffix of the input; what was removed is all whitespace; the result is empty or starts with non-whitespace |
| JsBuiltins.TrimEnd | background.js:115 | the result is a prefix of the input; what was removed is all whitespace; the result is empty or ends with non-whitespace |
| JsBuiltins.Trim | background.js:115 | `trim()` is no longer than its input, and its result neither starts nor ends with whitespace |
| JsBuiltins.TrimUnique | background.js:115 | a whitespace-only prefix and suffix around a core with non-whitespace ends is trimmed to exactly that core |
| JsBuiltins.TrimIdempotent | background.js:115 | trimming twice is trimming once |
| JsBuiltins.JoinSpace | background.js:116 | `join(" ")` starts with the first part, and puts a space right after it when there are two or more parts |
| JsBuiltins.JoinSpaceLength | background.js:116 | the joined length is the sum of the part lengths plus one space between each pair of neighbours |
| JsBuiltins.JoinSpaceEmpty | background.js:116 | the join is "" exactly when there are no parts or the only part is "" |
| JsBuiltins.Filter | background.js:115 | `filter` keeps at most as many items as it gets, and each one it keeps passed the test and was in the input |
| JsBuiltins.FilterLength | background.js:115 | the filter output has one item per position that passes the test |
| JsBuiltins.FilterSelects | background.js:115 | item k of the filter output is the input item at the k-th position that passes the test |
| JsBuiltins.FilterIsSubsequence | background.js:115 | the filter output is the input restricted to an increasing list of positions, and a position is in that list exactly when its item passes |
| JsBuiltins.FilterNone | background.js:115 | when no item passes, the filter output is empty |
| Transcript.TimestampHasShape | background.js:115 | a text the timestamp regex matches is one or two digits, a colon and two digits, optionally followed by a colon and two more digits |
| Transcript.ShapeIsTimestamp | background.js:115 | every text of that shape matches the timestamp regex |
| Transcript.IsTimestampIffShape | background.js:115 | the regex test holds exactly for texts of that shape |
| Transcript.TimestampExamples | background.js:111-115 | "0:00", "12:34", "1:23:45" and "00:00:00" match; "123:45", "1:2", "1:23:4", "at 1:23 we", "1:23 " and "" do not |
| Transcript.PaddedTimestampDropped | background.js:115 | a line that is a timestamp only after trimming (" 0:00" followed by a newline) is still dropped |
| Transcript.KeepLineWhenTrimmed | background.js:115 | for a line with no whitespace at its ends, it is kept exactly when it is not a timestamp |
| Transcript.KeptLines | background.js:113-115 | at most as many lines come out as go in, and each one is a kept line of the input |
| Transcript.KeptLinesSelect | background.js:113-115 | the kept lines are the input lines at exactly the positions whose trimmed text is not a timestamp, untrimmed and in their original order |
| Transcript.ExtractTextEmpty | background.js:113-116 | the transcript text is "" exactly when no line is kept or the only kept line is "" |
| Transcript.AllTimestampsExtractEmpty | background.js:113-116 | when every line trims to a timestamp, or there are no lines, the transcript text is "" |
| Transcript.ExampleSpokenLinesKept | background.js:115 | "Hello world" and "Goodbye" are kept |
| Transcript.ExampleTimestampLinesDropped | background.js:115 | "0:00" and "1:23:45" are dropped |
| Transcript.ExampleKeptLines | background.js:113-115 | the lines "0:00", "Hello world", "1:23:45", "Goodbye" filter to "Hello world", "Goodbye" |
| Transcript.ExtractExample | background.js:113-116 | those four lines extract to "Hello world Goodbye" |
| Poller.QueryBudget | background.js:55-66 | the number of queries a timeout allows is at least one; that many intervals reach the timeout, and one interval fewer does not (unless only one query is made) |
| Poller.DefaultQueryBudget | background.js:53-66 | with the default timeout of 10000 ms and the 100 ms interval, at most 100 queries are made |
| Poller.FirstHit | background.js:57-60 | the position returned is the earliest query in the window that finds an element; none is returned only when every query in the window misses |
| Poller.WaitOutcomeFound | background.js:53-72 | the wait resolves exactly when some query within the budget finds an element, and it resolves with the element of the first such query |
| Poller.WaitForElement | background.js:53-72 | the loop makes between 1 and the budget of queries, and every query before the last missed. On success it returns the last query's element. On failure it has used the whole budget and rejects with "Element <selector> not found". The result and the query count equal the specification's |
| Extractor.FirstNonEmpty | background.js:93-101 | the position returned is the first poll that saw a segment; none is returned only when every poll in the window saw none |
| Extractor.PollSegments | background.js:91-108 | the segment poll stops at the first poll that sees segments and returns that nonempty list; it makes one query per poll it performs |
| Extractor.ExtractTranscript | background.js:73-125 | the script's result and its steps (clicks, warning, error log, segment queries, clipboard write) equal the specification, for every outcome of both button waits and the segment polls |
| Extractor.MoreButtonSwallowed | background.js:74-79 | whether or not the "more" button is found changes only the first step, never the result or what follows |
| Extractor.ShowTranscriptMissing | background.js:82-88 | a missing "Show transcript" button returns "" without reading segments or touching the clipboard |
| Extractor.ReturnedTextFromFirstSegments | background.js:91-124 | when the script returns after opening the panel, its text is extracted from the first nonempty segment list, and that same text was written to the clipboard last |
| Relay.ScriptResultOf | background.js:11-14 | the handler receives a string exactly when the extractor returned one, and then receives that same string |
| Relay.UpdateCallsClosedForm | background.js:27-35 | over any sequence of tab updates, the listener either makes no call or makes exactly one removal followed by one paste injection. It does the latter exactly when it was registered and some update reports the new tab as "complete" |
| Relay.UpdateCallsAppend | background.js:27-35 | handling updates one at a time gives the same calls as handling them all at once |
| Relay.PasteOnFirstComplete | background.js:27-35 | before the first "complete" update for the new tab, the listener stays registered and silent. From that update on, it has removed itself and pasted once |
| Relay.WrongPageHasNoEffect | background.js:4-7 | on a page whose URL lacks "youtube.com/watch", the only call is the alert, and no listener is registered |
| Relay.NoTranscriptOpensNoTab | background.js:11-19 | an empty, missing, rejected or never-settling extraction opens no tab and registers no listener |
| Relay.TimestampOnlyTranscriptOpensNoTab | background.js:16-19 | a transcript whose lines are all timestamps extracts to "", so no tab is opened |
| Relay.MissingShowButtonOpensNoTab | background.js:16-19 | when the "Show transcript" button never appears, the handler injects the extractor, logs "No transcript was extracted." and stops |
| Relay.RunPastesAtMostOnce | background.js:2-43 | after a click and any sequence of tab updates, the paster has been injected at most once, into the new tab, with the extracted text. It has been injected exactly when the click armed the listener and some update fired it |
| Relay.RelayRun.OnClicked | background.js:2-39 | the click records the calls of the specification, registers the listener exactly when the page is a watch page and the transcript is truthy, and keeps the invariant that at most one paste is still possible |
| Relay.RelayRun.OnUpdated | background.js:27-36 | one update event appends the listener's calls for that event, clears the registration exactly when the event fires, leaves the tab and the transcript alone, and keeps the invariant |

## Left out

- `pasteTranscriptToChatGPT` (`background.js:128-183`) is not part of this model. It drives the ChatGPT page's editor and send button through DOM events and promise chains. Only its `waitForElement` copy is covered, through `Poller.WaitForElement`.
- `chrome.*` APIs, `alert` and `console.error` appear only as trace entries. `console.log`, `console.info` and `console.warn` details (the caught error objects) are not recorded.
- Relay.RelayRun.OnClicked: `tab.url` is taken to be a string. When it is undefined, the source throws outside its `try`; that case is not modelled.
- Relay.RelayRun.OnClicked: the new tab's id is a parameter. The asynchronous gap between `chrome.tabs.create` and its callback is not modelled, so the listener is registered as part of the click.
- Relay: each click is modelled as its own run. Several clicks register several independent listeners, and their interleaving is not modelled.
- Extractor.ExtractTranscript: the segment poll has no timeout. Only a finite window of polls is observed, and `StillWaiting` stands for a run that has not returned within it.
- Extractor.ExtractTranscript: the `catch` around the segment poll can never run, because that promise never rejects. The clipboard write is recorded as a step; its failure changes nothing but a log line, so that failure is not modelled.
- Real time is not modelled: the 100 ms and 200 ms timers appear only as the count of queries made.
- `innerText` is not modelled; the segment texts are inputs.
- Strings are sequences of Unicode scalar values, not UTF-16 code units. Every character `trim()` removes and every ASCII digit is a single code unit, so the filter behaves the same.
- Transcript.KeptLines: its own contract states only the soundness of the kept lines. Completeness and order are stated by `Transcript.KeptLinesSelect`.
