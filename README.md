# picameras: verified model of the camera state machines and the hub protocol

This project models the control logic of two Raspberry Pi security-camera
scripts.

- `scripts/smartthings-pi.py` is the camera that integrates with a
  SmartThings hub. It has four parts:
  - an SSDP responder that answers the hub's multicast `M-SEARCH`
    (UPnP Device Architecture 1.0, section 1.2.3);
  - an HTTP status resource that accepts `SUBSCRIBE` and answers polling
    `GET /status`;
  - a poll-driven monitor that flips between `inactive` and `active` on
    each tick;
  - a notifier that POSTs the status message to every live subscription.
- `pizero.py` is the clip recorder. Its frame loop opens a video clip when
  motion appears. It holds the room "Occupied" for a minimum clip length (a
  debounce window), and it replaces or releases the video writer.

The vision itself is abstracted: each tick delivers the areas of the
contours it found. The modules follow the program structure:

| module | file | what it holds |
|---|---|---|
| `Basics` | basics.dfy | `Option`, `Result` |
| `Strings` | strings.dfy | Python's `str.find`, `in`, `split`, `replace(…, 1)`, `lower` and `%d`, with their laws |
| `Contours` | contours.dfy | the minimum-area test both scripts apply to contours |
| `Paths` | paths.dfy | both `get_path`s |
| `Discovery` | discovery.dfy | `SEARCH_RESPONSE`, `SSDPServer.datagramReceived`, the header parser, the M-SEARCH round trip |
| `Status` | status.dfy | `subscription_list`, `camera_status`/`camera_image`, the status message, `StatusServer` |
| `Monitor` | monitor.dfy | `MonitorCamera.check_state`, `notify_hubs`, `handle_response`/`handle_error` |
| `Recording` | recording.dfy | the frame loop of `pizero.py`'s `main` |

Objects that the source updates in place are classes:
- the registry, the camera status, the status server and the monitor in
  `Status` and `Monitor`;
- the recorder in `Recording`.

Each imperative method is proved against a specification function:
- `CheckState` against `CheckStep`;
- `NotifyHubs` against `Deliveries`;
- `ProcessFrame` against `Step`;
- `RecordFrames` against `Run`.

The properties are lemmas about those functions.

Modelling conventions:
- **Text.** Text is `string`, already decoded. Header names are
  lower-cased with ASCII case mapping.
- **Time.** Times are integers; each script has its own unit.
  - In `scripts/smartthings-pi.py` the unit is the second of `time()`:
    `check_state` and `render_SUBSCRIBE` take the time as a parameter
    (`now`), and a subscription lasts `24 * 3600` of them.
  - In `pizero.py` the unit is any unit finer than a second, with
    `minimum_video_length` converted to it; the demos use milliseconds, so
    their window of 2000 is two seconds. `total_seconds()` becomes the
    integer difference of two readings.
  - Each pizero frame carries two readings: the frame's `timestamp`
    (pizero.py:112) and the later `datetime.now()` that becomes
    `video_start` (pizero.py:155).
  - The debounce behaviour depends on the second reading being strictly
    later than the first (see `DemoWithLag` and `DemoWithoutLag`). A unit
    finer than a second keeps that difference visible.
- **strftime.** The strftime text of a time stamp is an opaque string
  that each tick carries.
- **Writer calls.** The calls made on `cv2.VideoWriter` objects are
  recorded as a ghost log of `Open`/`Write`/`Release` operations.
  `Replay` checks a log against the discipline: at most one writer open,
  no write or release without an open writer.
- **Parse failures.** The two header inputs that raise an uncaught
  `IndexError` in `datagramReceived` are explicit `Raised` outcomes,
  not preconditions:
  - a header line without a colon;
  - a one-word request line.

Two behaviours of the source worth noting:
- **Response codes.** `handle_response` logs every code other than 202 at
  error level. `Classify` is that table: an answer with code
  202 is logged at info and any other code at error
  (scripts/smartthings-pi.py:374-381); a `ResponseFailed` failure is
  logged at debug and any other failure at error
  (scripts/smartthings-pi.py:383-391).
- **Writer release.** When the clip recorder becomes "Unoccupied" it does
  not release the writer. The writer stays open until the next clip opens
  or `main` ends.

Five quirks of the source that the model keeps:
- **Empty ST header.** A missing `ST` header is the empty target, which
  every device target contains, so it is always answered
  (`MissingTargetAnswered`).
- **First ": " in a header.** `replace(': ', ':', 1)` edits the first
  ": " anywhere in a header line. So a value that does not start with a
  space loses the space of its own first ": " (`HeaderValueAfterColon`).
- **Raw contour list.** Both scripts leave the active/occupied state only
  on an empty raw contour list. Contours that are all too small therefore
  keep the state (`CheckStep`, `MotionKeepsClip`).
- **Last header wins.** A later header line with the same lower-cased
  name overrides an earlier one (`ParseHeadersLastWins`).
- **Expired subscriptions kept.** Expired subscriptions stay in the
  registry. They are only skipped when notifying (`Deliveries`,
  `ExpiredNotNotified`).

## Model

| member | source | states |
|---|---|---|
| Strings.Find | scripts/smartthings-pi.py:123 | the result is the leftmost occurrence of the pattern, and None exactly when the pattern occurs nowhere |
| Strings.Contains | scripts/smartthings-pi.py:135 | Python's `in` on strings: true exactly when the needle occurs at some index |
| Strings.Split | scripts/smartthings-pi.py:121 | `str.split(sep)`: at least one piece, the pieces joined by `sep` give the input back, no piece contains `sep`, there are two or more pieces exactly when `sep` occurs, and every cut is at the leftmost remaining occurrence: no occurrence of `sep` straddles the end of a piece and the separator after it |
| Strings.SplitJoin | scripts/smartthings-pi.py:121 | splitting a join gives back the parts when no part contains the separator's first character |
| Strings.LowerIsSt | scripts/smartthings-pi.py:126 | a header name lower-cases to "st" exactly when it is `st`, `sT`, `St` or `ST`, so any of the four spellings is the ST header |
| Strings.LowerIdempotent | scripts/smartthings-pi.py:126 | lower-casing an already lower-cased name changes nothing |
| Strings.NatToStringValue | scripts/smartthings-pi.py:138 | the `%d` text of the status port reads back as the same number |
| Contours.AnyLarge | scripts/smartthings-pi.py:293-297 | a tick has motion exactly when some contour's area is at least the minimum area |
| Contours.AnyLargeSnoc | pizero.py:143-146 | scanning one more contour adds exactly that contour's test to the motion flag |
| Paths.GetPath | pizero.py:33-35 | the path is `basepath` and a "/" followed by exactly the stamp text and the extension, so the file lies directly in `basepath` (likewise scripts/smartthings-pi.py:345-347) |
| Paths.GetPathInjective | pizero.py:33-35 | `get_path`: distinct time stamps give distinct paths under the same directory and extension (likewise scripts/smartthings-pi.py:345-347) |
| Discovery.HeaderField | scripts/smartthings-pi.py:123-126 | a header line yields a name/value pair exactly when it contains a colon |
| Discovery.HeaderFieldOfFormatted | scripts/smartthings-pi.py:123-126 | "Name: value" with a colon-free name parses to the lower-cased name and exactly the value |
| Discovery.HeaderValueAfterColon | scripts/smartthings-pi.py:123-126 | "name:v" yields v without one leading space, and otherwise v with its own first ": " collapsed to ":" |
| Discovery.ParseHeaders | scripts/smartthings-pi.py:124-126 | the dictionary build over the header lines: its only failure is the colon-free-line `IndexError`, and it names a non-empty line without a colon |
| Discovery.ParseHeadersFails | scripts/smartthings-pi.py:124-126 | the header dictionary fails to build exactly when a non-empty line has no colon, and the error names the first such line |
| Discovery.ParseHeadersKeys | scripts/smartthings-pi.py:124-126 | on success every non-empty header line's lower-cased name is a key |
| Discovery.ParseHeadersLastWins | scripts/smartthings-pi.py:126 | on success each key is bound to the value of the last line naming it |
| Discovery.ParseDatagram | scripts/smartthings-pi.py:117-128 | with `L` the `\r\n`-lines before the first blank line: no separator exactly when there is no blank line; the colon-free-header `IndexError` exactly when there is one and some line of `L` after the first is non-empty and colon-free; the one-word-request-line `IndexError` on `L[0]` exactly when the headers are well formed and `L[0]` has no space; otherwise a request whose words are `L[0]` split at single spaces (at least two of them, joining back to `L[0]`) and whose headers are the dictionary of the lines after it |
| Discovery.DatagramReceived | scripts/smartthings-pi.py:116-144 | dropped exactly without a `\r\n\r\n`; an `IndexError` escapes exactly when parsing stops at a malformed header or a one-word request line, carrying that fault; answered exactly when the request parses, is `M-SEARCH *` and its ST value (empty when absent) is a substring of the device target; the answer goes to the requester and is `SEARCH_RESPONSE` filled with the status URL, the requested target, the UUID and the device target |
| Discovery.SearchResponse | scripts/smartthings-pi.py:57 | `SEARCH_RESPONSE` with its four fields filled in: 117 fixed characters around the location, the target, the UUID and the device target |
| Discovery.SearchResponseInjective | scripts/smartthings-pi.py:57 | the ST echo can be read back: two responses that differ only in the target are equal only for equal targets |
| Discovery.StatusUrl | scripts/smartthings-pi.py:138 | the LOCATION url starts with `http://`, then the local address, a colon and exactly the decimal port, and ends with `/status` |
| Discovery.StatusUrlInjective | scripts/smartthings-pi.py:138 | the LOCATION of one address names one status port: different ports give different urls |
| Discovery.SearchDatagramAnswer | scripts/smartthings-pi.py:130-142 | round trip: an M-SEARCH datagram built from an optional CR-free ST value and other headers (each with a colon-free name that is not ST in any case, and no CR in name or value) is answered exactly when the device target contains the requested value, echoing that value; otherwise it is logged as unmatched |
| Discovery.MissingTargetAnswered | scripts/smartthings-pi.py:130-135 | an M-SEARCH without ST is always answered, with an empty ST in the reply |
| Status.Command | scripts/smartthings-pi.py:180-183 | `cmd` is `status-` followed by the name of `last_state` |
| Status.CommandInjective | scripts/smartthings-pi.py:180-183 | the two states give two different commands, so the command tells the hub the state |
| Status.StatusMessage | scripts/smartthings-pi.py:184 | the message shared by lines 184, 196 and 363 is the command, the device target and the image reference inside 97 fixed characters, the length that `CONTENT-LENGTH` reports |
| Status.StatusMessageInjective | scripts/smartthings-pi.py:184 | the status message determines both the state and the image reference |
| Status.Refresh | scripts/smartthings-pi.py:171-177 | insert-or-refresh keeps one entry per callback, sets that callback's expiration, leaves every other expiration alone, and appends only a new callback to the dictionary order |
| Status.RefreshTwice | scripts/smartthings-pi.py:171-177 | two SUBSCRIBEs from the same callback give the registry of the second alone, with no extra entry |
| Status.CallbackKey | scripts/smartthings-pi.py:169 | `[1:-1]`: for two or more characters the key is what lies between the first and the last, and otherwise empty |
| Status.CallbackKeyOfBracketed | scripts/smartthings-pi.py:169 | the key of `<url>` is `url` |
| Status.StatusServer.RenderSubscribe | scripts/smartthings-pi.py:163-185 | with a `callback` header, the registry is refreshed for that key, expiring 24 * 3600 after `now`; without it the registry is unchanged; the body is the status message of the current state and image |
| Status.StatusServer.RenderGet | scripts/smartthings-pi.py:187-207 | `/status` gets the same status message, any other path an empty body, and nothing changes |
| Status.SubscribeThenPoll | scripts/smartthings-pi.py:413-415 | from main's initial shared state, a SUBSCRIBE and then a GET of /status both answer the inactive message with the blank image |
| Monitor.ImageUrl | scripts/smartthings-pi.py:334 | the image reference is "/", the bucket and "/" followed by exactly the S3 key |
| Monitor.CheckStep | scripts/smartthings-pi.py:247-342 | a failed resize and the seeding frame change nothing but the seed; inactive becomes active exactly when a contour reaches the minimum area; active becomes inactive exactly on an empty contour list; `notify` holds exactly on a change of state, which `last_state` then shows; `last_image` moves only on becoming active, to `/<bucket>/<s3 path>`, which is also the uploaded key; an active tick writes its frame locally |
| Monitor.NotificationsAlternate | scripts/smartthings-pi.py:305-316 | over any run the announced states alternate, starting with the opposite of the initial state, and their count's parity gives the final state |
| Monitor.RunKeepsAgreement | scripts/smartthings-pi.py:305-316 | once `last_state` agrees with the scheduled state it does after every tick |
| Monitor.Deliveries | scripts/smartthings-pi.py:359-370 | the POSTs go only to subscribed URLs whose expiration is strictly later than now, each carrying the message and its length; every such URL gets one, and the POSTs go out in subscription order |
| Monitor.ExpiredNotNotified | scripts/smartthings-pi.py:361 | when every subscription has expired, no POST is made |
| Monitor.MonitorCamera.NotifyHubs | scripts/smartthings-pi.py:349-372 | the loop over the registry makes exactly the POSTs `Deliveries` describes, in dictionary order, and changes nothing |
| Monitor.MonitorCamera.CheckState | scripts/smartthings-pi.py:247-343 | the contour loop and the updates of `last_state`/`last_image` give exactly `CheckStep`'s new state, file and upload; hubs are notified with the new status only when the state changed; the agreement of `last_state` with the scheduled state is kept |
| Recording.Step | pizero.py:108-182 | the first frame only seeds the background, and the background stays seeded from then on. A clip opens exactly on a large contour while not occupied, releasing any old writer first, named from the frame's stamp, and the room is then occupied. Inside the window nothing but a write happens, so there is no second clip and the file is unchanged. The room becomes unoccupied only on an empty contour list outside the window, and always then. Outside the window, a frame that opens no clip leaves no window behind. A frame is written exactly when occupied after the contour loop. The loop invariant is preserved. |
| Recording.StepDiscipline | pizero.py:153-176 | replaying one frame's writer calls from the old writer ends in the new one, so no frame misuses a writer |
| Recording.ReplayAppend | pizero.py:158-162 | replaying two call sequences one after the other is replaying their concatenation |
| Recording.RunDiscipline | pizero.py:107-182 | over any run the loop invariant holds and the writer discipline is never broken |
| Recording.AllClipsReleased | pizero.py:199-201 | from the start of main, every clip opened is released by the end, and no call misuses a writer |
| Recording.WindowHoldsClip | pizero.py:168-182 | while every frame falls inside the window, the state stays exactly as it was (same clip, same start) and every frame is written to the clip |
| Recording.MotionKeepsClip | pizero.py:178-179 | once occupied, frames that all have some contour keep the same clip open, without bound, and every frame is written |
| Recording.DemoWithLag | pizero.py:153-182 | no motion, motion twice, no motion twice with a window of 2000: the clip opens at index 1, is held through index 3, the room becomes unoccupied at index 4, and the writer stays open |
| Recording.DemoWithoutLag | pizero.py:168-172 | with `video_start` equal to the frame stamp, the same frames make the room unoccupied at index 3 |
| Recording.Recorder.ProcessFrame | pizero.py:108-182 | one loop body gives exactly `Step`'s new variables and writer calls, never writes without a writer, and keeps the invariant |
| Recording.Recorder.StartClip | pizero.py:153-162 | the room becomes occupied, the clock is kept as the start, and any old writer is released before a writer is opened on the frame's file |
| Recording.Recorder.ScanContours | pizero.py:143-162 | the contour loop leaves the variables and writer calls `Scan` describes: the first contour of at least the minimum area in an unoccupied room marks it occupied, keeps the clock as the start, releases any old writer and opens one on the frame's file name, and later contours change nothing |
| Recording.DemoSeeds | pizero.py:120-126 | with any lag, the first demo frame seeds the background, sets the text to "Unoccupied" and leaves no start time, no window and no writer, with no writer call |
| Recording.DemoOpens | pizero.py:108-162 | with any lag under a second, the first demo frame only seeds the background and the second opens and writes `/clips/t1.avi` |
| Recording.Recorder.Finish | pizero.py:199-201 | after the loop the writer, if any, is released and no writer is left open |
| Recording.Recorder.RecordFrames | pizero.py:107-201 | main's loop over the frames makes exactly `Run`'s writer calls, then releases the writer, leaving none open |

## Left out

- UTF-8 decoding and encoding are not modelled.
  - Text is modelled already decoded.
  - A datagram that is not valid UTF-8 raises `UnicodeDecodeError`, which is a `ValueError` and so is silently dropped like one without a separator. The model does not capture this.
  - Neither is the `decode()` of the callback header.
- `Strings.Lower` uses ASCII case mapping only, because Python's full Unicode `lower()` is beyond a string model.
- The OpenCV vision is given as input, because it is floating-point image maths in a foreign library. This covers resize, grayscale, blur, running average, threshold, dilate, `findContours`, `contourArea` and drawing. Each tick supplies contour areas, as reals.
- Status.StatusServer.RenderGet: returns the empty text for any path but `/status`, where the source returns the `str` `""` rather than bytes; how Twisted treats a non-bytes return is not modelled.
- `determine_ip_for_host` is a parameter `localIp` of `DatagramReceived`, because it is a socket operation.
- Twisted scheduling and networking are not modelled, because they are I/O; a POST is an emitted `Post` value. This covers:
  - `callLater`, multicast join and leave, `listenTCP`, `Agent`, `StringProducer`;
  - the asynchronous callback/errback wiring.
- The S3 upload is not performed; the model records only the upload key. A failed upload raising `BotoCoreError` or `ClientError` is caught and changes nothing else, and the model assumes that the upload raises nothing else.
- The unbound `S3` name is not modelled. If creating the S3 session fails (scripts/smartthings-pi.py:59-63), the upload at scripts/smartthings-pi.py:329 raises an uncaught `NameError`. `check_state` then ends with `last_state` already "active" but without a new `last_image`, a notification or a rescheduled check.
- `imwrite`, `VideoWriter` and `imshow` are reduced to the file names and the ghost log of writer calls. Also left out are the `q` key, `KeyboardInterrupt` and `destroyAllWindows`.
- Time and strftime are abstracted, because clocks are I/O:
  - `time()` and `datetime.now()` are integer parameters;
  - `total_seconds()` is an integer difference;
  - strftime is an opaque text per tick, including localised names.
- Monitor.MonitorCamera.NotifyHubs: reads the clock once per pass, while the source calls `time()` once per subscription. The model cannot tell that difference.
- pizero.py's `main` stops with an uncaught exception when a frame cannot be resized or processed, and leaves any open writer unreleased. The model has no such crash, so it cannot show this.
- These are left out because they are configuration and bootstrap, not control logic:
  - argument parsing and JSON configuration;
  - logging setup and `main` wiring, beyond the initial shared state;
  - `get_fps` and the camera setup.
- scripts/cleanup.py is not part of this model.
